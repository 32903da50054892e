/**
 * Multi-tap decoding: a key pressed n times in a row selects the n-th
 * character of its table, cycling round when n exceeds the table length.
 * The specification splits the presses into maximal runs of one key and
 * emits one character per run; MultitapDecode is the single left-to-right
 * loop with a (current key, count) pair that the engine runs.
 */
module Decoder {
  import opened Wrappers
  import opened Keypad
  import opened Seqs

  /** A group of consecutive presses of one key. */
  datatype Run = Run(key: Character, presses: nat)

  function Repeat(k: Character, n: nat): (s: seq<Character>)
    ensures |s| == n
    ensures forall i :: 0 <= i < n ==> s[i] == k
  {
    seq(n, _ => k)
  }

  /** The key presses a sequence of runs stands for. */
  function Expand(rs: seq<Run>): seq<Character>
  {
    if rs == [] then [] else Expand(rs[..|rs| - 1]) + Repeat(rs[|rs| - 1].key, rs[|rs| - 1].presses)
  }

  /** Every run has a press, and no two neighbouring runs share a key. */
  ghost predicate Maximal(rs: seq<Run>)
  {
    (forall i :: 0 <= i < |rs| ==> rs[i].presses >= 1) &&
    (forall i :: 0 < i < |rs| ==> rs[i - 1].key != rs[i].key)
  }

  lemma ExpandSnoc(rs: seq<Run>, r: Run)
    ensures Expand(rs + [r]) == Expand(rs) + Repeat(r.key, r.presses)
  {
    assert (rs + [r])[..|rs|] == rs;
  }

  /** One more press of `c`: it lengthens the last run when that run is of `c`, else opens a run of one. */
  function Extend(rs: seq<Run>, c: Character): (r: seq<Run>)
    ensures |rs| <= |r| <= |rs| + 1
    ensures r != [] && r[|r| - 1].key == c
  {
    if rs != [] && rs[|rs| - 1].key == c then rs[..|rs| - 1] + [Run(c, rs[|rs| - 1].presses + 1)]
    else rs + [Run(c, 1)]
  }

  /** The runs of `s`, built press by press from the left. */
  function Runs(s: seq<Character>): (rs: seq<Run>)
    ensures |rs| <= |s|
    ensures s != [] ==> rs != [] && rs[|rs| - 1].key == s[|s| - 1]
    decreases |s|
  {
    if s == [] then [] else Extend(Runs(s[..|s| - 1]), s[|s| - 1])
  }

  lemma RunsSnoc(p: seq<Character>, c: Character)
    ensures Runs(p + [c]) == Extend(Runs(p), c)
  {
    assert (p + [c])[..|p|] == p;
  }

  /** The runs Runs finds are maximal: each has a press and neighbours differ in key. */
  lemma {:induction false} RunsMaximal(s: seq<Character>)
    ensures Maximal(Runs(s))
    decreases |s|
  {
    if s != [] {
      RunsMaximal(s[..|s| - 1]);
    }
  }

  /** Runs finds a decomposition of `s`: its runs spell out `s` again. */
  lemma {:induction false} RunsSplit(s: seq<Character>)
    ensures Expand(Runs(s)) == s
    decreases |s|
  {
    if s != [] {
      var p := s[..|s| - 1];
      var c := s[|s| - 1];
      assert s == p + [c];
      RunsSplit(p);
      RunsSnoc(p, c);
      ExpandExtend(Runs(p), c);
    }
  }

  /** One more press adds one to the last run or opens a new run; the presses spelt out grow by it. */
  lemma ExpandExtend(rs: seq<Run>, c: Character)
    ensures Expand(Extend(rs, c)) == Expand(rs) + [c]
  {
    if rs != [] && rs[|rs| - 1].key == c {
      var last := rs[|rs| - 1];
      var front := rs[..|rs| - 1];
      assert rs == front + [last];
      RepeatSnoc(c, last.presses);
      ExpandSnoc(front, Run(c, last.presses + 1));
      ExpandSnoc(front, last);
    } else {
      ExpandSnoc(rs, Run(c, 1));
      RepeatSnoc(c, 0);
    }
  }

  lemma RepeatSnoc(k: Character, n: nat)
    ensures Repeat(k, n + 1) == Repeat(k, n) + [k]
  {
  }

  /** A press of a key other than the last one opens a run of one. */
  lemma RunsOpen(s: seq<Character>, k: Character)
    requires s == [] || s[|s| - 1] != k
    ensures Runs(s + Repeat(k, 1)) == Runs(s) + [Run(k, 1)]
  {
    assert Repeat(k, 1) == [k];
    RunsSnoc(s, k);
  }

  /** One more press of the key of a trailing run lengthens that run. */
  lemma RunsGrow(s: seq<Character>, k: Character, n: nat)
    requires n >= 2
    requires Runs(s + Repeat(k, n - 1)) == Runs(s) + [Run(k, n - 1)]
    ensures Runs(s + Repeat(k, n)) == Runs(s) + [Run(k, n)]
  {
    RepeatSnoc(k, n - 1);
    AppendSnoc(s, Repeat(k, n - 1), k);
    RunsSnoc(s + Repeat(k, n - 1), k);
    assert (Runs(s) + [Run(k, n - 1)])[..|Runs(s)|] == Runs(s);
  }

  /** Appending a run of a key different from the last one adds exactly one run. */
  lemma {:induction false} RunsAppendRun(s: seq<Character>, k: Character, n: nat)
    requires n >= 1
    requires s == [] || s[|s| - 1] != k
    ensures Runs(s + Repeat(k, n)) == Runs(s) + [Run(k, n)]
  {
    if n == 1 {
      RunsOpen(s, k);
    } else {
      RunsAppendRun(s, k, n - 1);
      RunsGrow(s, k, n);
    }
  }

  /** Dropping the last run keeps a decomposition maximal. */
  lemma MaximalInit(rs: seq<Run>)
    requires Maximal(rs) && rs != []
    ensures Maximal(rs[..|rs| - 1])
  {
  }

  /** The presses a run sequence spells out end with a press of its last run's key. */
  lemma ExpandLast(rs: seq<Run>)
    requires rs != [] && rs[|rs| - 1].presses >= 1
    ensures Expand(rs) != [] && Expand(rs)[|Expand(rs)| - 1] == rs[|rs| - 1].key
  {
  }

  /** Maximal runs are unique: a maximal decomposition is the one Runs finds. */
  lemma {:induction false} RunsOfExpand(rs: seq<Run>)
    requires Maximal(rs)
    ensures Runs(Expand(rs)) == rs
  {
    if rs != [] {
      var init := rs[..|rs| - 1];
      var last := rs[|rs| - 1];
      MaximalInit(rs);
      RunsOfExpand(init);
      if init != [] {
        ExpandLast(init);
      }
      RunsAppendRun(Expand(init), last.key, last.presses);
      InitLast(rs);
    }
  }

  /** The character a run selects: the (n-1)-th of its key's table, cyclically. */
  function Emit(r: Run, lang: Language): char
  {
    var chars := Chars(r.key, lang);
    chars[(r.presses - 1) % |chars|]
  }

  function DecodeRuns(rs: seq<Run>, lang: Language): string
  {
    seq(|rs|, j requires 0 <= j < |rs| => Emit(rs[j], lang))
  }

  lemma DecodeRunsSnoc(rs: seq<Run>, r: Run, lang: Language)
    ensures DecodeRuns(rs + [r], lang) == DecodeRuns(rs, lang) + [Emit(r, lang)]
  {
  }

  lemma DecodeRunsOne(r: Run, lang: Language)
    ensures DecodeRuns([r], lang) == [Emit(r, lang)]
  {
  }

  /** The text of a non-empty run sequence ends with its last run's character. */
  lemma DecodeRunsLast(rs: seq<Run>, lang: Language)
    requires rs != []
    ensures DecodeRuns(rs, lang) == DecodeRuns(rs[..|rs| - 1], lang) + [Emit(rs[|rs| - 1], lang)]
  {
    InitLast(rs);
    DecodeRunsSnoc(rs[..|rs| - 1], rs[|rs| - 1], lang);
  }

  /** Multi-tap text of a press sequence: one character per maximal run. */
  function Decode(input: seq<Character>, lang: Language): string
  {
    DecodeRuns(Runs(input), lang)
  }

  /** Decoding emits one character per run, in run order. */
  lemma DecodeByRuns(input: seq<Character>, lang: Language)
    ensures |Decode(input, lang)| == |Runs(input)| <= |input|
    ensures input != [] ==> Decode(input, lang) != []
    ensures forall j :: 0 <= j < |Runs(input)| ==> Decode(input, lang)[j] == Emit(Runs(input)[j], lang)
  {
  }

  /** A run of `n` presses of key `k` alone decodes to `Chars(k)[(n-1) mod length]`. */
  lemma DecodeRepeat(k: Character, n: nat, lang: Language)
    requires n >= 1
    ensures Decode(Repeat(k, n), lang) == [Chars(k, lang)[(n - 1) % |Chars(k, lang)|]]
  {
    RunsAppendRun([], k, n);
    EmptyAppend(Repeat(k, n));
    EmptyAppend([Run(k, n)]);
    DecodeRunsOne(Run(k, n), lang);
  }

  /** Finishing a word with a new run of a different key appends exactly its character. */
  lemma DecodeAppendRun(s: seq<Character>, k: Character, n: nat, lang: Language)
    requires n >= 1
    requires s == [] || s[|s| - 1] != k
    ensures Decode(s + Repeat(k, n), lang) == Decode(s, lang) + [Emit(Run(k, n), lang)]
  {
    RunsAppendRun(s, k, n);
  }

  /** Key Abc pressed 1, 2, 3, 4 and 5 times in English gives a, b, c, 2 and a. */
  lemma AbcCycle()
    ensures Decode(Repeat(Abc, 1), En) == "a"
    ensures Decode(Repeat(Abc, 2), En) == "b"
    ensures Decode(Repeat(Abc, 3), En) == "c"
    ensures Decode(Repeat(Abc, 4), En) == "2"
    ensures Decode(Repeat(Abc, 5), En) == "a"
  {
    DecodeRepeat(Abc, 1, En);
    DecodeRepeat(Abc, 2, En);
    DecodeRepeat(Abc, 3, En);
    DecodeRepeat(Abc, 4, En);
    DecodeRepeat(Abc, 5, En);
  }

  /**
   * The decoder loop's state: the text flushed so far, the key being
   * counted (none before the first press) and how many presses of it
   * beyond the first have been seen.
   */
  datatype Tally = Tally(buf: string, current: Option<Character>, count: nat)

  /** The character a key pressed `count + 1` times selects, as the loop computes it. */
  function Pick(k: Character, count: nat, lang: Language): char
  {
    var chars := Chars(k, lang);
    chars[count % |chars|]
  }

  /** One press: the same key counts on; another key flushes the pending character and restarts the count. */
  function Press(t: Tally, c: Character, lang: Language): Tally
  {
    if t.current == Some(c) then t.(count := t.count + 1)
    else
      var buf := if t.current.Some? then t.buf + [Pick(t.current.value, t.count, lang)] else t.buf;
      Tally(buf, Some(c), 0)
  }

  /** The loop state after the presses `p`, from an empty text and no key. */
  function Scan(p: seq<Character>, lang: Language): Tally
    decreases |p|
  {
    if p == [] then Tally("", None, 0) else Press(Scan(p[..|p| - 1], lang), p[|p| - 1], lang)
  }

  /** After the last press the pending character, if any, is flushed. */
  function Close(t: Tally, lang: Language): string
  {
    if t.current.Some? then t.buf + [Pick(t.current.value, t.count, lang)] else t.buf
  }

  lemma ScanSnoc(p: seq<Character>, c: Character, lang: Language)
    ensures Scan(p + [c], lang) == Press(Scan(p, lang), c, lang)
  {
    assert (p + [c])[..|p|] == p;
  }

  /**
   * A loop state tracks the presses `p`: after the first press, the key
   * being counted and its presses form the last run of `p`, and the text
   * flushed is the decoding of the runs before it.
   */
  ghost predicate Tracks(p: seq<Character>, t: Tally, lang: Language)
  {
    if p == [] then t == Tally("", None, 0)
    else
      var rs := Runs(p);
      t.current.Some? &&
      rs[|rs| - 1] == Run(t.current.value, t.count + 1) &&
      t.buf == DecodeRuns(rs[..|rs| - 1], lang)
  }

  /** A press of the key being counted lengthens the last run and flushes nothing. */
  lemma TracksSame(q: seq<Character>, c: Character, t: Tally, lang: Language)
    requires q != [] && Tracks(q, t, lang) && t.current == Some(c)
    ensures Tracks(q + [c], Press(t, c, lang), lang)
  {
    RunsSnoc(q, c);
    var rs := Runs(q);
    var front := rs[..|rs| - 1];
    assert (front + [Run(c, t.count + 2)])[..|front|] == front;
  }

  /** A press of another key closes the last run, whose character is flushed, and opens a run of one. */
  lemma TracksNew(q: seq<Character>, c: Character, t: Tally, lang: Language)
    requires q != [] && Tracks(q, t, lang) && t.current != Some(c)
    ensures Tracks(q + [c], Press(t, c, lang), lang)
  {
    RunsSnoc(q, c);
    var rs := Runs(q);
    var front := rs[..|rs| - 1];
    assert rs == front + [rs[|rs| - 1]];
    DecodeRunsSnoc(front, rs[|rs| - 1], lang);
    assert (rs + [Run(c, 1)])[..|rs|] == rs;
  }

  /** The first press opens a run of one and flushes nothing. */
  lemma TracksFirst(c: Character, lang: Language)
    ensures Tracks([c], Press(Tally("", None, 0), c, lang), lang)
  {
    RunsSnoc([], c);
    assert [] + [c] == [c];
  }

  /** The loop state after any presses tracks them. */
  lemma {:induction false} ScanRuns(p: seq<Character>, lang: Language)
    ensures Tracks(p, Scan(p, lang), lang)
    decreases |p|
  {
    if p != [] {
      var q := p[..|p| - 1];
      var c := p[|p| - 1];
      assert p == q + [c];
      ScanRuns(q, lang);
      ScanSnoc(q, c, lang);
      if q == [] {
        TracksFirst(c, lang);
      } else if Scan(q, lang).current == Some(c) {
        TracksSame(q, c, Scan(q, lang), lang);
      } else {
        TracksNew(q, c, Scan(q, lang), lang);
      }
    }
  }

  /** Closing the loop state after all the presses gives their multi-tap text. */
  lemma ScanDecodes(p: seq<Character>, lang: Language)
    ensures Close(Scan(p, lang), lang) == Decode(p, lang)
  {
    ScanRuns(p, lang);
    if p != [] {
      DecodeRunsLast(Runs(p), lang);
    }
  }

  /**
   * The decoder loop: it counts presses of the current key and flushes the
   * selected character when the key changes and once more at the end.
   */
  method MultitapDecode(input: seq<Character>, lang: Language) returns (buf: string)
    ensures buf == Decode(input, lang)
  {
    buf := "";
    var current: Option<Character> := None;
    var count: nat := 0;
    for i := 0 to |input|
      invariant Tally(buf, current, count) == Scan(input[..i], lang)
    {
      var c := input[i];
      TakeSnoc(input, i);
      ScanSnoc(input[..i], c, lang);
      if current == Some(c) {
        count := count + 1;
      } else {
        if current.Some? {
          var chars := Chars(current.value, lang);
          buf := buf + [chars[count % |chars|]];
        }
        count := 0;
        current := Some(c);
      }
    }
    assert input[..|input|] == input;
    ScanDecodes(input, lang);
    if current.Some? {
      var chars := Chars(current.value, lang);
      buf := buf + [chars[count % |chars|]];
    }
  }
}
