/**
 * The application's message loop state: the buffer of key classes typed
 * so far, the language and the input mode. Each message updates that state
 * and the suggestions for the new buffer are shown.
 */
module App {
  import opened Wrappers
  import opened Keypad
  import opened Decoder
  import opened Trie
  import opened Engine

  /** What the page sends: a keypad input, or a language or mode switch. */
  datatype Message = Input(input: Input) | Lang(lang: Language) | Mode(mode: InputMode)

  /** `b` without its trailing presses of `x`. */
  function TrimRun(b: seq<Character>, x: Character): seq<Character>
    decreases |b|
  {
    if b != [] && b[|b| - 1] == x then TrimRun(b[..|b| - 1], x) else b
  }

  /** Backspace: pop the last press, then every press of the same key before it. */
  function DropTrailingRun(b: seq<Character>): seq<Character>
  {
    if b == [] then [] else TrimRun(b[..|b| - 1], b[|b| - 1])
  }

  /** Trimming leaves a prefix followed only by presses of `x`, and the prefix does not end in `x`. */
  lemma {:induction false} TrimRunPrefix(b: seq<Character>, x: Character)
    ensures var r := TrimRun(b, x);
            |r| <= |b| && r == b[..|r|] &&
            (forall i :: |r| <= i < |b| ==> b[i] == x) &&
            (r == [] || r[|r| - 1] != x)
    decreases |b|
  {
    if b != [] && b[|b| - 1] == x {
      TrimRunPrefix(b[..|b| - 1], x);
    }
  }

  /**
   * Backspace on a non-empty buffer removes its last press `x` and every
   * press of `x` just before it: what is left is a proper prefix that is
   * empty or ends in another key, and only presses of `x` were removed.
   */
  lemma BackspaceRemovesRun(b: seq<Character>)
    requires b != []
    ensures var r := DropTrailingRun(b);
            var x := b[|b| - 1];
            |r| < |b| && r == b[..|r|] &&
            (forall i :: |r| <= i < |b| ==> b[i] == x) &&
            (r == [] || r[|r| - 1] != x)
  {
    TrimRunPrefix(b[..|b| - 1], b[|b| - 1]);
  }

  /** The buffer is what Backspace leaves followed by one run of the removed key. */
  lemma BackspaceSplit(b: seq<Character>)
    requires b != []
    ensures var r := DropTrailingRun(b);
            |r| < |b| && b == r + Repeat(b[|b| - 1], |b| - |r|) &&
            (r == [] || r[|r| - 1] != b[|b| - 1])
  {
    var r := DropTrailingRun(b);
    BackspaceRemovesRun(b);
    assert b == r + Repeat(b[|b| - 1], |b| - |r|);
  }

  /**
   * Backspace removes exactly the last run: the buffer loses its last run
   * of presses, and in multitap its decoded text loses its last character.
   */
  lemma BackspaceDropsRun(b: seq<Character>, lang: Language)
    requires b != []
    ensures Runs(DropTrailingRun(b)) == Runs(b)[..|Runs(b)| - 1]
    ensures Decode(DropTrailingRun(b), lang) == Decode(b, lang)[..|Decode(b, lang)| - 1]
  {
    var r := DropTrailingRun(b);
    BackspaceSplit(b);
    RunsAppendRun(r, b[|b| - 1], |b| - |r|);
    DecodeAppendRun(r, b[|b| - 1], |b| - |r|, lang);
  }

  /** Backspace on [Abc, Abc, Abc, Def] leaves [Abc, Abc, Abc]; once more leaves []. */
  lemma BackspaceExample()
    ensures DropTrailingRun([Abc, Abc, Abc, Def]) == [Abc, Abc, Abc]
    ensures DropTrailingRun([Abc, Abc, Abc]) == []
  {
    assert [Abc, Abc, Abc, Def][..3] == [Abc, Abc, Abc];
    assert [Abc, Abc, Abc][..2] == [Abc, Abc];
    assert [Abc, Abc][..1] == [Abc];
    assert [Abc][..0] == [];
  }

  /** What the page shows for a buffer: multitap or t9, by mode. */
  function Shown(buf: seq<Character>, lang: Language, mode: InputMode, dict: Dictionary): Suggestions
  {
    match mode
    case Multitap => MultitapSuggestions(buf, lang, dict.Words(lang))
    case T9 => T9Suggestions(buf, lang, dict.Words(lang))
  }

  class Session {
    var buf: seq<Character>
    var lang: Language
    var mode: InputMode

    /** An empty buffer, English, multi-tap. */
    constructor()
      ensures buf == [] && lang == En && mode == Multitap
    {
      buf := [];
      lang := En;
      mode := Multitap;
    }

    /**
     * One message: switch language or mode, or apply a keypad input to the
     * buffer (Word appends, Next does nothing, Space clears, Backspace drops
     * the trailing run); then compute the suggestions to show.
     */
    method Handle(msg: Message, dict: Dictionary) returns (shown: Suggestions)
      requires dict.Built()
      modifies this
      ensures msg.Lang? ==> lang == msg.lang && mode == old(mode) && buf == old(buf)
      ensures msg.Mode? ==> mode == msg.mode && lang == old(lang) && buf == old(buf)
      ensures msg.Input? ==> lang == old(lang) && mode == old(mode)
      ensures msg.Input? && msg.input.Word? ==> buf == old(buf) + [msg.input.key]
      ensures msg == Input(Next) ==> buf == old(buf)
      ensures msg == Input(Space) ==> buf == []
      ensures msg == Input(Backspace) ==> buf == DropTrailingRun(old(buf))
      ensures shown == Shown(buf, lang, mode, dict)
    {
      match msg {
        case Lang(l) =>
          lang := l;
        case Mode(m) =>
          mode := m;
        case Input(input) =>
          match input {
            case Backspace =>
              var last: Option<Character> := None;
              if buf != [] {
                last := Some(buf[|buf| - 1]);
                buf := buf[..|buf| - 1];
              }
              while buf != [] && Some(buf[|buf| - 1]) == last
                invariant lang == old(lang) && mode == old(mode)
                invariant last.None? ==> buf == [] && old(buf) == []
                invariant last.Some? ==> old(buf) != [] && last.value == old(buf)[|old(buf)| - 1] &&
                                         TrimRun(buf, last.value) == DropTrailingRun(old(buf))
                decreases |buf|
              {
                buf := buf[..|buf| - 1];
              }
            case Next =>
            case Space =>
              buf := [];
            case Word(k) =>
              buf := buf + [k];
          }
      }
      match mode {
        case Multitap =>
          shown := Engine.Multitap(buf, lang, dict.Words(lang));
        case T9 =>
          shown := Engine.T9(buf, lang, dict.Map(lang), dict.Words(lang));
      }
    }
  }
}
