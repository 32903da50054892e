/**
 * The two suggestion functions the keypad UI shows: multitap (decode the
 * presses, then autocomplete against the raw word list) and t9 (walk the
 * key-class trie, falling back to the multitap decode). Both answer with
 * exactly three slots.
 */
module Engine {
  import opened Wrappers
  import opened Keypad
  import opened Decoder
  import opened Trie

  /** The three strings shown above the keypad. */
  datatype Suggestions = Suggestions(first: string, second: string, third: string)

  /** What both functions show for an empty buffer. */
  const Placeholder: Suggestions := Suggestions("", ":-)", ":-(")

  /** The two word lists, one line per word, and the trie built from each. */
  datatype Dictionary = Dictionary(enWords: seq<string>, plWords: seq<string>,
                                   enMap: seq<WordMap>, plMap: seq<WordMap>)
  {
    function Words(lang: Language): seq<string>
    {
      match lang
      case En => enWords
      case Pl => plWords
    }

    function Map(lang: Language): seq<WordMap>
    {
      match lang
      case En => enMap
      case Pl => plMap
    }

    /** Both tries index their own word list. */
    ghost predicate Built()
    {
      Indexes(enMap, enWords) && Indexes(plMap, plWords)
    }
  }

  /** init: build the English and then the Polish trie from their word lists. */
  method Init(enWords: seq<string>, plWords: seq<string>) returns (dict: Dictionary)
    ensures dict.enWords == enWords && dict.plWords == plWords
    ensures dict.Built()
  {
    var en := Build(enWords);
    var pl := Build(plWords);
    dict := Dictionary(enWords, plWords, en, pl);
  }

  /** Element `i` of a word list, or the empty string past its end. */
  function Nth(s: seq<string>, i: nat): string
  {
    if i < |s| then s[i] else ""
  }

  // ---------------------------------------------------------------------
  // multitap

  /** `w` autocompletes `t`: it starts with `t` and is not `t` itself. */
  predicate Completes(w: string, t: string)
  {
    t <= w && w != t
  }

  /** The words of the list that complete `t`, in list order. */
  function Completions(words: seq<string>, t: string): seq<string>
  {
    if words == [] then []
    else
      Completions(words[..|words| - 1], t) +
      (if Completes(words[|words| - 1], t) then [words[|words| - 1]] else [])
  }

  lemma CompletionsSnoc(words: seq<string>, w: string, t: string)
    ensures Completions(words + [w], t) == Completions(words, t) + (if Completes(w, t) then [w] else [])
  {
    assert (words + [w])[..|words|] == words;
  }

  lemma {:induction false} CompletionsMember(words: seq<string>, t: string, w: string)
    ensures w in Completions(words, t) <==> w in words && Completes(w, t)
  {
    if words != [] {
      var init := words[..|words| - 1];
      CompletionsMember(init, t, w);
      assert words == init + [words[|words| - 1]];
    }
  }

  /** A completing word stands at the position given by the number of completing words before it. */
  lemma {:induction false} CompletionsOrder(words: seq<string>, t: string, j: nat)
    requires j < |words| && Completes(words[j], t)
    ensures |Completions(words[..j], t)| < |Completions(words, t)|
    ensures Completions(words, t)[|Completions(words[..j], t)|] == words[j]
  {
    var init := words[..|words| - 1];
    if j < |words| - 1 {
      assert init[..j] == words[..j];
      CompletionsOrder(init, t, j);
    } else {
      assert init == words[..j];
    }
  }

  /** multitap, as a function of the buffer, the language and its word list. */
  function MultitapSuggestions(input: seq<Character>, lang: Language, words: seq<string>): Suggestions
  {
    if input == [] then Placeholder
    else
      var text := Decode(input, lang);
      var found := Completions(words, text);
      Suggestions(text, Nth(found, 0), Nth(found, 1))
  }

  /**
   * Non-empty input: slot one is the decoded text; slots two and three are
   * words of the list that complete it, empty exactly when there are fewer
   * than one or two such words.
   */
  lemma MultitapSlots(input: seq<Character>, lang: Language, words: seq<string>)
    requires input != []
    ensures var r := MultitapSuggestions(input, lang, words);
            r.first == Decode(input, lang) && r.first != "" &&
            (r.second == "" <==> |Completions(words, r.first)| < 1) &&
            (r.third == "" <==> |Completions(words, r.first)| < 2) &&
            (r.second != "" ==> r.second in words && Completes(r.second, r.first)) &&
            (r.third != "" ==> r.third in words && Completes(r.third, r.first))
  {
    var r := MultitapSuggestions(input, lang, words);
    DecodeByRuns(input, lang);
    var found := Completions(words, r.first);
    if |found| >= 1 {
      CompletionsMember(words, r.first, found[0]);
    }
    if |found| >= 2 {
      CompletionsMember(words, r.first, found[1]);
    }
  }

  /**
   * ... and they are the first two completing words in list order: a
   * completing word with no (one) completing word before it is slot two (three).
   */
  lemma MultitapRanking(input: seq<Character>, lang: Language, words: seq<string>, j: nat)
    requires input != [] && j < |words| && Completes(words[j], Decode(input, lang))
    ensures var r := MultitapSuggestions(input, lang, words);
            var before := |Completions(words[..j], r.first)|;
            (before == 0 ==> r.second == words[j]) &&
            (before == 1 ==> r.third == words[j])
  {
    CompletionsOrder(words, Decode(input, lang), j);
  }

  /** multitap: decode the presses, then take the first two completions from the word list. */
  method Multitap(input: seq<Character>, lang: Language, words: seq<string>) returns (r: Suggestions)
    ensures r == MultitapSuggestions(input, lang, words)
  {
    if input == [] {
      return Placeholder;
    }
    var text := MultitapDecode(input, lang);
    var found := Completions(words, text);
    r := Suggestions(text, Nth(found, 0), Nth(found, 1));
  }

  // ---------------------------------------------------------------------
  // t9

  /** t9, as a function of the buffer, the language and the word list its trie indexes. */
  function T9Suggestions(input: seq<Character>, lang: Language, words: seq<string>): Suggestions
  {
    if input == [] then Placeholder
    else
      var found := Matching(words, input);
      if found != [] then Suggestions(found[0], Nth(found, 1), Nth(found, 2))
      else Suggestions(Decode(input, lang), ":-)", ":-(")
  }

  /** A word passing through a non-empty path is not empty. */
  lemma PassingNonEmpty(w: string, p: seq<Character>)
    requires |p| >= 1 && PassesThrough(w, p)
    ensures w != ""
  {
  }

  /**
   * Non-empty input with some word of the list passing through its key
   * classes: the three slots are such words, padded with "" exactly when
   * fewer than three pass, in list order.
   */
  lemma T9Slots(input: seq<Character>, lang: Language, words: seq<string>, j: nat)
    requires input != [] && j < |words| && PassesThrough(words[j], input)
    ensures var r := T9Suggestions(input, lang, words);
            var found := Matching(words, input);
            var before := |Matching(words[..j], input)|;
            r.first in words && PassesThrough(r.first, input) &&
            (r.second == "" <==> |found| < 2) &&
            (r.third == "" <==> |found| < 3) &&
            (r.second != "" ==> r.second in words && PassesThrough(r.second, input)) &&
            (r.third != "" ==> r.third in words && PassesThrough(r.third, input)) &&
            (before == 0 ==> r.first == words[j]) &&
            (before == 1 ==> r.second == words[j]) &&
            (before == 2 ==> r.third == words[j])
  {
    var found := Matching(words, input);
    MatchingOrder(words, input, j);
    forall i | 0 <= i < |found| && i < 3 ensures found[i] in words && PassesThrough(found[i], input) && found[i] != "" {
      MatchingMember(words, input, found[i]);
      PassingNonEmpty(found[i], input);
    }
  }

  /** The emoticon ":-)" has a character with no key, so no word of the trie is ever it. */
  lemma SmileUnindexed(p: seq<Character>)
    ensures !PassesThrough(":-)", p)
  {
    assert FromChar(':') == None;
  }

  /**
   * Non-empty input: t9 falls back to the multitap decode with the two
   * emoticons exactly when no word of the list passes through its key classes.
   */
  lemma T9Fallback(input: seq<Character>, lang: Language, words: seq<string>)
    requires input != []
    ensures var r := T9Suggestions(input, lang, words);
            (r.second == ":-)" <==> forall w :: w in words ==> !PassesThrough(w, input)) &&
            (r.second == ":-)" ==> r == Suggestions(Decode(input, lang), ":-)", ":-("))
  {
    var found := Matching(words, input);
    if found != [] {
      MatchingMember(words, input, found[0]);
      if |found| >= 2 {
        MatchingMember(words, input, found[1]);
        SmileUnindexed(input);
      }
    } else {
      forall w | w in words ensures !PassesThrough(w, input) {
        MatchingMember(words, input, w);
      }
    }
  }

  /** Typing the key classes of a word the trie indexes gives a non-fallback answer led by a word of that path. */
  lemma T9FindsIndexed(words: seq<string>, w: string, lang: Language)
    requires w in words && Classify(w).Some? && w != ""
    ensures var r := T9Suggestions(Classify(w).value, lang, words);
            w in Matching(words, Classify(w).value) &&
            PassesThrough(r.first, Classify(w).value) && r.second != ":-)"
  {
    var cls := Classify(w).value;
    assert cls[..|cls|] == cls;
    MatchingMember(words, cls, w);
    T9Fallback(cls, lang, words);
    var found := Matching(words, cls);
    MatchingMember(words, cls, found[0]);
  }

  /** The trie walk from the root fails for good once a key has no child. */
  lemma {:induction false} WalkStuck(trie: seq<WordMap>, p: seq<Character>, i: nat)
    requires WellFormed(trie) && i <= |p| && Walk(trie, p[..i]).None?
    ensures Walk(trie, p).None?
    decreases |p| - i
  {
    if i < |p| {
      assert p[..i + 1][..i] == p[..i];
      WalkStuck(trie, p, i + 1);
    } else {
      assert p[..i] == p;
    }
  }

  /**
   * t9: walk the trie along the presses, stopping at the first missing
   * child; show the first three words of the node reached, or the multitap
   * decode with two emoticons when there is none.
   */
  method T9(input: seq<Character>, lang: Language, trie: seq<WordMap>, ghost words: seq<string>)
    returns (r: Suggestions)
    requires input != [] ==> Indexes(trie, words)
    ensures r == T9Suggestions(input, lang, words)
  {
    if input == [] {
      return Placeholder;
    }
    var node: Option<nat> := Some(0);
    for i := 0 to |input|
      invariant node == Walk(trie, input[..i])
    {
      if node.Some? {
        assert input[..i + 1][..i] == input[..i];
        node := GetNext(trie[node.value], input[i]);
      } else {
        WalkStuck(trie, input, i);
        break;
      }
    }
    assert input[..|input|] == input;
    var content := if node.Some? then trie[node.value].content else [];
    if content != [] {
      r := Suggestions(content[0], Nth(content, 1), Nth(content, 2));
    } else {
      var text := MultitapDecode(input, lang);
      r := Suggestions(text, ":-)", ":-(");
    }
  }
}
