/**
 * Worked examples on a five-word English list: t9 and multitap agree on
 * the/there/then, an unkeyed word is skipped, and two press sequences
 * decode as the decoder defines.
 */
module Scenarios {
  import opened Wrappers
  import opened Keypad
  import opened Decoder
  import opened Trie
  import opened Engine

  /** A small word list: a non-matching word and a word with an unkeyed 'é' among three matches. */
  const Sample: seq<string> := ["the", "good", "there", "café", "then"]

  lemma SampleThe()
    ensures PassesThrough("the", [Tuv, Ghi, Def])
  {
    ClassifyExact("the", [Tuv, Ghi, Def]);
  }

  lemma SampleGood()
    ensures !PassesThrough("good", [Tuv, Ghi, Def])
  {
    assert FromChar("good"[0]) == Some(Ghi);
  }

  lemma SampleThere()
    ensures PassesThrough("there", [Tuv, Ghi, Def])
  {
    ClassifyExact("there", [Tuv, Ghi, Def, Pqrs, Def]);
    assert [Tuv, Ghi, Def, Pqrs, Def][..3] == [Tuv, Ghi, Def];
  }

  lemma SampleCafe()
    ensures !PassesThrough("café", [Tuv, Ghi, Def])
  {
    assert FromChar("café"[3]) == None;
  }

  lemma SampleThen()
    ensures PassesThrough("then", [Tuv, Ghi, Def])
  {
    ClassifyExact("then", [Tuv, Ghi, Def, Mno]);
    assert [Tuv, Ghi, Def, Mno][..3] == [Tuv, Ghi, Def];
  }

  /** The first three words of the list: "good" is skipped. */
  lemma SampleMatchingFirst()
    ensures Matching(["the", "good", "there"], [Tuv, Ghi, Def]) == ["the", "there"]
  {
    var p := [Tuv, Ghi, Def];
    SampleThe(); SampleGood(); SampleThere();
    assert ["the", "good", "there"] == ["the", "good"] + ["there"];
    MatchingSnoc(["the", "good"], "there", p);
    assert ["the", "good"] == ["the"] + ["good"];
    MatchingSnoc(["the"], "good", p);
    assert ["the"] == [] + ["the"];
    MatchingSnoc([], "the", p);
  }

  lemma T9Scenario()
    ensures T9Suggestions([Tuv, Ghi, Def], En, Sample) == Suggestions("the", "there", "then")
  {
    var p := [Tuv, Ghi, Def];
    SampleMatchingFirst(); SampleCafe(); SampleThen();
    assert Sample == ["the", "good", "there", "café"] + ["then"];
    MatchingSnoc(["the", "good", "there", "café"], "then", p);
    assert ["the", "good", "there", "café"] == ["the", "good", "there"] + ["café"];
    MatchingSnoc(["the", "good", "there"], "café", p);
  }

  lemma SampleCompletions()
    ensures Completions(Sample, "the") == ["there", "then"]
  {
    var t := "the";
    assert !Completes("café", t) by { assert "café"[1] != t[1]; }
    assert !Completes("good", t) by { assert "good"[0] != t[0]; }
    assert Sample == ["the", "good", "there", "café"] + ["then"];
    CompletionsSnoc(["the", "good", "there", "café"], "then", t);
    assert ["the", "good", "there", "café"] == ["the", "good", "there"] + ["café"];
    CompletionsSnoc(["the", "good", "there"], "café", t);
    assert ["the", "good", "there"] == ["the", "good"] + ["there"];
    CompletionsSnoc(["the", "good"], "there", t);
    assert ["the", "good"] == ["the"] + ["good"];
    CompletionsSnoc(["the"], "good", t);
    assert ["the"] == [] + ["the"];
    CompletionsSnoc([], "the", t);
  }

  lemma MultitapScenario()
    ensures MultitapSuggestions([Tuv, Ghi, Ghi, Def, Def], En, Sample) == Suggestions("the", "there", "then")
  {
    DecodeThe();
    SampleCompletions();
  }

  /** The English characters the example runs select. */
  lemma EnglishPicks()
    ensures Emit(Run(Tuv, 1), En) == 't' && Emit(Run(Ghi, 2), En) == 'h' && Emit(Run(Def, 2), En) == 'e'
    ensures Emit(Run(Tuv, 2), En) == 'u' && Emit(Run(Ghi, 3), En) == 'i' && Emit(Run(Def, 1), En) == 'd'
  {
  }

  lemma DecodeTh()
    ensures Decode(Repeat(Tuv, 1) + Repeat(Ghi, 2), En) == "th"
  {
    EnglishPicks();
    DecodeRepeat(Tuv, 1, En);
    DecodeAppendRun(Repeat(Tuv, 1), Ghi, 2, En);
  }

  lemma DecodeThe()
    ensures Decode([Tuv, Ghi, Ghi, Def, Def], En) == "the"
  {
    var s2 := Repeat(Tuv, 1) + Repeat(Ghi, 2);
    DecodeTh();
    EnglishPicks();
    DecodeAppendRun(s2, Def, 2, En);
    assert s2 + Repeat(Def, 2) == [Tuv, Ghi, Ghi, Def, Def];
  }

  lemma DecodeUi()
    ensures Decode(Repeat(Tuv, 2) + Repeat(Ghi, 3), En) == "ui"
  {
    EnglishPicks();
    DecodeRepeat(Tuv, 2, En);
    DecodeAppendRun(Repeat(Tuv, 2), Ghi, 3, En);
  }

  /** Tuv, Tuv, Ghi, Ghi, Ghi, Def reads as "uid". */
  lemma DecodeUid()
    ensures Decode([Tuv, Tuv, Ghi, Ghi, Ghi, Def], En) == "uid"
  {
    var s2 := Repeat(Tuv, 2) + Repeat(Ghi, 3);
    DecodeUi();
    EnglishPicks();
    DecodeAppendRun(s2, Def, 1, En);
    assert s2 + Repeat(Def, 1) == [Tuv, Tuv, Ghi, Ghi, Ghi, Def];
  }
}
