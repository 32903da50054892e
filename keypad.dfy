/**
 * The nine key classes of a phone keypad, their per-language candidate
 * tables, and the two classifiers: one for literal characters (used to
 * index the dictionary) and one for raw keypad symbols (used for input).
 */
module Keypad {
  import opened Wrappers

  /** A word key; its ordinal is the digit printed on the key. */
  datatype Character = Punctuation | Abc | Def | Ghi | Jkl | Mno | Pqrs | Tuv | Wxyz

  datatype Language = En | Pl

  datatype InputMode = Multitap | T9

  /** One classified keypad press. */
  datatype Input = Word(key: Character) | Next | Space | Backspace

  datatype InvalidCharacter =
    | NotT9(c: char)    // not a keypad symbol at all
    | NotWord(c: char)  // a control symbol: '0', '*' or '#'

  function Ordinal(k: Character): (n: int)
    ensures 1 <= n <= 9
  {
    match k
    case Punctuation => 1
    case Abc => 2
    case Def => 3
    case Ghi => 4
    case Jkl => 5
    case Mno => 6
    case Pqrs => 7
    case Tuv => 8
    case Wxyz => 9
  }

  /** The digit printed on key `k`. */
  function KeyOf(k: Character): (c: char)
    ensures '1' <= c <= '9'
    ensures c as int - '0' as int == Ordinal(k)
  {
    ('0' as int + Ordinal(k)) as char
  }

  /**
   * The characters key `k` cycles through in language `lang`, in press order.
   * Every table is non-empty, ends with the key's digit (Wxyz: then '0'),
   * and each of its characters classifies back to `k`.
   */
  function Chars(k: Character, lang: Language): (r: seq<char>)
    ensures |r| >= 4
    ensures KeyOf(k) in r
  {
    match lang
    case En =>
      (match k
       case Punctuation => [',', '.', '!', '?', '\'', '-', '&', '1']
       case Abc => ['a', 'b', 'c', '2']
       case Def => ['d', 'e', 'f', '3']
       case Ghi => ['g', 'h', 'i', '4']
       case Jkl => ['j', 'k', 'l', '5']
       case Mno => ['m', 'n', 'o', '6']
       case Pqrs => ['p', 'q', 'r', 's', '7']
       case Tuv => ['t', 'u', 'v', '8']
       case Wxyz => ['w', 'x', 'y', 'z', '9', '0'])
    case Pl =>
      (match k
       case Punctuation => [',', '.', '!', '?', '\'', '-', '&', '1']
       case Abc => ['a', 'b', 'c', 'ą', 'ć', '2']
       case Def => ['d', 'e', 'f', 'ę', '3']
       case Ghi => ['g', 'h', 'i', '4']
       case Jkl => ['j', 'k', 'l', 'ł', '5']
       case Mno => ['m', 'n', 'o', 'ń', 'ó', '6']
       case Pqrs => ['p', 'q', 'r', 's', 'ś', '7']
       case Tuv => ['t', 'u', 'v', '8']
       case Wxyz => ['w', 'x', 'y', 'z', 'ż', 'ź', '9', '0'])
  }

  /**
   * The union of every language's table for `k`: exactly the characters
   * the literal classifier maps to `k`.
   */
  function AllChars(k: Character): (r: seq<char>)
    ensures |r| >= 4
    ensures KeyOf(k) in r
  {
    match k
    case Punctuation => [',', '.', '!', '?', '\'', '-', '&', '1']
    case Abc => ['a', 'b', 'c', 'ą', 'ć', '2']
    case Def => ['d', 'e', 'f', 'ę', '3']
    case Ghi => ['g', 'h', 'i', '4']
    case Jkl => ['j', 'k', 'l', 'ł', '5']
    case Mno => ['m', 'n', 'o', 'ń', 'ó', '6']
    case Pqrs => ['p', 'q', 'r', 's', 'ś', '7']
    case Tuv => ['t', 'u', 'v', '8']
    case Wxyz => ['w', 'x', 'y', 'z', 'ż', 'ź', '9', '0']
  }

  /** Language-independent classification of a literal character. */
  function FromChar(c: char): (r: Option<Character>)
    ensures '1' <= c <= '9' ==> r.Some? && KeyOf(r.value) == c
    ensures c == '0' ==> r == Some(Wxyz)
  {
    match c
    case ',' | '.' | '!' | '?' | '\'' | '-' | '&' | '1' => Some(Punctuation)
    case 'a' | 'b' | 'c' | 'ą' | 'ć' | '2' => Some(Abc)
    case 'd' | 'e' | 'f' | 'ę' | '3' => Some(Def)
    case 'g' | 'h' | 'i' | '4' => Some(Ghi)
    case 'j' | 'k' | 'l' | 'ł' | '5' => Some(Jkl)
    case 'm' | 'n' | 'o' | 'ń' | 'ó' | '6' => Some(Mno)
    case 'p' | 'q' | 'r' | 's' | 'ś' | '7' => Some(Pqrs)
    case 't' | 'u' | 'v' | '8' => Some(Tuv)
    case 'w' | 'x' | 'y' | 'z' | 'ż' | 'ź' | '9' | '0' => Some(Wxyz)
    case _ => None
  }

  /** The union table of `k` holds exactly the characters classified as `k`. */
  lemma AllCharsExact(k: Character, c: char)
    ensures c in AllChars(k) <==> FromChar(c) == Some(k)
  {
    if c in AllChars(k) {
      AllCharsClassified(k, c);
    }
  }

  /** Each entry of a union table classifies back to the table's key. */
  lemma AllCharsClassified(k: Character, c: char)
    requires c in AllChars(k)
    ensures FromChar(c) == Some(k)
  {
    match k {
      case Punctuation => ClassifiedPunctuation(c);
      case Abc => ClassifiedAbc(c);
      case Def => ClassifiedDef(c);
      case Ghi => ClassifiedGhi(c);
      case Jkl => ClassifiedJkl(c);
      case Mno => ClassifiedMno(c);
      case Pqrs => ClassifiedPqrs(c);
      case Tuv => ClassifiedTuv(c);
      case Wxyz => ClassifiedWxyz(c);
    }
  }

  // One lemma per key: the table spelt out, each entry classified.

  lemma ClassifiedPunctuation(c: char)
    requires c in AllChars(Punctuation)
    ensures FromChar(c) == Some(Punctuation)
  {
    assert c == ',' || c == '.' || c == '!' || c == '?' || c == '\'' || c == '-' || c == '&' || c == '1';
  }

  lemma ClassifiedAbc(c: char)
    requires c in AllChars(Abc)
    ensures FromChar(c) == Some(Abc)
  {
    assert c == 'a' || c == 'b' || c == 'c' || c == 'ą' || c == 'ć' || c == '2';
  }

  lemma ClassifiedDef(c: char)
    requires c in AllChars(Def)
    ensures FromChar(c) == Some(Def)
  {
    assert c == 'd' || c == 'e' || c == 'f' || c == 'ę' || c == '3';
  }

  lemma ClassifiedGhi(c: char)
    requires c in AllChars(Ghi)
    ensures FromChar(c) == Some(Ghi)
  {
    assert c == 'g' || c == 'h' || c == 'i' || c == '4';
  }

  lemma ClassifiedJkl(c: char)
    requires c in AllChars(Jkl)
    ensures FromChar(c) == Some(Jkl)
  {
    assert c == 'j' || c == 'k' || c == 'l' || c == 'ł' || c == '5';
  }

  lemma ClassifiedMno(c: char)
    requires c in AllChars(Mno)
    ensures FromChar(c) == Some(Mno)
  {
    assert c == 'm' || c == 'n' || c == 'o' || c == 'ń' || c == 'ó' || c == '6';
  }

  lemma ClassifiedPqrs(c: char)
    requires c in AllChars(Pqrs)
    ensures FromChar(c) == Some(Pqrs)
  {
    assert c == 'p' || c == 'q' || c == 'r' || c == 's' || c == 'ś' || c == '7';
  }

  lemma ClassifiedTuv(c: char)
    requires c in AllChars(Tuv)
    ensures FromChar(c) == Some(Tuv)
  {
    assert c == 't' || c == 'u' || c == 'v' || c == '8';
  }

  lemma ClassifiedWxyz(c: char)
    requires c in AllChars(Wxyz)
    ensures FromChar(c) == Some(Wxyz)
  {
    assert c == 'w' || c == 'x' || c == 'y' || c == 'z' || c == 'ż' || c == 'ź' || c == '9' || c == '0';
  }

  /** Round trip: every character of every table classifies back to its own key. */
  lemma TableRoundTrip(k: Character, lang: Language, c: char)
    ensures c in Chars(k, lang) ==> FromChar(c) == Some(k)
    ensures c in AllChars(k) ==> FromChar(c) == Some(k)
  {
    AllCharsExact(k, c);
    if c in Chars(k, lang) {
      if lang == En {
        EnglishWithinAll(k);
      } else {
        PolishIsAll(k);
      }
    }
  }

  lemma PolishIsAll(k: Character)
    ensures Chars(k, Pl) == AllChars(k)
  {
    match k {
      case Punctuation =>
      case Abc =>
      case Def =>
      case Ghi =>
      case Jkl =>
      case Mno =>
      case Pqrs =>
      case Tuv =>
      case Wxyz =>
    }
  }

  lemma EnglishWithinAll(k: Character)
    ensures forall c :: c in Chars(k, En) ==> c in AllChars(k)
  {
    match k {
      case Punctuation =>
      case Abc =>
      case Def =>
      case Ghi =>
      case Jkl =>
      case Mno =>
      case Pqrs =>
      case Tuv =>
      case Wxyz =>
    }
  }

  /** A character the classifier rejects is on no table of any language. */
  lemma Unmapped(c: char, k: Character, lang: Language)
    requires FromChar(c).None?
    ensures c !in Chars(k, lang) && c !in AllChars(k)
  {
    TableRoundTrip(k, lang, c);
  }

  /** A character on no union table is rejected by the classifier. */
  lemma OutsideTablesUnmapped(c: char)
    requires forall k :: c !in AllChars(k)
    ensures FromChar(c).None?
  {
    if FromChar(c).Some? {
      AllCharsExact(FromChar(c).value, c);
    }
  }

  /** A raw keypad symbol read as a word key. */
  function CharacterFromKey(c: char): (r: Result<Character, InvalidCharacter>)
    ensures r.Ok? <==> '1' <= c <= '9'
    ensures r.Ok? ==> KeyOf(r.value) == c
    ensures r == Err(NotWord(c)) <==> c == '*' || c == '0' || c == '#'
    ensures r.Err? && r.error.NotT9? ==> r.error.c == c
    ensures !('0' <= c <= '9' || c == '*' || c == '#') ==> r == Err(NotT9(c))
  {
    match c
    case '1' => Ok(Punctuation)
    case '2' => Ok(Abc)
    case '3' => Ok(Def)
    case '4' => Ok(Ghi)
    case '5' => Ok(Jkl)
    case '6' => Ok(Mno)
    case '7' => Ok(Pqrs)
    case '8' => Ok(Tuv)
    case '9' => Ok(Wxyz)
    case '*' | '0' | '#' => Err(NotWord(c))
    case _ => Err(NotT9(c))
  }

  /** Every key is read back from its own digit, and each digit names one key. */
  lemma KeyRoundTrip(k: Character, c: char)
    ensures CharacterFromKey(KeyOf(k)) == Ok(k)
    ensures CharacterFromKey(c).Ok? ==> (CharacterFromKey(c).value == k <==> KeyOf(k) == c)
  {
  }

  /** A raw keypad symbol read as an input event. */
  function InputFromKey(c: char): (r: Result<Input, InvalidCharacter>)
    ensures r.Ok? <==> ('1' <= c <= '9' || c == '*' || c == '0' || c == '#')
    ensures r == Ok(Next) <==> c == '*'
    ensures r == Ok(Space) <==> c == '0'
    ensures r == Ok(Backspace) <==> c == '#'
    ensures r.Ok? && r.value.Word? ==> KeyOf(r.value.key) == c
    ensures r.Err? ==> r.error == NotT9(c)
  {
    if '1' <= c <= '9' then Ok(Word(CharacterFromKey(c).value))
    else if c == '*' then Ok(Next)
    else if c == '0' then Ok(Space)
    else if c == '#' then Ok(Backspace)
    else Err(NotT9(c))
  }

  /** The keypad symbol that produces input `i`. */
  function KeyFor(i: Input): char
  {
    match i
    case Word(k) => KeyOf(k)
    case Next => '*'
    case Space => '0'
    case Backspace => '#'
  }

  /** Every input event has exactly one keypad symbol, and reading it gives the event back. */
  lemma InputRoundTrip(i: Input, c: char)
    ensures InputFromKey(KeyFor(i)) == Ok(i)
    ensures InputFromKey(c) == Ok(i) <==> KeyFor(i) == c
  {
  }
}
