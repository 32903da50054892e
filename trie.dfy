/**
 * The dictionary trie. The Rust `WordMap` owns its children through
 * `Option<Box<WordMap>>`; here every node lives in one sequence (the arena), the
 * root at index 0, and a child slot holds the index of the child node.
 * WordMap::new is Build: for each word it walks a cursor down from the
 * root, creating missing children and appending the word to every node
 * on its key path below the root. What a node below the root holds is
 * specified by Matching: the words of the list whose key classes start
 * with the node's path, in list order. The root stores nothing.
 */
module Trie {
  import opened Wrappers
  import opened Keypad
  import opened Seqs

  /** One node: a child slot per key and the words that pass through it. */
  datatype WordMap = WordMap(
    punc: Option<nat>, abc: Option<nat>, def: Option<nat>,
    ghi: Option<nat>, jkl: Option<nat>, mno: Option<nat>,
    pqrs: Option<nat>, tuv: Option<nat>, wxyz: Option<nat>,
    content: seq<string>)

  /** A node with no children and no words. */
  const Empty: WordMap := WordMap(None, None, None, None, None, None, None, None, None, [])

  /** The child slot of key `k` (get_next). */
  function GetNext(m: WordMap, k: Character): (r: Option<nat>)
    ensures m == Empty ==> r.None?
  {
    match k
    case Punctuation => m.punc
    case Abc => m.abc
    case Def => m.def
    case Ghi => m.ghi
    case Jkl => m.jkl
    case Mno => m.mno
    case Pqrs => m.pqrs
    case Tuv => m.tuv
    case Wxyz => m.wxyz
  }

  /** Writing through the slot get_next_mut hands out: only that slot changes. */
  function SetNext(m: WordMap, k: Character, child: Option<nat>): (r: WordMap)
    ensures GetNext(r, k) == child
    ensures forall k' :: k' != k ==> GetNext(r, k') == GetNext(m, k')
    ensures r.content == m.content
  {
    match k
    case Punctuation => m.(punc := child)
    case Abc => m.(abc := child)
    case Def => m.(def := child)
    case Ghi => m.(ghi := child)
    case Jkl => m.(jkl := child)
    case Mno => m.(mno := child)
    case Pqrs => m.(pqrs := child)
    case Tuv => m.(tuv := child)
    case Wxyz => m.(wxyz := child)
  }

  /**
   * The key classes of a word's characters, or None when some character
   * has no key: such a word is left out of the trie altogether.
   */
  function Classify(word: string): (r: Option<seq<Character>>)
    ensures r.Some? <==> forall i :: 0 <= i < |word| ==> FromChar(word[i]).Some?
    ensures r.Some? ==> |r.value| == |word|
    ensures r.Some? ==> forall i :: 0 <= i < |word| ==> FromChar(word[i]) == Some(r.value[i])
  {
    if word == [] then Some([])
    else
      match FromChar(word[0])
      case None => None
      case Some(k) =>
        match Classify(word[1..])
        case None =>
          assert forall i :: 0 <= i < |word| - 1 ==> word[1..][i] == word[i + 1];
          None
        case Some(rest) => Some([k] + rest)
  }

  /** A word's key classes are fixed by its characters' classes one by one. */
  lemma ClassifyExact(w: string, cls: seq<Character>)
    requires |cls| == |w|
    requires forall i :: 0 <= i < |w| ==> FromChar(w[i]) == Some(cls[i])
    ensures Classify(w) == Some(cls)
  {
    assert Classify(w).value == cls;
  }

  /** A word passes through the node at path `p` when its first |p| key classes are `p`. */
  predicate PassesThrough(word: string, p: seq<Character>)
  {
    Classify(word).Some? && |p| <= |Classify(word).value| && Classify(word).value[..|p|] == p
  }

  /** The words of `words` passing through path `p`, in list order. */
  function Matching(words: seq<string>, p: seq<Character>): seq<string>
  {
    if words == [] then []
    else
      Matching(words[..|words| - 1], p) +
      (if PassesThrough(words[|words| - 1], p) then [words[|words| - 1]] else [])
  }

  lemma MatchingSnoc(words: seq<string>, w: string, p: seq<Character>)
    ensures Matching(words + [w], p) == Matching(words, p) + (if PassesThrough(w, p) then [w] else [])
  {
    assert (words + [w])[..|words|] == words;
  }

  /** A node lists exactly the words of the list that pass through its path. */
  lemma {:induction false} MatchingMember(words: seq<string>, p: seq<Character>, w: string)
    ensures w in Matching(words, p) <==> w in words && PassesThrough(w, p)
  {
    if words != [] {
      var init := words[..|words| - 1];
      MatchingMember(init, p, w);
      assert words == init + [words[|words| - 1]];
    }
  }

  /**
   * ... and in list order: a passing word stands at the position given by
   * the number of passing words before it.
   */
  lemma {:induction false} MatchingOrder(words: seq<string>, p: seq<Character>, j: nat)
    requires j < |words| && PassesThrough(words[j], p)
    ensures |Matching(words[..j], p)| < |Matching(words, p)|
    ensures Matching(words, p)[|Matching(words[..j], p)|] == words[j]
  {
    var init := words[..|words| - 1];
    if j < |words| - 1 {
      assert init[..j] == words[..j];
      MatchingOrder(init, p, j);
    } else {
      assert init == words[..j];
    }
  }

  /** Every child slot names a node of the arena. */
  ghost predicate WellFormed(trie: seq<WordMap>)
  {
    |trie| >= 1 &&
    forall i, k :: 0 <= i < |trie| && GetNext(trie[i], k).Some? ==> GetNext(trie[i], k).value < |trie|
  }

  /** The node reached from the root by following the keys of `p`, if any. */
  function Walk(trie: seq<WordMap>, p: seq<Character>): (r: Option<nat>)
    requires WellFormed(trie)
    ensures r.Some? ==> r.value < |trie|
    decreases |p|
  {
    if p == [] then Some(0)
    else
      match Walk(trie, p[..|p| - 1])
      case None => None
      case Some(i) => GetNext(trie[i], p[|p| - 1])
  }

  /**
   * The trie built from `words`: the root holds nothing, a non-root path
   * exists exactly when some word passes through it, and the node there
   * holds exactly those words, in list order.
   */
  ghost predicate Indexes(trie: seq<WordMap>, words: seq<string>)
  {
    WellFormed(trie) &&
    trie[0].content == [] &&
    (forall p :: |p| >= 1 ==> (Walk(trie, p).Some? <==> Matching(words, p) != [])) &&
    (forall p :: |p| >= 1 && Walk(trie, p).Some? ==> trie[Walk(trie, p).value].content == Matching(words, p))
  }

  /** A word with a character that has no key is in no node of the trie. */
  lemma UnmappedNowhere(trie: seq<WordMap>, words: seq<string>, w: string, p: seq<Character>)
    requires Indexes(trie, words) && Classify(w).None? && Walk(trie, p).Some?
    ensures w !in trie[Walk(trie, p).value].content
  {
    if p != [] {
      MatchingMember(words, p, w);
    }
  }

  /** A keyed word of the list is in every non-root node along its key-class path. */
  lemma IndexedOnPath(trie: seq<WordMap>, words: seq<string>, w: string, d: nat)
    requires Indexes(trie, words) && w in words && Classify(w).Some?
    requires 1 <= d <= |Classify(w).value|
    ensures Walk(trie, Classify(w).value[..d]).Some?
    ensures w in trie[Walk(trie, Classify(w).value[..d]).value].content
  {
    var p := Classify(w).value[..d];
    MatchingMember(words, p, w);
  }

  // ---------------------------------------------------------------------
  // Build and the ghost bookkeeping its proof needs: the path of every
  // node (paths) and the node its creating slot sits in (parent).

  /** The arena is a tree: slots lead one key deeper, every non-root node hangs off its parent, paths are distinct. */
  ghost predicate Shape(trie: seq<WordMap>, paths: seq<seq<Character>>, parent: seq<nat>)
  {
    |trie| >= 1 && |paths| == |trie| && |parent| == |trie| && paths[0] == [] &&
    (forall i, k :: 0 <= i < |trie| && GetNext(trie[i], k).Some? ==>
       GetNext(trie[i], k).value < |trie| && paths[GetNext(trie[i], k).value] == paths[i] + [k]) &&
    (forall i {:trigger parent[i]} :: 0 < i < |trie| ==>
       parent[i] < |trie| && paths[i] != [] &&
       paths[i] == paths[parent[i]] + [paths[i][|paths[i]| - 1]] &&
       GetNext(trie[parent[i]], paths[i][|paths[i]| - 1]) == Some(i)) &&
    (forall i, j :: 0 <= i < j < |trie| ==> paths[i] != paths[j])
  }

  /** Between words: every non-root node holds the words so far that pass through it. */
  ghost predicate Filled(trie: seq<WordMap>, paths: seq<seq<Character>>, done: seq<string>)
    requires |paths| == |trie| >= 1
  {
    trie[0].content == [] &&
    (forall i :: 0 < i < |trie| ==> trie[i].content == Matching(done, paths[i]) && trie[i].content != []) &&
    (forall p :: |p| >= 1 && Matching(done, p) != [] ==> p in paths)
  }

  /** `w` has been appended along the first `d` keys of its classes `cls`. */
  function Pending(w: string, cls: seq<Character>, d: nat, p: seq<Character>): seq<string>
    requires d <= |cls|
  {
    if 1 <= |p| <= d && cls[..|p|] == p then [w] else []
  }

  /** Inside a word: as Filled, plus `w` on the nodes of its first `d` keys. */
  ghost predicate FilledPlus(trie: seq<WordMap>, paths: seq<seq<Character>>, done: seq<string>,
                             w: string, cls: seq<Character>, d: nat)
    requires |paths| == |trie| >= 1 && d <= |cls|
  {
    trie[0].content == [] &&
    (forall i :: 0 < i < |trie| ==>
       trie[i].content == Matching(done, paths[i]) + Pending(w, cls, d, paths[i]) && trie[i].content != []) &&
    (forall p :: |p| >= 1 && Matching(done, p) != [] ==> p in paths) &&
    (forall e :: 1 <= e <= d ==> cls[..e] in paths)
  }

  /** Just before the push: the cursor `next` is at path cls[..d+1]; only it may still be empty. */
  ghost predicate Ready(trie: seq<WordMap>, paths: seq<seq<Character>>, done: seq<string>,
                        w: string, cls: seq<Character>, d: nat, next: nat)
    requires |paths| == |trie| >= 1 && d < |cls|
  {
    next < |trie| && paths[next] == cls[..d + 1] &&
    trie[0].content == [] &&
    (forall i :: 0 < i < |trie| ==>
       trie[i].content == Matching(done, paths[i]) + Pending(w, cls, d, paths[i]) &&
       (i != next ==> trie[i].content != [])) &&
    (forall p :: |p| >= 1 && Matching(done, p) != [] ==> p in paths) &&
    (forall e :: 1 <= e <= d + 1 ==> cls[..e] in paths)
  }

  lemma StartWord(trie: seq<WordMap>, paths: seq<seq<Character>>, done: seq<string>, w: string, cls: seq<Character>)
    requires |paths| == |trie| >= 1
    requires Filled(trie, paths, done)
    ensures FilledPlus(trie, paths, done, w, cls, 0)
  {
  }

  lemma SkipWord(trie: seq<WordMap>, paths: seq<seq<Character>>, done: seq<string>, w: string)
    requires |paths| == |trie| >= 1
    requires Filled(trie, paths, done) && Classify(w).None?
    ensures Filled(trie, paths, done + [w])
  {
    forall p ensures Matching(done + [w], p) == Matching(done, p) {
      MatchingSnoc(done, w, p);
    }
  }

  /** A keyed word joins exactly the lists of the non-root paths it passes through. */
  lemma MatchingPlus(done: seq<string>, w: string, cls: seq<Character>, p: seq<Character>)
    requires Classify(w) == Some(cls)
    ensures Matching(done + [w], p) == Matching(done, p) + Pending(w, cls, |cls|, p) || p == []
  {
    MatchingSnoc(done, w, p);
  }

  lemma FinishWord(trie: seq<WordMap>, paths: seq<seq<Character>>, parent: seq<nat>,
                   done: seq<string>, w: string, cls: seq<Character>)
    requires Shape(trie, paths, parent)
    requires Classify(w) == Some(cls)
    requires FilledPlus(trie, paths, done, w, cls, |cls|)
    ensures Filled(trie, paths, done + [w])
  {
    forall i | 0 < i < |trie| ensures trie[i].content == Matching(done + [w], paths[i]) {
      MatchingPlus(done, w, cls, paths[i]);
    }
    forall p | |p| >= 1 && Matching(done + [w], p) != [] ensures p in paths {
      MatchingPlus(done, w, cls, p);
      if Matching(done, p) == [] {
        assert cls[..|p|] in paths;
      }
    }
  }

  /** The next key's slot is taken: the cursor moves to that child. */
  lemma FindChild(trie: seq<WordMap>, paths: seq<seq<Character>>, parent: seq<nat>,
                  done: seq<string>, w: string, cls: seq<Character>, d: nat, cur: nat)
    requires Shape(trie, paths, parent)
    requires d < |cls| && cur < |trie| && paths[cur] == cls[..d]
    requires FilledPlus(trie, paths, done, w, cls, d)
    requires GetNext(trie[cur], cls[d]).Some?
    ensures Ready(trie, paths, done, w, cls, d, GetNext(trie[cur], cls[d]).value)
  {
    var next := GetNext(trie[cur], cls[d]).value;
    TakeSnoc(cls, d);
    assert paths[next] == cls[..d + 1];
    forall e | 1 <= e <= d + 1 ensures cls[..e] in paths {
      if e == d + 1 {
        assert paths[next] == cls[..e];
      }
    }
  }

  /** The arena after adding a child for key `k` under node `cur`. */
  function Grow(trie: seq<WordMap>, cur: nat, k: Character): (r: seq<WordMap>)
    requires cur < |trie|
    ensures |r| == |trie| + 1 && r[|trie|] == Empty
    ensures GetNext(r[cur], k) == Some(|trie|)
    ensures forall i, k' :: 0 <= i < |trie| && (i != cur || k' != k) ==> GetNext(r[i], k') == GetNext(trie[i], k')
    ensures forall i :: 0 <= i < |trie| ==> r[i].content == trie[i].content
  {
    var grown := trie + [Empty];
    grown[cur := SetNext(grown[cur], k, Some(|trie|))]
  }

  /** An empty slot leads to a path no node has yet. */
  lemma FreshPath(trie: seq<WordMap>, paths: seq<seq<Character>>, parent: seq<nat>, cur: nat, k: Character)
    requires Shape(trie, paths, parent) && cur < |trie| && GetNext(trie[cur], k).None?
    ensures forall i :: 0 <= i < |trie| ==> paths[i] != paths[cur] + [k]
  {
    forall i | 0 <= i < |trie| ensures paths[i] != paths[cur] + [k] {
      if i > 0 && paths[i] == paths[cur] + [k] {
        var last := paths[i][|paths[i]| - 1];
        SnocInjective(paths[parent[i]], last, paths[cur], k);
      }
    }
  }

  /** Adding the child keeps every slot one key deeper than its node. */
  lemma AddSlots(trie: seq<WordMap>, paths: seq<seq<Character>>, parent: seq<nat>, cur: nat, k: Character)
    requires Shape(trie, paths, parent) && cur < |trie| && GetNext(trie[cur], k).None?
    ensures var trie' := Grow(trie, cur, k);
            var paths' := paths + [paths[cur] + [k]];
            forall i, k' :: 0 <= i < |trie'| && GetNext(trie'[i], k').Some? ==>
              GetNext(trie'[i], k').value < |trie'| && paths'[GetNext(trie'[i], k').value] == paths'[i] + [k']
  {
    var n := |trie|;
    var trie' := Grow(trie, cur, k);
    var paths' := paths + [paths[cur] + [k]];
    forall i, k' | 0 <= i < |trie'| && GetNext(trie'[i], k').Some?
      ensures GetNext(trie'[i], k').value < |trie'| && paths'[GetNext(trie'[i], k').value] == paths'[i] + [k']
    {
      if i == n {
      } else if i == cur && k' == k {
      } else {
        assert GetNext(trie'[i], k') == GetNext(trie[i], k');
      }
    }
  }

  /** Adding the child keeps every non-root node hanging off its parent's slot. */
  lemma AddParents(trie: seq<WordMap>, paths: seq<seq<Character>>, parent: seq<nat>, cur: nat, k: Character)
    requires Shape(trie, paths, parent) && cur < |trie| && GetNext(trie[cur], k).None?
    ensures var trie' := Grow(trie, cur, k);
            var paths' := paths + [paths[cur] + [k]];
            var parent' := parent + [cur];
            forall i {:trigger parent'[i]} :: 0 < i < |trie'| ==>
              parent'[i] < |trie'| && paths'[i] != [] &&
              paths'[i] == paths'[parent'[i]] + [paths'[i][|paths'[i]| - 1]] &&
              GetNext(trie'[parent'[i]], paths'[i][|paths'[i]| - 1]) == Some(i)
  {
    var n := |trie|;
    var trie' := Grow(trie, cur, k);
    var paths' := paths + [paths[cur] + [k]];
    var parent' := parent + [cur];
    forall i | 0 < i < |trie'|
      ensures parent'[i] < |trie'| && paths'[i] != [] &&
              paths'[i] == paths'[parent'[i]] + [paths'[i][|paths'[i]| - 1]] &&
              GetNext(trie'[parent'[i]], paths'[i][|paths'[i]| - 1]) == Some(i)
    {
      if i < n {
        var last := paths[i][|paths[i]| - 1];
        assert GetNext(trie[parent[i]], last) == Some(i);
      }
    }
  }

  /** Adding the child keeps the tree shape, with the new node's path one key below its parent's. */
  lemma AddShape(trie: seq<WordMap>, paths: seq<seq<Character>>, parent: seq<nat>, cur: nat, k: Character)
    requires Shape(trie, paths, parent) && cur < |trie| && GetNext(trie[cur], k).None?
    ensures Shape(Grow(trie, cur, k), paths + [paths[cur] + [k]], parent + [cur])
  {
    FreshPath(trie, paths, parent, cur, k);
    AddSlots(trie, paths, parent, cur, k);
    AddParents(trie, paths, parent, cur, k);
  }

  /** The new child is empty and no earlier word passes through its path; the other nodes keep their lists. */
  lemma AddContents(trie: seq<WordMap>, paths: seq<seq<Character>>, parent: seq<nat>,
                    done: seq<string>, w: string, cls: seq<Character>, d: nat, cur: nat)
    requires Shape(trie, paths, parent)
    requires d < |cls| && cur < |trie| && paths[cur] == cls[..d]
    requires FilledPlus(trie, paths, done, w, cls, d)
    requires GetNext(trie[cur], cls[d]).None?
    ensures var trie' := Grow(trie, cur, cls[d]);
            var paths' := paths + [cls[..d + 1]];
            forall i :: 0 < i < |trie'| ==>
              trie'[i].content == Matching(done, paths'[i]) + Pending(w, cls, d, paths'[i]) &&
              (i != |trie| ==> trie'[i].content != [])
  {
    var n := |trie|;
    var q := cls[..d + 1];
    TakeSnoc(cls, d);
    FreshPath(trie, paths, parent, cur, cls[d]);
    var trie' := Grow(trie, cur, cls[d]);
    var paths' := paths + [q];
    assert Matching(done, q) == [];
    forall i | 0 < i < |trie'|
      ensures trie'[i].content == Matching(done, paths'[i]) + Pending(w, cls, d, paths'[i])
    {
      if i == n {
        assert Pending(w, cls, d, q) == [];
      }
    }
  }

  /** With the child added, every prefix of the word's classes up to d+1 keys has a node. */
  lemma AddPrefixes(paths: seq<seq<Character>>, cls: seq<Character>, d: nat)
    requires d < |cls|
    requires forall e :: 1 <= e <= d ==> cls[..e] in paths
    ensures forall e :: 1 <= e <= d + 1 ==> cls[..e] in paths + [cls[..d + 1]]
  {
    var paths' := paths + [cls[..d + 1]];
    forall e | 1 <= e <= d + 1 ensures cls[..e] in paths' {
      if e <= d {
        assert cls[..e] in paths;
      } else {
        assert paths'[|paths|] == cls[..e];
      }
    }
  }

  /** The next key's slot is empty: once the child exists the cursor can move to it and push. */
  lemma AddChild(trie: seq<WordMap>, paths: seq<seq<Character>>, parent: seq<nat>,
                 done: seq<string>, w: string, cls: seq<Character>, d: nat, cur: nat)
    requires Shape(trie, paths, parent)
    requires d < |cls| && cur < |trie| && paths[cur] == cls[..d]
    requires FilledPlus(trie, paths, done, w, cls, d)
    requires GetNext(trie[cur], cls[d]).None?
    ensures Ready(Grow(trie, cur, cls[d]), paths + [cls[..d + 1]], done, w, cls, d, |trie|)
  {
    AddContents(trie, paths, parent, done, w, cls, d, cur);
    AddPrefixes(paths, cls, d);
    var paths' := paths + [cls[..d + 1]];
    forall p | |p| >= 1 && Matching(done, p) != [] ensures p in paths' {
      assert p in paths;
    }
  }

  /** Changing a node's word list leaves the tree shape alone. */
  lemma PushShape(trie: seq<WordMap>, paths: seq<seq<Character>>, parent: seq<nat>, next: nat, words: seq<string>)
    requires Shape(trie, paths, parent) && next < |trie|
    ensures Shape(trie[next := trie[next].(content := words)], paths, parent)
  {
    var trie' := trie[next := trie[next].(content := words)];
    forall i, k | 0 <= i < |trie'| ensures GetNext(trie'[i], k) == GetNext(trie[i], k) {
    }
  }

  /** Going from `d` to `d + 1` keys pending adds `w` at the path of d+1 keys and nowhere else. */
  lemma PendingStep(w: string, cls: seq<Character>, d: nat, p: seq<Character>)
    requires d < |cls|
    ensures p == cls[..d + 1] ==> Pending(w, cls, d, p) == [] && Pending(w, cls, d + 1, p) == [w]
    ensures p != cls[..d + 1] ==> Pending(w, cls, d + 1, p) == Pending(w, cls, d, p)
  {
  }

  /** After the push, each non-root node holds the earlier words through it and `w` where d+1 keys of it match. */
  lemma PushNode(trie: seq<WordMap>, paths: seq<seq<Character>>, parent: seq<nat>,
                 done: seq<string>, w: string, cls: seq<Character>, d: nat, next: nat, i: nat)
    requires Shape(trie, paths, parent)
    requires d < |cls|
    requires Ready(trie, paths, done, w, cls, d, next)
    requires 0 < i < |trie|
    ensures (if i == next then trie[i].content + [w] else trie[i].content) ==
            Matching(done, paths[i]) + Pending(w, cls, d + 1, paths[i])
  {
    PendingStep(w, cls, d, paths[i]);
    if i == next {
      assert Matching(done, paths[i]) + [] == Matching(done, paths[i]);
    } else if i < next {
      assert paths[i] != paths[next];
    } else {
      assert paths[next] != paths[i];
    }
  }

  /** The push: the word joins the cursor's node, which now carries the first d+1 keys. */
  lemma PushWord(trie: seq<WordMap>, paths: seq<seq<Character>>, parent: seq<nat>,
                 done: seq<string>, w: string, cls: seq<Character>, d: nat, next: nat)
    requires Shape(trie, paths, parent)
    requires d < |cls|
    requires Ready(trie, paths, done, w, cls, d, next)
    ensures FilledPlus(trie[next := trie[next].(content := trie[next].content + [w])], paths, done, w, cls, d + 1)
  {
    var trie' := trie[next := trie[next].(content := trie[next].content + [w])];
    forall i | 0 < i < |trie'|
      ensures trie'[i].content == Matching(done, paths[i]) + Pending(w, cls, d + 1, paths[i])
    {
      PushNode(trie, paths, parent, done, w, cls, d, next, i);
    }
  }

  /** Following slots from the root lands on the node whose path was followed. */
  lemma {:induction false} WalkPath(trie: seq<WordMap>, paths: seq<seq<Character>>, parent: seq<nat>, p: seq<Character>)
    requires Shape(trie, paths, parent)
    ensures WellFormed(trie)
    ensures Walk(trie, p).Some? ==> paths[Walk(trie, p).value] == p
    decreases |p|
  {
    if p != [] {
      WalkPath(trie, paths, parent, p[..|p| - 1]);
      assert p == p[..|p| - 1] + [p[|p| - 1]];
    }
  }

  /** Every node is reached by walking its own path. */
  lemma {:induction false} WalkReaches(trie: seq<WordMap>, paths: seq<seq<Character>>, parent: seq<nat>, i: nat)
    requires Shape(trie, paths, parent) && i < |trie|
    ensures WellFormed(trie)
    ensures Walk(trie, paths[i]) == Some(i)
    decreases |paths[i]|
  {
    if i > 0 {
      var p := paths[i];
      WalkReaches(trie, paths, parent, parent[i]);
      assert p[..|p| - 1] == paths[parent[i]];
    }
  }

  lemma ShapeIndexes(trie: seq<WordMap>, paths: seq<seq<Character>>, parent: seq<nat>, words: seq<string>)
    requires Shape(trie, paths, parent)
    requires Filled(trie, paths, words)
    ensures Indexes(trie, words)
  {
    WalkPath(trie, paths, parent, []);
    forall p | |p| >= 1
      ensures Walk(trie, p).Some? <==> Matching(words, p) != []
      ensures Walk(trie, p).Some? ==> trie[Walk(trie, p).value].content == Matching(words, p)
    {
      WalkPath(trie, paths, parent, p);
      if Matching(words, p) != [] {
        var i :| 0 <= i < |paths| && paths[i] == p;
        WalkReaches(trie, paths, parent, i);
      }
    }
  }

  /**
   * One word of WordMap::new whose characters all have a key: walk a cursor
   * down its key classes `cls` from the root, creating a missing child
   * before moving into it, and append the word to each node entered.
   */
  method Insert(trie0: seq<WordMap>, word: string, cls: seq<Character>,
                ghost paths0: seq<seq<Character>>, ghost parent0: seq<nat>, ghost done: seq<string>)
    returns (trie: seq<WordMap>, ghost paths: seq<seq<Character>>, ghost parent: seq<nat>)
    requires Shape(trie0, paths0, parent0) && Filled(trie0, paths0, done)
    requires Classify(word) == Some(cls)
    ensures Shape(trie, paths, parent) && Filled(trie, paths, done + [word])
  {
    trie, paths, parent := trie0, paths0, parent0;
    StartWord(trie, paths, done, word, cls);
    var cur := 0;
    for d := 0 to |cls|
      invariant Shape(trie, paths, parent)
      invariant cur < |trie| && paths[cur] == cls[..d]
      invariant FilledPlus(trie, paths, done, word, cls, d)
    {
      var k := cls[d];
      var next := GetNext(trie[cur], k);
      if next.None? {
        AddChild(trie, paths, parent, done, word, cls, d, cur);
        TakeSnoc(cls, d);
        AddShape(trie, paths, parent, cur, k);
        ghost var grown := Grow(trie, cur, k);
        var child := |trie|;
        trie := trie + [Empty];
        trie := trie[cur := SetNext(trie[cur], k, Some(child))];
        assert trie == grown;
        paths := paths + [cls[..d + 1]];
        parent := parent + [cur];
        next := Some(child);
      } else {
        FindChild(trie, paths, parent, done, word, cls, d, cur);
      }
      cur := next.value;
      PushWord(trie, paths, parent, done, word, cls, d, cur);
      PushShape(trie, paths, parent, cur, trie[cur].content + [word]);
      trie := trie[cur := trie[cur].(content := trie[cur].content + [word])];
    }
    FinishWord(trie, paths, parent, done, word, cls);
  }

  /**
   * WordMap::new: every word whose characters all have a key is inserted
   * in list order; any other word is skipped.
   */
  method Build(words: seq<string>) returns (trie: seq<WordMap>)
    ensures Indexes(trie, words)
  {
    trie := [Empty];
    ghost var paths: seq<seq<Character>> := [[]];
    ghost var parent: seq<nat> := [0];
    for n := 0 to |words|
      invariant Shape(trie, paths, parent)
      invariant Filled(trie, paths, words[..n])
    {
      var word := words[n];
      var chars := Classify(word);
      TakeSnoc(words, n);
      if chars.None? {
        SkipWord(trie, paths, words[..n], word);
      } else {
        trie, paths, parent := Insert(trie, word, chars.value, paths, parent, words[..n]);
      }
    }
    assert words[..|words|] == words;
    ShapeIndexes(trie, paths, parent, words);
  }
}
