# t9 keypad engine — a Dafny model

This project models the text-prediction core of the `t9` phone-keypad
application:

- the nine key classes (`Character`), their per-language character tables
  (`chars`, `all_chars`) and the two classifiers: `from_char` for literal
  dictionary characters, and `Character::try_from` / `Input::try_from` for
  raw keypad symbols;
- multi-tap decoding (`multitap_decode`): a key pressed n times in a row
  selects the n-th character of its table, cycling round;
- the dictionary trie (`WordMap`, `WordMap::new`, `get_next`,
  `get_next_mut`). Each node below the root stores the words whose key
  classes start with its path; the root stores nothing;
- the two suggestion functions shown above the keypad. `multitap` decodes
  the presses and autocompletes against the word list. `t9` walks the trie
  and falls back to the multi-tap decoding with two emoticons;
- the message loop of the application, as a `Session` object. It holds
  the buffer of presses, the language and the input mode. It handles
  language and mode switches and keypad input, including backspace, which
  removes the whole trailing run of one key.

Modules:

- `Wrappers`: `Option` and `Result`.
- `Seqs`: small sequence facts.
- `Keypad`: key classes, tables, classifiers.
- `Decoder`: maximal runs and multi-tap decoding.
- `Trie`: the trie as an arena, and the build.
- `Engine`: `init`, `multitap`, `t9`.
- `App`: the message handler.
- `Scenarios`: worked examples.

The boxed `WordMap` tree is an index arena: a `seq<WordMap>` with the
root at index 0, where a child slot holds the index of the child. `Build`
keeps the loop structure of `WordMap::new`: an outer loop over words and an inner
loop that moves a cursor down, creating missing children and appending the
word to each node it reaches. It is proved against `Matching(words, p)`,
the words passing through path `p` in list order.

`MultitapDecode` keeps the single loop of `multitap_decode` with a (current key, count)
pair. It is proved equal to `Decode`, which splits the presses into maximal
runs (`Runs`) and emits one character per run.

The presses Tuv, Tuv, Ghi, Ghi, Ghi, Def read "uid" (`Scenarios.DecodeUid`):
two Tuv presses select 'u' and three Ghi presses select 'i'. "the" is Tuv,
Ghi Ghi, Def Def (`Scenarios.DecodeThe`).

## Model

| member | source | states |
|---|---|---|
| Keypad.Ordinal | src/lib.rs:116-126 | each key's discriminant lies between 1 and 9 |
| Keypad.KeyOf | src/lib.rs:116-126 | the key's digit is '1'..'9' and its numeric value is the key's discriminant |
| Keypad.Chars | src/lib.rs:129-154 | every language's table for a key has at least four characters and includes the key's own digit |
| Keypad.AllChars | src/lib.rs:156-168 | every union table has at least four characters and includes the key's own digit |
| Keypad.FromChar | src/lib.rs:170-183 | the literal classifier, arm for arm: each digit '1'..'9' is classified as the key with that digit, and '0' as Wxyz |
| Keypad.AllCharsExact | src/lib.rs:156-183 | a character is on the union table of `k` exactly when `from_char` classifies it as `k` |
| Keypad.TableRoundTrip | src/lib.rs:129-183 | every character of every language's table, and of every union table, classifies back to its own key |
| Keypad.Unmapped | src/lib.rs:170-183 | a character that `from_char` rejects is on no table of any key or language |
| Keypad.OutsideTablesUnmapped | src/lib.rs:170-183 | a character on no union table is rejected by `from_char` |
| Keypad.CharacterFromKey | src/lib.rs:186-204 | reading a symbol as a key succeeds exactly on '1'..'9', giving the key with that digit; '*', '0' and '#' give NotWord; anything else gives NotT9; both errors carry the symbol |
| Keypad.KeyRoundTrip | src/lib.rs:186-204 | every key is read back from its digit, and a digit names exactly one key |
| Keypad.InputFromKey | src/lib.rs:100-112 | reading a symbol as input succeeds exactly on '0'..'9', '*' and '#'; '*' is Next, '0' Space and '#' Backspace; a word input carries the key of its digit; failures are NotT9 of the symbol |
| Keypad.InputRoundTrip | src/lib.rs:100-112 | every input has exactly one keypad symbol, and reading that symbol gives the input back |
| Decoder.Runs | src/lib.rs:238-250 | there are no more runs than presses, and the last run is of the last press's key |
| Decoder.RunsSplit | src/lib.rs:238-250 | the runs found spell out the presses again |
| Decoder.RunsMaximal | src/lib.rs:238-250 | the runs found are maximal: each has a press and neighbouring runs have different keys |
| Decoder.RunsOfExpand | src/lib.rs:238-250 | maximal runs are unique: any maximal decomposition is the one found |
| Decoder.RunsAppendRun | src/lib.rs:238-250 | appending n presses of a key other than the last adds exactly one run of n presses |
| Decoder.DecodeByRuns | src/lib.rs:234-258 | the decoded text has one character per maximal run, in order, and is non-empty for non-empty input |
| Decoder.DecodeRepeat | src/lib.rs:238-256 | n presses of one key decode to character (n-1) mod the table length |
| Decoder.DecodeAppendRun | src/lib.rs:238-256 | appending a run of a new key appends exactly that run's character |
| Decoder.AbcCycle | src/lib.rs:133 | in English, Abc pressed 1 to 5 times gives "a", "b", "c", "2", "a" |
| Decoder.ScanRuns | src/lib.rs:238-250 | after any presses, the loop's (current, count) pair is the last maximal run and its text is the decoding of the earlier runs |
| Decoder.ScanDecodes | src/lib.rs:252-257 | flushing the loop state after the last press gives the multi-tap text |
| Decoder.MultitapDecode | src/lib.rs:234-258 | the loop returns the multi-tap text: one character per maximal run |
| Trie.GetNext | src/lib.rs:58-70 | the child slot of each key, one field per key; a new node has no child |
| Trie.SetNext | src/lib.rs:72-84 | writing through a key's slot changes that slot only and keeps the node's words |
| Trie.Classify | src/lib.rs:37-41 | a word has key classes exactly when each of its characters has a class; the classes are its characters' classes, one per character |
| Trie.MatchingMember | src/lib.rs:35-52 | a node holds a word exactly when the word is in the list and its key classes start with the node's path |
| Trie.MatchingOrder | src/lib.rs:35-52 | the words in a node keep list order: a passing word stands after exactly the passing words before it |
| Trie.Walk | src/lib.rs:304-310 | the t9 walk: from the root, follow the `get_next` slot of each key in turn, failing once a slot is empty; a node it ends at lies in the arena |
| Trie.Grow | src/lib.rs:44-48 | creating a child adds one empty node, points the slot at it, and changes no other slot and no word list |
| Trie.Insert | src/lib.rs:36-52 | inserting a word with key classes keeps the arena a tree and fills every node with the passing words of the list extended by that word |
| Trie.Build | src/lib.rs:32-56 | the trie indexes the list: the root is empty; a non-root path exists exactly when some word passes through it; its node holds exactly those words in list order |
| Trie.UnmappedNowhere | src/lib.rs:37-41 | a word with a character that has no key is in no node |
| Trie.IndexedOnPath | src/lib.rs:43-52 | a keyed word of the list is in every non-root node along its key-class path |
| Engine.Init | src/lib.rs:11-14 | both tries index their own word lists |
| Engine.CompletionsMember | src/lib.rs:273-278 | a word is a completion exactly when it is in the list, starts with the decoded text and differs from it |
| Engine.CompletionsOrder | src/lib.rs:273-283 | completions keep list order: a completing word stands after exactly the completing words before it |
| Engine.MultitapSlots | src/lib.rs:262-286 | for non-empty input, slot one is the decoded text, which is non-empty; slots two and three are completing words, empty exactly when there are fewer than one or two |
| Engine.MultitapRanking | src/lib.rs:273-285 | the first completing word of the list is slot two and the second is slot three |
| Engine.Multitap | src/lib.rs:262-286 | empty input gives ("", ":-)", ":-("); otherwise the decoded text and its first two completions |
| Engine.SmileUnindexed | src/lib.rs:324-329 | ":-)" has a character with no key, so no indexed word can be it |
| Engine.T9Slots | src/lib.rs:312-323 | when a word passes, the slots are the first three passing words of the list, in list order; slots two and three are "" exactly when fewer than two or three words pass |
| Engine.T9Fallback | src/lib.rs:318-330 | slot two is ":-)" exactly when no word of the list passes through the input, and then the answer is the multi-tap text with ":-)" and ":-(" |
| Engine.T9FindsIndexed | src/lib.rs:290-331 | typing a listed keyed word's key classes gives no fallback, led by a word on that path |
| Engine.WalkStuck | src/lib.rs:304-310 | once a key has no child the walk fails for the whole input, so breaking out early is sound |
| Engine.T9 | src/lib.rs:290-331 | empty input gives ("", ":-)", ":-("); otherwise the first three words of the node the walk reaches, or the multi-tap fallback when there are none |
| App.TrimRunPrefix | src/main.rs:178-180 | the pop loop leaves a prefix, removes only presses of the popped key, and stops at a different key or an empty buffer |
| App.BackspaceRemovesRun | src/main.rs:176-181 | backspace on a non-empty buffer leaves a proper prefix; only the last key's presses are removed, and the prefix is empty or ends in another key |
| App.BackspaceSplit | src/main.rs:176-181 | the buffer is what backspace leaves, followed by one run of the removed key |
| App.BackspaceDropsRun | src/main.rs:176-181 | backspace drops exactly the last maximal run, and the multi-tap text loses exactly its last character |
| App.BackspaceExample | src/main.rs:176-181 | backspace turns [Abc, Abc, Abc, Def] into [Abc, Abc, Abc], and that into [] |
| App.Session.constructor | src/main.rs:163-165 | a new session has an empty buffer, English and multi-tap |
| App.Session.Handle | src/main.rs:172-197 | Lang and Mode change only the language or the mode. Word appends its key, Next changes nothing, Space clears the buffer and Backspace drops the trailing run; these leave the language and mode alone. The result is multitap or t9 of the new buffer, by the new mode |
| Scenarios.T9Scenario | src/lib.rs:290-331 | on a five-word list, t9 of Tuv Ghi Def gives the, there, then; "good" does not pass and "café" has an unkeyed character |
| Scenarios.MultitapScenario | src/lib.rs:262-286 | multi-tap of Tuv Ghi Ghi Def Def on that list gives the, there, then |
| Scenarios.DecodeThe | src/lib.rs:234-258 | Tuv, Ghi Ghi, Def Def decodes to "the" |
| Scenarios.DecodeUid | src/lib.rs:234-258 | Tuv Tuv, Ghi Ghi Ghi, Def decodes to "uid" |

## Left out

- `OnceLock` and `init`'s thread: `Engine.Init` builds both tries
  sequentially. A session's `Handle` requires that both are built, because
  the message thread joins the init thread before its first update.
- The `expect("dictionary not initialized")` panic in `t9` becomes a
  precondition of `Engine.T9`: a non-empty input needs a trie that indexes
  its word list.
- `include_str!` and `lines()`: the word lists are parameters, one string
  per line.
- `tracing` instrumentation, and `Cow` borrowing versus owning: the model
  uses plain strings.
- The window, the webview, IPC parsing of key symbols into messages,
  `page.js` and the event loop are not part of this model. `Handle` returns
  the suggestions instead of sending them to the page.
- Box ownership of the trie: nodes are indices into one sequence. Aliasing
  and deallocation do not arise.
- `usize` overflow of the press counter and of `Vec` lengths: integers are
  unbounded. The counter would need more than 2^64 presses to overflow.
- Strings are sequences of Unicode scalar values (`char`), so `starts_with`
  is sequence prefix. Byte-level UTF-8 is not modelled.
