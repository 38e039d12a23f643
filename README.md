# Crossword filler core, modelled in Dafny

This project models three sequential components of a Rust crossword filler
and proves properties of them.

- **The grid** (`src/crossword.rs`, module `Grid` in `grid.dfy`). It covers:
  - parsing a grid from text (`from_string`);
  - the two-pass scan that reports the slots words can occupy (`get_entries`). The first pass works row by row, the second column by column. Each pass reports every maximal run of non-block cells as an `EntryLocation`;
  - the iterator that reads the characters a slot holds (`EntryIterator::next`).
- **The word index** (`src/index.rs`, module `TrieIndex` in `trie.dfy`). It covers:
  - a trie of weighted words (`TrieNode::add`, `Index::build`);
  - pattern matching, where a blank is a wildcard (`fill_words`, `is_valid`);
  - the ranked word list (`Index::words`): the matches, shuffled, then stable-sorted by descending weight.
- **The query caches** (`src/fill/cache.rs`, module `QueryCache` in `cache.dfy`). `CachedWords` and `CachedIsValid` memoise index answers under a 64-bit hash of the pattern's characters.

`wrappers.dfy` holds the `Option` and `Result` datatypes. `text.dfy` (module `Text`) holds `IsAscii`, the one text convention the grid and the index share.

## How the model is structured

### Scanning the grid

The source scans the grid with one nested loop per pass. The loop keeps four state variables (`start_row`, `start_col`, `length`, `prefilled`) and pushes onto `result`. In the model:
- `GetEntries` keeps the two outer loops.
- The inner loop of each pass is the method `ScanRow` or `ScanColumn`. Each keeps the same four variables and the same branches: the block push, the skip of consecutive blocks, and the end-of-line push.
- The methods are proved against the specification functions `LineRuns`, `AcrossPass`, `DownPass` and `Entries`.
- Those functions are in turn characterised:
  - `EntriesAreSlots`: the slots are exactly the maximal runs.
  - `EntriesInBounds`: every slot can be read without leaving the grid.
  - `RowSlotProjection` and `DownSlotProjection`: what the iterator yields.

### The column-pass labels

The column pass labels a run that a block closes `Across` (`src/crossword.rs:103`). Only a run that reaches the bottom edge gets `Down` (`:120`). `GetEntries` reproduces this, and the repository's test of 12 entries holds for it.

`IntendedEntries` is the corrected list, with every column slot labelled `Down`. It is proved to read every slot's own run. See "Findings".

### The trie

`TrieNode` is a datatype with a `map<char, TrieNode>` of children.
- `TrieNode::add` consumes and rebuilds its node. It is the function `Add`.
- `Index::build` is a loop over the word list that reassigns the root.
- `is_valid` is a recursive function. Its early-returning loop over the children becomes an existential.
- `fill_words` is a recursive method. The source's shared `&mut partial` and `&mut result` are passed in and handed back.

The ranking step works as follows:
- The shuffle is a Fisher–Yates loop whose swap partner is an arbitrary choice.
- `sort_by_key(|t| -t.0)` is a stable insertion sort on descending weight.

### The caches

The caches are classes whose map field is updated in place. The hasher is fed one character at a time, starting from state 0. Each step is a function `(u64, char) -> u64` that the cache is built with.

## Model

| member | source | states |
|---|---|---|
| Grid.FromString | src/crossword.rs:12-23 | With `width * height` taken on unbounded integers, succeeds exactly when it equals the number of characters left after removing every `'\n'`. On success the grid holds that stripped text, is ASCII and has exactly `width * height` cells, and keeps both dimensions. Otherwise the error is "Input dimensions do not match." |
| Grid.StripNewlinesCounts | src/crossword.rs:13 | Stripping keeps every character other than `'\n'` exactly as often as it occurs. |
| Grid.StripNewlinesConcat | src/crossword.rs:13 | Stripping works piece by piece: stripping `a + b` is stripping `a`, then `b`. |
| Grid.FromStringLines | src/crossword.rs:12-23 | A grid written as `height` lines of `width` cells each parses to those rows, one after another, with `height` equal to the number of lines. |
| Grid.FromStringOneLine | src/crossword.rs:12-23 | A text without line breaks of exactly `width * height` cells parses to itself. |
| Grid.FromStringOneLineMismatch | src/crossword.rs:15-17 | A text without line breaks whose length differs from `width * height` is refused with "Input dimensions do not match." |
| Grid.FromStringExample | src/crossword.rs:216-221 | The test input "ABCDEFGHI", 3, 3 parses to a grid with the same contents. |
| Grid.FromStringShortExample | src/crossword.rs:15-17 | Eight cells for a 3 x 3 grid are refused with the dimension error. |
| Grid.LineRunsAreMaximalRuns | src/crossword.rs:36-80 | Each run the scan of a line reports is maximal: it is at least one cell long, has no block, starts at the line's start or after a block, and ends at the line's end or before a block. It is `prefilled` exactly when none of its cells is blank. The runs are in order, do not overlap, and cover every non-block cell. |
| Grid.LineRunsComplete | src/crossword.rs:36-80 | Every maximal run of a line is reported. |
| Grid.ScanRow | src/crossword.rs:36-80 | One row of the row pass reports, in order, the slot of each maximal run of that row, labelled `Across`. |
| Grid.ScanColumn | src/crossword.rs:84-128 | One column of the column pass reports, in order, the slot of each maximal run of that column. A run closed by a block is labelled `Across`; a run that reaches the bottom edge is labelled `Down`. |
| Grid.GetEntries | src/crossword.rs:25-132 | The result is the row pass over all rows, followed by the column pass over all columns. |
| Grid.EntriesAreSlots | src/crossword.rs:35-129 | A slot is in the row pass exactly when it stands for a maximal run of its row. A slot is in the column pass exactly when it stands for a maximal run of its column, labelled `Across` exactly when a block ends the run. |
| Grid.RowSlotProjection | src/crossword.rs:194-199 | Iterating over a row slot reads inside the grid and yields exactly the cells of its run. |
| Grid.DownSlotProjection | src/crossword.rs:200-203 | Iterating over a slot labelled `Down` that stands for a column run reads inside the grid and yields exactly the cells of that run. |
| Grid.BlockedColumnSlotInBounds | src/crossword.rs:99-106 | A column slot labelled `Across` is read along a row, and that read still stays inside the grid. |
| Grid.EntriesInBounds | src/crossword.rs:194-206 | Every slot `get_entries` reports can be read without an index outside `contents`. |
| Grid.EntryIterator.constructor | src/crossword.rs:177-183 | A new iterator starts at index 0, with the whole slot still to read. |
| Grid.EntryIterator.Next | src/crossword.rs:189-208 | Once `length` characters have been read, it returns `None` and changes nothing. Otherwise it returns the next character of the slot, at the index the source computes for `Across` or `Down`, and advances by one. |
| Grid.CollectEntry | src/crossword.rs:248-249 | Draining an iterator yields exactly the slot's characters, `length` of them, in order. |
| Grid.SampleParses | src/crossword.rs:226 | The tests' 5 x 5 text parses to the sample grid. |
| Grid.SampleAcrossPass | src/crossword.rs:35-81 | On the sample grid the row pass reports six slots, listed exactly. |
| Grid.SampleDownPass | src/crossword.rs:83-129 | On the sample grid the column pass reports six slots, listed exactly, including the block-closed run labelled `Across`. |
| Grid.SampleEntryCount | src/crossword.rs:225-235 | The sample grid has 12 slots, and the last one is not prefilled. |
| Grid.SampleFirstEntryReads | src/crossword.rs:238-250 | The first slot of the sample grid reads "ABCDE". |
| Grid.SampleColumnMislabelled | src/crossword.rs:99-106 | Slot 7 of the sample grid stands for the run "BG" at the top of column 1, and it is labelled `Across`. |
| Grid.SampleMislabelledSlotReads | src/crossword.rs:194-199 | That slot, read as `Across`, yields "BC" and does not read its own run. |
| Grid.IntendedDownSlots | src/crossword.rs:99-106 | With every column slot labelled `Down`, the column pass reports exactly the `Down` slots of the maximal column runs. |
| Grid.IntendedEntriesReadRuns | src/crossword.rs:189-208 | With the corrected labels, every slot's iterator yields exactly the cells of its own run. |
| Grid.SampleColumnIntended | src/crossword.rs:99-106 | With the corrected labels, slot 7 of the sample grid is `Down` and reads "BG". |
| TrieIndex.Add | src/index.rs:16-40 | Inserting keeps the node's own character. It keeps every child stored under the character it holds. |
| TrieIndex.AddLookup | src/index.rs:16-40 | After inserting a word, looking it up gives the new weight, overwriting any earlier one. Every other string looks up as before. |
| TrieIndex.LastWeightIsLast | src/index.rs:111-113 | A word is recorded exactly when it occurs in the list, with the weight of its last occurrence. |
| TrieIndex.Build | src/index.rs:103-116 | The root has no character, children are stored under their own characters, and every string looks up to the weight of its last occurrence in the word list. |
| TrieIndex.IsValidIff | src/index.rs:76-95 | `is_valid` is true exactly when some inserted word fits the pattern: same length, and equal wherever the pattern is not a blank. |
| TrieIndex.ExactPatternValid | src/index.rs:76-95 | A pattern without blanks is valid exactly when it is itself an inserted word. |
| TrieIndex.BuiltIndexValidity | src/index.rs:103-116 | After building from a word list, a pattern without blanks is valid exactly when it is one of the words. |
| TrieIndex.FillWords | src/index.rs:42-74 | `partial` comes back unchanged and `result` is only appended to. The appended matches are exactly the inserted words below the node that fit the pattern, each with its weight and each once, written after `partial` and the node's own character. |
| TrieIndex.FillChildren | src/index.rs:54-57 | The wildcard branch appends the matches below every child, in any child order, with the same guarantees. |
| TrieIndex.Shuffle | src/index.rs:134-135 | The shuffle is a permutation. |
| TrieIndex.SortByWeight | src/index.rs:136 | The sort is a permutation, ordered by non-increasing weight. |
| TrieIndex.RankedMatches | src/index.rs:134-138 | The words of any weight-ordered permutation of the matches are a valid `words` result. They are non-empty exactly when the pattern is valid. |
| TrieIndex.Words | src/index.rs:128-139 | The result holds every inserted word that fits the pattern, each once and nothing else, heavier words first. It is non-empty exactly when `is_valid` holds for the pattern. |
| QueryCache.HashPattern | src/fill/cache.rs:24-28 | The key is a function of the pattern's character sequence alone. |
| QueryCache.CachedWords.Default | src/fill/cache.rs:13-17 | A new word cache is empty. |
| QueryCache.CachedWords.Words | src/fill/cache.rs:19-33 | After the call the pattern's key is present and the result is its entry. On a hit nothing changes. On a miss the index's `words` answer is stored under the key and every other entry is unchanged. A cache whose every entry answers the pattern it came from stays so. |
| QueryCache.CachedIsValid.Default | src/fill/cache.rs:42-46 | A new validity cache is empty. |
| QueryCache.CachedIsValid.IsValid | src/fill/cache.rs:48-59 | After the call the key is present and the result is its entry. On a hit nothing changes. On a miss `is_valid` is stored and returned, and every other entry is unchanged. |
| QueryCache.RepeatedWordsQuery | src/fill/cache.rs:30-32 | Asking the word cache twice for the same pattern returns the identical list, so the shuffled order is pinned. |
| QueryCache.ValidCacheAnswersLikeIndex | src/fill/cache.rs:55-58 | While every entry answers the pattern it came from, and no other stored pattern shares the key, the cache answers as the index does. |

## Left out

- `Index::build_default` and `lines_from_file` (src/index.rs:118-126, 146-152) read a word list from a file. File I/O is not part of this model.
- `Filler::fill` in `src/fill/mod.rs` is not part of this model: its search loop has an empty body.
- The bindings in `src/lib.rs` are not part of this model. They are foreign-runtime glue with stub bodies.
- The serde derives on `TrieNode` and `Index` are library serialisation and are left out.
- The random generator behind `result.shuffle` is left out. `Shuffle` swaps each position with an arbitrary earlier position, so any permutation may result.
- The arithmetic of `FxHasher` is left out. The hash step is a parameter of each cache, fed one character at a time from state 0, and the key is the final state.
- Grid.FromString, Grid.GetEntries, TrieIndex.Add and TrieIndex.Build require ASCII text (`GetEntries` through `WellFormed`, which every grid `FromString` returns satisfies). The source indexes bytes (`as_bytes`, `len()`, `&chars[1..]`), which agree with characters only on ASCII.
- Grid.FromString: the `usize` product `width * height` at src/crossword.rs:15 is computed on unbounded integers. In the source it panics in a debug build and wraps in a release build, so for example `from_string("", 1 << 32, 1 << 32)` on a 64-bit target returns `Ok` in a release build, where `FromString` returns `Err`. Its "succeeds exactly when" holds for dimensions whose product fits in a `usize`.
- Grid.ScanRow, Grid.ScanColumn: the source keeps its four scan variables across lines, while the model starts each line afresh. The end-of-line push always resets them, so the two agree.
- Grid.EntryIterator.constructor and Grid.EntryIterator.Next require the slot's reads to lie inside the grid, where the source would panic instead. `EntriesInBounds` proves that every slot `get_entries` reports meets this.
- TrieIndex.Words does not model the overflow of `-t.0` when a weight is `i32::MIN`. Weights are compared as integers.
- TrieIndex.SortByWeight is defined as a stable sort, but stability is not stated as a proved property. Only the permutation and the order are.
- TrieIndex.FillWords: the order of the children's hash map is not modelled. The wildcard branch visits the children in an arbitrary order.
- TrieIndex.FillWords: `&mut partial` and `&mut result` are values passed in and returned, not shared references.
- QueryCache.CachedWords.Words returns the stored list by value rather than as a reference into the map.
- QueryCache.CachedWords.Words and QueryCache.CachedIsValid.IsValid keep the source's behaviour on a hash collision: two patterns with the same key share an entry. QueryCache.ValidCacheAnswersLikeIndex therefore requires that no other stored pattern has the key.
- The patterns the source passes as generic character iterators are strings here.

## Findings

| source | as written | input that shows it | evidently intended | confidence | as-written member | corrected member |
|---|---|---|---|---|---|---|
| src/crossword.rs:103 | In the column pass, a run closed by a block is pushed as `Direction::Across`. `EntryIterator` then reads it along a row. | The tests' 5 x 5 grid "ABCDEFGHIJK*MNOPQRSTUVWX ". Slot 7 is the run "BG" at the top of column 1. It is labelled `Across`, so its iterator yields "BC". | Every column run is labelled `Down` (as at :120), so its iterator yields "BG". | high; not executed | Grid.SampleColumnMislabelled, Grid.SampleMislabelledSlotReads | Grid.IntendedEntries, Grid.IntendedEntriesReadRuns, Grid.SampleColumnIntended |

`GetEntries` keeps the labels as written, because the repository's own test is stated against that output. The corrected list differs from it only in the labels of the column slots that a block closes.
