/**
 * The word index of src/index.rs: a trie of weighted words, matched against
 * patterns in which a blank is a wildcard.
 */
module TrieIndex {
  import opened Wrappers
  import opened Text

  /** Rust's `i32`. */
  newtype i32 = x: int | -0x8000_0000 <= x < 0x8000_0000

  /** A node of the trie; `contents` is the character on the edge into it, `None` at the root. */
  datatype TrieNode = TrieNode(
    contents: Option<char>,
    children: map<char, TrieNode>,
    terminal: bool,
    weight: Option<i32>)

  /** The index: the root of the trie. */
  datatype Index = Index(trieRoot: TrieNode)

  /** A pattern character that matches any character. */
  const WILDCARD: char := ' '

  const EMPTY_ROOT: TrieNode := TrieNode(None, map[], false, None)

  /** Every child is stored under the character it holds, all the way down. */
  predicate KeysMatch(node: TrieNode)
    decreases node
  {
    forall k :: k in node.children ==>
      node.children[k].contents == Some(k) && KeysMatch(node.children[k])
  }

  /**
   * The weight recorded for `s` below `node`, following the children keyed
   * by its characters: `None` when `s` was never inserted; a terminal node
   * without a weight counts as weight 0, as `fill_words` reports it.
   */
  function Lookup(node: TrieNode, s: string): Option<i32>
    decreases |s|
  {
    if s == [] then (if node.terminal then Some(node.weight.UnwrapOr(0)) else None)
    else if s[0] in node.children then Lookup(node.children[s[0]], s[1..])
    else None
  }

  /** `s` fits `pattern`: same length, same character wherever the pattern is not a wildcard. */
  predicate Fits(pattern: string, s: string) {
    |s| == |pattern| && forall i :: 0 <= i < |s| ==> pattern[i] == WILDCARD || pattern[i] == s[i]
  }

  predicate NoWildcard(pattern: string) {
    forall i :: 0 <= i < |pattern| ==> pattern[i] != WILDCARD
  }

  // ------------------------------------------------------------- insertion

  /** `TrieNode::add`: inserts `word` with `weight` below `node`, overwriting any earlier weight. */
  function Add(node: TrieNode, word: string, weight: i32): (r: TrieNode)
    requires IsAscii(word)
    ensures r.contents == node.contents
    ensures KeysMatch(node) ==> KeysMatch(r)
    decreases |word|
  {
    if word == [] then
      node.(terminal := true, weight := Some(weight))
    else
      var c := word[0];
      var child := if c in node.children then node.children[c] else TrieNode(Some(c), map[], false, None);
      node.(children := node.children[c := Add(child, word[1..], weight)])
  }

  /** After inserting `word`, looking it up gives the new weight; every other string is as before. */
  lemma {:induction false} AddLookup(node: TrieNode, word: string, weight: i32, s: string)
    requires IsAscii(word)
    ensures Lookup(Add(node, word, weight), s) == if s == word then Some(weight) else Lookup(node, s)
    decreases |word|
  {
    if word != [] && s != [] {
      var c := word[0];
      var child := if c in node.children then node.children[c] else TrieNode(Some(c), map[], false, None);
      if s[0] == c {
        AddLookup(child, word[1..], weight, s[1..]);
        assert s == word <==> s[1..] == word[1..] by {
          if s[1..] == word[1..] {
            assert s == [c] + s[1..] && word == [c] + word[1..];
          }
        }
        if c !in node.children {
          NewNodeEmpty(c, s[1..]);
        }
      }
    }
  }

  /** A fresh child holds no word. */
  lemma {:induction false} NewNodeEmpty(c: char, s: string)
    ensures Lookup(TrieNode(Some(c), map[], false, None), s) == None
  {
  }

  /** The weight the last insertion of `s` in `words` gives it, `None` if it is not inserted. */
  function LastWeight(words: seq<(string, i32)>, s: string): (r: Option<i32>)
    ensures r.Some? ==> exists j :: 0 <= j < |words| && words[j] == (s, r.value)
  {
    if words == [] then None
    else if words[|words| - 1].0 == s then Some(words[|words| - 1].1)
    else LastWeight(words[..|words| - 1], s)
  }

  /** A word is recorded exactly when it occurs in the list, with the weight of its last occurrence. */
  lemma {:induction false} LastWeightIsLast(words: seq<(string, i32)>, s: string)
    ensures LastWeight(words, s).Some? <==> exists j :: 0 <= j < |words| && words[j].0 == s
    ensures LastWeight(words, s).Some? ==>
              exists j :: 0 <= j < |words| && words[j] == (s, LastWeight(words, s).value)
                && forall j' :: j < j' < |words| ==> words[j'].0 != s
  {
    if words != [] {
      var init := words[..|words| - 1];
      LastWeightIsLast(init, s);
      if words[|words| - 1].0 == s {
        assert words[|words| - 1] == (s, LastWeight(words, s).value);
      } else {
        assert LastWeight(words, s) == LastWeight(init, s);
        if LastWeight(init, s).Some? {
          var j :| 0 <= j < |init| && init[j] == (s, LastWeight(init, s).value)
                   && forall j' :: j < j' < |init| ==> init[j'].0 != s;
          assert words[j] == init[j];
          assert forall j' :: j < j' < |words| ==> words[j'].0 != s;
        }
        if exists j :: 0 <= j < |words| && words[j].0 == s {
          var j :| 0 <= j < |words| && words[j].0 == s;
          assert init[j].0 == s;
        }
      }
    }
  }

  /** `Index::build`: inserts the words one after another into an empty trie. */
  method Build(words: seq<(string, i32)>) returns (index: Index)
    requires forall j :: 0 <= j < |words| ==> IsAscii(words[j].0)
    ensures index.trieRoot.contents == None && KeysMatch(index.trieRoot)
    ensures forall s :: Lookup(index.trieRoot, s) == LastWeight(words, s)
  {
    var trieRoot := EMPTY_ROOT;
    for i := 0 to |words|
      invariant trieRoot.contents == None && KeysMatch(trieRoot)
      invariant forall s :: Lookup(trieRoot, s) == LastWeight(words[..i], s)
    {
      var (word, weight) := words[i];
      forall s
        ensures Lookup(Add(trieRoot, word, weight), s) == LastWeight(words[..i + 1], s)
      {
        AddLookup(trieRoot, word, weight, s);
        assert words[..i + 1][..i] == words[..i];
      }
      trieRoot := Add(trieRoot, word, weight);
    }
    assert words[..|words|] == words;
    index := Index(trieRoot);
  }

  // ------------------------------------------------------------- validity

  /** `TrieNode::is_valid`: some inserted word below `node` fits `pattern`. */
  function IsValid(node: TrieNode, pattern: string): bool
    decreases |pattern|
  {
    if pattern == [] then node.terminal
    else if pattern[0] == WILDCARD then
      exists k :: k in node.children && IsValid(node.children[k], pattern[1..])
    else
      pattern[0] in node.children && IsValid(node.children[pattern[0]], pattern[1..])
  }

  /** `Index::is_valid`. */
  function IndexIsValid(index: Index, pattern: string): bool {
    IsValid(index.trieRoot, pattern)
  }

  /** Cutting the first character off a fitting pair keeps it fitting. */
  lemma FitsTail(pattern: string, s: string)
    requires Fits(pattern, s) && s != []
    ensures Fits(pattern[1..], s[1..])
    ensures pattern[0] == WILDCARD || pattern[0] == s[0]
  {
    assert forall i :: 0 <= i < |s| - 1 ==> pattern[1..][i] == pattern[i + 1] && s[1..][i] == s[i + 1];
  }

  /** Putting a character in front of a fitting pair that the pattern's first character allows keeps it fitting. */
  lemma FitsCons(pattern: string, c: char, s: string)
    requires pattern != [] && (pattern[0] == WILDCARD || pattern[0] == c) && Fits(pattern[1..], s)
    ensures Fits(pattern, [c] + s)
  {
    assert forall i :: 1 <= i < |pattern| ==> ([c] + s)[i] == s[i - 1] && pattern[i] == pattern[1..][i - 1];
  }

  /** `is_valid` is true exactly when some inserted word fits the pattern. */
  lemma {:induction false} IsValidIff(node: TrieNode, pattern: string)
    ensures IsValid(node, pattern) <==> exists s :: Fits(pattern, s) && Lookup(node, s).Some?
    decreases |pattern|
  {
    if pattern == [] {
      if node.terminal {
        assert Fits(pattern, []) && Lookup(node, []).Some?;
      }
    } else {
      if IsValid(node, pattern) {
        var k := if pattern[0] == WILDCARD then var k :| k in node.children && IsValid(node.children[k], pattern[1..]); k
                 else pattern[0];
        IsValidIff(node.children[k], pattern[1..]);
        var t :| Fits(pattern[1..], t) && Lookup(node.children[k], t).Some?;
        FitsCons(pattern, k, t);
        assert ([k] + t)[1..] == t;
        assert Fits(pattern, [k] + t) && Lookup(node, [k] + t).Some?;
      }
      if exists s :: Fits(pattern, s) && Lookup(node, s).Some? {
        var s :| Fits(pattern, s) && Lookup(node, s).Some?;
        FitsTail(pattern, s);
        IsValidIff(node.children[s[0]], pattern[1..]);
        assert Fits(pattern[1..], s[1..]) && Lookup(node.children[s[0]], s[1..]).Some?;
      }
    }
  }

  /** A pattern without wildcards is valid exactly when it is itself an inserted word. */
  lemma ExactPatternValid(node: TrieNode, pattern: string)
    requires NoWildcard(pattern)
    ensures IsValid(node, pattern) <==> Lookup(node, pattern).Some?
  {
    IsValidIff(node, pattern);
    forall s | Fits(pattern, s)
      ensures s == pattern
    {
    }
    if Lookup(node, pattern).Some? {
      assert Fits(pattern, pattern);
    }
  }

  /**
   * After `Index::build(words)`, a pattern without wildcards is valid
   * exactly when it is one of the words.
   */
  lemma BuiltIndexValidity(words: seq<(string, i32)>, index: Index, pattern: string)
    requires forall s :: Lookup(index.trieRoot, s) == LastWeight(words, s)
    requires NoWildcard(pattern)
    ensures IndexIsValid(index, pattern) <==> exists j :: 0 <= j < |words| && words[j].0 == pattern
  {
    ExactPatternValid(index.trieRoot, pattern);
    LastWeightIsLast(words, pattern);
  }

  // ------------------------------------------------------ collecting matches

  /** A reported match: a weight and a word. */
  type Match = (i32, string)

  /** The character `fill_words` pushes onto `partial` on entering `node`, if any. */
  function Own(node: TrieNode): string {
    if node.contents.Some? then [node.contents.value] else []
  }

  /** `m` reports a word below `node` that fits `pattern`, with its weight, written after `prefix`. */
  predicate IsMatch(node: TrieNode, pattern: string, prefix: string, m: Match) {
    |prefix| <= |m.1| && m.1[..|prefix|] == prefix
    && Fits(pattern, m.1[|prefix|..]) && Lookup(node, m.1[|prefix|..]) == Some(m.0)
  }

  predicate NoDuplicates<T(==)>(s: seq<T>) {
    forall i, j :: 0 <= i < j < |s| ==> s[i] != s[j]
  }

  /** Every element of `seg` is a match. */
  ghost predicate Sound(node: TrieNode, pattern: string, prefix: string, seg: seq<Match>) {
    forall j :: 0 <= j < |seg| ==> IsMatch(node, pattern, prefix, seg[j])
  }

  /** `seg` reports every fitting word whose first character is in `firsts`. */
  ghost predicate CompleteOn(node: TrieNode, pattern: string, prefix: string, seg: seq<Match>, firsts: set<char>) {
    forall s :: Fits(pattern, s) && Lookup(node, s).Some? && s != [] && s[0] in firsts ==>
      (Lookup(node, s).value, prefix + s) in seg
  }

  /** `seg` reports every fitting word. */
  ghost predicate Complete(node: TrieNode, pattern: string, prefix: string, seg: seq<Match>) {
    forall s :: Fits(pattern, s) && Lookup(node, s).Some? ==> (Lookup(node, s).value, prefix + s) in seg
  }

  /** Every word of `seg` goes on, after `prefix`, with a character of `firsts`. */
  ghost predicate FirstsIn(prefix: string, seg: seq<Match>, firsts: set<char>) {
    forall j :: 0 <= j < |seg| ==> |prefix| < |seg[j].1| && seg[j].1[|prefix|] in firsts
  }

  /** A match below child `k`, reported after `prefix + [k]`, is a match below `node` reported after `prefix`. */
  lemma ChildMatch(node: TrieNode, pattern: string, prefix: string, k: char, m: Match)
    requires k in node.children && pattern != [] && (pattern[0] == WILDCARD || pattern[0] == k)
    requires IsMatch(node.children[k], pattern[1..], prefix + [k], m)
    ensures IsMatch(node, pattern, prefix, m) && |prefix| < |m.1| && m.1[|prefix|] == k
  {
    var t := m.1[|prefix| + 1..];
    var s := m.1[|prefix|..];
    assert m.1[..|prefix| + 1] == prefix + [k];
    assert s == [k] + t;
    assert m.1[..|prefix|] == prefix;
    FitsCons(pattern, k, t);
  }

  /** A word below `node` starting with `k` is the word below child `k` without its first character. */
  lemma ChildWord(node: TrieNode, pattern: string, prefix: string, k: char, s: string)
    requires k in node.children && Fits(pattern, s) && Lookup(node, s).Some? && s != [] && s[0] == k
    ensures Fits(pattern[1..], s[1..]) && Lookup(node.children[k], s[1..]) == Lookup(node, s)
    ensures prefix + s == (prefix + [k]) + s[1..]
  {
    FitsTail(pattern, s);
    assert s == [k] + s[1..];
  }

  /** Appending the matches below child `k` to those below the children in `done`. */
  lemma AppendChild(node: TrieNode, pattern: string, prefix: string, k: char,
                    a: seq<Match>, b: seq<Match>, done: set<char>)
    requires k in node.children && k !in done && pattern != [] && (pattern[0] == WILDCARD || pattern[0] == k)
    requires Sound(node, pattern, prefix, a) && CompleteOn(node, pattern, prefix, a, done)
    requires FirstsIn(prefix, a, done) && NoDuplicates(a)
    requires Sound(node.children[k], pattern[1..], prefix + [k], b)
    requires Complete(node.children[k], pattern[1..], prefix + [k], b) && NoDuplicates(b)
    ensures Sound(node, pattern, prefix, a + b) && CompleteOn(node, pattern, prefix, a + b, done + {k})
    ensures FirstsIn(prefix, a + b, done + {k}) && NoDuplicates(a + b)
  {
    var child := node.children[k];
    forall j | 0 <= j < |b|
      ensures IsMatch(node, pattern, prefix, b[j]) && |prefix| < |b[j].1| && b[j].1[|prefix|] == k
    {
      ChildMatch(node, pattern, prefix, k, b[j]);
    }
    forall s | Fits(pattern, s) && Lookup(node, s).Some? && s != [] && s[0] in done + {k}
      ensures (Lookup(node, s).value, prefix + s) in a + b
    {
      if s[0] == k {
        ChildWord(node, pattern, prefix, k, s);
        assert (Lookup(child, s[1..]).value, (prefix + [k]) + s[1..]) in b;
      }
    }
    forall i, j | 0 <= i < j < |a + b|
      ensures (a + b)[i] != (a + b)[j]
    {
      if i < |a| && j >= |a| {
        assert (a + b)[i].1[|prefix|] in done;
      }
    }
  }

  /** A word below `node` starts with a key of its children. */
  lemma FirstIsChild(node: TrieNode, s: string)
    requires Lookup(node, s).Some? && s != []
    ensures s[0] in node.children
  {
  }

  /**
   * `TrieNode::fill_words`: appends to `result` every word below `node` that
   * fits `pattern`, with its weight, written after `partial` and the node's
   * own character; each once, in an arbitrary order (that of the children's
   * hash map). `partial` comes back as it was.
   */
  method FillWords(node: TrieNode, pattern: string, partial: string, result: seq<Match>)
    returns (partial': string, result': seq<Match>)
    requires KeysMatch(node)
    ensures partial' == partial
    ensures |result| <= |result'| && result'[..|result|] == result
    ensures Sound(node, pattern, partial + Own(node), result'[|result|..])
    ensures Complete(node, pattern, partial + Own(node), result'[|result|..])
    ensures NoDuplicates(result'[|result|..])
    decreases |pattern|, 1
  {
    partial', result' := partial, result;
    if node.contents.Some? {
      partial' := partial' + [node.contents.value];
    }
    ghost var prefix := partial';
    assert prefix == partial + Own(node);
    if pattern == [] {
      if node.terminal {
        result' := result' + [(node.weight.UnwrapOr(0), partial')];
      }
      TerminalMatches(node, prefix, result, result');
    } else if pattern[0] == WILDCARD {
      partial', result' := FillChildren(node, pattern, partial', result');
    } else if pattern[0] in node.children {
      var k := pattern[0];
      partial', result' := FillWords(node.children[k], pattern[1..], partial', result');
      LiteralMatches(node, pattern, prefix, result, result');
    } else {
      NoLiteralMatches(node, pattern, prefix);
    }
    if node.contents.Some? {
      partial' := partial'[..|partial'| - 1];
    }
  }

  /** The empty pattern: `node` itself is reported when it ends a word. */
  lemma TerminalMatches(node: TrieNode, prefix: string, result: seq<Match>, result': seq<Match>)
    requires result' == result + (if node.terminal then [(node.weight.UnwrapOr(0), prefix)] else [])
    ensures |result| <= |result'| && result'[..|result|] == result
    ensures Sound(node, [], prefix, result'[|result|..]) && Complete(node, [], prefix, result'[|result|..])
    ensures NoDuplicates(result'[|result|..])
  {
    assert result'[|result|..] == if node.terminal then [(node.weight.UnwrapOr(0), prefix)] else [];
    assert prefix[..|prefix|] == prefix && prefix[|prefix|..] == [];
    assert prefix + [] == prefix;
  }

  /** A literal first character: the matches are those below the child it keys. */
  lemma LiteralMatches(node: TrieNode, pattern: string, prefix: string, result: seq<Match>, result': seq<Match>)
    requires KeysMatch(node) && pattern != [] && pattern[0] != WILDCARD && pattern[0] in node.children
    requires |result| <= |result'| && result'[..|result|] == result
    requires var child := node.children[pattern[0]]; var seg := result'[|result|..];
      Sound(child, pattern[1..], prefix + Own(child), seg) && Complete(child, pattern[1..], prefix + Own(child), seg)
      && NoDuplicates(seg)
    ensures Sound(node, pattern, prefix, result'[|result|..]) && Complete(node, pattern, prefix, result'[|result|..])
  {
    var k := pattern[0];
    var seg := result'[|result|..];
    assert Own(node.children[k]) == [k];
    assert seg == [] + seg;
    AppendChild(node, pattern, prefix, k, [], seg, {});
    forall s | Fits(pattern, s) && Lookup(node, s).Some?
      ensures (Lookup(node, s).value, prefix + s) in seg
    {
      FitsTail(pattern, s);
    }
  }

  /** A literal first character that keys no child: nothing fits. */
  lemma NoLiteralMatches(node: TrieNode, pattern: string, prefix: string)
    requires pattern != [] && pattern[0] != WILDCARD && pattern[0] !in node.children
    ensures Complete(node, pattern, prefix, [])
  {
    forall s | Fits(pattern, s) && Lookup(node, s).Some?
      ensures false
    {
      FitsTail(pattern, s);
    }
  }

  /**
   * The wildcard branch of `fill_words`: the matches below every child, the
   * children taken in an arbitrary order.
   */
  method FillChildren(node: TrieNode, pattern: string, partial: string, result: seq<Match>)
    returns (partial': string, result': seq<Match>)
    requires KeysMatch(node) && pattern != [] && pattern[0] == WILDCARD
    ensures partial' == partial
    ensures |result| <= |result'| && result'[..|result|] == result
    ensures Sound(node, pattern, partial, result'[|result|..])
    ensures Complete(node, pattern, partial, result'[|result|..])
    ensures NoDuplicates(result'[|result|..])
    decreases |pattern|, 0
  {
    partial', result' := partial, result;
    var keys := node.children.Keys;
    ghost var done: set<char> := {};
    while keys != {}
      invariant keys + done == node.children.Keys && keys !! done
      invariant partial' == partial
      invariant |result| <= |result'| && result'[..|result|] == result
      invariant Sound(node, pattern, partial, result'[|result|..])
      invariant CompleteOn(node, pattern, partial, result'[|result|..], done)
      invariant FirstsIn(partial, result'[|result|..], done)
      invariant NoDuplicates(result'[|result|..])
      decreases keys
    {
      var k :| k in keys;
      var before := result';
      partial', result' := FillWords(node.children[k], pattern[1..], partial', result');
      assert Own(node.children[k]) == [k];
      assert result'[|result|..] == before[|result|..] + result'[|before|..];
      AppendChild(node, pattern, partial, k, before[|result|..], result'[|before|..], done);
      keys := keys - {k};
      done := done + {k};
    }
    forall s | Fits(pattern, s) && Lookup(node, s).Some?
      ensures (Lookup(node, s).value, partial + s) in result'[|result|..]
    {
      FirstIsChild(node, s);
    }
  }

  // ------------------------------------------------------------ ranking

  /** The permutation `result.shuffle(&mut rng)` applies: each swap partner is an arbitrary earlier position. */
  method Shuffle(s: seq<Match>) returns (r: seq<Match>)
    ensures multiset(r) == multiset(s)
  {
    r := s;
    var i := |r|;
    while i > 1
      invariant i <= |r| && multiset(r) == multiset(s)
    {
      i := i - 1;
      var j :| 0 <= j <= i;
      r := r[i := r[j]][j := r[i]];
    }
  }

  /** Heavier matches first. */
  predicate ByWeight(s: seq<Match>) {
    forall i, j :: 0 <= i < j < |s| ==> s[i].0 >= s[j].0
  }

  /** Inserts `m` into a list ordered by weight, in front of the matches of equal weight. */
  function InsertByWeight(m: Match, sorted: seq<Match>): (r: seq<Match>)
    ensures multiset(r) == multiset(sorted) + multiset{m}
  {
    if sorted == [] || m.0 >= sorted[0].0 then [m] + sorted
    else
      assert sorted == [sorted[0]] + sorted[1..];
      [sorted[0]] + InsertByWeight(m, sorted[1..])
  }

  /** Inserting into a list ordered by weight keeps it ordered. */
  lemma {:induction false} InsertKeepsOrder(m: Match, sorted: seq<Match>)
    requires ByWeight(sorted)
    ensures ByWeight(InsertByWeight(m, sorted))
  {
    if sorted != [] && m.0 < sorted[0].0 {
      var t := InsertByWeight(m, sorted[1..]);
      InsertKeepsOrder(m, sorted[1..]);
      forall x | x in t
        ensures sorted[0].0 >= x.0
      {
        assert x in multiset(t);
        if x != m {
          assert x in sorted[1..];
        }
      }
    }
  }

  /** `result.sort_by_key(|t| -t.0)`: a stable sort on descending weight. */
  function SortByWeight(s: seq<Match>): (r: seq<Match>)
    ensures multiset(r) == multiset(s) && ByWeight(r)
  {
    if s == [] then []
    else
      var sortedTail := SortByWeight(s[1..]);
      InsertKeepsOrder(s[0], sortedTail);
      assert s == [s[0]] + s[1..];
      InsertByWeight(s[0], sortedTail)
  }

  /** A list has no repeated element exactly when no element occurs more than once in its multiset. */
  lemma {:induction false} NoDuplicatesCount<T>(s: seq<T>)
    ensures NoDuplicates(s) <==> forall x :: multiset(s)[x] <= 1
  {
    if s != [] {
      var t := s[1..];
      NoDuplicatesCount(t);
      assert s == [s[0]] + t;
      if NoDuplicates(s) {
        forall j | 0 <= j < |t|
          ensures t[j] != s[0]
        {
          assert t[j] == s[j + 1];
        }
        assert NoDuplicates(t) by {
          forall i, j | 0 <= i < j < |t|
            ensures t[i] != t[j]
          {
            assert t[i] == s[i + 1] && t[j] == s[j + 1];
          }
        }
      }
      if forall x :: multiset(s)[x] <= 1 {
        assert multiset(s) == multiset{s[0]} + multiset(t);
        assert multiset(s)[s[0]] == multiset(t)[s[0]] + 1;
        assert forall x :: multiset(t)[x] <= multiset(s)[x];
        assert NoDuplicates(t);
        forall i, j | 0 <= i < j < |s|
          ensures s[i] != s[j]
        {
          if i == 0 {
            assert t[j - 1] == s[j];
            assert multiset(t)[s[j]] > 0;
          } else {
            assert t[i - 1] == s[i] && t[j - 1] == s[j];
          }
        }
      }
    }
  }

  /** Reordering a list keeps it free of repetitions. */
  lemma NoDuplicatesPermutation<T>(a: seq<T>, b: seq<T>)
    requires multiset(a) == multiset(b) && NoDuplicates(a)
    ensures NoDuplicates(b)
  {
    NoDuplicatesCount(a);
    NoDuplicatesCount(b);
  }

  /** The weight `words` ranks `w` by. */
  function Weight(node: TrieNode, w: string): i32 {
    Lookup(node, w).UnwrapOr(0)
  }

  /**
   * What `Index::words(pattern)` returns: every inserted word that fits the
   * pattern, each once and nothing else, heavier words first.
   */
  ghost predicate IsWordsResult(root: TrieNode, pattern: string, r: seq<string>) {
    (forall w :: w in r <==> Fits(pattern, w) && Lookup(root, w).Some?)
    && NoDuplicates(r)
    && forall i, j :: 0 <= i < j < |r| ==> Weight(root, r[i]) >= Weight(root, r[j])
  }

  /** `Index::words`: the matches, shuffled, then sorted by descending weight. */
  method Words(index: Index, pattern: string) returns (r: seq<string>)
    requires KeysMatch(index.trieRoot) && index.trieRoot.contents == None
    ensures IsWordsResult(index.trieRoot, pattern, r)
    ensures |r| > 0 <==> IndexIsValid(index, pattern)
  {
    var result: seq<Match> := [];
    var partial: string := [];
    partial, result := FillWords(index.trieRoot, pattern, partial, result);
    var found := result;
    result := Shuffle(result);
    result := SortByWeight(result);
    r := seq(|result|, i requires 0 <= i < |result| => result[i].1);
    RankedMatches(index.trieRoot, pattern, found, result, r);
  }

  /** The words of a reordering of the matches `fill_words` found from the root are a `words` result. */
  lemma RankedMatches(root: TrieNode, pattern: string, found: seq<Match>, ranked: seq<Match>, r: seq<string>)
    requires Sound(root, pattern, [], found) && Complete(root, pattern, [], found) && NoDuplicates(found)
    requires multiset(ranked) == multiset(found) && ByWeight(ranked)
    requires |r| == |ranked| && forall i :: 0 <= i < |r| ==> r[i] == ranked[i].1
    ensures IsWordsResult(root, pattern, r)
    ensures |r| > 0 <==> IsValid(root, pattern)
  {
    RankedSound(root, pattern, found, ranked, r);
    RankedComplete(root, pattern, found, ranked, r);
    RankedDistinct(root, found, ranked, r);
    IsValidIff(root, pattern);
    if |r| > 0 {
      assert Fits(pattern, r[0]) && Lookup(root, r[0]).Some?;
    }
  }

  /** Distinct matches, reordered, give distinct words: a word's match carries the word's own weight. */
  lemma RankedDistinct(root: TrieNode, found: seq<Match>, ranked: seq<Match>, r: seq<string>)
    requires NoDuplicates(found) && multiset(ranked) == multiset(found)
    requires |r| == |ranked| && forall i :: 0 <= i < |r| ==> r[i] == ranked[i].1
    requires forall i :: 0 <= i < |r| ==> Lookup(root, r[i]) == Some(ranked[i].0)
    ensures NoDuplicates(r)
  {
    NoDuplicatesPermutation(found, ranked);
    forall i, j | 0 <= i < j < |r|
      ensures r[i] != r[j]
    {
      assert ranked[i] != ranked[j];
    }
  }

  /** Every ranked word is a fitting word, ranked by its own weight. */
  lemma RankedSound(root: TrieNode, pattern: string, found: seq<Match>, ranked: seq<Match>, r: seq<string>)
    requires Sound(root, pattern, [], found) && multiset(ranked) == multiset(found)
    requires |r| == |ranked| && forall i :: 0 <= i < |r| ==> r[i] == ranked[i].1
    ensures forall i :: 0 <= i < |r| ==> Fits(pattern, r[i]) && Lookup(root, r[i]) == Some(ranked[i].0)
  {
    forall i | 0 <= i < |ranked|
      ensures Fits(pattern, r[i]) && Lookup(root, r[i]) == Some(ranked[i].0)
    {
      assert ranked[i] in multiset(found);
      var j :| 0 <= j < |found| && found[j] == ranked[i];
      assert IsMatch(root, pattern, [], found[j]);
      assert r[i][0..] == r[i];
    }
  }

  /** Every fitting word is ranked. */
  lemma RankedComplete(root: TrieNode, pattern: string, found: seq<Match>, ranked: seq<Match>, r: seq<string>)
    requires Complete(root, pattern, [], found) && multiset(ranked) == multiset(found)
    requires |r| == |ranked| && forall i :: 0 <= i < |r| ==> r[i] == ranked[i].1
    ensures forall w :: Fits(pattern, w) && Lookup(root, w).Some? ==> w in r
  {
    forall w | Fits(pattern, w) && Lookup(root, w).Some?
      ensures w in r
    {
      assert [] + w == w;
      var m := (Lookup(root, w).value, w);
      assert m in multiset(ranked);
      var i :| 0 <= i < |ranked| && ranked[i] == m;
      assert r[i] == w;
    }
  }
}
