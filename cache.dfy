/**
 * The query memo tables of src/fill/cache.rs: index answers stored under a
 * 64-bit hash of the pattern's characters.
 */
module QueryCache {
  import TrieIndex

  /** Rust's `u64`. */
  newtype u64 = x: int | 0 <= x < 0x1_0000_0000_0000_0000

  /**
   * One character fed to the hasher: the hasher's state after `c.hash(&mut
   * hasher)` from state `h`. The hash function's own arithmetic is not part of
   * this model; a cache is built over whatever step function it is given.
   */
  type HashStep = (u64, char) -> u64

  /** The key `hasher.finish()` gives after feeding `s`, one character at a time, from state `h`. */
  function HashFrom(step: HashStep, h: u64, s: string): u64
    decreases |s|
  {
    if s == [] then h else HashFrom(step, step(h, s[0]), s[1..])
  }

  /** The key of a pattern: its characters fed to a fresh hasher, whose state starts at 0. */
  function PatternKey(step: HashStep, pattern: string): u64 {
    HashFrom(step, 0, pattern)
  }

  /** The hashing loop both caches run before looking the key up. */
  method HashPattern(step: HashStep, pattern: string) returns (key: u64)
    ensures key == PatternKey(step, pattern)
  {
    var hasher: u64 := 0;
    for i := 0 to |pattern|
      invariant HashFrom(step, hasher, pattern[i..]) == PatternKey(step, pattern)
    {
      assert pattern[i..] == [pattern[i]] + pattern[i + 1..];
      hasher := step(hasher, pattern[i]);
    }
    key := hasher;
  }

  /** `CachedWords`: the word lists of `Index::words`, by pattern key. */
  class CachedWords {
    var wordsCache: map<u64, seq<string>>
    const step: HashStep
    /** The pattern whose query filled each entry. */
    ghost var origin: map<u64, string>

    /** Every entry holds what `Index::words` answered for the pattern that filled it, under that pattern's key. */
    ghost predicate Valid(index: TrieIndex.Index)
      reads this
    {
      origin.Keys == wordsCache.Keys
      && forall key :: key in origin ==>
           PatternKey(step, origin[key]) == key
           && TrieIndex.IsWordsResult(index.trieRoot, origin[key], wordsCache[key])
    }

    /** `CachedWords::default`: an empty table. */
    constructor Default(step: HashStep)
      ensures wordsCache == map[] && origin == map[] && this.step == step
    {
      wordsCache := map[];
      origin := map[];
      this.step := step;
    }

    /**
     * `CachedWords::words`: on a miss asks the index and stores its answer
     * under the pattern's key; on a hit returns the stored list and leaves the
     * table as it was. Every other entry is unchanged either way.
     */
    method Words(pattern: string, index: TrieIndex.Index) returns (r: seq<string>)
      requires TrieIndex.KeysMatch(index.trieRoot) && index.trieRoot.contents.None?
      modifies this
      ensures var key := PatternKey(step, pattern);
        key in wordsCache && r == wordsCache[key]
        && (key in old(wordsCache) ==> wordsCache == old(wordsCache) && origin == old(origin))
        && (key !in old(wordsCache) ==>
              TrieIndex.IsWordsResult(index.trieRoot, pattern, r)
              && wordsCache == old(wordsCache)[key := r] && origin == old(origin)[key := pattern])
      ensures old(Valid(index)) ==> Valid(index)
    {
      var key := HashPattern(step, pattern);
      if key !in wordsCache {
        var found := TrieIndex.Words(index, pattern);
        wordsCache := wordsCache[key := found];
        origin := origin[key := pattern];
      }
      r := wordsCache[key];
    }
  }

  /** `CachedIsValid`: the answers of `Index::is_valid`, by pattern key. */
  class CachedIsValid {
    var isValidCache: map<u64, bool>
    const step: HashStep
    /** The pattern whose query filled each entry. */
    ghost var origin: map<u64, string>

    /** Every entry holds what `Index::is_valid` answers for the pattern that filled it, under that pattern's key. */
    ghost predicate Valid(index: TrieIndex.Index)
      reads this
    {
      origin.Keys == isValidCache.Keys
      && forall key :: key in origin ==>
           PatternKey(step, origin[key]) == key
           && isValidCache[key] == TrieIndex.IndexIsValid(index, origin[key])
    }

    /** `CachedIsValid::default`: an empty table. */
    constructor Default(step: HashStep)
      ensures isValidCache == map[] && origin == map[] && this.step == step
    {
      isValidCache := map[];
      origin := map[];
      this.step := step;
    }

    /**
     * `CachedIsValid::is_valid`: on a miss asks the index and stores its
     * answer under the pattern's key; on a hit returns the stored answer.
     */
    method IsValid(chars: string, index: TrieIndex.Index) returns (r: bool)
      modifies this
      ensures var key := PatternKey(step, chars);
        key in isValidCache && r == isValidCache[key]
        && (key in old(isValidCache) ==> isValidCache == old(isValidCache) && origin == old(origin))
        && (key !in old(isValidCache) ==>
              r == TrieIndex.IndexIsValid(index, chars)
              && isValidCache == old(isValidCache)[key := r] && origin == old(origin)[key := chars])
      ensures old(Valid(index)) ==> Valid(index)
    {
      var key := HashPattern(step, chars);
      if key !in isValidCache {
        isValidCache := isValidCache[key := TrieIndex.IndexIsValid(index, chars)];
        origin := origin[key := chars];
      }
      r := isValidCache[key];
    }
  }

  /**
   * Asking twice for the same pattern gives the identical list: the second
   * query hits the entry the first one filled, so the shuffled order is
   * pinned.
   */
  method RepeatedWordsQuery(cache: CachedWords, pattern: string, index: TrieIndex.Index)
    returns (first: seq<string>, second: seq<string>)
    requires TrieIndex.KeysMatch(index.trieRoot) && index.trieRoot.contents.None?
    modifies cache
    ensures first == second
  {
    first := cache.Words(pattern, index);
    second := cache.Words(pattern, index);
  }

  /**
   * While a table is valid, an answer for a pattern whose key no other
   * stored pattern shares is what the index itself answers.
   */
  method ValidCacheAnswersLikeIndex(cache: CachedIsValid, chars: string, index: TrieIndex.Index)
    returns (r: bool)
    requires cache.Valid(index)
    requires var key := PatternKey(cache.step, chars); key in cache.origin ==> cache.origin[key] == chars
    modifies cache
    ensures r == TrieIndex.IndexIsValid(index, chars)
  {
    r := cache.IsValid(chars, index);
  }
}
