/** The checker's cache of configurations: buckets of (bitset, state) pairs by bitset hash.
    Its meaning is a plain set of configurations. */
module Cache {
  import opened Search
  import Bitset

  datatype CacheEntry<S> = CacheEntry(linearized: array<bv64>, state: S)

  /** The buckets, and what their entries stand for, place by place. */
  type Buckets<S> = map<int, seq<CacheEntry<S>>>
  type Meaning<S> = map<int, seq<Config<S>>>

  ghost predicate Aligned<S>(buckets: Buckets<S>, meaning: Meaning<S>)
  {
    buckets.Keys == meaning.Keys && forall k :: k in buckets ==> |buckets[k]| == |meaning[k]|
  }

  ghost predicate Holds<S(!new)>(meaning: Meaning<S>, contents: set<Config<S>>)
  {
    forall c :: c in contents <==> exists k :: k in meaning && c in meaning[k]
  }

  function Bucket<T>(m: map<int, seq<T>>, k: int): seq<T>
  {
    if k in m then m[k] else []
  }

  function Added<T>(m: map<int, seq<T>>, k: int, x: T): map<int, seq<T>>
  {
    m[k := Bucket(m, k) + [x]]
  }

  lemma AddedAligned<S>(bs: Buckets<S>, ms: Meaning<S>, k: int, e: CacheEntry<S>, c: Config<S>)
    requires Aligned(bs, ms)
    ensures Aligned(Added(bs, k, e), Added(ms, k, c))
    ensures var (b, m) := (Added(bs, k, e), Added(ms, k, c));
            forall j, i :: j in b && 0 <= i < |b[j]| ==>
              || (j == k && b[j][i] == e && m[j][i] == c)
              || (j in bs && i < |bs[j]| && b[j][i] == bs[j][i] && m[j][i] == ms[j][i])
  {
  }

  lemma InsertHolds<S(!new)>(meaning: Meaning<S>, contents: set<Config<S>>, k: int, c: Config<S>)
    requires Holds(meaning, contents)
    ensures Holds(Added(meaning, k, c), contents + {c})
  {
    var next := Added(meaning, k, c);
    assert next[k][|Bucket(meaning, k)|] == c;
    forall d ensures d in contents + {c} <==> exists j :: j in next && d in next[j] {
      if d != c && d in contents {
        var j :| j in meaning && d in meaning[j];
        assert d in next[j];
      }
    }
  }

  /** An entry of bucket k is in its proper bucket and stands for c. */
  ghost predicate EntryOk<S>(words: nat, k: int, e: CacheEntry<S>, c: Config<S>)
    reads e.linearized
  {
    && e.linearized.Length == words
    && Bitset.HashOf(e.linearized[..]) == k
    && Bitset.Denotes(e.linearized[..], c.done)
    && e.state == c.state
  }

  ghost predicate EntriesOk<S>(words: nat, bs: Buckets<S>, ms: Meaning<S>, repr: set<array<bv64>>)
    requires Aligned(bs, ms)
    reads repr
  {
    forall k, i :: k in bs && 0 <= i < |bs[k]| ==>
      bs[k][i].linearized in repr && EntryOk(words, k, bs[k][i], ms[k][i])
  }

  lemma EntriesAdded<S>(words: nat, bs: Buckets<S>, ms: Meaning<S>, repr: set<array<bv64>>,
                        k: int, e: CacheEntry<S>, c: Config<S>)
    requires Aligned(bs, ms) && EntriesOk(words, bs, ms, repr) && EntryOk(words, k, e, c)
    ensures Aligned(Added(bs, k, e), Added(ms, k, c))
    ensures EntriesOk(words, Added(bs, k, e), Added(ms, k, c), repr + {e.linearized})
  {
    AddedAligned(bs, ms, k, e, c);
  }

  /** The cache of bitsets `repr`, each of `words` words, means the set `contents`. */
  ghost predicate Valid<S(!new)>(words: nat, cache: Buckets<S>, meaning: Meaning<S>, contents: set<Config<S>>,
                                 repr: set<array<bv64>>)
    reads repr
  {
    && Aligned(cache, meaning)
    && Holds(meaning, contents)
    && EntriesOk(words, cache, meaning, repr)
  }

  /** Equal sets have equal words, hence equal hashes: a configuration has one bucket. */
  lemma OneBucket<S>(words: nat, cache: Buckets<S>, meaning: Meaning<S>, repr: set<array<bv64>>,
                     ws: seq<bv64>, done: set<int>, k: int, i: int)
    requires Aligned(cache, meaning) && EntriesOk(words, cache, meaning, repr)
    requires |ws| == words && Bitset.Denotes(ws, done)
    requires k in cache && 0 <= i < |cache[k]|
    ensures cache[k][i].linearized[..] == ws <==> meaning[k][i].done == done
    ensures meaning[k][i].done == done ==> k == Bitset.HashOf(ws)
    ensures cache[k][i].state == meaning[k][i].state
  {
    assert EntryOk(words, k, cache[k][i], meaning[k][i]);
    Bitset.EqualIsSameSet(cache[k][i].linearized[..], ws, meaning[k][i].done, done);
  }

  /** True exactly when an equal configuration is in the cache. */
  method Contains<S(==, !new)>(cache: Buckets<S>, linearized: array<bv64>, state: S, ghost done: set<int>,
                               ghost meaning: Meaning<S>, ghost contents: set<Config<S>>, ghost repr: set<array<bv64>>)
    returns (found: bool)
    requires Valid(linearized.Length, cache, meaning, contents, repr) && Bitset.Denotes(linearized[..], done)
    ensures found <==> Config(done, state) in contents
  {
    hide EntriesOk, Bitset.HashOf, Bitset.Denotes;
    var hash := Bitset.Hash(linearized);
    var bucket := Bucket(cache, hash);
    for i := 0 to |bucket|
      invariant forall j :: 0 <= j < i ==> meaning[hash][j] != Config(done, state)
    {
      OneBucket(linearized.Length, cache, meaning, repr, linearized[..], done, hash, i);
      var eq := Bitset.Equals(linearized, bucket[i].linearized);
      if eq && state == bucket[i].state {
        assert Config(done, state) in meaning[hash];
        return true;
      }
    }
    found := false;
    if Config(done, state) in contents {
      ghost var k :| k in meaning && Config(done, state) in meaning[k];
      ghost var i :| 0 <= i < |meaning[k]| && meaning[k][i] == Config(done, state);
      OneBucket(linearized.Length, cache, meaning, repr, linearized[..], done, k, i);
      assert false;
    }
  }

  /** Appending an entry to its bucket adds exactly its configuration. */
  lemma Inserted<S(!new)>(words: nat, cache: Buckets<S>, meaning: Meaning<S>, contents: set<Config<S>>,
                          repr: set<array<bv64>>, e: CacheEntry<S>, c: Config<S>)
    requires Valid(words, cache, meaning, contents, repr)
    requires EntryOk(words, Bitset.HashOf(e.linearized[..]), e, c)
    ensures var k := Bitset.HashOf(e.linearized[..]);
            Valid(words, Added(cache, k, e), Added(meaning, k, c), contents + {c}, repr + {e.linearized})
  {
    var k := Bitset.HashOf(e.linearized[..]);
    EntriesAdded(words, cache, meaning, repr, k, e, c);
    InsertHolds(meaning, contents, k, c);
  }
}
