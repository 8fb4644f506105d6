/** The checker's bitset: an array of 64-bit words updated in place. Its meaning is a set of
    positions; equality, and so hashing, depend on nothing else. */
module Bitset {

  /** The word with only bit k. */
  function Mask(k: bv6): bv64
  {
    1 << (k as bv64)
  }

  predicate BitAt(w: bv64, k: bv6)
  {
    w & Mask(k) != 0
  }

  /** Bit k of word w. */
  predicate Bit(w: bv64, k: int)
    requires 0 <= k < 64
  {
    BitAt(w, k as bv6)
  }

  /** Position p of the words: bits 0-63 are in ws[0], the next in ws[1], and so on. */
  predicate Has(ws: seq<bv64>, p: int)
  {
    0 <= p < 64 * |ws| && Bit(ws[p / 64], p % 64)
  }

  /** The words stand for the set s. */
  ghost predicate Denotes(ws: seq<bv64>, s: set<int>)
  {
    forall p :: Has(ws, p) <==> p in s
  }

  // ---------- words ----------

  lemma MinorRoundTrip(k: int)
    requires 0 <= k < 64
    ensures (k as bv6) as int == k
  {
  }

  lemma MinorInjective(m: int, k: int)
    requires 0 <= m < 64 && 0 <= k < 64
    ensures m as bv6 == k as bv6 <==> m == k
  {
    MinorRoundTrip(m);
    MinorRoundTrip(k);
  }

  lemma MinorBack(k: bv6)
    ensures 0 <= k as int < 64 && (k as int) as bv6 == k
  {
  }

  lemma OrKeeps(w: bv64, a: bv64, k: bv6)
    requires BitAt(w, k)
    ensures BitAt(w | a, k)
  {
  }

  lemma OrSets(w: bv64, m: bv6)
    ensures BitAt(w | Mask(m), m)
  {
  }

  lemma OrSetsOnly(w: bv64, m: bv6, k: bv6)
    requires m != k && !BitAt(w, k)
    ensures !BitAt(w | Mask(m), k)
  {
  }

  lemma SetBitAt(w: bv64, m: bv6, k: bv6)
    ensures BitAt(w | Mask(m), k) <==> BitAt(w, k) || k == m
  {
    if m == k {
      OrSets(w, m);
    } else if BitAt(w, k) {
      OrKeeps(w, Mask(m), k);
    } else {
      OrSetsOnly(w, m, k);
    }
  }

  lemma ClearBitAt(w: bv64, m: bv6, k: bv6)
    ensures BitAt(w & !Mask(m), k) <==> BitAt(w, k) && k != m
  {
  }

  /** The bits of `w |= 1 << m`. */
  method SetWord(w: bv64, m: bv6) returns (v: bv64)
    ensures forall k :: BitAt(v, k) <==> BitAt(w, k) || k == m
  {
    v := w | Mask(m);
    forall k ensures BitAt(v, k) <==> BitAt(w, k) || k == m {
      SetBitAt(w, m, k);
    }
  }

  /** The bits of `w &^= 1 << m`. */
  method ClearWord(w: bv64, m: bv6) returns (v: bv64)
    ensures forall k :: BitAt(v, k) <==> BitAt(w, k) && k != m
  {
    v := w & !Mask(m);
    forall k ensures BitAt(v, k) <==> BitAt(w, k) && k != m {
      ClearBitAt(w, m, k);
    }
  }

  function Rest(w: bv64, k: bv6): bv64
  {
    w >> (k as bv64)
  }

  lemma ShiftStep(w: bv64, k: bv6)
    requires Rest(w, k) != 0 && !BitAt(w, k)
    ensures Rest(w, k + 1) != 0 && 63 - (k + 1) < 63 - k
  {
  }

  /** A word that is not zero from bit k up has a bit there. */
  lemma {:induction false} SomeBit(w: bv64, k: bv6) returns (j: bv6)
    requires Rest(w, k) != 0
    ensures BitAt(w, j)
    decreases 63 - k
  {
    if BitAt(w, k) {
      j := k;
    } else {
      ShiftStep(w, k);
      j := SomeBit(w, k + 1);
    }
  }

  lemma XorBit(v: bv64, w: bv64, k: bv6)
    requires BitAt(v, k) == BitAt(w, k)
    ensures !BitAt(v ^ w, k)
  {
  }

  lemma XorZero(v: bv64, w: bv64)
    requires v != w
    ensures Rest(v ^ w, 0) != 0
  {
  }

  /** Words with the same bits are equal. */
  lemma WordExt(v: bv64, w: bv64)
    requires forall k :: BitAt(v, k) == BitAt(w, k)
    ensures v == w
  {
    if v != w {
      XorZero(v, w);
      var j := SomeBit(v ^ w, 0);
      XorBit(v, w, j);
      assert false;
    }
  }

  // ---------- sequences of words ----------

  lemma HasWord(a: seq<bv64>, i: int, k: int)
    requires 0 <= i < |a| && 0 <= k < 64
    ensures Has(a, 64 * i + k) <==> Bit(a[i], k)
  {
    assert (64 * i + k) / 64 == i && (64 * i + k) % 64 == k;
  }

  lemma WordsExt(a: seq<bv64>, b: seq<bv64>, i: int)
    requires |a| == |b| && 0 <= i < |a|
    requires forall p :: Has(a, p) == Has(b, p)
    ensures a[i] == b[i]
  {
    forall k ensures BitAt(a[i], k) == BitAt(b[i], k) {
      MinorBack(k);
      HasWord(a, i, k as int);
      HasWord(b, i, k as int);
      assert Has(a, 64 * i + k as int) == Has(b, 64 * i + k as int);
    }
    WordExt(a[i], b[i]);
  }

  /** Bitsets of one size are equal exactly when they stand for the same set. */
  lemma EqualIsSameSet(a: seq<bv64>, b: seq<bv64>, s: set<int>, t: set<int>)
    requires |a| == |b| && Denotes(a, s) && Denotes(b, t)
    ensures a == b <==> s == t
  {
    if s == t {
      forall i | 0 <= i < |a| ensures a[i] == b[i] {
        WordsExt(a, b, i);
      }
    }
    if a == b {
      forall p ensures p in s <==> p in t {
        assert Has(a, p) == Has(b, p);
      }
    }
  }

  // ---------- the operations ----------

  function Chunks(bits: nat): nat
  {
    bits / 64 + if bits % 64 != 0 then 1 else 0
  }

  method New(bits: nat) returns (b: array<bv64>)
    ensures fresh(b) && b.Length == Chunks(bits) && 64 * (b.Length - 1) < bits <= 64 * b.Length
    ensures Denotes(b[..], {})
  {
    b := new bv64[Chunks(bits)](_ => 0);
    forall p ensures !Has(b[..], p) {
      if 0 <= p < 64 * b.Length { ZeroBit(p % 64); }
    }
  }

  lemma ZeroBit(k: int)
    requires 0 <= k < 64
    ensures !Bit(0, k)
  {
  }

  method Clone(b: array<bv64>) returns (c: array<bv64>)
    ensures fresh(c) && c[..] == b[..]
  {
    c := new bv64[b.Length](i requires 0 <= i < b.Length reads b => b[i]);
  }

  method Set(b: array<bv64>, pos: nat)
    requires pos < 64 * b.Length
    modifies b
    ensures forall p :: Has(b[..], p) <==> old(Has(b[..], p)) || p == pos
  {
    var major, minor := pos / 64, pos % 64;
    ghost var was := b[..];
    b[major] := SetWord(b[major], minor as bv6);
    forall p ensures Has(b[..], p) <==> Has(was, p) || p == pos {
      if 0 <= p < 64 * b.Length {
        MinorInjective(p % 64, minor);
      }
    }
  }

  method Clear(b: array<bv64>, pos: nat)
    requires pos < 64 * b.Length
    modifies b
    ensures forall p :: Has(b[..], p) <==> old(Has(b[..], p)) && p != pos
  {
    var major, minor := pos / 64, pos % 64;
    ghost var was := b[..];
    b[major] := ClearWord(b[major], minor as bv6);
    forall p ensures Has(b[..], p) <==> Has(was, p) && p != pos {
      if 0 <= p < 64 * b.Length {
        MinorInjective(p % 64, minor);
      }
    }
  }

  lemma DenotesWith(ws: seq<bv64>, after: seq<bv64>, s: set<int>, pos: int)
    requires Denotes(ws, s) && forall p :: Has(after, p) <==> Has(ws, p) || p == pos
    ensures Denotes(after, s + {pos})
  {
    hide Has;
  }

  lemma DenotesWithout(ws: seq<bv64>, after: seq<bv64>, s: set<int>, pos: int)
    requires Denotes(ws, s + {pos}) && pos !in s && forall p :: Has(after, p) <==> Has(ws, p) && p != pos
    ensures Denotes(after, s)
  {
    hide Has;
  }

  method Get(b: array<bv64>, pos: nat) returns (r: bool)
    requires pos < 64 * b.Length
    ensures r <==> Has(b[..], pos)
  {
    r := b[pos / 64] & Mask((pos % 64) as bv6) != 0;
  }

  function BitsOf(w: bv64): (r: seq<bool>)
    ensures |r| == 64 && forall k :: 0 <= k < 64 ==> r[k] == Bit(w, k)
  {
    seq(64, k requires 0 <= k < 64 => Bit(w, k))
  }

  function Ones(bits: seq<bool>): nat
  {
    if bits == [] then 0 else Ones(bits[..|bits| - 1]) + if bits[|bits| - 1] then 1 else 0
  }

  function OnesIn(ws: seq<bv64>): nat
  {
    if ws == [] then 0 else OnesIn(ws[..|ws| - 1]) + Ones(BitsOf(ws[|ws| - 1]))
  }

  /** The positions of the one bits of a word that starts at position base. */
  ghost function WordSet(bits: seq<bool>, base: nat): (r: set<int>)
    ensures forall p :: p in r <==> base <= p < base + |bits| && bits[p - base]
    ensures |r| == Ones(bits)
  {
    if bits == [] then {} else
      var n := |bits| - 1;
      WordSet(bits[..n], base) + if bits[n] then {base + n} else {}
  }

  ghost function Positions(ws: seq<bv64>): set<int>
  {
    if ws == [] then {} else Positions(ws[..|ws| - 1]) + WordSet(BitsOf(ws[|ws| - 1]), 64 * (|ws| - 1))
  }

  lemma {:induction false} PositionsRight(ws: seq<bv64>)
    ensures Denotes(ws, Positions(ws)) && |Positions(ws)| == OnesIn(ws)
  {
    if ws == [] {
      HasRange(ws);
    } else {
      var n := |ws| - 1;
      PositionsRight(ws[..n]);
      LastWord(ws);
      hide Denotes;
      JoinWords(ws, Positions(ws[..n]), WordSet(BitsOf(ws[n]), 64 * n));
    }
  }

  /** The set of all words but the last, and the positions in the last word. */
  lemma JoinWords(ws: seq<bv64>, front: set<int>, last: set<int>)
    requires ws != [] && Denotes(ws[..|ws| - 1], front)
    requires forall p :: p in last <==> 64 * (|ws| - 1) <= p < 64 * |ws| && Has(ws, p)
    ensures Denotes(ws, front + last) && |front + last| == |front| + |last|
  {
    hide Has;
    WordsFront(ws);
    HasRange(ws);
    HasRange(ws[..|ws| - 1]);
    forall p | p in front ensures p !in last {
      assert Has(ws[..|ws| - 1], p);
    }
    assert front !! last;
  }

  lemma LastWord(ws: seq<bv64>)
    requires ws != []
    ensures var n := 64 * (|ws| - 1);
            forall p :: p in WordSet(BitsOf(ws[|ws| - 1]), n) <==> n <= p < n + 64 && Has(ws, p)
  {
    hide Has, Bit, WordSet;
    var i, n := |ws| - 1, 64 * (|ws| - 1);
    var bits := BitsOf(ws[i]);
    forall p ensures p in WordSet(bits, n) <==> n <= p < n + 64 && Has(ws, p) {
      if n <= p < n + 64 {
        HasWord(ws, i, p - n);
        assert p == 64 * i + (p - n);
        assert bits[p - n] == Bit(ws[i], p - n);
      }
    }
  }

  lemma HasRange(ws: seq<bv64>)
    ensures forall p :: Has(ws, p) ==> 0 <= p < 64 * |ws|
  {
  }

  lemma WordsFront(ws: seq<bv64>)
    requires ws != []
    ensures forall p :: p < 64 * (|ws| - 1) ==> Has(ws, p) == Has(ws[..|ws| - 1], p)
  {
  }

  /** The population count is the size of the set. */
  lemma OnesInIsSize(ws: seq<bv64>, s: set<int>)
    requires Denotes(ws, s)
    ensures OnesIn(ws) == |s|
  {
    PositionsRight(ws);
    var r := Positions(ws);
    forall p ensures p in s <==> p in r {
      assert Has(ws, p) <==> p in s;
    }
    assert s == r;
  }

  method Popcnt(b: array<bv64>) returns (total: nat)
    ensures total == OnesIn(b[..])
  {
    total := 0;
    for i := 0 to b.Length
      invariant total == OnesIn(b[..i])
    {
      total := total + Ones(BitsOf(b[i]));
      assert b[..i + 1][..i] == b[..i];
    }
    assert b[..b.Length] == b[..];
  }

  function Xor(v: bv64, w: bv64): bv64
  {
    v ^ w
  }

  function XorAll(ws: seq<bv64>, start: bv64): bv64
  {
    if ws == [] then start else Xor(XorAll(ws[..|ws| - 1], start), ws[|ws| - 1])
  }

  lemma XorSnoc(ws: seq<bv64>, w: bv64, start: bv64)
    ensures XorAll(ws + [w], start) == Xor(XorAll(ws, start), w)
  {
    hide Xor;
    assert (ws + [w])[..|ws|] == ws;
  }

  /** A count as a 64-bit word. */
  function CountWord(n: nat): bv64
  {
    (n % 0x1_0000_0000_0000_0000) as bv64
  }

  function WordNumber(w: bv64): int
  {
    w as int
  }

  /** The hash: the population count as a 64-bit word, exclusive-or all the words. */
  function HashOf(ws: seq<bv64>): int
  {
    WordNumber(XorAll(ws, CountWord(OnesIn(ws))))
  }

  method Hash(b: array<bv64>) returns (r: int)
    ensures r == HashOf(b[..])
  {
    hide CountWord, WordNumber, Xor, XorAll, OnesIn;
    var n := Popcnt(b);
    var start := CountWord(n);
    var hash := start;
    assert hash == XorAll(b[..0], start) by { XorNone(start); }
    for i := 0 to b.Length
      invariant hash == XorAll(b[..i], start)
    {
      XorSnoc(b[..i], b[i], start);
      assert b[..i + 1] == b[..i] + [b[i]];
      hash := Xor(hash, b[i]);
    }
    assert b[..b.Length] == b[..];
    r := WordNumber(hash);
  }

  lemma XorNone(start: bv64)
    ensures XorAll([], start) == start
  {
  }

  method Equals(a: array<bv64>, b: array<bv64>) returns (eq: bool)
    ensures eq <==> a[..] == b[..]
  {
    if a.Length != b.Length { return false; }
    for i := 0 to a.Length
      invariant a[..i] == b[..i]
    {
      if a[i] != b[i] {
        assert a[..][i] != b[..][i];
        return false;
      }
      assert a[..i + 1] == a[..i] + [a[i]] && b[..i + 1] == b[..i] + [b[i]];
    }
    assert a[..a.Length] == a[..] && b[..b.Length] == b[..];
    return true;
  }
}
