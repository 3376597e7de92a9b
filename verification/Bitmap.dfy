/** Packed row validity (src/exec/bitmap.rs): one bit per row in 64-bit words, least significant
    first, every bit at or past `len` zero. */
module Bitmaps {
  import opened Arith

  const WordBits := 64

  function Pow2(n: nat): (p: nat)
    ensures p >= 1
  {
    if n == 0 then 1 else 2 * Pow2(n - 1)
  }

  /** `(w >> i) & 1 == 1`. */
  predicate Bit(w: nat, i: nat)
  {
    if i == 0 then w % 2 == 1 else Bit(w / 2, i - 1)
  }

  /** `w | (1 << i)`. */
  function WithBit(w: nat, i: nat): nat
  {
    if Bit(w, i) then w else w + Pow2(i)
  }

  /** `w & !(1 << i)`. */
  function WithoutBit(w: nat, i: nat): nat
  {
    if Bit(w, i) then (BitFits(w, i); w - Pow2(i)) else w
  }

  /** `w & ((1 << n) - 1)`. */
  function LowBits(w: nat, n: nat): nat
  {
    w % Pow2(n)
  }

  /** `count_ones`. */
  function Ones(w: nat): nat
  {
    if w == 0 then 0 else w % 2 + Ones(w / 2)
  }

  // ── Bits ───────────────────────────────────────────────────────────────────

  lemma {:induction false} BitFits(w: nat, i: nat)
    requires Bit(w, i)
    ensures w >= Pow2(i)
  {
    if i > 0 { BitFits(w / 2, i - 1); }
  }

  lemma {:induction false} ZeroBits(i: nat)
    ensures !Bit(0, i)
  {
    if i > 0 { ZeroBits(i - 1); }
  }

  lemma {:induction false} SetOneBit(w: nat, i: nat, j: nat)
    requires !Bit(w, i)
    ensures Bit(w + Pow2(i), j) <==> j == i || Bit(w, j)
    decreases i
  {
    if i > 0 {
      assert (w + Pow2(i)) / 2 == w / 2 + Pow2(i - 1);
      if j > 0 { SetOneBit(w / 2, i - 1, j - 1); }
    } else if j > 0 {
      assert (w + 1) / 2 == w / 2;
    }
  }

  lemma SetBits(w: nat, i: nat, j: nat)
    ensures Bit(WithBit(w, i), j) <==> j == i || Bit(w, j)
  {
    if !Bit(w, i) { SetOneBit(w, i, j); }
  }

  lemma {:induction false} ClearBits(w: nat, i: nat, j: nat)
    ensures Bit(WithoutBit(w, i), j) <==> j != i && Bit(w, j)
  {
    if Bit(w, i) {
      BitFits(w, i);
      ClearedBit(w, i);
      SetOneBit(w - Pow2(i), i, j);
    }
  }

  lemma {:induction false} ClearedBit(w: nat, i: nat)
    requires Bit(w, i) && w >= Pow2(i)
    ensures !Bit(w - Pow2(i), i)
  {
    if i > 0 {
      BitFits(w / 2, i - 1);
      assert (w - Pow2(i)) / 2 == w / 2 - Pow2(i - 1);
      ClearedBit(w / 2, i - 1);
    }
  }

  lemma {:induction false} SetFits(w: nat, i: nat, n: nat)
    requires w < Pow2(n) && i < n
    ensures WithBit(w, i) < Pow2(n)
  {
    if !Bit(w, i) {
      var h, p := w / 2, Pow2(n - 1);
      assert Pow2(n) == 2 * p && w == 2 * h + w % 2;
      if i == 0 {
        assert WithBit(w, i) == 2 * h + 1 && h < p;
      } else {
        var q := Pow2(i - 1);
        assert Pow2(i) == 2 * q && !Bit(h, i - 1);
        SetFits(h, i - 1, n - 1);
        assert h + q < p;
      }
    }
  }

  lemma {:induction false} LowBitsAt(w: nat, n: nat, j: nat)
    ensures LowBits(w, n) < Pow2(n) && LowBits(w, n) <= w
    ensures Bit(LowBits(w, n), j) <==> j < n && Bit(w, j)
  {
    ModAtMost(w, Pow2(n));
    if n == 0 {
      ZeroBits(j);
    } else {
      HalfMod(w, n);
      if j > 0 { LowBitsAt(w / 2, n - 1, j - 1); }
    }
  }

  lemma ModAtMost(w: nat, p: nat)
    requires p >= 1
    ensures w % p < p && w % p <= w
  {
    if w < p { SmallMod(w, p); }
  }

  lemma SmallMod(w: nat, p: nat)
    requires w < p
    ensures w % p == w
  {
  }

  /** Halving commutes with masking. */
  lemma HalfMod(w: nat, n: nat)
    requires n > 0
    ensures (w % Pow2(n)) / 2 == (w / 2) % Pow2(n - 1)
    ensures (w % Pow2(n)) % 2 == w % 2
  {
    var p := Pow2(n - 1);
    var q, r := (w / 2) / p, (w / 2) % p;
    assert w / 2 == q * p + r;
    var low := 2 * r + w % 2;
    assert w == q * (2 * p) + low by { assert w == 2 * (w / 2) + w % 2; Distribute(q, p); }
    UniqueQuotient(w, 2 * p, q, low);
  }

  lemma Distribute(q: nat, p: nat)
    ensures 2 * (q * p) == q * (2 * p)
  {
  }

  lemma {:induction false} SameBits(v: nat, w: nat, n: nat)
    requires v < Pow2(n) && w < Pow2(n)
    requires forall i :: 0 <= i < n ==> Bit(v, i) == Bit(w, i)
    ensures v == w
  {
    if n > 0 {
      forall i | 0 <= i < n - 1 ensures Bit(v / 2, i) == Bit(w / 2, i) {
        assert Bit(v, i + 1) == Bit(w, i + 1);
      }
      SameBits(v / 2, w / 2, n - 1);
      assert Bit(v, 0) == Bit(w, 0);
    }
  }

  // ── Counting ───────────────────────────────────────────────────────────────

  function CountTrue(s: seq<bool>): (n: nat)
    ensures n <= |s|
  {
    if s == [] then 0 else (if s[0] then 1 else 0) + CountTrue(s[1..])
  }

  lemma {:induction false} CountAppend(a: seq<bool>, b: seq<bool>)
    ensures CountTrue(a + b) == CountTrue(a) + CountTrue(b)
  {
    if a == [] {
      assert a + b == b;
    } else {
      assert (a + b)[1..] == a[1..] + b;
      CountAppend(a[1..], b);
    }
  }

  lemma {:induction false} CountNone(s: seq<bool>)
    requires forall i :: 0 <= i < |s| ==> !s[i]
    ensures CountTrue(s) == 0
  {
    if s != [] { CountNone(s[1..]); }
  }

  function BitsOf(w: nat, n: nat): (s: seq<bool>)
    ensures |s| == n && forall i :: 0 <= i < n ==> s[i] == Bit(w, i)
  {
    seq(n, i requires 0 <= i < n => Bit(w, i))
  }

  lemma {:induction false} OnesCount(w: nat, n: nat)
    requires w < Pow2(n)
    ensures Ones(w) == CountTrue(BitsOf(w, n))
  {
    if n > 0 {
      OnesCount(w / 2, n - 1);
      assert BitsOf(w, n)[1..] == BitsOf(w / 2, n - 1);
    }
  }

  // ── The packed form ────────────────────────────────────────────────────────

  function WordCount(len: nat): nat
  {
    (len + WordBits - 1) / WordBits
  }

  predicate BitAt(words: seq<nat>, i: nat)
    requires i / WordBits < |words|
  {
    Bit(words[i / WordBits], i % WordBits)
  }

  /** Every bit of the words, padding included. */
  function AllBits(words: seq<nat>): (s: seq<bool>)
    ensures |s| == WordBits * |words|
    ensures forall i :: 0 <= i < |s| ==> s[i] == BitAt(words, i)
  {
    seq(WordBits * |words|, i requires 0 <= i < WordBits * |words| => BitAt(words, i))
  }

  ghost predicate Packed(words: seq<nat>, len: nat)
  {
    && |words| == WordCount(len)
    && (forall k :: 0 <= k < |words| ==> words[k] < Pow2(WordBits))
    && (forall i :: len <= i < WordBits * |words| ==> !BitAt(words, i))
  }

  ghost function Unpack(words: seq<nat>, len: nat): seq<bool>
    requires Packed(words, len)
  {
    AllBits(words)[..len]
  }

  /** Equal rows mean equal words: the packed form is canonical. */
  lemma PackedIsCanonical(v: seq<nat>, w: seq<nat>, len: nat)
    requires Packed(v, len) && Packed(w, len) && Unpack(v, len) == Unpack(w, len)
    ensures v == w
  {
    forall k | 0 <= k < |v| ensures v[k] == w[k] {
      forall i | 0 <= i < WordBits ensures Bit(v[k], i) == Bit(w[k], i) {
        var at := k * WordBits + i;
        assert at / WordBits == k && at % WordBits == i;
        assert BitAt(v, at) == Bit(v[k], i) && BitAt(w, at) == Bit(w[k], i);
        if at < len { assert Unpack(v, len)[at] == Unpack(w, len)[at]; }
      }
      SameBits(v[k], w[k], WordBits);
    }
  }

  lemma SetBitAt(words: seq<nat>, i: nat, valid: bool, j: nat)
    requires i / WordBits < |words| && j / WordBits < |words|
    ensures var k, b := i / WordBits, i % WordBits;
            var next := words[k := if valid then WithBit(words[k], b) else WithoutBit(words[k], b)];
            BitAt(next, j) == if j == i then valid else BitAt(words, j)
  {
    var k, b := i / WordBits, i % WordBits;
    SetBits(words[k], b, j % WordBits);
    ClearBits(words[k], b, j % WordBits);
    SamePlace(i, j);
  }

  lemma PackedSet(words: seq<nat>, len: nat, i: nat, valid: bool)
    requires Packed(words, len) && i < len
    ensures i / WordBits < |words|
    ensures var k, b := i / WordBits, i % WordBits;
            var next := words[k := if valid then WithBit(words[k], b) else WithoutBit(words[k], b)];
            Packed(next, len) && Unpack(next, len) == Unpack(words, len)[i := valid]
  {
    var k, b := i / WordBits, i % WordBits;
    var next := words[k := if valid then WithBit(words[k], b) else WithoutBit(words[k], b)];
    SetFits(words[k], b, WordBits);
    forall j | 0 <= j < WordBits * |words| ensures BitAt(next, j) == if j == i then valid else BitAt(words, j) {
      SetBitAt(words, i, valid, j);
    }
    RowsSet(words, next, len, i, valid);
  }

  /** Words that differ in the bit of row `i` only. */
  lemma RowsSet(words: seq<nat>, next: seq<nat>, len: nat, i: nat, valid: bool)
    requires Packed(words, len) && i < len && |next| == |words| && forall k :: 0 <= k < |next| ==> next[k] < Pow2(WordBits)
    requires forall j :: 0 <= j < WordBits * |words| ==> BitAt(next, j) == if j == i then valid else BitAt(words, j)
    ensures Packed(next, len) && Unpack(next, len) == Unpack(words, len)[i := valid]
  {
    assert len <= WordBits * |words|;
  }

  lemma PackedGrow(words: seq<nat>, len: nat)
    requires Packed(words, len)
    ensures var next := if len % WordBits == 0 then words + [0] else words;
            Packed(next, len + 1) && Unpack(next, len + 1) == Unpack(words, len) + [false]
  {
    var next := if len % WordBits == 0 then words + [0] else words;
    forall j | 0 <= j < WordBits * |next| ensures BitAt(next, j) == (j < len && BitAt(words, j)) {
      GrownBit(words, len, next, j);
    }
    RowsGrown(words, next, len);
  }

  lemma GrownBit(words: seq<nat>, len: nat, next: seq<nat>, j: nat)
    requires Packed(words, len) && next == (if len % WordBits == 0 then words + [0] else words) && j < WordBits * |next|
    ensures j < len ==> j / WordBits < |words|
    ensures BitAt(next, j) == (j < len && BitAt(words, j))
  {
    if j / WordBits < |words| {
      assert next[j / WordBits] == words[j / WordBits];
    } else {
      ZeroBits(j % WordBits);
    }
  }

  lemma RowsGrown(words: seq<nat>, next: seq<nat>, len: nat)
    requires Packed(words, len) && |next| == WordCount(len + 1) && forall k :: 0 <= k < |next| ==> next[k] < Pow2(WordBits)
    requires forall j :: 0 <= j < WordBits * |next| ==> BitAt(next, j) == (j < len && BitAt(words, j))
    ensures Packed(next, len + 1) && Unpack(next, len + 1) == Unpack(words, len) + [false]
  {
    assert len <= WordBits * |words| && len + 1 <= WordBits * |next|;
  }

  function SumOnes(words: seq<nat>): nat
  {
    if words == [] then 0 else SumOnes(words[..|words| - 1]) + Ones(words[|words| - 1])
  }

  lemma {:induction false} SumOnesCounts(words: seq<nat>)
    requires forall k :: 0 <= k < |words| ==> words[k] < Pow2(WordBits)
    ensures SumOnes(words) == CountTrue(AllBits(words))
  {
    if words != [] {
      var n := |words| - 1;
      var prior, last := words[..n], words[n];
      SumOnesCounts(prior);
      OnesCount(last, WordBits);
      assert AllBits(words) == AllBits(prior) + BitsOf(last, WordBits) by {
        forall i | 0 <= i < WordBits * |words|
          ensures AllBits(words)[i] == (AllBits(prior) + BitsOf(last, WordBits))[i]
        {
          if i < WordBits * n {
            assert i / WordBits < n && prior[i / WordBits] == words[i / WordBits];
          } else {
            assert i / WordBits == n && i % WordBits == i - WordBits * n;
          }
        }
      }
      CountAppend(AllBits(prior), BitsOf(last, WordBits));
    }
  }

  /** Padding bits count for nothing. */
  lemma PackedCount(words: seq<nat>, len: nat)
    requires Packed(words, len)
    ensures SumOnes(words) == CountTrue(Unpack(words, len))
  {
    SumOnesCounts(words);
    CountPadded(AllBits(words), len);
  }

  lemma CountPadded(all: seq<bool>, len: nat)
    requires len <= |all| && forall i :: len <= i < |all| ==> !all[i]
    ensures CountTrue(all) == CountTrue(all[..len])
  {
    assert all == all[..len] + all[len..];
    CountAppend(all[..len], all[len..]);
    CountNone(all[len..]);
  }

  class Bitmap {
    var words: seq<nat>
    var len: nat

    ghost predicate Valid()
      reads this
    {
      Packed(words, len)
    }

    /** The rows, one boolean each. */
    ghost function Rows(): seq<bool>
      reads this
      requires Valid()
    {
      Unpack(words, len)
    }

    constructor NewNull(len: nat)
      ensures Valid() && |Rows()| == len && forall i :: 0 <= i < len ==> !Rows()[i]
    {
      words := seq(WordCount(len), _ => 0);
      this.len := len;
      new;
      forall i | 0 <= i < WordBits * |words| ensures !BitAt(words, i) { ZeroBits(i % WordBits); }
    }

    constructor NewValid(len: nat)
      ensures Valid() && |Rows()| == len && forall i :: 0 <= i < len ==> Rows()[i]
    {
      var full := seq(WordCount(len), _ => Pow2(WordBits) - 1);
      var masked := MaskTrailing(full, len);
      words := masked;
      this.len := len;
      new;
      forall i | 0 <= i < WordBits * |words| ensures BitAt(words, i) <==> i < len {
        AllOnes(WordBits, i % WordBits);
      }
    }

    method Get(i: nat) returns (valid: bool)
      requires Valid() && i < len
      ensures valid == Rows()[i]
    {
      valid := Bit(words[i / WordBits], i % WordBits);
    }

    method Set(i: nat, valid: bool)
      requires Valid() && i < len
      modifies this`words
      ensures Valid() && Rows() == old(Rows())[i := valid]
    {
      PackedSet(words, len, i, valid);
      var k, b := i / WordBits, i % WordBits;
      words := words[k := if valid then WithBit(words[k], b) else WithoutBit(words[k], b)];
    }

    method Push(valid: bool)
      requires Valid()
      modifies this
      ensures Valid() && Rows() == old(Rows()) + [valid]
    {
      PackedGrow(words, len);
      ghost var before := Rows();
      if len % WordBits == 0 { words := words + [0]; }
      len := len + 1;
      Set(len - 1, valid);
      assert (before + [false])[|before| := valid] == before + [valid];
    }

    method CountValid() returns (n: nat)
      requires Valid()
      ensures n == CountTrue(Rows())
    {
      n := 0;
      var k := 0;
      while k < |words|
        invariant 0 <= k <= |words| && n == SumOnes(words[..k])
      {
        assert words[..k + 1][..k] == words[..k];
        n := n + Ones(words[k]);
        k := k + 1;
      }
      assert words[..k] == words;
      PackedCount(words, len);
    }
  }

  lemma {:induction false} AllOnes(n: nat, i: nat)
    requires i < n
    ensures Bit(Pow2(n) - 1, i)
  {
    if i > 0 {
      assert (Pow2(n) - 1) / 2 == Pow2(n - 1) - 1;
      AllOnes(n - 1, i - 1);
    }
  }

  lemma SamePlace(i: nat, j: nat)
    ensures i / WordBits == j / WordBits && i % WordBits == j % WordBits <==> i == j
  {
  }

  function Masked(words: seq<nat>, len: nat): (r: seq<nat>)
    ensures |r| == |words|
  {
    var rem := len % WordBits;
    if rem == 0 || words == [] then words
    else words[|words| - 1 := LowBits(words[|words| - 1], rem)]
  }

  ghost predicate Words(words: seq<nat>, len: nat)
  {
    |words| == WordCount(len) && forall k :: 0 <= k < |words| ==> words[k] < Pow2(WordBits)
  }

  lemma MaskedBits(words: seq<nat>, len: nat, i: nat)
    requires Words(words, len) && i < WordBits * |words|
    ensures i / WordBits < |words|
    ensures BitAt(Masked(words, len), i) <==> i < len && BitAt(words, i)
  {
    var rem, last := len % WordBits, |words| - 1;
    LastWord(len, i);
    if rem != 0 && i / WordBits == last { LowBitsAt(words[last], rem, i % WordBits); }
  }

  /** Only the last word holds rows and padding both. */
  lemma LastWord(len: nat, i: nat)
    requires i < WordBits * WordCount(len)
    ensures i / WordBits <= WordCount(len) - 1
    ensures i / WordBits < WordCount(len) - 1 || len % WordBits == 0 ==> i < len
    ensures i / WordBits == WordCount(len) - 1 && len % WordBits != 0 ==> (i < len <==> i % WordBits < len % WordBits)
  {
  }

  lemma MaskedFits(words: seq<nat>, len: nat)
    requires Words(words, len)
    ensures Words(Masked(words, len), len)
  {
    var rem, last := len % WordBits, |words| - 1;
    if rem != 0 { LowBitsAt(words[last], rem, 0); }
  }

  lemma MaskedIsPacked(words: seq<nat>, len: nat)
    requires Words(words, len)
    ensures Packed(Masked(words, len), len)
    ensures Masked(words, len) == words <==> Packed(words, len)
  {
    var r := Masked(words, len);
    MaskedFits(words, len);
    forall i | 0 <= i < WordBits * |words| ensures BitAt(r, i) <==> i < len && BitAt(words, i) {
      MaskedBits(words, len, i);
    }
    if Packed(words, len) { PackedIsCanonical(r, words, len); }
  }

  /** `mask_trailing`: clears every bit at or past `len`, and changes nothing else. */
  method MaskTrailing(words: seq<nat>, len: nat) returns (r: seq<nat>)
    requires Words(words, len)
    ensures Packed(r, len) && (r == words <==> Packed(words, len))
    ensures forall i :: 0 <= i < WordBits * |r| ==> (BitAt(r, i) <==> i < len && BitAt(words, i))
  {
    var rem := len % WordBits;
    r := words;
    if rem != 0 && |words| > 0 {
      r := r[|r| - 1 := LowBits(r[|r| - 1], rem)];
    }
    MaskedIsPacked(words, len);
    forall i | 0 <= i < WordBits * |r| ensures BitAt(r, i) <==> i < len && BitAt(words, i) {
      MaskedBits(words, len, i);
    }
  }

  /** `from_words`: accepts exactly the canonical packed forms of `len` rows. */
  method FromWords(words: seq<nat>, len: nat) returns (ok: bool)
    requires forall k :: 0 <= k < |words| ==> words[k] < Pow2(WordBits)
    ensures ok <==> Packed(words, len)
  {
    if |words| != WordCount(len) { return false; }
    var masked := MaskTrailing(words, len);
    ok := masked == words;
  }
}
