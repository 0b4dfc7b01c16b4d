/** Single bits of a bitmap block, addressed as balloc and bfree address them. */
module Bitmap {
  import opened Bytes

  const BPB: nat := BSIZE * 8

  /** Bit k of a number: (x & (1 << k)) != 0. */
  predicate Test(x: nat, k: nat) {
    if k == 0 then x % 2 == 1 else Test(x / 2, k - 1)
  }

  /** Sets (x | m) or clears (x & ~m) bit k. */
  function Put(x: nat, k: nat, v: bool): nat {
    if k == 0 then 2 * (x / 2) + (if v then 1 else 0)
    else 2 * Put(x / 2, k - 1, v) + x % 2
  }

  lemma {:induction false} PutTest(x: nat, k: nat, v: bool, j: nat)
    ensures Test(Put(x, k, v), j) == if j == k then v else Test(x, j)
  {
    if k == 0 {
      if j > 0 {
        assert Put(x, k, v) / 2 == x / 2;
      }
    } else {
      var half := Put(x / 2, k - 1, v);
      assert Put(x, k, v) == 2 * half + x % 2;
      assert Put(x, k, v) / 2 == half && Put(x, k, v) % 2 == x % 2;
      if j > 0 {
        PutTest(x / 2, k - 1, v, j - 1);
      }
    }
  }

  function Exp2(n: nat): (e: nat)
    ensures e > 0
  {
    if n == 0 then 1 else 2 * Exp2(n - 1)
  }

  lemma {:induction false} PutBound(x: nat, k: nat, v: bool, n: nat)
    requires k < n && x < Exp2(n)
    ensures Put(x, k, v) < Exp2(n)
  {
    var e := Exp2(n - 1);
    assert Exp2(n) == 2 * e;
    if k > 0 {
      PutBound(x / 2, k - 1, v, n - 1);
      assert Put(x / 2, k - 1, v) < e;
    }
  }

  /** Bit k is what remains of the number after k halvings. */
  lemma {:induction false} TestIs(x: nat, k: nat)
    ensures Test(x, k) <==> x / Exp2(k) % 2 == 1
  {
    if k > 0 {
      TestIs(x / 2, k - 1);
      DivideTwice(x, Exp2(k - 1));
    }
  }

  lemma DivideTwice(x: nat, e: nat)
    requires e > 0
    ensures x / 2 / e == x / (2 * e)
  {
    var q, r := x / 2 / e, x / 2 % e;
    assert x / 2 == q * e + r;
    assert x == q * (2 * e) + (2 * r + x % 2) && 0 <= 2 * r + x % 2 < 2 * e;
    QuotientIs(x, 2 * e, q, 2 * r + x % 2);
  }

  lemma QuotientIs(x: nat, n: nat, q: nat, r: nat)
    requires n > 0 && x == q * n + r && r < n
    ensures x / n == q
  {
    assert x == x / n * n + x % n;
    if x / n < q {
      Multiples(x / n, q, n);
    } else if q < x / n {
      Multiples(q, x / n, n);
    }
  }

  lemma {:induction false} Multiples(p: nat, q: nat, n: nat)
    requires p < q
    ensures p * n + n <= q * n
  {
    assert q * n == (q - 1) * n + n;
    if p < q - 1 {
      Multiples(p, q - 1, n);
    }
  }

  /** The bit of block bi within its bitmap block. */
  predicate BitAt(b: Block, bi: nat)
    requires bi < BPB
  {
    Test(b.data[bi / 8], bi % 8)
  }

  /** Changes one bit; every other bit of the block reads as before. */
  function PutBit(b: Block, bi: nat, v: bool): (r: Block)
    requires bi < BPB
    ensures BitAt(r, bi) == v
    ensures forall j: nat :: j < BPB && j != bi ==> BitAt(r, j) == BitAt(b, j)
  {
    assert Exp2(8) == 256;
    PutBound(b.data[bi / 8], bi % 8, v, 8);
    var r := Block(b.data[bi / 8 := Put(b.data[bi / 8], bi % 8, v)]);
    PutBitLaw(b, r, bi, v);
    r
  }

  lemma PutBitLaw(b: Block, r: Block, bi: nat, v: bool)
    requires bi < BPB && Put(b.data[bi / 8], bi % 8, v) < 256
    requires r.data == b.data[bi / 8 := Put(b.data[bi / 8], bi % 8, v)]
    ensures forall j: nat :: j < BPB ==> BitAt(r, j) == if j == bi then v else BitAt(b, j)
  {
    forall j: nat | j < BPB ensures BitAt(r, j) == if j == bi then v else BitAt(b, j) {
      if j / 8 == bi / 8 {
        PutTest(b.data[bi / 8], bi % 8, v, j % 8);
      }
    }
  }
}
