/** Powers of two and bitwise and, on numbers. */
module Masks {
  import opened Bytes
  import opened Modular

  function Pow2(n: nat): (p: nat)
    ensures p > 0
  {
    if n == 0 then 1 else 2 * Pow2(n - 1)
  }

  /** Bitwise and of the `n` low bits of two numbers. */
  function AndBits(a: nat, b: nat, n: nat): (r: nat)
    ensures r <= a && r <= b
  {
    if n == 0 then 0 else 2 * AndBits(a / 2, b / 2, n - 1) + if a % 2 == 1 && b % 2 == 1 then 1 else 0
  }

  function And32(a: uint32, b: uint32): uint32 { AndBits(a, b, 32) }

  lemma {:induction false} AndSelf(a: nat, n: nat)
    requires a < Pow2(n)
    ensures AndBits(a, a, n) == a
  {
    if n > 0 {
      AndSelf(a / 2, n - 1);
    }
  }

  lemma {:induction false} OneBit(cap: nat, n: nat)
    requires 0 < cap < Pow2(n) && AndBits(cap, cap - 1, n) == 0
    ensures exists k :: 0 <= k < n && cap == Pow2(k)
  {
    if cap == 1 {
      assert cap == Pow2(0);
    } else if cap % 2 == 0 {
      assert (cap - 1) / 2 == cap / 2 - 1;
      OneBit(cap / 2, n - 1);
      var k :| 0 <= k < n - 1 && cap / 2 == Pow2(k);
      assert cap == Pow2(k + 1);
    } else {
      AndSelf(cap / 2, n - 1);
      assert false;
    }
  }

  lemma {:induction false} PowerPasses(k: nat, n: nat)
    ensures AndBits(Pow2(k), Pow2(k) - 1, n) == 0
    decreases n
  {
    if n > 0 && k > 0 {
      assert (Pow2(k) - 1) / 2 == Pow2(k - 1) - 1;
      PowerPasses(k - 1, n - 1);
    } else if n > 0 {
      assert Pow2(0) == 1;
    }
  }

  lemma Pow2Of32()
    ensures Pow2(32) == 0x1_0000_0000
  {
    assert Pow2(8) == 256;
    assert Pow2(16) == 0x1_0000;
    assert Pow2(24) == 0x100_0000;
  }

  lemma {:induction false} MaskBits(x: nat, k: nat, n: nat)
    requires k <= n
    ensures AndBits(x, Pow2(k) - 1, n) == x % Pow2(k)
  {
    if k > 0 {
      MaskBits(x / 2, k - 1, n - 1);
      assert (Pow2(k) - 1) / 2 == Pow2(k - 1) - 1;
      ModDouble(x, Pow2(k - 1));
    } else {
      AndZero(x, n);
    }
  }

  lemma {:induction false} AndZero(x: nat, n: nat)
    ensures AndBits(x, 0, n) == 0
    decreases n
  {
    if n > 0 {
      AndZero(x / 2, n - 1);
    }
  }

  lemma ModDouble(x: nat, m: nat)
    requires m > 0
    ensures x % (2 * m) == 2 * (x / 2 % m) + x % 2
  {
    var q, r := x / 2 / m, x / 2 % m;
    assert x / 2 == q * m + r;
    assert q * (2 * m) == 2 * (q * m);
    DivUnique(x, 2 * m, q, 2 * r + x % 2);
  }

  /** Bits beyond the `n` lowest do not matter. */
  lemma {:induction false} AndIgnoresHigh(x: nat, b: nat, n: nat)
    ensures AndBits(x % Pow2(n), b, n) == AndBits(x, b, n)
    decreases n
  {
    if n > 0 {
      var z, low := x / 2 % Pow2(n - 1), x % 2;
      ModDouble(x, Pow2(n - 1));
      AndIgnoresHigh(x / 2, b / 2, n - 1);
      DivUnique(2 * z + low, 2, z, low);
      assert x % Pow2(n) == 2 * z + low;
      hide Pow2;
    }
  }

  lemma {:induction false} AndCommutes(a: nat, b: nat, n: nat)
    ensures AndBits(a, b, n) == AndBits(b, a, n)
  {
    if n > 0 {
      AndCommutes(a / 2, b / 2, n - 1);
    }
  }

  /** A mask of all bits but the `k` lowest clears these. */
  lemma {:induction false} HighMaskBits(x: nat, k: nat, n: nat)
    requires k <= n && x < Pow2(n)
    ensures Pow2(k) <= Pow2(n) && AndBits(x, Pow2(n) - Pow2(k), n) == x - x % Pow2(k)
  {
    if k > 0 {
      HighMaskBits(x / 2, k - 1, n - 1);
      ModDouble(x, Pow2(k - 1));
      assert (Pow2(n) - Pow2(k)) / 2 == Pow2(n - 1) - Pow2(k - 1);
    } else {
      MaskBits(x, n, n);
      ModSmall(x, Pow2(n));
      assert Pow2(0) == 1;
    }
  }

  /** ipv4_prefix_to_mask_be, for an address read as a number. */
  function PrefixMask(len: nat): (m: uint32)
    requires len <= 32
  {
    Pow2Of32();
    Pow2Grows(32 - len, 32);
    0x1_0000_0000 - Pow2(32 - len)
  }

  lemma {:induction false} Pow2Grows(k: nat, n: nat)
    requires k <= n
    ensures Pow2(k) <= Pow2(n)
    decreases n
  {
    if k < n {
      Pow2Grows(k, n - 1);
    }
  }

  lemma MaskedBlock(a: uint32, len: nat)
    requires len <= 32
    ensures And32(a, PrefixMask(len)) == a - a % Pow2(32 - len)
  {
    hide AndBits;
    Pow2Of32();
    HighMaskBits(a, 32 - len, 32);
    hide Pow2;
  }

  /** Two addresses agree under the mask of a prefix exactly if they are in one block of 2^(32 - len) addresses. */
  lemma SamePrefix(a: uint32, b: uint32, len: nat)
    requires len <= 32
    ensures And32(a, PrefixMask(len)) == And32(b, PrefixMask(len)) <==> a / Pow2(32 - len) == b / Pow2(32 - len)
  {
    hide And32, PrefixMask, Pow2;
    MaskedBlock(a, len);
    MaskedBlock(b, len);
    var m := Pow2(32 - len);
    var q, r := DivParts(a, m);
    var p, s := DivParts(b, m);
    SameMultiple(q, p, m);
  }

  lemma SameMultiple(p: nat, q: nat, m: nat)
    requires m > 0
    ensures p * m == q * m <==> p == q
  {
    if p < q {
      MulGrows(q - p, m);
    } else if q < p {
      MulGrows(p - q, m);
    }
  }

  /** ipv4_mask_be_is_contiguous, for a mask read as a number. */
  predicate Contiguous(m: uint32) {
    m == 0 || And32(0xFFFF_FFFF - m, 0x1_0000_0000 - m) == 0
  }

  lemma PrefixOf(m: uint32) returns (len: nat)
    requires Contiguous(m)
    ensures len <= 32 && m == PrefixMask(len)
  {
    hide AndBits;
    Pow2Of32();
    len := 0;
    if m != 0 {
      var cap := 0x1_0000_0000 - m;
      AndCommutes(cap - 1, cap, 32);
      OneBit(cap, 32);
      var k :| 0 <= k < 32 && cap == Pow2(k);
      len := 32 - k;
    }
    hide Pow2;
  }

  lemma PrefixPasses(len: nat)
    requires len <= 32
    ensures Contiguous(PrefixMask(len))
  {
    hide AndBits;
    Pow2Of32();
    Pow2Grows(32 - len, 32);
    hide Pow2;
    var cap := Pow2(32 - len);
    if PrefixMask(len) != 0 {
      AndCommutes(cap - 1, cap, 32);
      PowerPasses(32 - len, 32);
    }
  }

  /** The masks it accepts are those of the prefix lengths 0 to 32. */
  lemma ContiguousMeansPrefix(m: uint32)
    ensures Contiguous(m) <==> exists len: nat :: len <= 32 && m == PrefixMask(len)
  {
    hide Contiguous, PrefixMask;
    if Contiguous(m) {
      var len := PrefixOf(m);
    }
    if len: nat :| len <= 32 && m == PrefixMask(len) {
      PrefixPasses(len);
    }
  }
}
