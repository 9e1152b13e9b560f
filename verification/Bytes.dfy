/** Fixed-width integers, byte sequences and the block moves the C sources use. */
module Bytes {
  import opened Bits

  newtype uint8 = x: int | 0 <= x < 0x100
  type uint16 = x: int | 0 <= x < 0x1_0000
  type uint32 = x: int | 0 <= x < 0x1_0000_0000
  type uint64 = x: int | 0 <= x < 0x1_0000_0000_0000_0000

  type bytes = seq<uint8>

  datatype Option<+T> = None | Some(value: T)

  /** Big-endian 16-bit values, as every header of this program stores them. */
  function U16(hi: uint8, lo: uint8): uint16 { hi as int * 256 + lo as int }
  function Hi(x: uint16): uint8 { (x / 256) as uint8 }
  function Lo(x: uint16): uint8 { (x % 256) as uint8 }

  /** A cast to uint16_t. */
  function Low16(n: nat): uint16 { n % 0x1_0000 }

  lemma Low16Small(n: nat)
    requires n < 0x1_0000
    ensures Low16(n) == n
  {
  }

  lemma U16HiLo(x: uint16)
    ensures U16(Hi(x), Lo(x)) == x
  {
  }

  /** Exclusive or. */
  function Xor(a: uint8, b: uint8): uint8 { ((a as bv8) ^ (b as bv8)) as uint8 }

  lemma BitsBack(a: uint8)
    ensures (a as bv8) as uint8 == a
  {
    ByteBack(a as int);
  }

  lemma BitsForth(x: bv8)
    ensures (x as uint8) as bv8 == x
  {
    ByteForth(x);
  }

  lemma XorInvolution(a: uint8, b: uint8)
    ensures Xor(Xor(a, b), b) == a
  {
    BitsForth((a as bv8) ^ (b as bv8));
    XorBack(a as bv8, b as bv8);
    BitsBack(a);
  }

  lemma XorCommutes(a: uint8, b: uint8)
    ensures Xor(a, b) == Xor(b, a) && Xor(a, a) == 0
  {
  }

  /** A byte and what it becomes differ by the other operand, bit for bit. */
  lemma XorDiffers(a: uint8, b: uint8)
    ensures (a as bv8) ^ (Xor(a, b) as bv8) == b as bv8
  {
    BitsForth((a as bv8) ^ (b as bv8));
    XorBack(a as bv8, b as bv8);
  }

  /** Only zero changes nothing. */
  lemma XorChanges(a: uint8, b: uint8)
    ensures Xor(a, b) == a <==> b == 0
  {
    hide Xor;
    XorCommutes(a, b);
    XorInvolution(b, a);
    XorInvolution(a, a);
    XorCommutes(a, 0);
  }

  /** `s` with the bytes from `off` on overwritten by `x`. */
  function Splice(s: bytes, off: nat, x: bytes): (r: bytes)
    requires off + |x| <= |s|
    ensures |r| == |s|
  {
    s[..off] + x + s[off + |x|..]
  }

  /** The parts of a spliced sequence. */
  lemma SpliceParts(s: bytes, off: nat, x: bytes)
    requires off + |x| <= |s|
    ensures Splice(s, off, x)[..off] == s[..off]
    ensures Splice(s, off, x)[off..off + |x|] == x
    ensures Splice(s, off, x)[off + |x|..] == s[off + |x|..]
  {
  }

  lemma SpliceFront(s: bytes, x: bytes)
    requires |x| <= |s|
    ensures Splice(s, 0, x)[..|x|] == x
  {
  }

  lemma SpliceSame(s: bytes, off: nat, n: nat)
    requires off + n <= |s|
    ensures Splice(s, off, s[off..off + n]) == s
  {
  }

  lemma SpliceAdjacent(s: bytes, off: nat, x: bytes, y: bytes)
    requires off + |x| + |y| <= |s|
    ensures Splice(Splice(s, off, x), off + |x|, y) == Splice(s, off, x + y)
  {
  }

  lemma SpliceAgain(s: bytes, off: nat, x: bytes, y: bytes)
    requires off + |x| <= |s| && |x| == |y|
    ensures Splice(Splice(s, off, x), off, y) == Splice(s, off, y)
  {
  }

  /** `s` with a 16-bit value stored at `i`. */
  function Stored(s: bytes, i: nat, c: uint16): (r: bytes)
    requires i + 1 < |s|
    ensures |r| == |s|
  {
    s[i := Hi(c)][i + 1 := Lo(c)]
  }

  function Zeroed(s: bytes, i: nat): (r: bytes)
    requires i + 1 < |s|
    ensures |r| == |s|
  {
    s[i := 0][i + 1 := 0]
  }

  lemma StoredZero(s: bytes, i: nat)
    requires i + 1 < |s|
    ensures Stored(s, i, 0) == Zeroed(s, i)
  {
  }

  lemma SpliceKeeps(s: bytes, off: nat, x: bytes, lo: nat, hi: nat)
    requires off + |x| <= |s| && lo <= hi <= off
    ensures Splice(s, off, x)[lo..hi] == s[lo..hi]
  {
  }

  lemma StoredOverZero(s: bytes, i: nat, c: uint16)
    requires i + 1 < |s|
    ensures Stored(Zeroed(s, i), i, c) == Stored(s, i, c)
    ensures Zeroed(Stored(s, i, c), i) == Zeroed(s, i)
  {
  }

  lemma StoredInSplice(s: bytes, off: nat, x: bytes, i: nat, c: uint16)
    requires off + |x| <= |s| && i + 1 < |x|
    ensures Stored(Splice(s, off, x), off + i, c) == Splice(s, off, Stored(x, i, c))
  {
  }

  lemma SpliceByte(s: bytes, a: bytes, b: bytes, c: bytes, i: nat, x: uint8)
    requires |a| + |b| + |c| <= |s| && i < |b|
    ensures Splice(s, 0, a + b + c)[|a| + i := x] == Splice(s, 0, a + b[i := x] + c)
  {
  }

  lemma SpliceMiddle(s: bytes, a: bytes, b: bytes, c: bytes, b2: bytes)
    requires |a| + |b| + |c| <= |s| && |b2| == |b|
    ensures Splice(s, 0, a + b + c)[|a|..|a| + |b|] == b
    ensures Splice(Splice(s, 0, a + b + c), |a|, b2) == Splice(s, 0, a + b2 + c)
  {
  }

  lemma Regroup(a: bytes, b: bytes, c: bytes, d: bytes)
    ensures (a + b) + c + d == a + b + (c + d)
  {
  }

  lemma SliceSlices(s: bytes, len: nat, i: nat, j: nat)
    requires i <= j <= len <= |s|
    ensures s[..len][..i] == s[..i] && s[..len][i..j] == s[i..j] && s[..len][j..] == s[j..len]
  {
  }

  lemma ThreeParts(s: bytes, a: bytes, b: bytes, c: bytes, n: nat)
    requires |a| + |b| <= n <= |s| && s[..|a|] == a && s[|a|..|a| + |b|] == b && s[|a| + |b|..n] == c
    ensures s == Splice(s, 0, a + b + c)
  {
    assert s[..n] == a + b + c;
    SpliceSame(s, 0, n);
  }

  lemma SpliceThree(s: bytes, a: bytes, b: bytes, c: bytes)
    requires |a| + |b| + |c| <= |s|
    ensures var r := Splice(s, 0, a + b + c);
            r[..|a| + |b|] == a + b && r[|a|..|a| + |b|] == b && r[|a| + |b|..|a| + |b| + |c|] == c
  {
  }

  lemma SameU16(a: uint8, b: uint8, c: uint8, d: uint8)
    requires U16(a, b) == U16(c, d)
    ensures a == c && b == d
  {
  }

  lemma PrefixParts(s: bytes, w: bytes, t: nat, i: nat)
    requires i <= t <= |s| && t <= |w| && s[..t] == w[..t]
    ensures s[..i] == w[..i] && s[i..t] == w[i..t]
  {
    assert s[..i] == s[..t][..i] && s[i..t] == s[..t][i..];
  }

  /** memmove (and memcpy): the source is read before the destination changes, so overlap is harmless. */
  method Move(dst: array<uint8>, dOff: nat, src: array<uint8>, sOff: nat, n: nat)
    requires dOff + n <= dst.Length && sOff + n <= src.Length
    modifies dst
    ensures dst[..] == Splice(old(dst[..]), dOff, old(src[sOff..sOff + n]))
  {
    forall i | 0 <= i < n {
      dst[dOff + i] := src[sOff + i];
    }
  }

  /** Stores a header computed elsewhere. */
  method Write(dst: array<uint8>, dOff: nat, x: bytes)
    requires dOff + |x| <= dst.Length
    modifies dst
    ensures dst[..] == Splice(old(dst[..]), dOff, x)
  {
    forall i | 0 <= i < |x| {
      dst[dOff + i] := x[i];
    }
  }

  method Put16(a: array<uint8>, i: nat, c: uint16)
    requires i + 1 < a.Length
    modifies a
    ensures a[..] == Stored(old(a[..]), i, c)
  {
    a[i], a[i + 1] := Hi(c), Lo(c);
  }
}
