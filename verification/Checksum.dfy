/** The Internet checksums of `src/crypto/packet_crypto.c`. */
module Checksum {
  import opened Bytes

  const ONES: nat := 0xFFFF

  /** The 16-bit word at `i`; a last odd byte is padded with zero. */
  function Word(s: bytes, i: nat): (w: nat)
    requires i < |s|
    ensures w <= ONES
  {
    U16(s[i], if i + 1 < |s| then s[i + 1] else 0)
  }

  function Sum16(s: bytes): nat {
    if s == [] then 0 else if |s| == 1 then Word(s, 0) else Word(s, 0) + Sum16(s[2..])
  }

  lemma {:induction false} SumBound(s: bytes)
    ensures Sum16(s) <= ONES * ((|s| + 1) / 2)
  {
    if |s| > 1 {
      SumBound(s[2..]);
    }
  }

  /** What is left to sum from offset `i` on. */
  function From(s: bytes, i: nat): bytes { if i < |s| then s[i..] else [] }

  /** Taking one word off the front of the rest. */
  lemma SumStep(s: bytes, i: nat)
    requires i < |s|
    ensures Sum16(From(s, i)) == Word(s, i) + Sum16(From(s, i + 2))
  {
    if i + 2 < |s| {
      assert s[i..][2..] == s[i + 2..];
    }
  }

  lemma CarryKeepsResidue(sum: nat)
    ensures (sum % 0x1_0000 + sum / 0x1_0000) % ONES == sum % ONES
  {
    var x := sum % 0x1_0000 + sum / 0x1_0000;
    assert sum == ONES * (sum / 0x1_0000) + x;
    MultipleKeepsResidue(x, sum / 0x1_0000);
  }

  lemma MultipleKeepsResidue(x: nat, k: nat)
    ensures (ONES * k + x) % ONES == x % ONES
  {
    var q, r := x / ONES, x % ONES;
    assert ONES * k + x == ONES * (k + q) + r;
  }

  /** The one's-complement sum: carries folded back until 16 bits are left. */
  function Fold(sum: nat): (r: nat)
    ensures r <= ONES
    ensures r % ONES == sum % ONES
    ensures r == 0 <==> sum == 0
  {
    if sum <= ONES then sum else
      CarryKeepsResidue(sum);
      Fold(sum % 0x1_0000 + sum / 0x1_0000)
  }

  /** Complementing a folded sum and adding it back gives all ones. */
  lemma FoldComplement(sum: nat, c: nat, total: nat)
    requires c == ONES - Fold(sum) && total == sum + c
    ensures Fold(total) == ONES
  {
    hide Fold;
    var q := sum / ONES;
    if Fold(sum) == ONES {
      MultipleKeepsResidue(0, q);
      assert total == ONES * q;
    } else {
      assert total == ONES * (q + 1);
      MultipleKeepsResidue(0, q + 1);
    }
  }

  /** Replacing the word at an even offset changes the sum by the difference. */
  lemma {:induction false} SumUpdate(s: bytes, i: nat, hi: uint8, lo: uint8)
    requires i % 2 == 0 && i + 1 < |s|
    ensures Sum16(s[i := hi][i + 1 := lo]) == Sum16(s) - Word(s, i) + U16(hi, lo)
  {
    var t := s[i := hi][i + 1 := lo];
    if i == 0 {
      assert t[2..] == s[2..];
    } else {
      SumUpdate(s[2..], i - 2, hi, lo);
      assert t[2..] == s[2..][i - 2 := hi][i - 1 := lo];
      assert Word(s[2..], i - 2) == Word(s, i);
    }
  }

  function IpChecksum(hdr: bytes): (c: uint16) { ONES - Fold(Sum16(hdr)) }

  /** The addresses, the protocol and the segment length. */
  function PseudoSum(ip: bytes, proto: uint8, len: uint16): nat
    requires |ip| >= 20
  {
    Word(ip, 12) + Word(ip, 14) + Word(ip, 16) + Word(ip, 18) + proto as nat + len
  }

  function TcpChecksum(ip: bytes, seg: bytes): (c: uint16) {
    if |ip| < 20 || |seg| < 20 then 0
    else ONES - Fold(PseudoSum(ip, 6, |seg| % 0x1_0000) + Sum16(Zeroed(seg, 16)))
  }

  /** The UDP length field, clamped to what the segment can hold. */
  function UdpSpan(seg: bytes): (n: nat)
    requires 8 <= |seg| <= ONES
    ensures 8 <= n <= |seg|
  {
    var field := if U16(seg[4], seg[5]) < 8 then 8 else U16(seg[4], seg[5]);
    if field > |seg| then |seg| else field
  }

  /** A length field that makes sense is believed; another gives way to the header, or to what there is. */
  lemma SpanIs(seg: bytes)
    requires 8 <= |seg| <= ONES
    ensures var field := 256 * seg[4] as nat + seg[5] as nat;
            UdpSpan(seg) == if field < 8 then 8 else if field <= |seg| then field else |seg|
  {
  }

  function UdpChecksum(ip: bytes, seg: bytes): (c: uint16)
    requires |seg| <= ONES
  {
    if |ip| < 20 || |seg| < 8 then 0
    else ONES - Fold(PseudoSum(ip, 17, UdpSpan(seg)) + Sum16(seg[..UdpSpan(seg)]))
  }

  /** Storing the complement of a sum in a zero word at an even offset makes the whole sum all ones. */
  lemma StoringCompletes(base: nat, z: bytes, i: nat, c: uint16)
    requires i % 2 == 0 && i + 1 < |z| && z[i] == 0 && z[i + 1] == 0
    requires c == ONES - Fold(base + Sum16(z))
    ensures Fold(base + Sum16(Stored(z, i, c))) == ONES
  {
    hide Fold, Sum16, Stored;
    SumStored(z, i, c);
    FoldComplement(base + Sum16(z), c, base + Sum16(Stored(z, i, c)));
  }

  lemma SumStored(z: bytes, i: nat, c: uint16)
    requires i % 2 == 0 && i + 1 < |z| && z[i] == 0 && z[i + 1] == 0
    ensures Sum16(Stored(z, i, c)) == Sum16(z) + c
  {
    hide Sum16, Hi, Lo;
    SumUpdate(z, i, Hi(c), Lo(c));
    U16HiLo(c);
  }

  /** RFC 1071 section 1: over the header with its checksum stored, the one's-complement sum is all ones. */
  lemma IpChecksumVerifies(hdr: bytes)
    requires |hdr| >= 12
    ensures Fold(Sum16(Stored(hdr, 10, IpChecksum(Zeroed(hdr, 10))))) == ONES
  {
    hide Fold, Sum16, Stored;
    var c := IpChecksum(Zeroed(hdr, 10));
    StoringCompletes(0, Zeroed(hdr, 10), 10, c);
    StoredOverZero(hdr, 10, c);
  }

  /** The same for a TCP segment and its pseudo header. */
  lemma TcpChecksumVerifies(ip: bytes, seg: bytes)
    requires |ip| >= 20 && |seg| >= 20
    ensures Fold(PseudoSum(ip, 6, |seg| % 0x1_0000) + Sum16(Stored(seg, 16, TcpChecksum(ip, seg)))) == ONES
  {
    hide Fold, Sum16, Stored, PseudoSum;
    var c := TcpChecksum(ip, seg);
    StoringCompletes(PseudoSum(ip, 6, |seg| % 0x1_0000), Zeroed(seg, 16), 16, c);
    StoredOverZero(seg, 16, c);
  }

  /* Over bytes, as the standards say it */

  /** A sum starts over at any even place. */
  lemma {:induction false} SumAppend(a: bytes, b: bytes)
    requires |a| % 2 == 0
    ensures Sum16(a + b) == Sum16(a) + Sum16(b)
  {
    if a == [] {
      assert a + b == b;
    } else {
      SumAppend(a[2..], b);
      assert (a + b)[2..] == a[2..] + b;
      assert (a + b)[0] == a[0] && (a + b)[1] == a[1];
    }
  }

  /** Two bytes count as a big-endian word, and an odd last one as the high byte of a word. */
  lemma SumOfFew(a: uint8, b: uint8)
    ensures Sum16([]) == 0 && Sum16([a, b]) == 256 * a as nat + b as nat && Sum16([a]) == 256 * a as nat
  {
    assert [a, b][2..] == [];
  }

  lemma SumOdd(s: bytes)
    requires |s| % 2 == 1
    ensures Sum16(s) == Sum16(s[..|s| - 1]) + 256 * s[|s| - 1] as nat
  {
    var n := |s| - 1;
    assert s == s[..n] + [s[n]];
    SumAppend(s[..n], [s[n]]);
    SumOfFew(s[n], 0);
  }

  /** The pseudo header of RFC 793 section 3.1 and RFC 768: source and destination address, zero, protocol, length. */
  function PseudoHeader(ip: bytes, proto: uint8, len: uint16): bytes
    requires |ip| >= 20
  {
    ip[12..20] + [0, proto] + [Hi(len), Lo(len)]
  }

  lemma PseudoIs(ip: bytes, proto: uint8, len: uint16)
    requires |ip| >= 20
    ensures |PseudoHeader(ip, proto, len)| == 12
    ensures Sum16(PseudoHeader(ip, proto, len)) == PseudoSum(ip, proto, len)
  {
    hide Hi, Lo;
    var a := ip[12..20];
    assert a == [a[0], a[1]] + [a[2], a[3]] + [a[4], a[5]] + [a[6], a[7]];
    SumOfFew(a[0], a[1]);
    SumOfFew(a[2], a[3]);
    SumOfFew(a[4], a[5]);
    SumOfFew(a[6], a[7]);
    SumOfFew(0, proto);
    SumOfFew(Hi(len), Lo(len));
    U16HiLo(len);
    hide Sum16;
    SumAppend([a[0], a[1]], [a[2], a[3]]);
    SumAppend([a[0], a[1]] + [a[2], a[3]], [a[4], a[5]]);
    SumAppend([a[0], a[1]] + [a[2], a[3]] + [a[4], a[5]], [a[6], a[7]]);
    SumAppend(a, [0, proto]);
    SumAppend(a + [0, proto], [Hi(len), Lo(len)]);
  }

  /** RFC 793 section 3.1: pseudo header and finished segment sum to all ones. */
  lemma TcpOverBytes(ip: bytes, seg: bytes)
    requires |ip| >= 20 && |seg| >= 20
    ensures var done := Stored(seg, 16, TcpChecksum(ip, seg));
            Fold(Sum16(PseudoHeader(ip, 6, |seg| % 0x1_0000) + done)) == ONES
  {
    hide Fold, Sum16, PseudoSum, TcpChecksum, PseudoHeader;
    TcpChecksumVerifies(ip, seg);
    PseudoIs(ip, 6, |seg| % 0x1_0000);
    SumAppend(PseudoHeader(ip, 6, |seg| % 0x1_0000), Stored(seg, 16, TcpChecksum(ip, seg)));
  }

  /** RFC 768: the same for the part of a datagram that its length field spans. */
  lemma UdpOverBytes(ip: bytes, seg: bytes)
    requires |ip| >= 20 && 8 <= |seg| <= ONES
    ensures var done := Stored(seg, 6, UdpChecksum(ip, Zeroed(seg, 6)));
            var n := if U16(seg[4], seg[5]) < 8 then 8 else if U16(seg[4], seg[5]) > |seg| then |seg| else U16(seg[4], seg[5]);
            Fold(Sum16(PseudoHeader(ip, 17, n) + done[..n])) == ONES
  {
    var done, n := Stored(seg, 6, UdpChecksum(ip, Zeroed(seg, 6))), UdpSpan(seg);
    UdpSpanIgnoresChecksum(seg, UdpChecksum(ip, Zeroed(seg, 6)));
    UdpChecksumVerifies(ip, seg);
    hide Fold, Sum16, PseudoSum, UdpChecksum, PseudoHeader, Stored;
    PseudoIs(ip, 17, n);
    SumAppend(PseudoHeader(ip, 17, n), done[..n]);
  }

  /** The TCP result does not depend on the checksum field. */
  lemma TcpChecksumIgnoresField(ip: bytes, seg: bytes, c: uint16)
    requires |seg| >= 20
    ensures TcpChecksum(ip, Stored(seg, 16, c)) == TcpChecksum(ip, seg)
  {
    StoredOverZero(seg, 16, c);
  }

  lemma UdpSpanIgnoresChecksum(seg: bytes, c: uint16)
    requires 8 <= |seg| <= ONES
    ensures UdpSpan(Stored(seg, 6, c)) == UdpSpan(seg)
  {
    assert Stored(seg, 6, c)[4] == seg[4] && Stored(seg, 6, c)[5] == seg[5];
  }

  /** The same for the part of a UDP datagram its length field spans. */
  lemma UdpChecksumVerifies(ip: bytes, seg: bytes)
    requires |ip| >= 20 && 8 <= |seg| <= ONES
    ensures var done := Stored(seg, 6, UdpChecksum(ip, Zeroed(seg, 6)));
            Fold(PseudoSum(ip, 17, UdpSpan(done)) + Sum16(done[..UdpSpan(done)])) == ONES
  {
    hide Fold, Sum16, PseudoSum;
    var z := Zeroed(seg, 6);
    var c := UdpChecksum(ip, z);
    var n := UdpSpan(seg);
    UdpSpanIgnoresChecksum(seg, 0);
    UdpSpanIgnoresChecksum(seg, c);
    assert Stored(seg, 6, 0) == z;
    assert z[..n][6] == 0 && z[..n][7] == 0;
    StoringCompletes(PseudoSum(ip, 17, n), z[..n], 6, c);
    assert Stored(seg, 6, c)[..n] == Stored(z[..n], 6, c);
  }

  /**
   * The computed checksum is zero, which RFC 768 reserves for "no checksum" and the code does not turn into
   * all ones, exactly when the sum over pseudo header and datagram is a multiple of 65535.
   */
  lemma UdpChecksumZeroIff(ip: bytes, seg: bytes)
    requires |ip| >= 20 && 8 <= |seg| <= ONES
    ensures UdpChecksum(ip, seg) == 0 <==> (PseudoSum(ip, 17, UdpSpan(seg)) + Sum16(seg[..UdpSpan(seg)])) % ONES == 0
  {
    hide Sum16, PseudoSum, UdpSpan;
    var sum := PseudoSum(ip, 17, UdpSpan(seg)) + Sum16(seg[..UdpSpan(seg)]);
    PseudoSumPositive(ip, 17, UdpSpan(seg));
    assert UdpChecksum(ip, seg) == ONES - Fold(sum);
    hide UdpChecksum, Fold;
  }

  lemma PseudoSumPositive(ip: bytes, proto: uint8, len: uint16)
    requires |ip| >= 20 && proto > 0
    ensures PseudoSum(ip, proto, len) > 0
  {
  }

  /** Such datagrams exist. */
  lemma UdpChecksumCanBeZero(ip: bytes)
    requires |ip| == 20 && forall i :: 12 <= i < 20 ==> ip[i] == 0
    ensures UdpChecksum(ip, [0xFF, 0xDE, 0, 0, 0, 8, 0, 0]) == 0
  {
    var seg: bytes := [0xFF, 0xDE, 0, 0, 0, 8, 0, 0];
    assert UdpSpan(seg) == 8 && seg[..8] == seg;
    assert seg[2..] == [0, 0, 0, 8, 0, 0] && seg[2..][2..] == [0, 8, 0, 0] && seg[2..][2..][2..] == [0, 0];
    assert Sum16(seg[2..][2..][2..]) == 0;
    assert Sum16(seg[2..][2..]) == 8;
    assert Sum16(seg[2..]) == 8;
    assert Sum16(seg) == 0xFFDE + 8;
  }

  /** The carry loop at the end of all three checksums. */
  method FoldLoop(start: uint32) returns (c: uint16)
    ensures c == ONES - Fold(start)
  {
    var sum := start;
    while sum / 0x1_0000 != 0
      invariant Fold(sum) == Fold(start)
      decreases sum
    {
      sum := sum % 0x1_0000 + sum / 0x1_0000;
    }
    c := ONES - sum;
  }

  /** Adds the words of `s` to a 32-bit accumulator. */
  method AddWords(s: bytes, start: uint32) returns (sum: uint32)
    requires |s| <= ONES && start <= 8 * ONES
    ensures sum == start + Sum16(s)
  {
    sum := start;
    SumBound(s);
    var i := 0;
    while i < |s|
      invariant sum + Sum16(From(s, i)) == start + Sum16(s)
    {
      SumStep(s, i);
      sum := sum + U16(s[i], if i + 1 < |s| then s[i + 1] else 0);
      i := i + 2;
    }
  }

  method CalcIpChecksum(hdr: bytes) returns (c: uint16)
    requires |hdr| <= ONES
    ensures c == IpChecksum(hdr)
  {
    var sum := AddWords(hdr, 0);
    c := FoldLoop(sum);
  }

  lemma ZeroedWord(s: bytes, i: nat, j: nat)
    requires i % 2 == j % 2 == 0 && i + 1 < |s| && j < |s|
    ensures Word(Zeroed(s, i), j) == if i == j then 0 else Word(s, j)
  {
  }

  /** The TCP loop: the word at offset 16, the checksum field, counts as zero. */
  method AddTcpWords(seg: bytes, start: uint32) returns (sum: uint32)
    requires 20 <= |seg| <= ONES && start <= 8 * ONES
    ensures sum == start + Sum16(Zeroed(seg, 16))
  {
    sum := start;
    ghost var z := Zeroed(seg, 16);
    SumBound(z);
    hide Sum16, From;
    var i := 0;
    while i < |seg|
      invariant i % 2 == 0
      invariant sum + Sum16(From(z, i)) == start + Sum16(z)
    {
      SumStep(z, i);
      ZeroedWord(seg, 16, i);
      if i != 16 {
        sum := sum + U16(seg[i], if i + 1 < |seg| then seg[i + 1] else 0);
      }
      i := i + 2;
    }
    FromEnd(z, i);
  }

  lemma FromEnd(s: bytes, i: nat)
    requires i >= |s|
    ensures Sum16(From(s, i)) == 0
  {
  }

  method CalcTcpChecksum(ip: bytes, seg: bytes) returns (c: uint16)
    requires |seg| <= ONES
    ensures c == TcpChecksum(ip, seg)
  {
    if |ip| < 20 || |seg| < 20 { return 0; }
    var sum := AddTcpWords(seg, PseudoSum(ip, 6, |seg| % 0x1_0000));
    hide Fold, Sum16, PseudoSum, Zeroed;
    c := FoldLoop(sum);
  }

  method CalcUdpChecksum(ip: bytes, seg: bytes) returns (c: uint16)
    requires |seg| <= ONES
    ensures c == UdpChecksum(ip, seg)
  {
    if |ip| < 20 || |seg| < 8 { return 0; }
    var n := U16(seg[4], seg[5]);
    if n < 8 { n := 8; }
    if n > |seg| { n := |seg|; }
    var sum := AddWords(seg[..n], PseudoSum(ip, 17, n));
    hide Fold, Sum16, PseudoSum;
    c := FoldLoop(sum);
  }
}
