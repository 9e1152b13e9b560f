/**
 * Finding and rewriting IPv4 headers: the parsing helpers of `src/core/fragment.c`,
 * `src/crypto/crypto_layer3.c` and `src/crypto/crypto_layer4.c`, and `crypto_layer4_fixup_packet`.
 */
module Ipv4 {
  import opened Bytes
  import opened Checksum

  const ETH_LEN: nat := 14
  const TCP: uint8 := 6
  const UDP: uint8 := 17

  function EtherType(p: bytes): uint16
    requires |p| >= ETH_LEN
  {
    U16(p[12], p[13])
  }

  /** `(ip[0] & 0x0F) * 4`: a multiple of 4, at most 60. */
  function HeaderLen(b: uint8): (n: nat)
    ensures n <= 60
  {
    (b as nat % 16) * 4
  }

  /** The header length of an untagged IPv4 frame, or -1. */
  function RequireIpv4(p: bytes): (ihl: int)
    ensures ihl == -1 || (20 <= ihl <= 60 && ETH_LEN + ihl <= |p| && EtherType(p) == 0x0800 && ihl == HeaderLen(p[14]))
  {
    if |p| < 34 || EtherType(p) != 0x0800 then -1
    else if HeaderLen(p[14]) < 20 || |p| < ETH_LEN + HeaderLen(p[14]) then -1
    else HeaderLen(p[14])
  }

  /** The TCP or UDP header length, or -1. */
  function TransportHdrSize(seg: bytes, proto: uint8): (n: int)
    ensures n == -1 || 8 <= n <= |seg|
  {
    if proto == TCP then
      if |seg| < 20 then -1
      else
        var dataOff := seg[12] as nat / 16 * 4;
        if dataOff < 20 || dataOff > |seg| then -1 else dataOff
    else if proto == UDP then if |seg| < 8 then -1 else 8
    else -1
  }

  /** Where the IPv4 header starts, behind at most two VLAN tags, or -1. */
  function Ipv4Offset(p: bytes): (off: int)
    ensures off == -1 || (14 <= off <= 22 && off <= |p|)
  {
    if |p| < 14 then -1
    else if EtherType(p) == 0x0800 then 14
    else if EtherType(p) != 0x8100 || |p| < 18 then -1
    else if U16(p[16], p[17]) == 0x0800 then 18
    else if U16(p[16], p[17]) == 0x8100 && |p| >= 22 && U16(p[20], p[21]) == 0x0800 then 22
    else -1
  }

  /** A header with its total length set and its checksum recomputed. */
  function Patched(ip: bytes, total: uint16): (r: bytes)
    requires |ip| >= 20
    ensures |r| == |ip|
  {
    var h := Stored(ip, 2, total);
    Stored(h, 10, IpChecksum(Zeroed(h, 10)))
  }

  lemma PatchedFields(ip: bytes, total: uint16)
    requires |ip| >= 20
    ensures var r := Patched(ip, total);
            U16(r[2], r[3]) == total && Fold(Sum16(r)) == ONES
            && (forall i :: 0 <= i < |ip| && i != 2 && i != 3 && i != 10 && i != 11 ==> r[i] == ip[i])
  {
    U16HiLo(total);
    IpChecksumVerifies(Stored(ip, 2, total));
  }

  lemma PatchedTotal(ip: bytes, total: uint16)
    requires |ip| >= 20
    ensures U16(Patched(ip, total)[2], Patched(ip, total)[3]) == total
  {
    hide IpChecksum;
    U16HiLo(total);
  }

  lemma PatchedByte(ip: bytes, total: uint16, i: nat)
    requires |ip| >= 20 && i < |ip| && i != 2 && i != 3 && i != 10 && i != 11
    ensures Patched(ip, total)[i] == ip[i]
  {
    hide IpChecksum;
  }

  /** Only the last length patched in counts. */
  lemma PatchedAgain(ip: bytes, total: uint16, other: uint16)
    requires |ip| >= 20
    ensures Patched(Patched(ip, other), total) == Patched(ip, total)
  {
    var a := Stored(Patched(ip, other), 2, total);
    var b := Stored(ip, 2, total);
    assert Zeroed(a, 10) == Zeroed(b, 10);
    StoredOverZero(a, 10, IpChecksum(Zeroed(a, 10)));
    StoredOverZero(b, 10, IpChecksum(Zeroed(b, 10)));
  }

  /** The total length of the IPv4 header behind an untagged Ethernet header. */
  function TotalLen(w: bytes): uint16
    requires |w| >= 18
  {
    U16(w[16], w[17])
  }

  lemma TotalLenAt(eth: bytes, ip: bytes, rest: bytes)
    requires |eth| == ETH_LEN && |ip| >= 20
    ensures TotalLen(eth + ip + rest) == U16(ip[2], ip[3])
  {
  }

  lemma PatchedTotalAt(eth: bytes, ip: bytes, total: uint16, rest: bytes)
    requires |eth| == ETH_LEN && |ip| >= 20
    ensures TotalLen(eth + Patched(ip, total) + rest) == total
  {
    PatchedTotal(ip, total);
    hide Patched, TotalLen, U16;
    TotalLenAt(eth, Patched(ip, total), rest);
  }

  /** l3_patch_ipv4 and l4_fix_ipv4_totlen_and_cksum. */
  method PatchIpv4(a: array<uint8>, off: nat, ihl: nat, total: uint16)
    requires 20 <= ihl <= 60 && off + ihl <= a.Length
    modifies a
    ensures a[..] == Splice(old(a[..]), off, Patched(old(a[off..off + ihl]), total))
  {
    hide Splice, Stored, IpChecksum;
    ghost var before := a[..];
    var ip := a[off..off + ihl];
    SpliceSame(before, off, ihl);
    Put16(a, off + 2, total);
    StoredInSplice(before, off, ip, 2, total);
    ip := Stored(ip, 2, total);
    Put16(a, off + 10, 0);
    StoredInSplice(before, off, ip, 10, 0);
    SpliceParts(before, off, Stored(ip, 10, 0));
    StoredZero(ip, 10);
    var c := CalcIpChecksum(a[off..off + ihl]);
    Put16(a, off + 10, c);
    StoredInSplice(before, off, Stored(ip, 10, 0), 10, c);
    StoredOverZero(ip, 10, c);
  }

  /** A segment with its checksum recomputed; too short a one, or another protocol's, is left alone. */
  function Summed(ip: bytes, seg: bytes, proto: uint8): (r: bytes)
    requires |seg| <= ONES
    ensures |r| == |seg|
  {
    if proto == UDP && |seg| >= 8 then Stored(Zeroed(seg, 6), 6, UdpChecksum(ip, Zeroed(seg, 6)))
    else if proto == TCP && |seg| >= 20 then Stored(seg, 16, TcpChecksum(ip, seg))
    else seg
  }

  /** The same after setting UDP's length field to the segment's length. */
  function FixedSegment(ip: bytes, seg: bytes, proto: uint8): (r: bytes)
    requires 8 <= |seg| <= ONES
    ensures |r| == |seg|
  {
    Summed(ip, if proto == UDP then Stored(seg, 4, |seg|) else seg, proto)
  }

  /** The checks of crypto_layer4_fixup_packet: the IPv4 header's offset and length. */
  function FixupShape(p: bytes): (r: Option<(nat, nat)>)
    ensures r.Some? ==> r.value.0 <= 22 && 20 <= r.value.1 <= 60 && r.value.0 + r.value.1 + 8 <= |p|
  {
    var off := Ipv4Offset(p);
    if |p| < 34 || off < 0 || HeaderLen(p[off]) < 20 || |p| < off + HeaderLen(p[off]) + 8 then None
    else Some((off as nat, HeaderLen(p[off])))
  }

  function FixedAt(p: bytes, off: nat, ihl: nat): (r: bytes)
    requires 20 <= ihl && off + ihl + 8 <= |p| <= ONES
    ensures |r| == |p|
  {
    var ip := Patched(p[off..off + ihl], |p| - off);
    p[..off] + ip + FixedSegment(ip, p[off + ihl..], p[off + 9])
  }

  /** crypto_layer4_fixup_packet; None is its error return, which leaves the packet alone. */
  function Fixup(p: bytes): (r: Option<bytes>)
    requires |p| <= ONES
    ensures r.Some? ==> |r.value| == |p|
  {
    match FixupShape(p)
    case None => None
    case Some((off, ihl)) => Some(FixedAt(p, off, ihl))
  }

  method FixupPacket(a: array<uint8>, len: nat) returns (ok: bool)
    requires len <= a.Length && len <= ONES
    modifies a
    ensures ok == Fixup(old(a[..len])).Some?
    ensures a[..] == if ok then Splice(old(a[..]), 0, Fixup(old(a[..len])).value) else old(a[..])
  {
    var shape := FixupShape(a[..len]);
    if shape == None { return false; }
    FixAt(a, len, shape.value.0, shape.value.1);
    ok := true;
  }

  /** The rewriting half of the fixup. */
  method FixAt(a: array<uint8>, len: nat, off: nat, ihl: nat)
    requires 20 <= ihl <= 60 && off + ihl + 8 <= len <= a.Length && len <= ONES
    modifies a
    ensures a[..] == Splice(old(a[..]), 0, FixedAt(old(a[..len]), off, ihl))
  {
    hide Splice, Patched, FixedSegment, FixedAt;
    ghost var before := a[..];
    var proto := a[off + 9];
    PatchIpv4(a, off, ihl, len - off);
    FixSegmentInPlace(a, off, ihl, off + ihl, len, proto);
    FixAtSteps(before, len, off, ihl);
  }

  lemma FixAtSteps(s: bytes, len: nat, off: nat, ihl: nat)
    requires 20 <= ihl && off + ihl + 8 <= len <= |s| && len <= ONES
    ensures var s1 := Splice(s, off, Patched(s[off..off + ihl], len - off));
            Splice(s1, off + ihl, FixedSegment(s1[off..off + ihl], s1[off + ihl..len], s[off + 9]))
            == Splice(s, 0, FixedAt(s[..len], off, ihl))
  {
    hide Patched, FixedSegment, Splice;
    var ip := Patched(s[off..off + ihl], len - off);
    var seg := FixedSegment(ip, s[off + ihl..len], s[off + 9]);
    SliceSlices(s, len, off, off + ihl);
    assert FixedAt(s[..len], off, ihl) == s[..off] + ip + seg;
    hide FixedAt;
    SpliceBetween(s, off, ip, len);
    SpliceAdjacent(s, off, ip, seg);
    SplicePrefix(s, off, ip + seg);
    assert s[..off] + (ip + seg) == s[..off] + ip + seg;
  }

  lemma SpliceBetween(s: bytes, off: nat, x: bytes, hi: nat)
    requires off + |x| <= hi <= |s|
    ensures Splice(s, off, x)[off..off + |x|] == x
    ensures Splice(s, off, x)[off + |x|..hi] == s[off + |x|..hi]
  {
  }

  lemma SplicePrefix(s: bytes, off: nat, x: bytes)
    requires off + |x| <= |s|
    ensures Splice(s, off, x) == Splice(s, 0, s[..off] + x)
  {
  }

  /** The transport half of the fixup. */
  method FixSegmentInPlace(a: array<uint8>, off: nat, ihl: nat, t: nat, len: nat, proto: uint8)
    requires off + ihl <= t && t + 8 <= len <= a.Length && len <= ONES
    modifies a
    ensures a[..] == Splice(old(a[..]), t, FixedSegment(old(a[off..off + ihl]), old(a[t..len]), proto))
  {
    hide Splice, Stored, Summed;
    if proto == UDP {
      ghost var before := a[..];
      ghost var ip, seg := a[off..off + ihl], a[t..len];
      SpliceSame(before, t, len - t);
      Put16(a, t + 4, len - t);
      StoredInSplice(before, t, seg, 4, len - t);
      SpliceParts(before, t, Stored(seg, 4, len - t));
      SpliceKeeps(before, t, Stored(seg, 4, len - t), off, off + ihl);
      SumInPlace(a, off, ihl, t, len, proto);
      SpliceAgain(before, t, Stored(seg, 4, len - t), Summed(ip, Stored(seg, 4, len - t), proto));
    } else {
      SumInPlace(a, off, ihl, t, len, proto);
    }
  }

  /** Recomputes the transport checksum. */
  method SumInPlace(a: array<uint8>, off: nat, ihl: nat, t: nat, len: nat, proto: uint8)
    requires off + ihl <= t <= len <= a.Length && len <= ONES
    modifies a
    ensures a[..] == Splice(old(a[..]), t, Summed(old(a[off..off + ihl]), old(a[t..len]), proto))
  {
    hide UdpChecksum, TcpChecksum;
    if proto == UDP && len - t >= 8 {
      SumUdpInPlace(a, off, ihl, t, len);
    } else if proto == TCP && len - t >= 20 {
      SumTcpInPlace(a, off, ihl, t, len);
    } else {
      SpliceSame(a[..], t, len - t);
    }
  }

  method SumUdpInPlace(a: array<uint8>, off: nat, ihl: nat, t: nat, len: nat)
    requires off + ihl <= t && t + 8 <= len <= a.Length && len <= ONES
    modifies a
    ensures a[..] == Splice(old(a[..]), t, Summed(old(a[off..off + ihl]), old(a[t..len]), UDP))
  {
    hide Splice, Stored, UdpChecksum;
    ghost var before := a[..];
    ghost var seg := a[t..len];
    SpliceSame(before, t, len - t);
    Put16(a, t + 6, 0);
    StoredInSplice(before, t, seg, 6, 0);
    SpliceParts(before, t, Stored(seg, 6, 0));
    StoredZero(seg, 6);
    SpliceKeeps(before, t, Stored(seg, 6, 0), off, off + ihl);
    var c := CalcUdpChecksum(a[off..off + ihl], a[t..len]);
    Put16(a, t + 6, c);
    StoredInSplice(before, t, Stored(seg, 6, 0), 6, c);
  }

  method SumTcpInPlace(a: array<uint8>, off: nat, ihl: nat, t: nat, len: nat)
    requires off + ihl <= t && t + 20 <= len <= a.Length && len <= ONES
    modifies a
    ensures a[..] == Splice(old(a[..]), t, Summed(old(a[off..off + ihl]), old(a[t..len]), TCP))
  {
    hide Splice, Stored, TcpChecksum;
    ghost var before := a[..];
    ghost var ip := a[off..off + ihl];
    ghost var seg := a[t..len];
    SpliceSame(before, t, len - t);
    Put16(a, t + 16, 0);
    StoredInSplice(before, t, seg, 16, 0);
    SpliceParts(before, t, Stored(seg, 16, 0));
    SpliceKeeps(before, t, Stored(seg, 16, 0), off, off + ihl);
    TcpChecksumIgnoresField(ip, seg, 0);
    var c := CalcTcpChecksum(a[off..off + ihl], a[t..len]);
    Put16(a, t + 16, c);
    StoredInSplice(before, t, Stored(seg, 16, 0), 16, c);
    StoredZero(seg, 16);
    StoredOverZero(seg, 16, c);
  }

  /** The transport checksum of a fixed segment verifies over the whole segment, and UDP's length field spans it. */
  predicate SegmentVerifies(ip: bytes, seg: bytes, proto: uint8)
    requires |ip| >= 20 && 8 <= |seg| <= ONES
  {
    (proto == UDP ==> U16(seg[4], seg[5]) == |seg| && Fold(PseudoSum(ip, 17, |seg|) + Sum16(seg)) == ONES)
    && (proto == TCP && |seg| >= 20 ==> Fold(PseudoSum(ip, 6, |seg|) + Sum16(seg)) == ONES)
  }

  /** A segment with its own length in the length field is spanned whole, whatever its checksum field holds. */
  lemma OwnLength(seg: bytes, c: uint16)
    requires 8 <= |seg| <= ONES
    ensures var z := Zeroed(Stored(seg, 4, |seg|), 6);
            z[6] == 0 && z[7] == 0 && z[..|seg|] == z && UdpSpan(z) == |seg|
            && U16(Stored(z, 6, c)[4], Stored(z, 6, c)[5]) == |seg|
  {
    U16HiLo(|seg|);
    var z := Zeroed(Stored(seg, 4, |seg|), 6);
    assert z[4] == Hi(|seg|) && z[5] == Lo(|seg|);
    assert Stored(z, 6, c)[4] == z[4] && Stored(z, 6, c)[5] == z[5];
  }

  lemma FixedUdpVerifies(ip: bytes, seg: bytes)
    requires |ip| >= 20 && 8 <= |seg| <= ONES
    ensures SegmentVerifies(ip, FixedSegment(ip, seg, UDP), UDP)
  {
    hide Fold, Sum16, PseudoSum, Stored, Zeroed, UdpSpan;
    var z := Zeroed(Stored(seg, 4, |seg|), 6);
    var c := UdpChecksum(ip, z);
    OwnLength(seg, c);
    StoringCompletes(PseudoSum(ip, 17, |seg|), z, 6, c);
  }

  lemma FixedSegmentVerifies(ip: bytes, seg: bytes, proto: uint8)
    requires |ip| >= 20 && 8 <= |seg| <= ONES
    ensures SegmentVerifies(ip, FixedSegment(ip, seg, proto), proto)
  {
    hide Fold, Sum16, PseudoSum, TcpChecksum, UdpChecksum;
    if proto == UDP {
      FixedUdpVerifies(ip, seg);
    } else if proto == TCP && |seg| >= 20 {
      TcpChecksumVerifies(ip, seg);
      hide Stored;
    }
  }

  /** Checksums read the header's addresses only. */
  lemma PseudoSumReadsAddresses(ip: bytes, ip2: bytes, proto: uint8, len: uint16)
    requires |ip| == |ip2| >= 20 && ip2[12..20] == ip[12..20]
    ensures PseudoSum(ip2, proto, len) == PseudoSum(ip, proto, len)
  {
    assert forall i :: 12 <= i < 20 ==> ip2[i] == ip2[12..20][i - 12] && ip[i] == ip[12..20][i - 12];
  }

  lemma FixedUdpAgain(ip: bytes, seg: bytes, ip2: bytes)
    requires |ip| == |ip2| >= 20 && 8 <= |seg| <= ONES && ip2[12..20] == ip[12..20]
    ensures FixedSegment(ip2, FixedSegment(ip, seg, UDP), UDP) == FixedSegment(ip, seg, UDP)
  {
    hide Fold, Sum16, PseudoSum, UdpSpan;
    var s := Zeroed(Stored(seg, 4, |seg|), 6);
    var c := UdpChecksum(ip, s);
    assert Zeroed(Stored(Stored(s, 6, c), 4, |seg|), 6) == s;
    PseudoSumReadsAddresses(ip, ip2, 17, UdpSpan(s));
    assert UdpChecksum(ip2, s) == c;
  }

  lemma FixedTcpAgain(ip: bytes, seg: bytes, ip2: bytes)
    requires |ip| == |ip2| >= 20 && 20 <= |seg| <= ONES && ip2[12..20] == ip[12..20]
    ensures FixedSegment(ip2, FixedSegment(ip, seg, TCP), TCP) == FixedSegment(ip, seg, TCP)
  {
    hide Fold, Sum16, PseudoSum;
    PseudoSumReadsAddresses(ip, ip2, 6, |seg| % 0x1_0000);
    var c := TcpChecksum(ip, seg);
    TcpChecksumIgnoresField(ip2, seg, c);
    assert TcpChecksum(ip2, seg) == c;
    hide TcpChecksum;
    assert Stored(Stored(seg, 16, c), 16, c) == Stored(seg, 16, c);
  }

  /** Fixing a segment twice, or under a header that differs outside the addresses, changes nothing more. */
  lemma FixedSegmentAgain(ip: bytes, seg: bytes, proto: uint8, ip2: bytes)
    requires |ip| == |ip2| >= 20 && 8 <= |seg| <= ONES && ip2[12..20] == ip[12..20]
    ensures FixedSegment(ip2, FixedSegment(ip, seg, proto), proto) == FixedSegment(ip, seg, proto)
  {
    if proto == UDP {
      FixedUdpAgain(ip, seg, ip2);
    } else if proto == TCP && |seg| >= 20 {
      FixedTcpAgain(ip, seg, ip2);
    }
  }

  /** Where the fixed packet's parts are. */
  lemma FixedAtParts(p: bytes, off: nat, ihl: nat)
    requires 20 <= ihl && off + ihl + 8 <= |p| <= ONES
    ensures var r := FixedAt(p, off, ihl);
            var ip := Patched(p[off..off + ihl], |p| - off);
            r[..off] == p[..off] && r[off..off + ihl] == ip
            && r[off + ihl..] == FixedSegment(ip, p[off + ihl..], p[off + 9]) && r[off + 9] == p[off + 9] && r[off] == p[off]
  {
    hide FixedSegment;
    var ip := p[off..off + ihl];
    PatchedFields(ip, |p| - off);
    hide Patched;
    var r := FixedAt(p, off, ihl);
    assert r[off..off + ihl] == Patched(ip, |p| - off);
    assert r[off + 9] == r[off..off + ihl][9] && r[off] == r[off..off + ihl][0];
  }

  lemma FixedAtShape(p: bytes, off: nat, ihl: nat)
    requires |p| <= ONES && FixupShape(p) == Some((off, ihl))
    ensures FixupShape(FixedAt(p, off, ihl)) == Some((off, ihl))
  {
    FixedAtParts(p, off, ihl);
    var r := FixedAt(p, off, ihl);
    hide FixedAt;
    assert forall i :: 0 <= i < off ==> r[i] == r[..off][i] && p[i] == p[..off][i];
  }

  /** Total length, header checksum, UDP length and transport checksum are all right. */
  predicate Canonical(r: bytes, off: nat, ihl: nat)
    requires 20 <= ihl && off + ihl + 8 <= |r| <= ONES
  {
    U16(r[off + 2], r[off + 3]) == |r| - off && Fold(Sum16(r[off..off + ihl])) == ONES
    && SegmentVerifies(r[off..off + ihl], r[off + ihl..], r[off + 9])
  }

  lemma FixedAtCanonical(p: bytes, off: nat, ihl: nat)
    requires 20 <= ihl && off + ihl + 8 <= |p| <= ONES
    ensures Canonical(FixedAt(p, off, ihl), off, ihl)
  {
    hide FixedSegment, Fold, Sum16, SegmentVerifies;
    var r := FixedAt(p, off, ihl);
    FixedAtParts(p, off, ihl);
    PatchedFields(p[off..off + ihl], |p| - off);
    hide Patched, FixedAt;
    assert r[off + 2] == r[off..off + ihl][2] && r[off + 3] == r[off..off + ihl][3];
    FixedSegmentVerifies(Patched(p[off..off + ihl], |p| - off), p[off + ihl..], p[off + 9]);
  }

  lemma FixedAtAgain(p: bytes, off: nat, ihl: nat)
    requires 20 <= ihl && off + ihl + 8 <= |p| <= ONES
    ensures FixedAt(FixedAt(p, off, ihl), off, ihl) == FixedAt(p, off, ihl)
  {
    hide FixedSegment, Patched;
    var r := FixedAt(p, off, ihl);
    var ip := Patched(p[off..off + ihl], |p| - off);
    FixedAtParts(p, off, ihl);
    PatchedAgain(p[off..off + ihl], |p| - off, |p| - off);
    FixedSegmentAgain(ip, p[off + ihl..], p[off + 9], ip);
    assert FixedAt(r, off, ihl) == r[..off] + ip + r[off + ihl..];
    hide FixedAt;
    assert r == r[..off] + r[off..off + ihl] + r[off + ihl..];
  }

  /** A fixed packet has its lengths and checksums right, and fixing it again changes nothing. */
  lemma FixupCanonical(p: bytes)
    requires |p| <= ONES && Fixup(p).Some?
    ensures var r := Fixup(p).value;
            var shape := FixupShape(p).value;
            Canonical(r, shape.0, shape.1) && Fixup(r) == Some(r)
  {
    var shape := FixupShape(p).value;
    hide FixedAt, Canonical;
    FixedAtShape(p, shape.0, shape.1);
    FixedAtCanonical(p, shape.0, shape.1);
    FixedAtAgain(p, shape.0, shape.1);
  }

  /** The offset is read from what precedes the header. */
  lemma OffsetOfPrefix(p: bytes, w: bytes, off: nat)
    requires Ipv4Offset(p) == off && off <= |w| && p[..off] == w[..off]
    ensures Ipv4Offset(w) == off
  {
    assert forall i :: 0 <= i < off ==> p[i] == p[..off][i] && w[i] == w[..off][i];
  }
}
