/** Encryption behind the transport ports: `src/crypto/crypto_layer4.c`. */
module Layer4 {
  import opened Bytes
  import opened Checksum
  import opened Ipv4
  import opened Cipher
  import opened Wire

  const FRAG_MAGIC: uint8 := 0x5A
  const TUNNEL_MAGIC: uint8 := 0xA5
  const PORT_LEN: nat := 4

  /** crypto_layer4_frag_meta_len */
  function FragMetaLen(mode: Mode): (n: nat) { PORT_LEN + TUNNEL_LEN + FRAG_TAG_LEN + TagLen(mode) }

  /** The payload length written to the outer header; PQC counts the GCM tag twice. */
  function FragPayloadLen(mode: Mode, plainLen: nat): (n: nat) {
    plainLen + FragMetaLen(mode) + if mode.Pqc? then TAG_LEN else 0
  }

  /** What crypto_layer4_encrypt_fragment_single leaves in the output buffer. */
  function FragWire(env: Settings, key: Key, nonce: Nonce, eth: bytes, ip: bytes, ports: bytes, plain: bytes,
                    id: uint16, index: uint8): (w: bytes)
    requires |eth| == ETH_LEN && |ip| >= 20 && |ports| == PORT_LEN
    ensures |w| == ETH_LEN + |ip| + |plain| + FragMetaLen(env.mode)
  {
    eth + Patched(ip, Low16(|ip| + FragPayloadLen(env.mode, |plain|)))
      + Behind(env, key, nonce, ports, FragMid(env, nonce, FRAG_MAGIC, id, index), plain)
  }

  /** What follows the IP header: the ports in clear, a tunnel header and the sealed rest. */
  function Behind(env: Settings, key: Key, nonce: Nonce, ports: bytes, mid: bytes, plain: bytes): (r: bytes)
    ensures |r| == |ports| + |mid| + |plain| + TagLen(env.mode)
  {
    ports + (mid + SealWith(env, key, nonce, plain))
  }

  /** The ports follow the IP header in `src`. */
  method EncryptFragment(env: Settings, key: Key, nonce: Nonce, src: array<uint8>, ihl: nat, plainOff: nat, plainLen: nat,
                         id: uint16, index: uint8, out: array<uint8>, outMax: nat) returns (n: int)
    requires 20 <= ihl <= 60 && ETH_LEN + ihl + PORT_LEN <= src.Length
    requires plainOff + plainLen <= src.Length && outMax <= out.Length
    modifies out
    ensures n == -1 <==> plainLen == 0 || ETH_LEN + ihl + plainLen + FragMetaLen(env.mode) > outMax
    ensures n < 0 ==> n == -1 && out[..] == old(out[..])
    ensures n >= 0 ==>
      var s, t := old(src[..]), ETH_LEN + ihl;
      var w := FragWire(env, key, nonce, s[..ETH_LEN], s[ETH_LEN..t], s[t..t + PORT_LEN], s[plainOff..plainOff + plainLen],
                        id, index);
      n == |w| && out[..] == Splice(old(out[..]), 0, w)
  {
    hide Splice, Behind, Patched, FragMid, FragPayloadLen;
    var need := ETH_LEN + ihl + plainLen + FragMetaLen(env.mode);
    if plainLen == 0 || need > outMax { return -1; }
    SealBehindPorts(env, key, nonce, src, ETH_LEN, ihl, FragMid(env, nonce, FRAG_MAGIC, id, index), plainOff, plainLen, out,
                    Low16(ihl + FragPayloadLen(env.mode, plainLen)));
    n := need;
  }

  /** The headers and ports of `s`, `mid` and part of `s` sealed, with the IP header given a new total length. */
  function Assembled(env: Settings, key: Key, nonce: Nonce, s: bytes, off: nat, t: nat, mid: bytes,
                     from: nat, n: nat, total: uint16): (w: bytes)
    requires off + 20 <= t && t + PORT_LEN <= |s| && from + n <= |s|
    ensures |w| == t + PORT_LEN + |mid| + n + TagLen(env.mode)
  {
    s[..off] + Patched(s[off..t], total) + Behind(env, key, nonce, s[t..t + PORT_LEN], mid, s[from..from + n])
  }

  method SealBehindPorts(env: Settings, key: Key, nonce: Nonce, src: array<uint8>, off: nat, ihl: nat, mid: bytes,
                         plainOff: nat, plainLen: nat, out: array<uint8>, total: uint16)
    requires 20 <= ihl <= 60 && off + ihl + PORT_LEN <= src.Length && plainOff + plainLen <= src.Length
    requires off + ihl + PORT_LEN + |mid| + plainLen + TagLen(env.mode) <= out.Length
    modifies out
    ensures out[..] == Splice(old(out[..]), 0,
                              Assembled(env, key, nonce, old(src[..]), off, off + ihl, mid, plainOff, plainLen, total))
  {
    hide Splice, SealWith, Patched;
    var t := off + ihl;
    ghost var before, s := out[..], src[..];
    ghost var eth, ip, ports := s[..off], s[off..t], s[t..t + PORT_LEN];
    ghost var sealed := SealWith(env, key, nonce, s[plainOff..plainOff + plainLen]);
    assert s[..t + PORT_LEN] == eth + ip + ports;
    AssembleSealed(env, key, nonce, out, src, t + PORT_LEN, mid, plainOff, plainLen);
    Regroup5(eth, ip, ports, mid, sealed);
    SpliceMiddle(before, eth, ip, ports + (mid + sealed), Patched(ip, total));
    PatchIpv4(out, off, ihl, total);
  }

  lemma Regroup5(a: bytes, b: bytes, c: bytes, d: bytes, e: bytes)
    ensures (a + b + c) + d + e == a + b + (c + (d + e))
    ensures a + b + c + (d + e) == a + b + (c + (d + e))
  {
  }

  /** Offset and length of the IPv4 header of a TCP or UDP packet behind at most two VLAN tags. */
  function Ipv4Shape(w: bytes): (r: Option<(nat, nat)>)
    ensures r.Some? ==> 14 <= r.value.0 <= 22 && 20 <= r.value.1 <= 60 && r.value.0 + 20 <= |w|
                        && r.value.1 == HeaderLen(w[r.value.0]) && r.value.0 == Ipv4Offset(w)
  {
    var off := Ipv4Offset(w);
    if off < 0 || |w| < off + 20 || (w[off + 9] != TCP && w[off + 9] != UDP) || HeaderLen(w[off]) < 20 then None
    else Some((off as nat, HeaderLen(w[off])))
  }

  /** The checks of crypto_layer4_decrypt_fragment; `off` is where the tunnel header starts. */
  function FragGuard(env: Settings, w: bytes): (g: Guard)
    ensures g.Go? ==> 38 <= g.off && g.off + TUNNEL_LEN + FRAG_TAG_LEN <= |w|
  {
    match Ipv4Shape(w)
    case None => Reject
    case Some((off, ihl)) =>
      var t := off + ihl + PORT_LEN;
      if |w| < t + TUNNEL_LEN + FRAG_TAG_LEN || w[t + 13] != FRAG_MAGIC then Reject else Go(t)
  }

  /** crypto_layer4_decrypt_fragment; None is its error return. */
  function DecryptFragment(env: Settings, keys: Keys, w: bytes): (r: Option<Opened>) {
    match FragGuard(env, w)
    case Go(t) => OpenFragment(env, keys, w, t)
    case _ => None
  }

  method DecryptFragmentInPlace(env: Settings, keys: Keys, a: array<uint8>, len: nat)
    returns (n: int, id: uint16, index: uint8)
    requires len <= a.Length
    modifies a
    ensures match DecryptFragment(env, keys, old(a[..len]))
            case None => n == -1
            case Some(o) => n == |o.packet| && n <= len && a[..n] == o.packet && id == o.id && index == o.index
  {
    n, id, index := -1, 0, 0;
    hide OpenFragment;
    var g := FragGuard(env, a[..len]);
    if g.Go? {
      n, id, index := OpenFragmentInPlace(env, keys, a, len, g.off);
    }
  }

  /** The header of an untagged TCP or UDP frame, as the receiver finds it behind a new length. */
  lemma PatchedParses(eth: bytes, ip: bytes, total: uint16, rest: bytes)
    requires |eth| == ETH_LEN && EtherType(eth) == 0x0800 && |ip| >= 20 && HeaderLen(ip[0]) == |ip|
    requires ip[9] == TCP || ip[9] == UDP
    ensures Ipv4Shape(eth + Patched(ip, total) + rest) == Some((ETH_LEN, |ip|))
  {
    PatchedByte(ip, total, 0);
    PatchedByte(ip, total, 9);
    hide Patched;
    var o := Patched(ip, total);
    var w := eth + o + rest;
    assert w[12] == eth[12] && w[13] == eth[13] && w[14] == o[0] && w[23] == o[9];
  }

  /** What one fragment carries comes back, behind the headers and ports it travelled under. */
  lemma FragmentRoundTrip(env: Settings, keys: Keys, nonce: Nonce, eth: bytes, ip: bytes, ports: bytes, plain: bytes,
                          id: uint16, index: uint8)
    requires |eth| == ETH_LEN && EtherType(eth) == 0x0800 && |ip| >= 20 && HeaderLen(ip[0]) == |ip| && |ports| == PORT_LEN
    requires (ip[9] == TCP || ip[9] == UDP) && |plain| > 0
    ensures DecryptFragment(env, keys, FragWire(env, keys.current, nonce, eth, ip, ports, plain, id, index))
         == Some(Opened(eth + Patched(ip, Low16(|ip| + FragPayloadLen(env.mode, |plain|))) + ports + plain, id, index))
  {
    hide OpenWith, SealWith, Patched, FragGuard, FragMid, Low16;
    var total := Low16(|ip| + FragPayloadLen(env.mode, |plain|));
    var mid, sealed := FragMid(env, nonce, FRAG_MAGIC, id, index), SealWith(env, keys.current, nonce, plain);
    Regroup5(eth, Patched(ip, total), ports, mid, sealed);
    FragWireParses(env, eth, ip, total, ports, nonce, id, index, sealed);
    U16HiLo(id);
    OpenWithSeal(env, keys, nonce, plain, Anything);
  }

  lemma FragWireParses(env: Settings, eth: bytes, ip: bytes, total: uint16, ports: bytes, nonce: Nonce,
                       id: uint16, index: uint8, sealed: bytes)
    requires |eth| == ETH_LEN && EtherType(eth) == 0x0800 && |ip| >= 20 && HeaderLen(ip[0]) == |ip| && |ports| == PORT_LEN
    requires ip[9] == TCP || ip[9] == UDP
    ensures var front := eth + Patched(ip, total) + ports;
            var w := eth + Patched(ip, total) + (ports + (FragMid(env, nonce, FRAG_MAGIC, id, index) + sealed));
            var t := |front|;
            FragGuard(env, w) == Go(t) && w[..t] == front && w[t..t + NONCE_LEN] == nonce
            && w[t + 14] == Hi(id) && w[t + 15] == Lo(id) && w[t + 16] == index
            && w[t + TUNNEL_LEN + FRAG_TAG_LEN..] == sealed
  {
    hide Patched, Ipv4Shape, FragMid;
    var mid := FragMid(env, nonce, FRAG_MAGIC, id, index);
    PatchedParses(eth, ip, total, ports + (mid + sealed));
    hide EtherType, HeaderLen;
    Regroup5(eth, Patched(ip, total), ports, mid, sealed);
    MidParses(env, nonce, FRAG_MAGIC, id, index, eth + Patched(ip, total) + ports, sealed);
  }

  /** Only in PQC mode does the outer header's total length disagree with the bytes sent, by one GCM tag. */
  lemma OuterLengthRightExceptPqc(env: Settings, key: Key, nonce: Nonce, eth: bytes, ip: bytes, ports: bytes, plain: bytes,
                                  id: uint16, index: uint8)
    requires |eth| == ETH_LEN && |ip| >= 20 && |ports| == PORT_LEN
    requires |ip| + FragPayloadLen(env.mode, |plain|) < 0x1_0000
    ensures TotalLen(FragWire(env, key, nonce, eth, ip, ports, plain, id, index))
         == |FragWire(env, key, nonce, eth, ip, ports, plain, id, index)| - ETH_LEN + if env.mode.Pqc? then TAG_LEN else 0
  {
    var total := |ip| + FragPayloadLen(env.mode, |plain|);
    Low16Small(total);
    hide Patched, Behind, FragMid, TotalLen, Low16;
    PatchedTotalAt(eth, ip, Low16(total), Behind(env, key, nonce, ports, FragMid(env, nonce, FRAG_MAGIC, id, index), plain));
  }

  /* Whole packets */

  function Overhead(mode: Mode): (n: nat) { TUNNEL_LEN + TagLen(mode) }

  /** The total length written to the header of a whole packet; PQC counts the GCM tag twice here too. */
  function SingleTotal(mode: Mode, ihl: nat, segLen: nat): (n: uint16) {
    Low16(ihl + segLen + Overhead(mode) + if mode.Pqc? then TAG_LEN else 0)
  }

  function SingleWire(env: Settings, key: Key, nonce: Nonce, eth: bytes, ip: bytes, ports: bytes, plain: bytes): (w: bytes)
    requires |ip| >= 20
    ensures |w| == |eth| + |ip| + |ports| + |plain| + Overhead(env.mode)
  {
    eth + Patched(ip, SingleTotal(env.mode, |ip|, |ports| + |plain|))
      + Behind(env, key, nonce, ports, TunnelHeader(env, nonce, TUNNEL_MAGIC), plain)
  }

  /**
   * The checks of crypto_layer4_encrypt; `off` is where the IP header starts.  The source computes the
   * transport length without checking it: its callers have parsed the flow, so the header fits.
   */
  function EncryptGuard(p: bytes): (g: Guard)
    requires HeaderFits(p)
    ensures g.Go? ==> Ipv4Shape(p).Some? && g.off == Ipv4Shape(p).value.0 && g.off + HeaderLen(p[g.off]) + 8 <= |p|
  {
    var off := Ipv4Offset(p);
    if off < 0 then Pass
    else if |p| < off + 20 then Reject
    else if p[off + 9] != TCP && p[off + 9] != UDP then Pass
    else if HeaderLen(p[off]) < 20 then Reject
    else if TransportHdrSize(p[off + HeaderLen(p[off])..], p[off + 9]) < 0 then Pass
    else Go(off)
  }

  predicate HeaderFits(p: bytes) {
    Ipv4Shape(p).Some? ==> Ipv4Shape(p).value.0 + Ipv4Shape(p).value.1 <= |p|
  }

  /** crypto_layer4_encrypt; None is its error return, an unchanged packet means it was passed through. */
  function Encrypt(env: Settings, key: Key, nonce: Nonce, p: bytes): (r: Option<bytes>)
    requires HeaderFits(p)
    ensures r.Some? ==> |r.value| <= |p| + Overhead(env.mode)
  {
    match EncryptGuard(p)
    case Reject => None
    case Pass => Some(p)
    case Go(off) =>
      var t := off + HeaderLen(p[off]);
      Some(SingleWire(env, key, nonce, p[..off], p[off..t], p[t..t + PORT_LEN], p[t + PORT_LEN..]))
  }

  method EncryptInPlace(env: Settings, key: Key, nonce: Nonce, a: array<uint8>, len: nat) returns (n: int)
    requires len + Overhead(env.mode) <= a.Length && HeaderFits(a[..len])
    modifies a
    ensures match Encrypt(env, key, nonce, old(a[..len]))
            case None => n == -1 && a[..] == old(a[..])
            case Some(w) => n == |w| && a[..] == Splice(old(a[..]), 0, w)
  {
    hide SingleWire, Splice;
    var g := EncryptGuard(a[..len]);
    match g
    case Reject => n := -1;
    case Pass =>
      SpliceSame(a[..], 0, len);
      n := len;
    case Go(off) =>
      SliceSlices(a[..], len, off, off + HeaderLen(a[off]));
      SliceSlices(a[..], len, off + HeaderLen(a[off]), off + HeaderLen(a[off]) + PORT_LEN);
      EncryptPayload(env, key, nonce, a, off, HeaderLen(a[off]), len);
      n := len + Overhead(env.mode);
  }

  method EncryptPayload(env: Settings, key: Key, nonce: Nonce, a: array<uint8>, off: nat, ihl: nat, len: nat)
    requires 20 <= ihl <= 60 && off + ihl + PORT_LEN <= len && len + Overhead(env.mode) <= a.Length
    modifies a
    ensures var s, t := old(a[..]), off + ihl;
            a[..] == Splice(s, 0, SingleWire(env, key, nonce, s[..off], s[off..t], s[t..t + PORT_LEN], s[t + PORT_LEN..len]))
  {
    hide Splice, SingleWire, Assembled, TunnelHeader, SingleTotal, TagLen, Behind, Patched;
    var t := off + ihl;
    var total := SingleTotal(env.mode, ihl, len - t);
    SingleWireOf(env, key, nonce, a[..], off, t, len);
    var mid, plain := TunnelHeader(env, nonce, TUNNEL_MAGIC), t + PORT_LEN;
    SealBehindPorts(env, key, nonce, a, off, ihl, mid, plain, len - plain, a, total);
  }

  lemma SingleWireOf(env: Settings, key: Key, nonce: Nonce, s: bytes, off: nat, t: nat, len: nat)
    requires off + 20 <= t && t + PORT_LEN <= len <= |s|
    ensures SingleWire(env, key, nonce, s[..off], s[off..t], s[t..t + PORT_LEN], s[t + PORT_LEN..len])
         == Assembled(env, key, nonce, s, off, t, TunnelHeader(env, nonce, TUNNEL_MAGIC), t + PORT_LEN, len - t - PORT_LEN,
                      SingleTotal(env.mode, t - off, len - t))
  {
    hide Behind, Patched, TunnelHeader;
  }

  /** The checks of crypto_layer4_decrypt; `off` is where the tunnel header starts. */
  function DecryptGuard(env: Settings, w: bytes): (g: Guard)
    ensures g.Go? ==> 38 <= g.off <= 86 && g.off + TUNNEL_LEN <= |w|
  {
    var off := Ipv4Offset(w);
    if off < 0 then Pass
    else if |w| < off + 20 then Reject
    else if w[off + 9] != TCP && w[off + 9] != UDP then Pass
    else if HeaderLen(w[off]) < 20 then Reject
    else
      var t := off + HeaderLen(w[off]) + PORT_LEN;
      if |w| < t + TUNNEL_LEN || w[t + 13] != TUNNEL_MAGIC || (!env.mode.Pqc? && w[t] >= 0x80) then Pass else Go(t)
  }

  function OpenSingle(env: Settings, keys: Keys, w: bytes, t: nat): (r: Option<bytes>)
    requires t + TUNNEL_LEN <= |w| <= ONES
    ensures r.Some? ==> |r.value| <= |w|
  {
    match OpenWith(env, keys, w[t..t + NONCE_LEN], w[t + TUNNEL_LEN..], Anything)
    case None => None
    case Some(plain) => Fixup(w[..t] + plain)
  }

  /** crypto_layer4_decrypt; None is its error return, an unchanged packet means it was passed through. */
  function Decrypt(env: Settings, keys: Keys, w: bytes): (r: Option<bytes>)
    requires |w| <= ONES
    ensures r.Some? ==> |r.value| <= |w|
  {
    match DecryptGuard(env, w)
    case Reject => None
    case Pass => Some(w)
    case Go(t) => OpenSingle(env, keys, w, t)
  }

  method DecryptInPlace(env: Settings, keys: Keys, a: array<uint8>, len: nat) returns (n: int)
    requires len <= a.Length && len <= ONES
    modifies a
    ensures match Decrypt(env, keys, old(a[..len]))
            case None => n == -1
            case Some(p) => n == |p| && a[..n] == p
  {
    hide DecryptGuard, OpenSingle;
    var g := DecryptGuard(env, a[..len]);
    match g
    case Reject => n := -1;
    case Pass => n := len;
    case Go(t) => n := OpenSingleInPlace(env, keys, a, len, t);
  }

  method OpenSingleInPlace(env: Settings, keys: Keys, a: array<uint8>, len: nat, t: nat) returns (n: int)
    requires t + TUNNEL_LEN <= len <= a.Length && len <= ONES
    modifies a
    ensures match OpenSingle(env, keys, old(a[..len]), t)
            case None => n == -1
            case Some(p) => n == |p| && a[..n] == p
  {
    ghost var s := a[..];
    assert s[..len][t..t + NONCE_LEN] == s[t..t + NONCE_LEN];
    SliceSlices(s, len, t, t + TUNNEL_LEN);
    hide OpenWith, Fixup, Splice;
    n := OpenAndMoveDown(env, keys, a[t..t + NONCE_LEN], a, len, t, t + TUNNEL_LEN, Anything);
    if n >= 0 {
      assert a[..n] == a[..t] + a[t..n];
      ghost var joined := a[..];
      var ok := FixupPacket(a, n);
      if ok {
        SpliceParts(joined, 0, Fixup(joined[..n]).value);
      } else {
        n := -1;
      }
    }
  }

  /** Fixing a packet up forgets the total length its header had. */
  lemma FixupForgetsTotal(eth: bytes, ip: bytes, seg: bytes, total: uint16)
    requires |ip| >= 20 && |seg| >= 8 && |eth| + |ip| + |seg| <= ONES
    ensures FixedAt(eth + Patched(ip, total) + seg, |eth|, |ip|) == FixedAt(eth + ip + seg, |eth|, |ip|)
  {
    hide Patched, FixedSegment, FixedAt, HeaderLen, U16, Fold;
    PatchedAgain(ip, |ip| + |seg|, total);
    PatchedByte(ip, total, 9);
    FixedAtOf(eth, ip, seg);
    FixedAtOf(eth, Patched(ip, total), seg);
  }

  lemma FixedAtOf(eth: bytes, ip: bytes, seg: bytes)
    requires |ip| >= 20 && |seg| >= 8 && |eth| + |ip| + |seg| <= ONES
    ensures FixedAt(eth + ip + seg, |eth|, |ip|)
         == eth + Patched(ip, |ip| + |seg|) + FixedSegment(Patched(ip, |ip| + |seg|), seg, ip[9])
  {
    hide Patched, FixedSegment;
    var p := eth + ip + seg;
    assert p[..|eth|] == eth && p[|eth|..|eth| + |ip|] == ip && p[|eth| + |ip|..] == seg && p[|eth| + 9] == ip[9];
  }

  /** What the receiver finds in a wire packet. */
  lemma WireParses(env: Settings, eth: bytes, ip: bytes, total: uint16, ports: bytes, nonce: Nonce, sealed: bytes,
                   old_: bytes)
    requires |ip| >= 20 && HeaderLen(ip[0]) == |ip| && |ports| == PORT_LEN && (ip[9] == TCP || ip[9] == UDP)
    requires Ipv4Offset(old_) == |eth| && old_[..|eth|] == eth
    requires env.mode.Pqc? || nonce[0] < 0x80
    ensures var w := eth + Patched(ip, total) + (ports + (TunnelHeader(env, nonce, TUNNEL_MAGIC) + sealed));
            var t := |eth| + |ip| + PORT_LEN;
            DecryptGuard(env, w) == Go(t) && w[..t] == eth + Patched(ip, total) + ports
            && w[t..t + NONCE_LEN] == nonce && w[t + 12] == env.policyId && w[t + 13] == TUNNEL_MAGIC
            && w[t + TUNNEL_LEN..] == sealed && Ipv4Shape(w) == Some((|eth|, |ip|))
  {
    hide Patched, Ipv4Offset;
    PatchedByte(ip, total, 0);
    PatchedByte(ip, total, 9);
    var o, mid := Patched(ip, total), TunnelHeader(env, nonce, TUNNEL_MAGIC);
    var w := eth + o + (ports + (mid + sealed));
    assert w[..|eth|] == eth;
    OffsetOfPrefix(old_, w, |eth|);
    assert w[|eth|] == o[0] && w[|eth| + 9] == o[9];
    WireTail(eth + o + ports, mid, sealed);
    Regroup5(eth, o, ports, mid, sealed);
  }

  lemma WireTail(front: bytes, mid: bytes, sealed: bytes)
    requires |mid| == TUNNEL_LEN
    ensures var w, t := front + (mid + sealed), |front|;
            w[..t] == front && w[t..t + NONCE_LEN] == mid[..NONCE_LEN]
            && w[t] == mid[0] && w[t + 12] == mid[12] && w[t + 13] == mid[13]
            && w[t + TUNNEL_LEN..] == sealed
  {
  }

  /** A TCP or UDP packet that carries the tunnel's magic behind its ports. */
  predicate LooksSealed(env: Settings, p: bytes) {
    var shape := Ipv4Shape(p);
    shape.Some?
    && var t := shape.value.0 + shape.value.1 + PORT_LEN;
       |p| >= t + TUNNEL_LEN && p[t + 13] == TUNNEL_MAGIC && (env.mode.Pqc? || p[t] < 0x80)
  }

  /**
   * Decrypting with the sender's key yields the packet with its lengths and checksums fixed up.  What is passed in
   * clear, such as ICMP or TCP with a bad data offset, comes back as it is if and only if it does not look sealed.
   */
  lemma RoundTrip(env: Settings, keys: Keys, nonce: Nonce, p: bytes)
    requires HeaderFits(p) && |p| + Overhead(env.mode) <= ONES && (env.mode.Pqc? || nonce[0] < 0x80)
    ensures var w := Encrypt(env, keys.current, nonce, p);
            match EncryptGuard(p)
            case Reject => w == None
            case Pass => w == Some(p) && (Decrypt(env, keys, p) == Some(p) <==> !LooksSealed(env, p))
            case Go(_) => w.Some? && Fixup(p).Some? && Decrypt(env, keys, w.value) == Fixup(p)
  {
    if EncryptGuard(p).Pass? {
      PassedInClear(env, keys, p);
    } else if EncryptGuard(p).Go? {
      SealedComesBack(env, keys, nonce, p);
    }
    hide SingleWire, Decrypt, Fixup, LooksSealed, EncryptGuard;
  }

  lemma PassedInClear(env: Settings, keys: Keys, p: bytes)
    requires HeaderFits(p) && EncryptGuard(p).Pass? && |p| <= ONES
    ensures Decrypt(env, keys, p) == Some(p) <==> !LooksSealed(env, p)
  {
    hide Ipv4Offset, HeaderLen, TransportHdrSize, OpenSingle;
    if LooksSealed(env, p) {
      OpenedIsShorter(env, keys, p, DecryptGuard(env, p).off);
    }
  }

  lemma OpenedIsShorter(env: Settings, keys: Keys, w: bytes, t: nat)
    requires t + TUNNEL_LEN <= |w| <= ONES
    ensures OpenSingle(env, keys, w, t).Some? ==> |OpenSingle(env, keys, w, t).value| < |w|
  {
    hide FixedAt, FixupShape, OpenWith;
  }

  lemma SealedComesBack(env: Settings, keys: Keys, nonce: Nonce, p: bytes)
    requires HeaderFits(p) && EncryptGuard(p).Go? && |p| + Overhead(env.mode) <= ONES
    requires env.mode.Pqc? || nonce[0] < 0x80
    ensures Encrypt(env, keys.current, nonce, p).Some? && Fixup(p).Some?
    ensures Decrypt(env, keys, Encrypt(env, keys.current, nonce, p).value) == Fixup(p)
  {
    hide SingleWire, OpenSingle, FixedAt, DecryptGuard, Ipv4Offset;
    hide FixupShape, EncryptGuard, HeaderLen, HeaderFits, Ipv4Shape;
    GuardGo(p);
    var off := EncryptGuard(p).off;
    var t := off + HeaderLen(p[off]);
    FourParts(p, off, t, t + PORT_LEN);
    RoundTripParts(env, keys, nonce, p[..off], p[off..t], p[t..t + PORT_LEN], p[t + PORT_LEN..], p);
    ShapeOf(p[..off], p[off..t], p[t..t + PORT_LEN] + p[t + PORT_LEN..], p);
  }

  /** What the receiver's tests see of an encrypted packet. */
  lemma EncryptedParses(env: Settings, key: Key, nonce: Nonce, p: bytes)
    requires HeaderFits(p) && EncryptGuard(p).Go? && (env.mode.Pqc? || nonce[0] < 0x80)
    ensures var w, off := Encrypt(env, key, nonce, p).value, EncryptGuard(p).off;
            var t := off + HeaderLen(p[off]) + PORT_LEN;
            Encrypt(env, key, nonce, p).Some? && off + 20 <= t && t + TUNNEL_LEN <= |w| == |p| + Overhead(env.mode)
            && w[..off] == p[..off] && Ipv4Shape(w) == Some((off as nat, HeaderLen(p[off]))) && w[off + 9] == p[off + 9]
            && w[t + 12] == env.policyId && w[t + 13] == TUNNEL_MAGIC
            && (p[off + 9] == TCP || p[off + 9] == UDP)
  {
    hide OpenSingle, FixedAt, DecryptGuard, Ipv4Offset, FixupShape, EncryptGuard, HeaderLen, HeaderFits, Ipv4Shape;
    hide SealWith, Patched, TunnelHeader, SingleTotal;
    GuardGo(p);
    var off := EncryptGuard(p).off;
    var t := off + HeaderLen(p[off]);
    FourParts(p, off, t, t + PORT_LEN);
    var ip, ports, plain := p[off..t], p[t..t + PORT_LEN], p[t + PORT_LEN..];
    var total := SingleTotal(env.mode, |ip|, |ports| + |plain|);
    WireParses(env, p[..off], ip, total, ports, nonce, SealWith(env, key, nonce, plain), p);
    PatchedByte(ip, total, 9);
    PrefixOf3(p[..off], Patched(ip, total), Behind(env, key, nonce, ports, TunnelHeader(env, nonce, TUNNEL_MAGIC), plain));
  }

  lemma GuardGo(p: bytes)
    requires HeaderFits(p) && EncryptGuard(p).Go?
    ensures var off := EncryptGuard(p).off;
            off < |p| && HeaderLen(p[off]) >= 20 && off + HeaderLen(p[off]) + 8 <= |p| && Ipv4Offset(p) == off
            && (p[off + 9] == TCP || p[off + 9] == UDP)
  {
    hide TransportHdrSize;
  }

  lemma FourParts(p: bytes, i: nat, j: nat, k: nat)
    requires i + 20 <= j <= k <= |p|
    ensures p == p[..i] + p[i..j] + (p[j..k] + p[k..]) && p[i..j][0] == p[i] && p[i..j][9] == p[i + 9]
  {
  }

  lemma RoundTripParts(env: Settings, keys: Keys, nonce: Nonce, eth: bytes, ip: bytes, ports: bytes, plain: bytes, p: bytes)
    requires |ip| >= 20 && HeaderLen(ip[0]) == |ip| && |ports| == PORT_LEN && |plain| >= 4 && (ip[9] == TCP || ip[9] == UDP)
    requires p == eth + ip + (ports + plain) && Ipv4Offset(p) == |eth| && |p| + Overhead(env.mode) <= ONES
    requires env.mode.Pqc? || nonce[0] < 0x80
    ensures var w := SingleWire(env, keys.current, nonce, eth, ip, ports, plain);
            DecryptGuard(env, w) == Go(|eth| + |ip| + PORT_LEN)
            && OpenSingle(env, keys, w, |eth| + |ip| + PORT_LEN) == Some(FixedAt(p, |eth|, |ip|))
  {
    hide SingleWire, OpenSingle, Patched, SingleTotal, DecryptGuard, Ipv4Offset, FixedAt, Fixup, HeaderLen;
    WireOpens(env, keys, nonce, eth, ip, ports, plain, p);
    FixupOfPatched(eth, ip, ports + plain, SingleTotal(env.mode, |ip|, |ports| + |plain|), p);
  }

  /** What is opened behind the header. */
  lemma WireOpens(env: Settings, keys: Keys, nonce: Nonce, eth: bytes, ip: bytes, ports: bytes, plain: bytes, p: bytes)
    requires |ip| >= 20 && HeaderLen(ip[0]) == |ip| && |ports| == PORT_LEN && |plain| >= 4 && (ip[9] == TCP || ip[9] == UDP)
    requires p == eth + ip + (ports + plain) && Ipv4Offset(p) == |eth| && |p| + Overhead(env.mode) <= ONES
    requires env.mode.Pqc? || nonce[0] < 0x80
    ensures var w, t := SingleWire(env, keys.current, nonce, eth, ip, ports, plain), |eth| + |ip| + PORT_LEN;
            DecryptGuard(env, w) == Go(t)
            && OpenSingle(env, keys, w, t)
               == Fixup(eth + Patched(ip, SingleTotal(env.mode, |ip|, |ports| + |plain|)) + (ports + plain))
  {
    hide SealWith, OpenWith, Patched, SingleTotal, DecryptGuard, TunnelHeader, Ipv4Offset, Fixup, HeaderLen;
    var sealed := SealWith(env, keys.current, nonce, plain);
    var total := SingleTotal(env.mode, |ip|, |ports| + |plain|);
    PrefixOf3(eth, ip, ports + plain);
    WireParses(env, eth, ip, total, ports, nonce, sealed, p);
    OpenWithSeal(env, keys, nonce, plain, Anything);
    Regroup4(eth, Patched(ip, total), ports, plain);
  }

  lemma PrefixOf3(a: bytes, b: bytes, c: bytes)
    ensures (a + b + c)[..|a|] == a
  {
  }

  lemma Regroup4(a: bytes, b: bytes, c: bytes, d: bytes)
    ensures a + b + c + d == a + b + (c + d)
  {
  }

  lemma FixupOfPatched(eth: bytes, ip: bytes, seg: bytes, total: uint16, p: bytes)
    requires |ip| >= 20 && HeaderLen(ip[0]) == |ip| && |seg| >= 8 && |p| <= ONES
    requires p == eth + ip + seg && Ipv4Offset(p) == |eth|
    ensures Fixup(eth + Patched(ip, total) + seg) == Some(FixedAt(p, |eth|, |ip|))
  {
    hide FixedAt, FixupShape, Ipv4Offset, HeaderLen, Patched;
    FixupForgetsTotal(eth, ip, seg, total);
    PatchedByte(ip, total, 0);
    assert p[..|eth|] == eth;
    ShapeOf(eth, Patched(ip, total), seg, p);
  }

  lemma ShapeOf(eth: bytes, ip: bytes, seg: bytes, p: bytes)
    requires |ip| >= 20 && HeaderLen(ip[0]) == |ip| && |seg| >= 8 && Ipv4Offset(p) == |eth| && p[..|eth|] == eth
    ensures FixupShape(eth + ip + seg) == Some((|eth|, |ip|))
  {
    var r := eth + ip + seg;
    assert r[..|eth|] == eth && r[|eth|] == ip[0];
    OffsetOfPrefix(p, r, |eth|);
  }
}
