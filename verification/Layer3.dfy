/** IP-payload encryption: `src/crypto/crypto_layer3.c`. */
module Layer3 {
  import opened Bytes
  import opened Checksum
  import opened Ipv4
  import opened Cipher
  import opened Wire

  const FRAG_MAGIC: uint8 := 0x5C
  const PROTO_OFF: nat := 23

  /** crypto_layer3_frag_meta_len */
  function FragMetaLen(mode: Mode): (n: nat) { TUNNEL_LEN + FRAG_TAG_LEN + TagLen(mode) }

  /** A header with another protocol and total length: what a packet travels under, or gets back. */
  function OuterIp(ip: bytes, proto: uint8, total: uint16): (r: bytes)
    requires |ip| >= 20
    ensures |r| == |ip|
  {
    Patched(ip[9 := proto], total)
  }

  /** What crypto_layer3_encrypt_fragment_single leaves in the output buffer. */
  function FragWire(env: Settings, key: Key, nonce: Nonce, eth: bytes, ip: bytes, plain: bytes, id: uint16,
                    index: uint8): (w: bytes)
    requires |eth| == ETH_LEN && |ip| >= 20
    ensures |w| == ETH_LEN + |ip| + |plain| + FragMetaLen(env.mode)
  {
    eth + OuterIp(ip, env.fakeProto, (|ip| + |plain| + FragMetaLen(env.mode)) % 0x1_0000)
      + FragMid(env, nonce, FRAG_MAGIC, id, index) + SealWith(env, key, nonce, plain)
  }

  method EncryptFragment(env: Settings, key: Key, nonce: Nonce, src: array<uint8>, ihl: nat, plainOff: nat, plainLen: nat,
                         id: uint16, index: uint8, out: array<uint8>, outMax: nat) returns (n: int)
    requires 20 <= ihl <= 60 && ETH_LEN + ihl <= src.Length && plainOff + plainLen <= src.Length && outMax <= out.Length
    modifies out
    ensures n == -1 <==> plainLen == 0 || ETH_LEN + ihl + plainLen + FragMetaLen(env.mode) > outMax
    ensures n < 0 ==> n == -1 && out[..] == old(out[..])
    ensures n >= 0 ==>
      var s := old(src[..]);
      var w := FragWire(env, key, nonce, s[..ETH_LEN], s[ETH_LEN..ETH_LEN + ihl], s[plainOff..plainOff + plainLen], id, index);
      n == |w| && out[..] == Splice(old(out[..]), 0, w)
  {
    hide Splice, SealWith, Patched, FragMid;
    var need := ETH_LEN + ihl + plainLen + FragMetaLen(env.mode);
    if plainLen == 0 || need > outMax { return -1; }
    ghost var before := out[..];
    ghost var eth, ip, plain := src[..ETH_LEN], src[ETH_LEN..ETH_LEN + ihl], src[plainOff..plainOff + plainLen];
    assert src[..ETH_LEN + ihl] == eth + ip;
    var mid := FragMid(env, nonce, FRAG_MAGIC, id, index);
    AssembleSealed(env, key, nonce, out, src, ETH_LEN + ihl, mid, plainOff, plainLen);
    ghost var sealed := SealWith(env, key, nonce, plain);
    ghost var rest := mid + sealed;
    Regroup(eth, ip, mid, sealed);
    var total := (need - ETH_LEN) % 0x1_0000;
    PatchOuter(out, ihl, env.fakeProto, total, before, eth, ip, rest);
    n := need;
    Regroup(eth, OuterIp(ip, env.fakeProto, total), mid, sealed);
  }

  /** Sets the protocol, then the length and checksum, of the header behind the Ethernet one. */
  method PatchOuter(out: array<uint8>, ihl: nat, proto: uint8, total: uint16,
                    ghost before: bytes, ghost eth: bytes, ghost ip: bytes, ghost rest: bytes)
    requires 20 <= ihl <= 60 && |eth| == ETH_LEN && |ip| == ihl && ETH_LEN + ihl + |rest| <= |before|
    requires out[..] == Splice(before, 0, eth + ip + rest)
    modifies out
    ensures out[..] == Splice(before, 0, eth + OuterIp(ip, proto, total) + rest)
  {
    hide Patched;
    out[PROTO_OFF] := proto;
    ghost var ip1 := ip[9 := proto];
    SpliceByte(before, eth, ip, rest, 9, proto);
    hide Splice;
    SpliceMiddle(before, eth, ip1, rest, Patched(ip1, total));
    PatchIpv4(out, ETH_LEN, ihl, total);
  }

  /** The checks of crypto_layer3_decrypt_fragment; `off` is where the tunnel header starts. */
  function FragGuard(env: Settings, w: bytes): (g: Guard)
    ensures g.Go? ==> 34 <= g.off && g.off + TUNNEL_LEN + FRAG_TAG_LEN <= |w|
  {
    var ihl := RequireIpv4(w);
    if ihl < 0 || w[PROTO_OFF] != env.fakeProto || |w| < ETH_LEN + ihl + TUNNEL_LEN + FRAG_TAG_LEN
      || w[ETH_LEN + ihl + 13] != FRAG_MAGIC then Reject
    else Go(ETH_LEN + ihl)
  }

  /** crypto_layer3_decrypt_fragment; None is its error return. */
  function DecryptFragment(env: Settings, keys: Keys, w: bytes): (r: Option<Opened>) {
    match FragGuard(env, w)
    case Go(t) => OpenFragment(env, keys, w, t)
    case _ => None
  }

  method DecryptFragmentInPlace(env: Settings, keys: Keys, a: array<uint8>, len: nat)
    returns (n: int, id: uint16, index: uint8)
    requires len <= a.Length
    modifies a
    ensures match DecryptFragment(env, keys, old(a[..len]))
            case None => n == -1
            case Some(o) => n == |o.packet| && n <= len && a[..n] == o.packet && id == o.id && index == o.index
  {
    n, id, index := -1, 0, 0;
    hide OpenFragment;
    var g := FragGuard(env, a[..len]);
    if g.Go? {
      n, id, index := OpenFragmentInPlace(env, keys, a, len, g.off);
    }
  }

  /** A frame's IPv4 header as the receiver finds it behind the outer rewriting. */
  lemma OuterIpParses(eth: bytes, ip: bytes, proto: uint8, total: uint16, rest: bytes)
    requires |eth| == ETH_LEN && EtherType(eth) == 0x0800 && |ip| >= 20 && HeaderLen(ip[0]) == |ip|
    ensures var w := eth + OuterIp(ip, proto, total) + rest;
            RequireIpv4(w) == |ip| && w[PROTO_OFF] == proto
  {
    PatchedFields(ip[9 := proto], total);
    hide Patched;
    var o := OuterIp(ip, proto, total);
    var w := eth + o + rest;
    assert w[12] == eth[12] && w[13] == eth[13] && w[14] == o[0] && w[PROTO_OFF] == o[9];
  }

  /** What one fragment carries comes back, behind the headers it travelled under. */
  lemma FragmentRoundTrip(env: Settings, keys: Keys, nonce: Nonce, eth: bytes, ip: bytes, plain: bytes, id: uint16,
                          index: uint8)
    requires |eth| == ETH_LEN && EtherType(eth) == 0x0800 && |ip| >= 20 && HeaderLen(ip[0]) == |ip| && |plain| > 0
    ensures DecryptFragment(env, keys, FragWire(env, keys.current, nonce, eth, ip, plain, id, index))
         == Some(Opened(eth + OuterIp(ip, env.fakeProto, (|ip| + |plain| + FragMetaLen(env.mode)) % 0x1_0000) + plain, id, index))
  {
    hide OpenWith, SealWith, OuterIp, RequireIpv4;
    var total := (|ip| + |plain| + FragMetaLen(env.mode)) % 0x1_0000;
    var front := eth + OuterIp(ip, env.fakeProto, total);
    var mid, sealed := FragMid(env, nonce, FRAG_MAGIC, id, index), SealWith(env, keys.current, nonce, plain);
    var w := FragWire(env, keys.current, nonce, eth, ip, plain, id, index);
    assert w == front + (mid + sealed);
    OuterIpParses(eth, ip, env.fakeProto, total, mid + sealed);
    U16HiLo(id);
    MidParses(env, nonce, FRAG_MAGIC, id, index, front, sealed);
    OpenWithSeal(env, keys, nonce, plain, Anything);
  }

  /* Whole packets */

  function Overhead(mode: Mode): (n: nat) { TUNNEL_LEN + TagLen(mode) }

  function SingleWire(env: Settings, key: Key, nonce: Nonce, eth: bytes, ip: bytes, payload: bytes): (w: bytes)
    requires |eth| == ETH_LEN && |ip| >= 20
    ensures |w| == ETH_LEN + |ip| + |payload| + Overhead(env.mode)
  {
    eth + OuterIp(ip, env.fakeProto, (U16(ip[2], ip[3]) + Overhead(env.mode)) % 0x1_0000)
      + TunnelHeader(env, nonce, ip[9]) + SealWith(env, key, nonce, payload)
  }

  /** Is the payload taken for a fragment that is already encrypted? */
  predicate LooksFragmented(p: bytes, t: nat) {
    |p| >= t + TUNNEL_LEN && p[t + 13] == FRAG_MAGIC
  }

  /** The checks of crypto_layer3_encrypt; `off` is where the payload starts. */
  function EncryptGuard(env: Settings, p: bytes): (g: Guard)
    ensures g.Go? ==> 34 <= g.off <= 74 && g.off <= |p|
  {
    if |p| < 22 then Reject
    else if |p| < 34 || EtherType(p) != 0x0800 then Pass
    else
      var ihl := RequireIpv4(p);
      if ihl < 0 then Reject
      else if LooksFragmented(p, ETH_LEN + ihl) then Pass
      else if env.mode.Pqc? && |p| == ETH_LEN + ihl then Reject
      else Go(ETH_LEN + ihl)
  }

  /** crypto_layer3_encrypt; None is its error return, an unchanged packet means it was passed through. */
  function Encrypt(env: Settings, key: Key, nonce: Nonce, p: bytes): (r: Option<bytes>)
    ensures r.Some? ==> |r.value| <= |p| + Overhead(env.mode)
  {
    match EncryptGuard(env, p)
    case Reject => None
    case Pass => Some(p)
    case Go(t) => Some(SingleWire(env, key, nonce, p[..ETH_LEN], p[ETH_LEN..t], p[t..]))
  }

  /** CTR and GCM encrypt before they move the payload up, PQC after; the buffer ends the same. */
  method EncryptInPlace(env: Settings, key: Key, nonce: Nonce, a: array<uint8>, len: nat) returns (n: int)
    requires len + Overhead(env.mode) <= a.Length
    modifies a
    ensures match Encrypt(env, key, nonce, old(a[..len]))
            case None => n == -1 && a[..] == old(a[..])
            case Some(w) => n == |w| && a[..] == Splice(old(a[..]), 0, w)
  {
    hide SingleWire, EncryptGuard, Splice;
    var g := EncryptGuard(env, a[..len]);
    match g
    case Reject => n := -1;
    case Pass =>
      SpliceSame(a[..], 0, len);
      n := len;
    case Go(t) =>
      EncryptPayload(env, key, nonce, a, t - ETH_LEN, len);
      n := len + Overhead(env.mode);
  }

  method EncryptPayload(env: Settings, key: Key, nonce: Nonce, a: array<uint8>, ihl: nat, len: nat)
    requires 20 <= ihl <= 60 && ETH_LEN + ihl <= len && len + Overhead(env.mode) <= a.Length
    modifies a
    ensures var p, t := old(a[..len]), ETH_LEN + ihl;
            a[..] == Splice(old(a[..]), 0, SingleWire(env, key, nonce, p[..ETH_LEN], p[ETH_LEN..t], p[t..]))
  {
    hide Splice, SealWith, Patched, TunnelHeader;
    ghost var before := a[..];
    SliceSlices(a[..], len, ETH_LEN, ETH_LEN + ihl);
    ghost var eth, ip, payload := a[..ETH_LEN], a[ETH_LEN..ETH_LEN + ihl], a[ETH_LEN + ihl..len];
    var total := (U16(a[ETH_LEN + 2], a[ETH_LEN + 3]) + Overhead(env.mode)) % 0x1_0000;
    var mid := TunnelHeader(env, nonce, a[PROTO_OFF]);
    assert a[..ETH_LEN + ihl] == eth + ip;
    AssembleSealed(env, key, nonce, a, a, ETH_LEN + ihl, mid, ETH_LEN + ihl, len - ETH_LEN - ihl);
    ghost var sealed := SealWith(env, key, nonce, payload);
    Regroup(eth, ip, mid, sealed);
    PatchOuter(a, ihl, env.fakeProto, total, before, eth, ip, mid + sealed);
    Regroup(eth, OuterIp(ip, env.fakeProto, total), mid, sealed);
  }

  /** What a decrypted packet looks like: lengths back, header and transport checksums recomputed. */
  function Restored(eth: bytes, ip: bytes, proto: uint8, total: uint16, payload: bytes): (r: bytes)
    requires |eth| == ETH_LEN && |ip| >= 20 && |payload| <= ONES
    ensures |r| == ETH_LEN + |ip| + |payload|
  {
    eth + OuterIp(ip, proto, total) + Summed(OuterIp(ip, proto, total), payload, proto)
  }

  /** The checks of crypto_layer3_decrypt; `off` is where the tunnel header starts. */
  function DecryptGuard(env: Settings, w: bytes): (g: Guard)
    ensures g.Go? ==> 34 <= g.off <= 74 && g.off + TUNNEL_LEN <= |w|
  {
    if |w| < 22 then Reject
    else
      var ihl := RequireIpv4(w);
      if ihl < 0 || |w| < ETH_LEN + ihl + TUNNEL_LEN || LooksFragmented(w, ETH_LEN + ihl)
        || w[PROTO_OFF] != env.fakeProto then Pass
      else Go(ETH_LEN + ihl)
  }

  /** The total length before the tunnel was added. */
  function InnerTotal(env: Settings, w: bytes): (n: uint16)
    requires |w| >= 18
  {
    (U16(w[16], w[17]) - Overhead(env.mode)) % 0x1_0000
  }

  function OpenSingle(env: Settings, keys: Keys, w: bytes, t: nat): (r: Option<bytes>)
    requires 34 <= t <= 74 && t + TUNNEL_LEN <= |w| <= ONES
    ensures r.Some? ==> |r.value| <= |w|
  {
    match OpenWith(env, keys, w[t..t + NONCE_LEN], w[t + TUNNEL_LEN..], Ports(w[t + 13]))
    case None => None
    case Some(payload) =>
      Some(Restored(w[..ETH_LEN], w[ETH_LEN..t], w[t + 13], InnerTotal(env, w), payload))
  }

  /** crypto_layer3_decrypt; None is its error return, an unchanged packet means it was passed through. */
  function Decrypt(env: Settings, keys: Keys, w: bytes): (r: Option<bytes>)
    requires |w| <= ONES
    ensures r.Some? ==> |r.value| <= |w|
  {
    match DecryptGuard(env, w)
    case Reject => None
    case Pass => Some(w)
    case Go(t) => OpenSingle(env, keys, w, t)
  }

  method DecryptInPlace(env: Settings, keys: Keys, a: array<uint8>, len: nat) returns (n: int)
    requires len <= a.Length && len <= ONES
    modifies a
    ensures match Decrypt(env, keys, old(a[..len]))
            case None => n == -1
            case Some(p) => n == |p| && a[..n] == p
  {
    hide DecryptGuard, OpenSingle;
    var g := DecryptGuard(env, a[..len]);
    match g
    case Reject => n := -1;
    case Pass => n := len;
    case Go(t) => n := OpenSingleInPlace(env, keys, a, len, t);
  }

  method OpenSingleInPlace(env: Settings, keys: Keys, a: array<uint8>, len: nat, t: nat) returns (n: int)
    requires 34 <= t <= 74 && t + TUNNEL_LEN <= len <= a.Length && len <= ONES
    modifies a
    ensures match OpenSingle(env, keys, old(a[..len]), t)
            case None => n == -1
            case Some(p) => n == |p| && a[..n] == p
  {
    ghost var s := a[..];
    hide OpenSingle, OpenWith, InnerTotal, Restored;
    OpenSingleOf(env, keys, s, len, t);
    var orig := a[t + 13];
    var total := InnerTotal(env, a[..]);
    ghost var plain := OpenWith(env, keys, s[t..t + NONCE_LEN], s[t + TUNNEL_LEN..len], Ports(orig));
    n := OpenAndMoveDown(env, keys, a[t..t + NONCE_LEN], a, len, t, t + TUNNEL_LEN, Ports(orig));
    if n >= 0 {
      RestoreBehind(a, t, n, orig, total, s, plain.value);
    }
  }

  method RestoreBehind(a: array<uint8>, t: nat, n: nat, proto: uint8, total: uint16, ghost s: bytes, ghost plain: bytes)
    requires 34 <= t <= 74 && t <= n <= a.Length && n <= ONES && t <= |s| && a[..t] == s[..t] && a[t..n] == plain
    modifies a
    ensures a[..n] == Restored(s[..ETH_LEN], s[ETH_LEN..t], proto, total, plain)
  {
    hide Restored;
    PrefixParts(a[..], s, t, ETH_LEN);
    Restore(a, t - ETH_LEN, n, proto, total);
  }

  lemma OpenSingleOf(env: Settings, keys: Keys, s: bytes, len: nat, t: nat)
    requires 34 <= t <= 74 && t + TUNNEL_LEN <= len <= |s| && len <= ONES
    ensures OpenSingle(env, keys, s[..len], t)
         == match OpenWith(env, keys, s[t..t + NONCE_LEN], s[t + TUNNEL_LEN..len], Ports(s[t + 13]))
            case None => None
            case Some(payload) => Some(Restored(s[..ETH_LEN], s[ETH_LEN..t], s[t + 13], InnerTotal(env, s), payload))
  {
    hide OpenWith, Restored;
    assert s[..len][t..t + NONCE_LEN] == s[t..t + NONCE_LEN];
    SliceSlices(s, len, t, t + TUNNEL_LEN);
    SliceSlices(s, len, ETH_LEN, t);
  }

  method Restore(a: array<uint8>, ihl: nat, n: nat, proto: uint8, total: uint16)
    requires 20 <= ihl <= 60 && ETH_LEN + ihl <= n <= a.Length && n <= ONES
    modifies a
    ensures a[..n] == Restored(old(a[..ETH_LEN]), old(a[ETH_LEN..ETH_LEN + ihl]), proto, total, old(a[ETH_LEN + ihl..n]))
  {
    hide Splice, Patched, Summed;
    ghost var before := a[..];
    ghost var eth, ip, payload := a[..ETH_LEN], a[ETH_LEN..ETH_LEN + ihl], a[ETH_LEN + ihl..n];
    ThreeParts(before, eth, ip, payload, n);
    PatchOuter(a, ihl, proto, total, before, eth, ip, payload);
    ghost var outer := OuterIp(ip, proto, total);
    ghost var mid := a[..];
    SpliceThree(before, eth, outer, payload);
    SumInPlace(a, ETH_LEN, ihl, ETH_LEN + ihl, n, proto);
    SplicePrefix(mid, ETH_LEN + ihl, Summed(outer, payload, proto));
    SpliceParts(mid, 0, eth + outer + Summed(outer, payload, proto));
  }

  /** Only the last protocol and length count. */
  lemma OuterIpAgain(ip: bytes, fake: uint8, total1: uint16, proto: uint8, total: uint16)
    requires |ip| >= 20
    ensures OuterIp(OuterIp(ip, fake, total1), proto, total) == OuterIp(ip, proto, total)
  {
    var a := Stored(OuterIp(ip, fake, total1)[9 := proto], 2, total);
    var b := Stored(ip[9 := proto], 2, total);
    hide IpChecksum;
    assert Zeroed(a, 10) == Zeroed(b, 10);
    StoredOverZero(a, 10, IpChecksum(Zeroed(a, 10)));
    StoredOverZero(b, 10, IpChecksum(Zeroed(b, 10)));
  }

  /** Where a wire packet's parts are. */
  lemma SingleWireParses(env: Settings, key: Key, nonce: Nonce, eth: bytes, ip: bytes, payload: bytes)
    requires |eth| == ETH_LEN && EtherType(eth) == 0x0800 && |ip| >= 20 && HeaderLen(ip[0]) == |ip|
    ensures var w := SingleWire(env, key, nonce, eth, ip, payload);
            var t := ETH_LEN + |ip|;
            var total := (U16(ip[2], ip[3]) + Overhead(env.mode)) % 0x1_0000;
            RequireIpv4(w) == |ip| && w[PROTO_OFF] == env.fakeProto && w[t + 12] == env.policyId && w[t + 13] == ip[9]
            && w[..ETH_LEN] == eth && w[ETH_LEN..t] == OuterIp(ip, env.fakeProto, total) && U16(w[16], w[17]) == total
            && w[t..t + NONCE_LEN] == nonce && w[t + TUNNEL_LEN..] == SealWith(env, key, nonce, payload)
  {
    hide SealWith, Patched, RequireIpv4;
    var total := (U16(ip[2], ip[3]) + Overhead(env.mode)) % 0x1_0000;
    var outer := OuterIp(ip, env.fakeProto, total);
    var mid, sealed := TunnelHeader(env, nonce, ip[9]), SealWith(env, key, nonce, payload);
    PatchedFields(ip[9 := env.fakeProto], total);
    var w := SingleWire(env, key, nonce, eth, ip, payload);
    Regroup(eth, outer, mid, sealed);
    OuterIpParses(eth, ip, env.fakeProto, total, mid + sealed);
    WireParts(eth, outer, mid, sealed);
    assert w[16] == w[ETH_LEN..ETH_LEN + |ip|][2] && w[17] == w[ETH_LEN..ETH_LEN + |ip|][3];
    assert mid[..NONCE_LEN] == nonce;
  }

  lemma WireParts(a: bytes, b: bytes, mid: bytes, tail: bytes)
    requires |mid| == TUNNEL_LEN
    ensures var w, t := a + b + mid + tail, |a| + |b|;
            w[..|a|] == a && w[|a|..t] == b && w[t..t + NONCE_LEN] == mid[..NONCE_LEN] && w[t + 13] == mid[13]
            && w[t + TUNNEL_LEN..] == tail
  {
  }

  /** What a packet comes back as: itself, with its header and transport checksums recomputed. */
  function Normalised(p: bytes): (r: bytes)
    requires RequireIpv4(p) > 0 && |p| <= ONES
  {
    var t := ETH_LEN + RequireIpv4(p);
    Restored(p[..ETH_LEN], p[ETH_LEN..t], p[PROTO_OFF], U16(p[16], p[17]), p[t..])
  }

  /**
   * Encryption refuses PQC packets without a payload only.  Decrypting with the sender's key yields the packet
   * with its checksums recomputed, except that a packet whose payload carries the fragment magic is passed
   * both ways in clear, one whose protocol is that byte stays encrypted, and a CTR packet of TCP or UDP
   * without plausible ports is not recovered.
   */
  lemma RoundTrip(env: Settings, keys: Keys, nonce: Nonce, p: bytes)
    requires |p| + Overhead(env.mode) <= ONES && RequireIpv4(p) > 0
    ensures Encrypt(env, keys.current, nonce, p) == None <==> env.mode.Pqc? && |p| == ETH_LEN + RequireIpv4(p)
    ensures Encrypt(env, keys.current, nonce, p).Some? ==>
              var w, t := Encrypt(env, keys.current, nonce, p).value, ETH_LEN + RequireIpv4(p);
              if LooksFragmented(p, t) then w == p && Decrypt(env, keys, w) == Some(p)
              else if p[PROTO_OFF] == FRAG_MAGIC then Decrypt(env, keys, w) == Some(w)
              else Decrypt(env, keys, w) == Some(Normalised(p)) <==> (env.mode.Ctr? ==> Plausible(Ports(p[PROTO_OFF]), p[t..]))
  {
    hide SingleWire, RequireIpv4, Plausible, OpenSingle, DecryptGuard, Restored;
    hide EncryptGuard, Encrypt, LooksFragmented, Patched, Summed;
    EncryptsTo(env, keys.current, nonce, p);
    var t := ETH_LEN + RequireIpv4(p);
    HeaderBytes(p, t);
    if LooksFragmented(p, t) {
      DecryptPasses(env, p);
    } else if Encrypt(env, keys.current, nonce, p).Some? {
      WireOpens(env, keys, nonce, p[..ETH_LEN], p[ETH_LEN..t], p[t..]);
      RecoveredIff(env, keys, nonce, p[..ETH_LEN], p[ETH_LEN..t], p[t..]);
    }
  }

  lemma EncryptsTo(env: Settings, key: Key, nonce: Nonce, p: bytes)
    requires RequireIpv4(p) > 0
    ensures var t := ETH_LEN + RequireIpv4(p);
            t <= |p| && (LooksFragmented(p, t) ==> |p| > t)
            && Encrypt(env, key, nonce, p)
               == if LooksFragmented(p, t) then Some(p)
                  else if env.mode.Pqc? && |p| == t then None
                  else Some(SingleWire(env, key, nonce, p[..ETH_LEN], p[ETH_LEN..t], p[t..]))
  {
    hide SingleWire;
  }

  lemma DecryptPasses(env: Settings, p: bytes)
    requires RequireIpv4(p) > 0 && LooksFragmented(p, ETH_LEN + RequireIpv4(p))
    ensures DecryptGuard(env, p) == Pass
  {
  }

  /** The receiver takes the wire packet unless its protocol is the fragment magic, and restores what it opens. */
  lemma WireOpens(env: Settings, keys: Keys, nonce: Nonce, eth: bytes, ip: bytes, payload: bytes)
    requires |eth| == ETH_LEN && EtherType(eth) == 0x0800 && |ip| >= 20 && HeaderLen(ip[0]) == |ip|
    requires ETH_LEN + |ip| + |payload| + Overhead(env.mode) <= ONES
    ensures var w := SingleWire(env, keys.current, nonce, eth, ip, payload);
            DecryptGuard(env, w) == (if ip[9] == FRAG_MAGIC then Pass else Go(ETH_LEN + |ip|))
            && OpenSingle(env, keys, w, ETH_LEN + |ip|)
               == match OpenWith(env, keys, nonce, SealWith(env, keys.current, nonce, payload), Ports(ip[9]))
                  case None => None
                  case Some(q) => Some(Restored(eth, ip, ip[9], U16(ip[2], ip[3]), q))
  {
    hide SingleWire, RequireIpv4, OuterIp, OpenWith, SealWith, Restored, InnerTotal, EtherType, HeaderLen;
    SingleWireParses(env, keys.current, nonce, eth, ip, payload);
    var w := SingleWire(env, keys.current, nonce, eth, ip, payload);
    InnerTotalBack(env, w, U16(ip[2], ip[3]));
    var r := OpenWith(env, keys, nonce, SealWith(env, keys.current, nonce, payload), Ports(ip[9]));
    if r.Some? {
      RestoredAgain(eth, ip, env.fakeProto, U16(w[16], w[17]), ip[9], U16(ip[2], ip[3]), r.value);
    }
  }

  /** The sender's payload is restored exactly when it is plausible: what another key yields has other ports. */
  lemma RecoveredIff(env: Settings, keys: Keys, nonce: Nonce, eth: bytes, ip: bytes, payload: bytes)
    requires |eth| == ETH_LEN && |ip| >= 20 && |payload| + Overhead(env.mode) <= ONES && (env.mode.Pqc? ==> |payload| > 0)
    ensures var r := OpenWith(env, keys, nonce, SealWith(env, keys.current, nonce, payload), Ports(ip[9]));
            var total := U16(ip[2], ip[3]);
            (r.Some? && Restored(eth, ip, ip[9], total, r.value) == Restored(eth, ip, ip[9], total, payload))
            <==> (env.mode.Ctr? ==> Plausible(Ports(ip[9]), payload))
  {
    hide Seal, Open, Restored, Plausible, OuterIp;
    if env.mode.Ctr? {
      OpenSealCtr(env.suite, keys.current, KeyOrder(env.mode, keys), nonce, payload, Ports(ip[9]));
      var r := OpenWith(env, keys, nonce, SealWith(env, keys.current, nonce, payload), Ports(ip[9]));
      if r.Some? && Restored(eth, ip, ip[9], U16(ip[2], ip[3]), r.value) == Restored(eth, ip, ip[9], U16(ip[2], ip[3]), payload) {
        SamePlausibility(eth, ip, U16(ip[2], ip[3]), r.value, payload);
      }
    } else {
      OpenSeal(env.suite, env.mode, keys.current, KeyOrder(env.mode, keys), nonce, payload, Ports(ip[9]));
    }
  }

  /** Packets restored alike have the same ports. */
  lemma SamePlausibility(eth: bytes, ip: bytes, total: uint16, a: bytes, b: bytes)
    requires |eth| == ETH_LEN && |ip| >= 20 && |a| == |b| <= ONES
    requires Restored(eth, ip, ip[9], total, a) == Restored(eth, ip, ip[9], total, b)
    ensures Plausible(Ports(ip[9]), a) <==> Plausible(Ports(ip[9]), b)
  {
    hide Summed, Patched;
    var outer := OuterIp(ip, ip[9], total);
    var sa, sb := Summed(outer, a, ip[9]), Summed(outer, b, ip[9]);
    assert Restored(eth, ip, ip[9], total, a)[ETH_LEN + |ip|..] == sa;
    assert Restored(eth, ip, ip[9], total, b)[ETH_LEN + |ip|..] == sb;
    if |a| >= 4 {
      SummedPorts(outer, a, ip[9]);
      SummedPorts(outer, b, ip[9]);
    }
  }

  lemma SummedPorts(ip: bytes, seg: bytes, proto: uint8)
    requires 4 <= |seg| <= ONES
    ensures var s := Summed(ip, seg, proto); s[0] == seg[0] && s[1] == seg[1] && s[2] == seg[2] && s[3] == seg[3]
  {
    hide Summed;
    SummedKeeps(ip, seg, proto, 0);
    SummedKeeps(ip, seg, proto, 1);
    SummedKeeps(ip, seg, proto, 2);
    SummedKeeps(ip, seg, proto, 3);
  }

  /** The header bytes of a frame, seen in the frame and in the header. */
  lemma HeaderBytes(p: bytes, t: nat)
    requires 34 <= t <= |p|
    ensures var ip := p[ETH_LEN..t];
            ip[0] == p[14] && ip[2] == p[16] && ip[3] == p[17] && ip[9] == p[PROTO_OFF]
            && EtherType(p[..ETH_LEN]) == EtherType(p)
  {
  }

  lemma InnerTotalBack(env: Settings, w: bytes, total: uint16)
    requires |w| >= 18 && U16(w[16], w[17]) == (total + Overhead(env.mode)) % 0x1_0000
    ensures InnerTotal(env, w) == total
  {
  }

  lemma RestoredAgain(eth: bytes, ip: bytes, fake: uint8, total1: uint16, proto: uint8, total: uint16, payload: bytes)
    requires |eth| == ETH_LEN && |ip| >= 20 && |payload| <= ONES
    ensures Restored(eth, OuterIp(ip, fake, total1), proto, total, payload) == Restored(eth, ip, proto, total, payload)
  {
    OuterIpAgain(ip, fake, total1, proto, total);
    hide OuterIp, Summed;
  }

  /** Normalising touches the two checksum fields only. */
  lemma NormalisedKeeps(p: bytes, i: nat)
    requires RequireIpv4(p) > 0 && |p| <= ONES && i < |p| && i != 24 && i != 25
    requires !InChecksum(p[PROTO_OFF], i - ETH_LEN - RequireIpv4(p))
    ensures |Normalised(p)| == |p| && Normalised(p)[i] == p[i]
  {
    hide RequireIpv4, Summed, OuterIp;
    var t := ETH_LEN + RequireIpv4(p);
    var ip := p[ETH_LEN..t];
    var total := U16(p[16], p[17]);
    var outer := OuterIp(ip, p[PROTO_OFF], total);
    if ETH_LEN <= i < t {
      HeaderBytes(p, t);
      OuterIpKeeps(ip, i - ETH_LEN);
    } else if t <= i {
      SummedKeeps(outer, p[t..], p[PROTO_OFF], i - t);
    }
  }

  predicate InChecksum(proto: uint8, j: int) {
    (proto == UDP && (j == 6 || j == 7)) || (proto == TCP && (j == 16 || j == 17))
  }

  lemma SummedKeeps(ip: bytes, seg: bytes, proto: uint8, j: nat)
    requires |seg| <= ONES && j < |seg| && !InChecksum(proto, j)
    ensures Summed(ip, seg, proto)[j] == seg[j]
  {
    hide UdpChecksum, TcpChecksum;
  }

  lemma OuterIpKeeps(ip: bytes, j: nat)
    requires |ip| >= 20 && j < |ip| && j != 10 && j != 11
    ensures OuterIp(ip, ip[9], U16(ip[2], ip[3]))[j] == ip[j]
  {
    PatchedFields(ip[9 := ip[9]], U16(ip[2], ip[3]));
    hide Patched;
    var outer := OuterIp(ip, ip[9], U16(ip[2], ip[3]));
    SameU16(ip[2], ip[3], outer[2], outer[3]);
  }

}
