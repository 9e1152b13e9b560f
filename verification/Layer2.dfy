/** Encryption of everything behind the Ethernet header: `src/crypto/crypto_layer2.c`. */
module Layer2 {
  import opened Bytes
  import opened Ipv4
  import opened Cipher
  import opened Wire

  const FRAG_MAGIC: uint8 := 0x5B
  const MAC_LEN: nat := 12
  /** Ethertype, policy id, worker index and nonce. */
  const WIRE_HDR_LEN: nat := 16
  const ENC_START: nat := 28
  const FRAG_ENC_START: nat := 33

  /** crypto_layer2_frag_meta_len */
  function FragMetaLen(mode: Mode): (n: nat) { 19 + TagLen(mode) }

  /** l2_write_wire_header: the fake ethertype in place of the real one, then policy, worker and nonce. */
  function WireHeader(env: Settings, nonce: Nonce): (r: bytes)
    ensures |r| == WIRE_HDR_LEN
  {
    [Hi(env.fakeEther), Lo(env.fakeEther), env.policyId, env.worker] + nonce
  }

  function FragHeader(env: Settings, nonce: Nonce, id: uint16, index: uint8): (r: bytes)
    ensures |r| == WIRE_HDR_LEN + 1 + FRAG_TAG_LEN
  {
    WireHeader(env, nonce) + [FRAG_MAGIC] + FragTag(id, index)
  }

  /** What crypto_layer2_encrypt_fragment_single leaves in the output buffer. */
  function FragWire(env: Settings, key: Key, nonce: Nonce, macs: bytes, plain: bytes, id: uint16, index: uint8): (w: bytes)
    requires |macs| == MAC_LEN
    ensures |w| == ETH_LEN + |plain| + FragMetaLen(env.mode)
  {
    macs + FragHeader(env, nonce, id, index) + SealWith(env, key, nonce, plain)
  }

  method EncryptFragment(env: Settings, key: Key, nonce: Nonce, src: array<uint8>, plainOff: nat, plainLen: nat,
                         id: uint16, index: uint8, out: array<uint8>, outMax: nat) returns (n: int)
    requires ETH_LEN <= src.Length && plainOff + plainLen <= src.Length && outMax <= out.Length
    modifies out
    ensures n == -1 <==> plainLen == 0 || old(EtherType(src[..])) != 0x0800
                         || ETH_LEN + plainLen + FragMetaLen(env.mode) > outMax || env.fakeEther == 0
    ensures n < 0 ==> n == -1 && out[..] == old(out[..])
    ensures n >= 0 ==>
      var s := old(src[..]);
      var w := FragWire(env, key, nonce, s[..MAC_LEN], s[plainOff..plainOff + plainLen], id, index);
      n == |w| && out[..] == Splice(old(out[..]), 0, w)
  {
    var need := ETH_LEN + plainLen + FragMetaLen(env.mode);
    if plainLen == 0 || U16(src[12], src[13]) != 0x0800 { return -1; }
    if need > outMax || env.fakeEther == 0 { return -1; }
    hide Splice, SealWith, FragHeader, U16;
    AssembleSealed(env, key, nonce, out, src, MAC_LEN, FragHeader(env, nonce, id, index), plainOff, plainLen);
    n := need;
  }

  predicate HasFakeEther(env: Settings, w: bytes)
    requires |w| >= ETH_LEN
  {
    env.fakeEther != 0 && EtherType(w) == env.fakeEther
  }

  /** crypto_layer2_has_wire_frag_marker */
  predicate HasFragMarker(env: Settings, w: bytes) {
    |w| >= FRAG_ENC_START && HasFakeEther(env, w) && w[28] == FRAG_MAGIC && w[31] <= 1 && w[32] == 0
  }

  /** The checks of crypto_layer2_decrypt_fragment: PQC looks at the magic only. */
  predicate FragGuard(env: Settings, w: bytes) {
    |w| >= FRAG_ENC_START && HasFakeEther(env, w)
    && if env.mode.Pqc? then w[28] == FRAG_MAGIC else HasFragMarker(env, w)
  }

  /** crypto_layer2_decrypt_fragment; None is its error return.  The fake ethertype stays. */
  function DecryptFragment(env: Settings, keys: Keys, w: bytes): (r: Option<Opened>) {
    if !FragGuard(env, w) then None
    else OpenFrag(env, keys, w)
  }

  function OpenFrag(env: Settings, keys: Keys, w: bytes): (r: Option<Opened>)
    requires |w| >= FRAG_ENC_START
  {
    match OpenWith(env, keys, w[16..28], w[FRAG_ENC_START..], Anything)
    case None => None
    case Some(plain) => Some(Opened(w[..ETH_LEN] + plain, U16(w[29], w[30]), w[31]))
  }

  method DecryptFragmentInPlace(env: Settings, keys: Keys, a: array<uint8>, len: nat)
    returns (n: int, id: uint16, index: uint8)
    requires len <= a.Length
    modifies a
    ensures match DecryptFragment(env, keys, old(a[..len]))
            case None => n == -1
            case Some(o) => n == |o.packet| && n <= len && a[..n] == o.packet && id == o.id && index == o.index
  {
    n, id, index := -1, 0, 0;
    hide OpenFrag;
    var go := FragGuard(env, a[..len]);
    if go {
      n, id, index := OpenFragInPlace(env, keys, a, len);
    }
  }

  method OpenFragInPlace(env: Settings, keys: Keys, a: array<uint8>, len: nat)
    returns (n: int, id: uint16, index: uint8)
    requires FRAG_ENC_START <= len <= a.Length
    modifies a
    ensures match OpenFrag(env, keys, old(a[..len]))
            case None => n == -1
            case Some(o) => n == |o.packet| && n <= len && a[..n] == o.packet && id == o.id && index == o.index
  {
    id, index := U16(a[29], a[30]), a[31];
    ghost var s := a[..];
    SliceSlices(s, len, 16, 28);
    SliceSlices(s, len, ETH_LEN, FRAG_ENC_START);
    hide OpenWith;
    n := OpenAndMoveDown(env, keys, a[16..28], a, len, ETH_LEN, FRAG_ENC_START, Anything);
    assert n >= 0 ==> a[..n] == a[..ETH_LEN] + a[ETH_LEN..n];
  }

  /** The fields of a fragment on the wire. */
  lemma FragWireParses(env: Settings, macs: bytes, nonce: Nonce, id: uint16, index: uint8, sealed: bytes)
    requires |macs| == MAC_LEN
    ensures var w := macs + FragHeader(env, nonce, id, index) + sealed;
            w[12] == Hi(env.fakeEther) && w[13] == Lo(env.fakeEther) && w[14] == env.policyId && w[15] == env.worker
            && w[16..28] == nonce && w[28] == FRAG_MAGIC && w[29] == Hi(id) && w[30] == Lo(id) && w[31] == index && w[32] == 0
            && w[..ETH_LEN] == macs + [Hi(env.fakeEther), Lo(env.fakeEther)] && w[FRAG_ENC_START..] == sealed
  {
    var h := FragHeader(env, nonce, id, index);
    var w := macs + h + sealed;
    assert forall i :: 0 <= i < |h| ==> w[MAC_LEN + i] == h[i];
    assert h[4..16] == nonce;
    assert w[16..28] == h[4..16];
  }

  /** What one fragment carries comes back, behind the MAC addresses and the fake ethertype. */
  lemma FragmentRoundTrip(env: Settings, keys: Keys, nonce: Nonce, macs: bytes, plain: bytes, id: uint16, index: uint8)
    requires |macs| == MAC_LEN && env.fakeEther != 0 && |plain| > 0 && index <= 1
    ensures DecryptFragment(env, keys, FragWire(env, keys.current, nonce, macs, plain, id, index))
         == Some(Opened(macs + [Hi(env.fakeEther), Lo(env.fakeEther)] + plain, id, index))
  {
    var sealed := SealWith(env, keys.current, nonce, plain);
    hide OpenWith, SealWith, FragHeader;
    U16HiLo(env.fakeEther);
    U16HiLo(id);
    FragWireParses(env, macs, nonce, id, index, sealed);
    OpenWithSeal(env, keys, nonce, plain, Anything);
  }

  /** Both halves of a packet carry the index of the worker that encrypted them. */
  lemma FragmentCarriesWorker(env: Settings, key: Key, nonce: Nonce, macs: bytes, plain: bytes, id: uint16, index: uint8)
    requires |macs| == MAC_LEN && env.fakeEther != 0 && index <= 1
    ensures var w := FragWire(env, key, nonce, macs, plain, id, index);
            HasFragMarker(env, w) && w[14] == env.policyId && w[15] == env.worker && U16(w[29], w[30]) == id && w[31] == index
  {
    hide SealWith, FragHeader;
    U16HiLo(env.fakeEther);
    U16HiLo(id);
    FragWireParses(env, macs, nonce, id, index, SealWith(env, key, nonce, plain));
  }

  /* Whole packets */

  function Overhead(mode: Mode): (n: nat) { 14 + TagLen(mode) }

  function SingleWire(env: Settings, key: Key, nonce: Nonce, macs: bytes, payload: bytes): (w: bytes)
    requires |macs| == MAC_LEN
    ensures |w| == ETH_LEN + |payload| + Overhead(env.mode)
  {
    macs + WireHeader(env, nonce) + SealWith(env, key, nonce, payload)
  }

  /** crypto_layer2_encrypt; None is its error return, an unchanged packet means it was passed through. */
  function Encrypt(env: Settings, key: Key, nonce: Nonce, p: bytes): (r: Option<bytes>)
    ensures r.Some? ==> |r.value| <= |p| + Overhead(env.mode)
  {
    if |p| < 22 then None
    else if EtherType(p) != 0x0800 || env.fakeEther == 0 then Some(p)
    else Some(SingleWire(env, key, nonce, p[..MAC_LEN], p[ETH_LEN..]))
  }

  method EncryptInPlace(env: Settings, key: Key, nonce: Nonce, a: array<uint8>, len: nat) returns (n: int)
    requires len + Overhead(env.mode) <= a.Length
    modifies a
    ensures match Encrypt(env, key, nonce, old(a[..len]))
            case None => n == -1 && a[..] == old(a[..])
            case Some(w) => n == |w| && a[..] == Splice(old(a[..]), 0, w)
  {
    if len < 22 { return -1; }
    SpliceSame(a[..], 0, len);
    SliceSlices(a[..], len, MAC_LEN, ETH_LEN);
    hide Splice, SealWith, WireHeader;
    if U16(a[12], a[13]) != 0x0800 || env.fakeEther == 0 { return len; }
    hide U16;
    AssembleSealed(env, key, nonce, a, a, MAC_LEN, WireHeader(env, nonce), ETH_LEN, len - ETH_LEN);
    n := len + Overhead(env.mode);
  }

  /** A legacy sender put the ethertype inside: it is taken off again. */
  function Unwrapped(macs: bytes, plain: bytes): (r: bytes)
    requires |macs| == MAC_LEN
    ensures |r| <= ETH_LEN + |plain|
  {
    macs + [8, 0] + if |plain| >= 2 && plain[0] == 8 && plain[1] == 0 then plain[2..] else plain
  }

  /** Whole packets are tried with the current key only. */
  function OpenSingle(env: Settings, keys: Keys, w: bytes): (r: Option<bytes>)
    requires |w| >= ENC_START
    ensures r.Some? ==> |r.value| <= |w|
  {
    match Open(env.suite, env.mode, [keys.current], w[16..28], w[ENC_START..], Ipv4Header)
    case None => None
    case Some(plain) => Some(Unwrapped(w[..MAC_LEN], plain))
  }

  /** crypto_layer2_decrypt; None is its error return, an unchanged packet means it was passed through. */
  function Decrypt(env: Settings, keys: Keys, w: bytes): (r: Option<bytes>)
    ensures r.Some? ==> |r.value| <= |w|
  {
    if |w| < ENC_START then None
    else if !HasFakeEther(env, w) || HasFragMarker(env, w) then Some(w)
    else OpenSingle(env, keys, w)
  }

  method DecryptInPlace(env: Settings, keys: Keys, a: array<uint8>, len: nat) returns (n: int)
    requires len <= a.Length
    modifies a
    ensures match Decrypt(env, keys, old(a[..len]))
            case None => n == -1
            case Some(p) => n == |p| && a[..n] == p
  {
    if len < ENC_START { return -1; }
    hide OpenSingle, HasFragMarker;
    var pass := !HasFakeEther(env, a[..len]) || HasFragMarker(env, a[..len]);
    if pass { return len; }
    n := OpenSingleInPlace(env, keys, a, len);
  }

  method OpenSingleInPlace(env: Settings, keys: Keys, a: array<uint8>, len: nat) returns (n: int)
    requires ENC_START <= len <= a.Length
    modifies a
    ensures match OpenSingle(env, keys, old(a[..len]))
            case None => n == -1
            case Some(p) => n == |p| && a[..n] == p
  {
    ghost var s := a[..];
    SliceSlices(s, len, 16, 28);
    SliceSlices(s, len, MAC_LEN, ENC_START);
    hide Open, Splice;
    ghost var plain := Open(env.suite, env.mode, [keys.current], s[16..28], s[ENC_START..len], Ipv4Header);
    n := OpenInPlace(env.suite, env.mode, [keys.current], a[16..28], a, ENC_START, len - ENC_START, Ipv4Header);
    if n >= 0 {
      n := Unwrap(a, n, s, plain.value);
    }
  }

  /** Puts the ethertype back and moves the plaintext down. */
  method Unwrap(a: array<uint8>, len: nat, ghost s: bytes, ghost plain: bytes) returns (n: nat)
    requires |plain| == len && ENC_START + len <= a.Length == |s| && a[..] == Splice(s, ENC_START, plain)
    modifies a
    ensures n == |Unwrapped(s[..MAC_LEN], plain)| && a[..n] == Unwrapped(s[..MAC_LEN], plain)
  {
    hide Splice;
    SpliceByteAt(s, ENC_START, plain);
    var skip := if len >= 2 && a[ENC_START] == 8 && a[ENC_START + 1] == 0 then 2 else 0;
    a[12], a[13] := 8, 0;
    Undisguised(s, plain, skip);
    ghost var mid := a[..];
    Move(a, ETH_LEN, a, ENC_START + skip, len - skip);
    Lowered(mid, plain[skip..]);
    n := ETH_LEN + len - skip;
  }

  lemma SpliceByteAt(s: bytes, off: nat, x: bytes)
    requires off + |x| <= |s|
    ensures forall i :: 0 <= i < |x| ==> Splice(s, off, x)[off + i] == x[i]
  {
  }

  /** The ethertype is stored in front of the plaintext. */
  lemma Undisguised(s: bytes, plain: bytes, skip: nat)
    requires ENC_START + |plain| <= |s| && skip <= |plain|
    ensures var mid := Splice(s, ENC_START, plain)[12 := 8][13 := 0];
            mid[..ETH_LEN] == s[..MAC_LEN] + [8, 0] && mid[ENC_START + skip..ENC_START + |plain|] == plain[skip..]
  {
  }

  lemma Lowered(mid: bytes, body: bytes)
    requires ETH_LEN + |body| <= |mid|
    ensures Splice(mid, ETH_LEN, body)[..ETH_LEN + |body|] == mid[..ETH_LEN] + body
  {
  }

  lemma SingleWireParses(env: Settings, macs: bytes, nonce: Nonce, sealed: bytes)
    requires |macs| == MAC_LEN
    ensures var w := macs + WireHeader(env, nonce) + sealed;
            w[12] == Hi(env.fakeEther) && w[13] == Lo(env.fakeEther) && w[16..28] == nonce
            && w[..MAC_LEN] == macs && w[ENC_START..] == sealed
  {
  }

  /**
   * What decrypting with the sender's key makes of every encrypted packet.  It is the packet itself, except
   * that one whose ciphertext looks like a fragment's marker stays encrypted, a CTR packet with TTL 0 or a
   * protocol the receiver does not expect is lost, and one that starts with an ethertype loses it.
   */
  lemma RoundTrip(env: Settings, keys: Keys, nonce: Nonce, p: bytes)
    requires |p| >= 22 && EtherType(p) == 0x0800 && env.fakeEther != 0
    ensures Encrypt(env, keys.current, nonce, p).Some?
    ensures var w := Encrypt(env, keys.current, nonce, p).value;
            Decrypt(env, keys, w) == (if HasFragMarker(env, w) then Some(w)
                                      else if env.mode.Ctr? && !Plausible(Ipv4Header, p[ETH_LEN..]) then None
                                      else if p[14] == 8 && p[15] == 0 then Some(p[..ETH_LEN] + p[16..])
                                      else Some(p))
  {
    hide Seal, Open, WireHeader, HasFragMarker, Plausible;
    var macs, payload := p[..MAC_LEN], p[ETH_LEN..];
    var sealed := SealWith(env, keys.current, nonce, payload);
    if env.mode.Ctr? {
      OpenSealCtr(env.suite, keys.current, [keys.current], nonce, payload, Ipv4Header);
    } else {
      OpenSeal(env.suite, env.mode, keys.current, [keys.current], nonce, payload, Ipv4Header);
    }
    U16HiLo(env.fakeEther);
    SingleWireParses(env, macs, nonce, sealed);
    EtherTypeBytes(p);
    UnwrappedPacket(p);
    hide U16, Unwrapped;
  }

  lemma UnwrappedPacket(p: bytes)
    requires |p| >= 22 && p[12] == 8 && p[13] == 0
    ensures Unwrapped(p[..MAC_LEN], p[ETH_LEN..]) == if p[14] == 8 && p[15] == 0 then p[..ETH_LEN] + p[16..] else p
  {
  }

  lemma EtherTypeBytes(p: bytes)
    requires |p| >= ETH_LEN && EtherType(p) == 0x0800
    ensures p[12] == 8 && p[13] == 0
  {
  }
}
