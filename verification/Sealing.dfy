/** What sealing does to a packet byte by byte, and which packets open: the laws of `Cipher` carried to the wire. */
module Sealing {
  import opened Bytes
  import opened Ipv4
  import opened Cipher
  import opened Wire
  import Layer2
  import Layer3
  import Layer4

  /* Sealing */

  /** The bytes of the key stream: CTR starts it from the nonce padded to 16 bytes. */
  function StreamAt(s: Suite, mode: Mode, key: Key, nonce: Nonce, i: nat): uint8 {
    match mode
    case Ctr => s.stream(Ctr, key, nonce + [0, 0, 0, 0], i)
    case Gcm => s.stream(Gcm, key, nonce, i)
    case Pqc => s.stream(Pqc, key, nonce, i)
  }

  /** `c` hides byte `i` of `plain`: the two differ, bit for bit, by the key stream, so they agree only where that is zero. */
  predicate Hides(s: Suite, mode: Mode, key: Key, nonce: Nonce, plain: bytes, c: bytes, i: nat)
    requires i < |plain| && i < |c|
  {
    var k := StreamAt(s, mode, key, nonce, i);
    (plain[i] as bv8) ^ (c[i] as bv8) == k as bv8 && (c[i] == plain[i] <==> k == 0)
  }

  /** `c` is `plain` sealed: every byte hidden, and in the GCM modes 16 bytes more, the tag over the hidden ones. */
  predicate SealOf(env: Settings, key: Key, nonce: Nonce, plain: bytes, c: bytes) {
    var n := |plain|;
    |c| == n + (if env.mode.Ctr? then 0 else 16)
    && (forall i :: 0 <= i < n ==> Hides(env.suite, env.mode, key, nonce, plain, c, i))
    && (!env.mode.Ctr? ==> c[n..] == env.suite.tag(env.mode, key, nonce, c[..n]))
  }

  lemma CryptHides(s: Suite, mode: Mode, key: Key, nonce: Nonce, plain: bytes, i: nat)
    requires i < |plain|
    ensures Hides(s, mode, key, nonce, plain, Crypt(s, mode, key, nonce, plain), i)
  {
    var k := StreamAt(s, mode, key, nonce, i);
    assert Crypt(s, mode, key, nonce, plain)[i] == Xor(plain[i], k);
    hide Xor, Crypt;
    XorDiffers(plain[i], k);
    XorChanges(plain[i], k);
  }

  lemma SealIs(env: Settings, key: Key, nonce: Nonce, plain: bytes)
    ensures SealOf(env, key, nonce, plain, SealWith(env, key, nonce, plain))
  {
    hide Crypt;
    var c, n := SealWith(env, key, nonce, plain), |plain|;
    var ct := Crypt(env.suite, env.mode, key, nonce, plain);
    assert c[..n] == ct;
    assert !env.mode.Ctr? ==> c[n..] == env.suite.tag(env.mode, key, nonce, ct);
    forall i | 0 <= i < n ensures Hides(env.suite, env.mode, key, nonce, plain, c, i) {
      CryptHides(env.suite, env.mode, key, nonce, plain, i);
      assert c[i] == ct[i];
      hide StreamAt;
    }
  }

  lemma TailOf(front: bytes, tail: bytes)
    ensures (front + tail)[|front|..] == tail
  {
  }

  /** Behind its headers every packet and fragment of the three layers carries its payload sealed. */
  lemma WiresAreSealed(env: Settings, key: Key, nonce: Nonce, eth: bytes, ip: bytes, ports: bytes, plain: bytes, id: uint16, index: uint8)
    requires |eth| == ETH_LEN && |ip| >= 20 && |ports| == 4
    ensures SealOf(env, key, nonce, plain, Layer2.SingleWire(env, key, nonce, eth[..12], plain)[28..])
    ensures SealOf(env, key, nonce, plain, Layer2.FragWire(env, key, nonce, eth[..12], plain, id, index)[33..])
    ensures SealOf(env, key, nonce, plain, Layer3.SingleWire(env, key, nonce, eth, ip, plain)[28 + |ip|..])
    ensures SealOf(env, key, nonce, plain, Layer3.FragWire(env, key, nonce, eth, ip, plain, id, index)[32 + |ip|..])
    ensures SealOf(env, key, nonce, plain, Layer4.SingleWire(env, key, nonce, eth, ip, ports, plain)[32 + |ip|..])
    ensures SealOf(env, key, nonce, plain, Layer4.FragWire(env, key, nonce, eth, ip, ports, plain, id, index)[36 + |ip|..])
  {
    hide SealOf;
    SealIs(env, key, nonce, plain);
    TailsL2(env, key, nonce, eth[..12], plain, id, index);
    TailsL3(env, key, nonce, eth, ip, plain, id, index);
    TailsL4(env, key, nonce, eth, ip, ports, plain, id, index);
  }

  lemma TailsL2(env: Settings, key: Key, nonce: Nonce, macs: bytes, plain: bytes, id: uint16, index: uint8)
    requires |macs| == Layer2.MAC_LEN
    ensures Layer2.SingleWire(env, key, nonce, macs, plain)[28..] == SealWith(env, key, nonce, plain)
    ensures Layer2.FragWire(env, key, nonce, macs, plain, id, index)[33..] == SealWith(env, key, nonce, plain)
  {
    hide SealWith, Layer2.WireHeader, Layer2.FragHeader;
    TailOf(macs + Layer2.WireHeader(env, nonce), SealWith(env, key, nonce, plain));
    TailOf(macs + Layer2.FragHeader(env, nonce, id, index), SealWith(env, key, nonce, plain));
  }

  lemma TailsL3(env: Settings, key: Key, nonce: Nonce, eth: bytes, ip: bytes, plain: bytes, id: uint16, index: uint8)
    requires |eth| == ETH_LEN && |ip| >= 20
    ensures Layer3.SingleWire(env, key, nonce, eth, ip, plain)[28 + |ip|..] == SealWith(env, key, nonce, plain)
    ensures Layer3.FragWire(env, key, nonce, eth, ip, plain, id, index)[32 + |ip|..] == SealWith(env, key, nonce, plain)
  {
    hide SealWith, Layer3.OuterIp, TunnelHeader, FragMid;
    var sealed := SealWith(env, key, nonce, plain);
    var single := (U16(ip[2], ip[3]) + Layer3.Overhead(env.mode)) % 0x1_0000;
    TailOf(eth + Layer3.OuterIp(ip, env.fakeProto, single) + TunnelHeader(env, nonce, ip[9]), sealed);
    var total := (|ip| + |plain| + Layer3.FragMetaLen(env.mode)) % 0x1_0000;
    TailOf(eth + Layer3.OuterIp(ip, env.fakeProto, total) + FragMid(env, nonce, Layer3.FRAG_MAGIC, id, index), sealed);
  }

  lemma TailsL4(env: Settings, key: Key, nonce: Nonce, eth: bytes, ip: bytes, ports: bytes, plain: bytes, id: uint16, index: uint8)
    requires |eth| == ETH_LEN && |ip| >= 20 && |ports| == Layer4.PORT_LEN
    ensures Layer4.SingleWire(env, key, nonce, eth, ip, ports, plain)[32 + |ip|..] == SealWith(env, key, nonce, plain)
    ensures Layer4.FragWire(env, key, nonce, eth, ip, ports, plain, id, index)[36 + |ip|..] == SealWith(env, key, nonce, plain)
  {
    hide SealWith, Patched, TunnelHeader, FragMid, Layer4.SingleTotal, Low16, Layer4.FragPayloadLen;
    var sealed := SealWith(env, key, nonce, plain);
    TailBehind(eth + Patched(ip, Layer4.SingleTotal(env.mode, |ip|, |ports| + |plain|)), ports,
               TunnelHeader(env, nonce, Layer4.TUNNEL_MAGIC), sealed);
    TailBehind(eth + Patched(ip, Low16(|ip| + Layer4.FragPayloadLen(env.mode, |plain|))), ports,
               FragMid(env, nonce, Layer4.FRAG_MAGIC, id, index), sealed);
  }

  lemma TailBehind(front: bytes, ports: bytes, mid: bytes, tail: bytes)
    ensures (front + (ports + (mid + tail)))[|front| + |ports| + |mid|..] == tail
  {
  }

  /* Opening */

  /** The tag received is the one the key gives over the ciphertext received. */
  predicate TagFits(s: Suite, mode: Mode, key: Key, nonce: Nonce, sealed: bytes)
    requires !mode.Ctr? && |sealed| >= 16
  {
    s.tag(mode, key, nonce, sealed[..|sealed| - 16]) == sealed[|sealed| - 16..]
  }

  lemma {:induction false} TryKeysIff(s: Suite, mode: Mode, order: seq<Key>, nonce: Nonce, ct: bytes, tag: bytes, check: PlainCheck)
    requires |ct| <= BACKUP_LEN
    ensures TryKeys(s, mode, order, nonce, ct, ct, tag, check).Some?
            <==> exists k :: 0 <= k < |order| && Accepts(s, mode, order[k], nonce, ct, tag, check)
    decreases |order|
  {
    hide Accepts, Crypt;
    if order != [] {
      TryKeysIff(s, mode, order[1..], nonce, ct, tag, check);
      if k :| 0 <= k < |order| && Accepts(s, mode, order[k], nonce, ct, tag, check) {
        assert k > 0 ==> order[1..][k - 1] == order[k];
      }
      if k :| 0 <= k < |order| - 1 && Accepts(s, mode, order[1..][k], nonce, ct, tag, check) {
        assert order[k + 1] == order[1..][k];
      }
    }
  }

  /**
   * A packet with a tag and a ciphertext that is not empty opens exactly if one of the keys tried gives its tag; this
   * is for packets that fit the backup buffer, as those of a frame do.
   */
  lemma OpensIffTagFits(s: Suite, mode: Mode, order: seq<Key>, nonce: Nonce, sealed: bytes, check: PlainCheck)
    requires !mode.Ctr? && 16 < |sealed| <= 16 + BACKUP_LEN
    ensures Open(s, mode, order, nonce, sealed, check).Some?
            <==> exists k :: 0 <= k < |order| && TagFits(s, mode, order[k], nonce, sealed)
  {
    var n := |sealed| - 16;
    TryKeysIff(s, mode, order, nonce, sealed[..n], sealed[n..], check);
    hide TryKeys;
    forall k | 0 <= k < |order|
      ensures Accepts(s, mode, order[k], nonce, sealed[..n], sealed[n..], check) <==> TagFits(s, mode, order[k], nonce, sealed) {
    }
    hide Accepts, TagFits;
  }

  /** Too short for a tag it never opens, and an empty ciphertext opens unchecked in GCM but not in PQC. */
  lemma ShortOnes(s: Suite, mode: Mode, order: seq<Key>, nonce: Nonce, sealed: bytes, check: PlainCheck)
    requires !mode.Ctr? && |sealed| <= 16 && order != []
    ensures Open(s, mode, order, nonce, sealed, check) == if mode.Gcm? && |sealed| == 16 then Some([]) else None
  {
  }

  /** CTR takes the first key that makes the packet plausible. */
  lemma OpensIffPlausible(s: Suite, order: seq<Key>, nonce: Nonce, sealed: bytes, check: PlainCheck)
    requires |sealed| <= BACKUP_LEN
    ensures Open(s, Ctr, order, nonce, sealed, check).Some?
            <==> exists k :: 0 <= k < |order| && Plausible(check, Crypt(s, Ctr, order[k], nonce, sealed))
  {
    assert sealed[..|sealed|] == sealed && sealed[|sealed|..] == [];
    TryKeysIff(s, Ctr, order, nonce, sealed, [], check);
    hide TryKeys, Plausible, Crypt;
    forall k | 0 <= k < |order|
      ensures Accepts(s, Ctr, order[k], nonce, sealed, [], check) <==> Plausible(check, Crypt(s, Ctr, order[k], nonce, sealed)) {
    }
    hide Accepts;
  }

  /** One of the receiver's keys gives the packet its tag; PQC has the current one only. */
  predicate Authentic(env: Settings, keys: Keys, nonce: Nonce, sealed: bytes) {
    |sealed| > 16 && !env.mode.Ctr?
    && (TagFits(env.suite, env.mode, keys.current, nonce, sealed)
        || (env.mode.Gcm? && (TagFits(env.suite, env.mode, keys.prev, nonce, sealed)
                              || TagFits(env.suite, env.mode, keys.next, nonce, sealed))))
  }

  lemma OpenWithIff(env: Settings, keys: Keys, nonce: Nonce, sealed: bytes, check: PlainCheck)
    requires !env.mode.Ctr? && 16 < |sealed| <= 16 + BACKUP_LEN
    ensures OpenWith(env, keys, nonce, sealed, check).Some? <==> Authentic(env, keys, nonce, sealed)
  {
    hide TagFits, Open;
    var order := KeyOrder(env.mode, keys);
    OpensIffTagFits(env.suite, env.mode, order, nonce, sealed, check);
    assert order[0] == keys.current;
    assert env.mode.Gcm? ==> order[1] == keys.prev && order[2] == keys.next;
  }

  /** Does the key pass the mode's check: the tag, or in CTR the look of what it yields? */
  predicate Passes(env: Settings, key: Key, nonce: Nonce, sealed: bytes, check: PlainCheck)
    requires !env.mode.Ctr? ==> |sealed| > 16
  {
    if env.mode.Ctr? then Plausible(check, Crypt(env.suite, Ctr, key, nonce, sealed))
    else TagFits(env.suite, env.mode, key, nonce, sealed)
  }

  /** What the key makes of the ciphertext. */
  function Under(env: Settings, key: Key, nonce: Nonce, sealed: bytes): bytes
    requires !env.mode.Ctr? ==> |sealed| > 16
  {
    Crypt(env.suite, env.mode, key, nonce, if env.mode.Ctr? then sealed else sealed[..|sealed| - 16])
  }

  /** The receiver takes the plaintext of its current key, else of the previous, else of the next; in PQC of the current. */
  lemma OpensInOrder(env: Settings, keys: Keys, nonce: Nonce, sealed: bytes, check: PlainCheck)
    requires |sealed| <= BACKUP_LEN && (!env.mode.Ctr? ==> |sealed| > 16)
    ensures OpenWith(env, keys, nonce, sealed, check)
         == if Passes(env, keys.current, nonce, sealed, check) then Some(Under(env, keys.current, nonce, sealed))
            else if env.mode.Pqc? then None
            else if Passes(env, keys.prev, nonce, sealed, check) then Some(Under(env, keys.prev, nonce, sealed))
            else if Passes(env, keys.next, nonce, sealed, check) then Some(Under(env, keys.next, nonce, sealed))
            else None
  {
    hide Crypt, Plausible, Passes;
    assert sealed[..|sealed|] == sealed;
    PassesIs(env, keys.current, nonce, sealed, check);
    PassesIs(env, keys.prev, nonce, sealed, check);
    PassesIs(env, keys.next, nonce, sealed, check);
    var n := |sealed| - TagLen(env.mode);
    KeysInTurn(env.suite, env.mode, KeyOrder(env.mode, keys), nonce, sealed[..n], sealed[n..], check);
    hide TryKeys, Accepts;
  }

  lemma PassesIs(env: Settings, key: Key, nonce: Nonce, sealed: bytes, check: PlainCheck)
    requires !env.mode.Ctr? ==> |sealed| > 16
    ensures var n := |sealed| - TagLen(env.mode);
            Accepts(env.suite, env.mode, key, nonce, sealed[..n], sealed[n..], check) == Passes(env, key, nonce, sealed, check)
  {
    hide Crypt, Plausible;
    assert sealed[..|sealed|] == sealed;
  }

  lemma KeysInTurn(s: Suite, mode: Mode, order: seq<Key>, nonce: Nonce, ct: bytes, tag: bytes, check: PlainCheck)
    requires |ct| <= BACKUP_LEN && (|order| == 1 || |order| == 3)
    ensures TryKeys(s, mode, order, nonce, ct, ct, tag, check)
         == if Accepts(s, mode, order[0], nonce, ct, tag, check) then Some(Crypt(s, mode, order[0], nonce, ct))
            else if |order| == 1 then None
            else if Accepts(s, mode, order[1], nonce, ct, tag, check) then Some(Crypt(s, mode, order[1], nonce, ct))
            else if Accepts(s, mode, order[2], nonce, ct, tag, check) then Some(Crypt(s, mode, order[2], nonce, ct))
            else None
  {
    hide Accepts, Crypt;
    if |order| == 3 {
      assert order[1..][1..][1..] == [];
    }
  }

  /** A packet that layer 3 takes for encrypted is decrypted exactly if its tag is right under one of the keys. */
  lemma ForgedL3(env: Settings, keys: Keys, w: bytes, t: nat)
    requires !env.mode.Ctr? && Layer3.DecryptGuard(env, w) == Go(t) && t + TUNNEL_LEN + 16 < |w| <= 16 + BACKUP_LEN
    ensures Layer3.Decrypt(env, keys, w).Some? <==> Authentic(env, keys, w[t..t + 12], w[t + 14..])
  {
    hide Layer3.DecryptGuard, Layer3.Restored, Layer3.InnerTotal, OpenWith, Authentic;
    OpenWithIff(env, keys, w[t..t + 12], w[t + 14..], Ports(w[t + 13]));
  }

  /** The same for fragments of layers 3 and 4, whose tunnel header is followed by four bytes of tag. */
  lemma ForgedFragment(env: Settings, keys: Keys, w: bytes, t: nat)
    requires !env.mode.Ctr? && t + TUNNEL_LEN + FRAG_TAG_LEN + 16 < |w| <= 16 + BACKUP_LEN
    ensures Layer3.FragGuard(env, w) == Go(t) ==>
              (Layer3.DecryptFragment(env, keys, w).Some? <==> Authentic(env, keys, w[t..t + 12], w[t + 18..]))
    ensures Layer4.FragGuard(env, w) == Go(t) ==>
              (Layer4.DecryptFragment(env, keys, w).Some? <==> Authentic(env, keys, w[t..t + 12], w[t + 18..]))
  {
    hide Layer3.FragGuard, Layer4.FragGuard, OpenWith, Authentic;
    OpenWithIff(env, keys, w[t..t + 12], w[t + 18..], Anything);
  }

  /** At layer 4 a forged packet is never given out; a true one is, if what it holds can be fixed up. */
  lemma ForgedL4(env: Settings, keys: Keys, w: bytes, t: nat)
    requires !env.mode.Ctr? && Layer4.DecryptGuard(env, w) == Go(t) && t + TUNNEL_LEN + 16 < |w| <= 16 + BACKUP_LEN
    ensures Layer4.Decrypt(env, keys, w).Some? ==> Authentic(env, keys, w[t..t + 12], w[t + 14..])
  {
    hide Layer4.DecryptGuard, Fixup, OpenWith, Authentic;
    OpenWithIff(env, keys, w[t..t + 12], w[t + 14..], Anything);
  }

  /** Layer 2 tries the current key alone for whole packets, all of them for fragments. */
  lemma ForgedL2(env: Settings, keys: Keys, w: bytes)
    requires !env.mode.Ctr? && 33 + 16 < |w| <= 16 + BACKUP_LEN && Layer2.HasFakeEther(env, w)
    ensures !Layer2.HasFragMarker(env, w) ==>
              (Layer2.Decrypt(env, keys, w).Some? <==> TagFits(env.suite, env.mode, keys.current, w[16..28], w[28..]))
    ensures Layer2.FragGuard(env, w) ==>
              (Layer2.DecryptFragment(env, keys, w).Some? <==> Authentic(env, keys, w[16..28], w[33..]))
  {
    hide Layer2.HasFragMarker, OpenWith, Authentic, TagFits, Open, Layer2.FragGuard;
    OpenWithIff(env, keys, w[16..28], w[33..], Anything);
    OpensIffTagFits(env.suite, env.mode, [keys.current], w[16..28], w[28..], Ipv4Header);
    assert [keys.current][0] == keys.current;
  }

  /* What CTR believes */

  const KNOWN_PROTOCOLS: set<int> := {1, 2, 6, 17, 47, 50, 51, 58, 89, 132}

  /** At layer 2 a CTR packet with an IPv4 header comes back exactly if its TTL is not 0 and its protocol one of ten. */
  lemma CtrKeepsL2(env: Settings, keys: Keys, nonce: Nonce, p: bytes)
    requires env.mode.Ctr? && |p| >= 34 && EtherType(p) == 0x0800 && env.fakeEther != 0 && !(p[14] == 8 && p[15] == 0)
    ensures var w := Layer2.Encrypt(env, keys.current, nonce, p);
            w.Some? && (!Layer2.HasFragMarker(env, w.value) ==>
                          Layer2.Decrypt(env, keys, w.value) == if p[22] != 0 && p[23] as int in KNOWN_PROTOCOLS then Some(p) else None)
  {
    hide Layer2.Encrypt, Layer2.Decrypt, Layer2.HasFragMarker;
    Layer2.RoundTrip(env, keys, nonce, p);
    assert p[ETH_LEN..][8] == p[22] && p[ETH_LEN..][9] == p[23];
  }

  /** At layer 3 CTR believes a payload of neither TCP nor UDP, and else one whose ports are not both 0. */
  lemma CtrBelievesL3(proto: uint8, payload: bytes)
    ensures Plausible(Ports(proto), payload)
            <==> (proto != 6 && proto != 17) || (|payload| >= 4 && payload[..4] != [0, 0, 0, 0])
  {
  }
}
