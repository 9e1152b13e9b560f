/** Which packets each layer refuses, passes in clear and seals, read off their bytes. */
module HeaderLaws {
  import opened Bytes
  import opened Ipv4
  import opened Cipher
  import opened Wire
  import opened Reassembly
  import opened FragTable
  import Layer2
  import Layer3
  import Layer4

  /* Headers */

  /** The low half of the first byte is the header's length in words. */
  lemma HeaderLenOf(hi: nat, lo: nat)
    requires hi < 16 && lo < 16
    ensures HeaderLen((16 * hi + lo) as uint8) == 4 * lo
  {
    assert (16 * hi + lo) % 16 == lo;
  }

  /** The high half of byte 12 is a TCP header's length in words; it counts if it is at least five and all of it is there. */
  lemma TcpHeaderIs(seg: bytes, hi: nat, lo: nat, n: nat)
    requires |seg| >= 20 && hi < 16 && lo < 16 && seg[12] as nat == 16 * hi + lo
    ensures TransportHdrSize(seg, 6) == n <==> n == 4 * hi && 5 <= hi && n <= |seg|
  {
    assert seg[12] as nat / 16 == hi;
  }

  /** Any other segment: UDP has eight bytes, and what is too short or of another protocol has no header. */
  lemma OtherHeaderIs(seg: bytes, proto: uint8)
    requires proto != 6 || |seg| < 20
    ensures TransportHdrSize(seg, proto) == if proto == 17 && |seg| >= 8 then 8 else -1
  {
  }

  predicate TypeAt(p: bytes, i: nat, hi: uint8, lo: uint8) { |p| >= i + 2 && p[i] == hi && p[i + 1] == lo }

  /** The IPv4 header is behind no tag, one VLAN tag or two, and nowhere else. */
  lemma OffsetIs(p: bytes)
    ensures Ipv4Offset(p) == 14 <==> TypeAt(p, 12, 8, 0)
    ensures Ipv4Offset(p) == 18 <==> TypeAt(p, 12, 0x81, 0) && TypeAt(p, 16, 8, 0)
    ensures Ipv4Offset(p) == 22 <==> TypeAt(p, 12, 0x81, 0) && TypeAt(p, 16, 0x81, 0) && TypeAt(p, 20, 8, 0)
    ensures Ipv4Offset(p) == 14 || Ipv4Offset(p) == 18 || Ipv4Offset(p) == 22 || Ipv4Offset(p) == -1
  {
  }

  /* Layer 2 */

  /** Layer 2 refuses packets of less than 22 bytes, seals untagged IPv4 if it has a fake ethertype, and passes the rest. */
  lemma WhatL2Seals(env: Settings, key: Key, nonce: Nonce, p: bytes)
    ensures Layer2.Encrypt(env, key, nonce, p) == None <==> |p| < 22
    ensures |p| >= 22 && TypeAt(p, 12, 8, 0) && env.fakeEther != 0 ==>
              Layer2.Encrypt(env, key, nonce, p) == Some(Layer2.SingleWire(env, key, nonce, p[..12], p[14..]))
    ensures |p| >= 22 && !(TypeAt(p, 12, 8, 0) && env.fakeEther != 0) ==> Layer2.Encrypt(env, key, nonce, p) == Some(p)
  {
    hide Layer2.SingleWire;
  }

  /** The receiver refuses what is shorter than a header, and leaves alone exactly what is not marked as its own or is a fragment. */
  lemma WhatL2Leaves(env: Settings, keys: Keys, w: bytes)
    ensures |w| < 28 ==> Layer2.Decrypt(env, keys, w) == None
    ensures |w| >= 28 ==>
              (Layer2.Decrypt(env, keys, w) == Some(w)
               <==> env.fakeEther == 0 || U16(w[12], w[13]) != env.fakeEther || Layer2.HasFragMarker(env, w))
  {
    if |w| >= 28 {
      OpenedIsShorterL2(env, keys, w);
    }
    hide Layer2.OpenSingle;
  }

  lemma OpenedIsShorterL2(env: Settings, keys: Keys, w: bytes)
    requires |w| >= 28
    ensures Layer2.OpenSingle(env, keys, w).Some? ==> |Layer2.OpenSingle(env, keys, w).value| < |w|
  {
  }

  /* Layer 3 */

  /** An untagged IPv4 frame with its whole header. */
  predicate WholeHeader(p: bytes) {
    |p| >= 34 && TypeAt(p, 12, 8, 0) && HeaderLen(p[14]) >= 20 && |p| >= 14 + HeaderLen(p[14])
  }

  /** A byte of the fragment magic where a fragment of layer 3 has it. */
  predicate LikeFragment(p: bytes) {
    WholeHeader(p) && |p| >= 14 + HeaderLen(p[14]) + 14 && p[14 + HeaderLen(p[14]) + 13] == 0x5C
  }

  /** Layer 3 refuses what is too short, IPv4 with a bad header, and PQC without a payload. */
  lemma WhatL3Refuses(env: Settings, key: Key, nonce: Nonce, p: bytes)
    ensures Layer3.Encrypt(env, key, nonce, p) == None
            <==> |p| < 22 || (|p| >= 34 && TypeAt(p, 12, 8, 0) && !WholeHeader(p))
                 || (env.mode.Pqc? && WholeHeader(p) && |p| == 14 + HeaderLen(p[14]))
  {
    hide Layer3.SingleWire;
  }

  /** It passes in clear what is not IPv4 or looks like a fragment, and seals the rest. */
  lemma WhatL3Passes(env: Settings, key: Key, nonce: Nonce, p: bytes)
    requires Layer3.Encrypt(env, key, nonce, p).Some?
    ensures Layer3.Encrypt(env, key, nonce, p) == Some(p) <==> |p| < 34 || !TypeAt(p, 12, 8, 0) || LikeFragment(p)
    ensures WholeHeader(p) && !LikeFragment(p) ==>
              var t := 14 + HeaderLen(p[14]);
              Layer3.Encrypt(env, key, nonce, p) == Some(Layer3.SingleWire(env, key, nonce, p[..14], p[14..t], p[t..]))
  {
    hide Layer3.SingleWire;
  }

  /** The receiver refuses what is too short, and leaves alone what is no IPv4 frame of its protocol with a tunnel header. */
  lemma WhatL3Leaves(env: Settings, keys: Keys, w: bytes)
    requires |w| <= 65535
    ensures |w| < 22 ==> Layer3.Decrypt(env, keys, w) == None
    ensures |w| >= 22 ==>
              (Layer3.Decrypt(env, keys, w) == Some(w)
               <==> !WholeHeader(w) || |w| < 14 + HeaderLen(w[14]) + 14 || LikeFragment(w) || w[23] != env.fakeProto)
  {
    hide Layer3.OpenSingle;
    if Layer3.DecryptGuard(env, w).Go? {
      OpenedIsShorterL3(env, keys, w, Layer3.DecryptGuard(env, w).off);
    }
  }

  lemma OpenedIsShorterL3(env: Settings, keys: Keys, w: bytes, t: nat)
    requires 34 <= t <= 74 && t + TUNNEL_LEN <= |w| <= 65535
    ensures Layer3.OpenSingle(env, keys, w, t).Some? ==> |Layer3.OpenSingle(env, keys, w, t).value| < |w|
  {
    hide Layer3.Restored;
  }

  /* Layer 4 */

  /** An IPv4 header at `off` of a TCP or UDP packet. */
  predicate Carries(p: bytes, off: int) {
    off >= 0 && |p| >= off + 20 && (p[off + 9] == 6 || p[off + 9] == 17)
  }

  /** A whole transport header at `t`: eight bytes of UDP, or five words of TCP and as many as it says. */
  predicate WholeTransport(p: bytes, proto: uint8, t: nat) {
    if proto == 17 then |p| >= t + 8
    else |p| >= t + 20 && 5 <= p[t + 12] / 16 && |p| >= t + 4 * (p[t + 12] / 16) as nat
  }

  /** Layer 4 refuses IPv4 that is cut short and TCP or UDP whose header length is less than five words. */
  lemma WhatL4Refuses(env: Settings, key: Key, nonce: Nonce, p: bytes)
    requires Layer4.HeaderFits(p)
    ensures Layer4.Encrypt(env, key, nonce, p) == None
            <==> Ipv4Offset(p) >= 0 && (|p| < Ipv4Offset(p) + 20
                                        || (Carries(p, Ipv4Offset(p)) && HeaderLen(p[Ipv4Offset(p)]) < 20))
  {
    hide Layer4.SingleWire, TransportHdrSize, Ipv4Offset;
  }

  /** It seals exactly TCP and UDP with a whole transport header, and passes in clear what it neither seals nor refuses. */
  lemma WhatL4Seals(env: Settings, key: Key, nonce: Nonce, p: bytes)
    requires Layer4.HeaderFits(p) && Layer4.Encrypt(env, key, nonce, p).Some?
    ensures var off, w := Ipv4Offset(p), Layer4.Encrypt(env, key, nonce, p).value;
            (w == p || |w| == |p| + Layer4.Overhead(env.mode))
            && (w != p <==> Carries(p, off) && WholeTransport(p, p[off + 9], off + HeaderLen(p[off])))
  {
    hide Layer4.SingleWire, TransportHdrSize, Ipv4Offset;
    var off := Ipv4Offset(p);
    if Carries(p, off) && HeaderLen(p[off]) >= 20 {
      TransportAt(p, off + HeaderLen(p[off]), p[off + 9]);
    }
  }

  lemma TransportAt(p: bytes, t: nat, proto: uint8)
    requires t <= |p| && (proto == 6 || proto == 17)
    ensures TransportHdrSize(p[t..], proto) >= 0 <==> WholeTransport(p, proto, t)
  {
  }

  /* Halves of a split packet at layer 4 */

  /** The second half goes to the table unless it is empty, and an empty one clears its entry. */
  lemma WhatL4AdmitsSecond(pkt: bytes)
    requires HeaderInside(pkt) && |pkt| >= 34 && TypeAt(pkt, 12, 8, 0)
    ensures var from := 14 + HeaderLen(pkt[14]) + 4;
            AdmitL4(pkt, 1) == if |pkt| > from then Admitted(SecondHalf(pkt[from..])) else Emptied
  {
  }

  /** An inner IPv4 packet of TCP or UDP with eight bytes behind its header. */
  predicate InnerTransport(inner: bytes) {
    |inner| >= 20 && inner[0] / 16 == 4 && HeaderLen(inner[0]) >= 20 && |inner| >= HeaderLen(inner[0]) + 8
    && (inner[9] == 6 || inner[9] == 17)
  }

  /** The first half must start with one; other indices, and other packets, are refused. */
  lemma WhatL4AdmitsFirst(pkt: bytes, index: uint8)
    requires HeaderInside(pkt) && index != 1
    ensures var whole := |pkt| >= 34 && TypeAt(pkt, 12, 8, 0);
            var from := if whole then 14 + HeaderLen(pkt[14]) + 4 else |pkt|;
            AdmitL4(pkt, index) == if index == 0 && whole && |pkt| > from && InnerTransport(pkt[from..])
                                   then Admitted(FirstHalf(pkt[..14], pkt[from..])) else Refused
  {
  }

  lemma WhatL4RefusesToAdmit(pkt: bytes, index: uint8)
    requires HeaderInside(pkt) && !(|pkt| >= 34 && TypeAt(pkt, 12, 8, 0))
    ensures AdmitL4(pkt, index) == Refused
  {
  }
}
