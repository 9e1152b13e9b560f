/**
 * Telling the fragments of the three layers apart on arrival: the `frag_is_fragment` functions of
 * `src/core/fragment.c`.
 */
module Dispatch {
  import opened Bytes
  import opened Ipv4
  import opened Cipher
  import opened Wire
  import opened Split
  import Layer2
  import Layer3
  import Layer4

  /** A policy's action and number; the wire carries the number's low byte. */
  datatype Ref = Ref(action: int, id: int)

  const ENCRYPT_L2: int := 2
  const ENCRYPT_L3: int := 3
  const ENCRYPT_L4: int := 4

  function WireId(p: Ref): uint8 { (p.id % 0x100) as uint8 }

  predicate Configured(ps: seq<Ref>, action: int, wireId: uint8) {
    exists i :: 0 <= i < |ps| && ps[i].action == action && WireId(ps[i]) == wireId
  }

  /** The loop over the policies that all three functions end with. */
  method HasPolicy(ps: seq<Ref>, action: int, wireId: uint8) returns (found: bool)
    ensures found == Configured(ps, action, wireId)
  {
    for i := 0 to |ps|
      invariant forall k :: 0 <= k < i ==> !(ps[k].action == action && WireId(ps[k]) == wireId)
    {
      if ps[i].action == action && WireId(ps[i]) == wireId { return true; }
    }
    found := false;
  }

  /** The id and index of a fragment, None for anything else. */
  type Seen = Option<(uint16, uint8)>

  /** Where a layer's tag would be, if the checks before the policy loop pass. */
  function TagL2(env: Settings, w: bytes): (r: Option<nat>)
    ensures r.Some? ==> 14 <= r.value && r.value + 3 <= |w|
  {
    if |w| < Layer2.FRAG_ENC_START || !Layer2.HasFragMarker(env, w) then None else Some(29)
  }

  function TagL3(env: Settings, w: bytes): (r: Option<nat>)
    ensures r.Some? ==> 14 <= r.value && r.value + 3 <= |w|
  {
    match Layer3.FragGuard(env, w)
    case Go(t) => Some(t + TUNNEL_LEN)
    case _ => None
  }

  /** Unlike the decryption, this function does not look behind VLAN tags. */
  function TagL4(w: bytes): (r: Option<nat>)
    ensures r.Some? ==> 14 <= r.value && r.value + 3 <= |w|
  {
    if |w| < 42 || EtherType(w) != 0x0800 || (w[23] != TCP && w[23] != UDP) || HeaderLen(w[14]) < 20 then None
    else
      var t := ETH_LEN + HeaderLen(w[14]) + Layer4.PORT_LEN;
      if |w| < t + TUNNEL_LEN + FRAG_TAG_LEN || w[t + 13] != Layer4.FRAG_MAGIC then None else Some(t + TUNNEL_LEN)
  }

  function Tagged(ps: seq<Ref>, action: int, w: bytes, wireId: uint8, tag: nat): Seen
    requires tag + 3 <= |w|
  {
    if !Configured(ps, action, wireId) || w[tag + 2] > 1 then None else Some((U16(w[tag], w[tag + 1]), w[tag + 2]))
  }

  function FragmentL2(env: Settings, ps: seq<Ref>, w: bytes): Seen {
    match TagL2(env, w) case None => None case Some(tag) => Tagged(ps, ENCRYPT_L2, w, w[14], tag)
  }

  function FragmentL3(env: Settings, ps: seq<Ref>, w: bytes): Seen {
    match TagL3(env, w) case None => None case Some(tag) => Tagged(ps, ENCRYPT_L3, w, w[tag - 2], tag)
  }

  function FragmentL4(ps: seq<Ref>, w: bytes): Seen {
    match TagL4(w) case None => None case Some(tag) => Tagged(ps, ENCRYPT_L4, w, w[tag - 2], tag)
  }

  /** frag_is_fragment_l2, frag_is_fragment and frag_is_fragment_l4, in the order a packet is offered to them. */
  method IsFragment(env: Settings, ps: seq<Ref>, w: bytes) returns (l2: Seen, l3: Seen, l4: Seen)
    ensures l2 == FragmentL2(env, ps, w) && l3 == FragmentL3(env, ps, w) && l4 == FragmentL4(ps, w)
  {
    hide TagL2, TagL3, TagL4, Configured;
    l2, l3, l4 := None, None, None;
    var t2, t3, t4 := TagL2(env, w), TagL3(env, w), TagL4(w);
    if t2 != None {
      l2 := ReadTag(ps, ENCRYPT_L2, w, w[14], t2.value);
    }
    if t3 != None {
      l3 := ReadTag(ps, ENCRYPT_L3, w, w[t3.value - 2], t3.value);
    }
    if t4 != None {
      l4 := ReadTag(ps, ENCRYPT_L4, w, w[t4.value - 2], t4.value);
    }
  }

  method ReadTag(ps: seq<Ref>, action: int, w: bytes, wireId: uint8, tag: nat) returns (r: Seen)
    requires tag + 3 <= |w|
    ensures r == Tagged(ps, action, w, wireId, tag)
  {
    var known := HasPolicy(ps, action, wireId);
    r := if !known || w[tag + 2] > 1 then None else Some((U16(w[tag], w[tag + 1]), w[tag + 2]));
  }

  /* What the sender's fragments are taken for */

  /**
   * Settings under which the layers cannot be confused: the fake ethertype is not IPv4's, the fake protocol not
   * TCP or UDP.
   */
  predicate Apart(env: Settings) { env.fakeEther != 0x0800 && env.fakeProto != TCP && env.fakeProto != UDP }

  /** Taken for a fragment of one layer, with its id and index, and of no other. */
  predicate OnlyL2(env: Settings, ps: seq<Ref>, w: bytes, id: uint16, index: uint8) {
    FragmentL2(env, ps, w) == Some((id, index)) && FragmentL3(env, ps, w) == None && FragmentL4(ps, w) == None
  }

  predicate OnlyL3(env: Settings, ps: seq<Ref>, w: bytes, id: uint16, index: uint8) {
    FragmentL2(env, ps, w) == None && FragmentL3(env, ps, w) == Some((id, index)) && FragmentL4(ps, w) == None
  }

  predicate OnlyL4(env: Settings, ps: seq<Ref>, w: bytes, id: uint16, index: uint8) {
    FragmentL2(env, ps, w) == None && FragmentL3(env, ps, w) == None && FragmentL4(ps, w) == Some((id, index))
  }

  lemma TagBack(ps: seq<Ref>, action: int, w: bytes, wireId: uint8, tag: nat, id: uint16, index: uint8)
    requires tag + 3 <= |w| && w[tag] == Hi(id) && w[tag + 1] == Lo(id) && w[tag + 2] == index <= 1
    requires Configured(ps, action, wireId)
    ensures Tagged(ps, action, w, wireId, tag) == Some((id, index))
  {
    U16HiLo(id);
  }

  lemma WireL3(env: Settings, key: Key, nonce: Nonce, eth: bytes, ip: bytes, plain: bytes, id: uint16, index: uint8,
               ps: seq<Ref>)
    requires |eth| == ETH_LEN && EtherType(eth) == 0x0800 && |ip| >= 20 && HeaderLen(ip[0]) == |ip| && index <= 1
    requires Apart(env) && Configured(ps, ENCRYPT_L3, env.policyId)
    ensures OnlyL3(env, ps, Layer3.FragWire(env, key, nonce, eth, ip, plain, id, index), id, index)
  {
    hide SealWith, Layer3.OuterIp, RequireIpv4, Configured, FragMid, HeaderLen;
    var total := (|ip| + |plain| + Layer3.FragMetaLen(env.mode)) % 0x1_0000;
    var front := eth + Layer3.OuterIp(ip, env.fakeProto, total);
    var mid, sealed := FragMid(env, nonce, Layer3.FRAG_MAGIC, id, index), SealWith(env, key, nonce, plain);
    var w := Layer3.FragWire(env, key, nonce, eth, ip, plain, id, index);
    assert w == front + (mid + sealed);
    Layer3.OuterIpParses(eth, ip, env.fakeProto, total, mid + sealed);
    MidParses(env, nonce, Layer3.FRAG_MAGIC, id, index, front, sealed);
    assert w[12] == eth[12] && w[13] == eth[13];
    hide Layer3.FragWire;
    TagBack(ps, ENCRYPT_L3, w, w[|front| + 12], |front| + TUNNEL_LEN, id, index);
    hide Tagged;
  }

  lemma FrontBytes(eth: bytes, ip: bytes, ports: bytes, rest: bytes)
    requires |eth| == ETH_LEN && |ip| >= 20
    ensures var w := eth + ip + ports + rest; w[12] == eth[12] && w[13] == eth[13] && w[14] == ip[0] && w[23] == ip[9]
  {
  }

  lemma WireL4(env: Settings, key: Key, nonce: Nonce, eth: bytes, ip: bytes, ports: bytes, plain: bytes, id: uint16,
               index: uint8,
               ps: seq<Ref>)
    requires |eth| == ETH_LEN && EtherType(eth) == 0x0800 && |ip| >= 20 && HeaderLen(ip[0]) == |ip| && index <= 1
    requires |ports| == Layer4.PORT_LEN && (ip[9] == TCP || ip[9] == UDP)
    requires Apart(env) && Configured(ps, ENCRYPT_L4, env.policyId)
    ensures OnlyL4(env, ps, Layer4.FragWire(env, key, nonce, eth, ip, ports, plain, id, index), id, index)
  {
    hide SealWith, Patched, RequireIpv4, Configured, FragMid, Low16;
    var total := Low16(|ip| + Layer4.FragPayloadLen(env.mode, |plain|));
    var front := eth + Patched(ip, total) + ports;
    var mid, sealed := FragMid(env, nonce, Layer4.FRAG_MAGIC, id, index), SealWith(env, key, nonce, plain);
    var w := Layer4.FragWire(env, key, nonce, eth, ip, ports, plain, id, index);
    Layer4.Regroup5(eth, Patched(ip, total), ports, mid, sealed);
    assert w == front + (mid + sealed);
    MidParses(env, nonce, Layer4.FRAG_MAGIC, id, index, front, sealed);
    PatchedByte(ip, total, 0);
    PatchedByte(ip, total, 9);
    hide Layer4.FragWire, Layer4.FragPayloadLen;
    FrontBytes(eth, Patched(ip, total), ports, mid + sealed);
    TagBack(ps, ENCRYPT_L4, w, w[|front| + 12], |front| + TUNNEL_LEN, id, index);
    hide Tagged, HeaderLen;
  }

  lemma WireL2(env: Settings, key: Key, nonce: Nonce, macs: bytes, plain: bytes, id: uint16, index: uint8, ps: seq<Ref>)
    requires |macs| == Layer2.MAC_LEN && env.fakeEther != 0 && index <= 1
    requires Apart(env) && Configured(ps, ENCRYPT_L2, env.policyId)
    ensures OnlyL2(env, ps, Layer2.FragWire(env, key, nonce, macs, plain, id, index), id, index)
  {
    hide SealWith, Layer2.FragHeader, Configured;
    var w := Layer2.FragWire(env, key, nonce, macs, plain, id, index);
    Layer2.FragmentCarriesWorker(env, key, nonce, macs, plain, id, index);
    Layer2.FragWireParses(env, macs, nonce, id, index, SealWith(env, key, nonce, plain));
    U16HiLo(env.fakeEther);
    hide Layer2.FragWire;
    TagBack(ps, ENCRYPT_L2, w, w[14], 29, id, index);
    hide Tagged, U16;
  }

  /** Both fragments of a frame split at a layer reach that layer's reassembly, as halves 0 and 1 of one id. */
  lemma SplitDispatchedL3(env: Settings, key: Key, nonce0: Nonce, nonce1: Nonce, id: uint16, f: bytes, max0: nat,
                          max1: nat, ps: seq<Ref>)
    requires SplitL3(env, key, nonce0, nonce1, id, f, max0, max1).Some?
    requires Apart(env) && Configured(ps, ENCRYPT_L3, env.policyId)
    ensures var w := SplitL3(env, key, nonce0, nonce1, id, f, max0, max1).value;
            OnlyL3(env, ps, w.0, id, 0) && OnlyL3(env, ps, w.1, id, 1)
  {
    var p := PlanL3(env.mode, f).value;
    FrameHeader(f, p);
    hide PlanL3, RequireIpv4, Configured, OnlyL3, EtherType, HeaderLen, Layer3.FragWire, Apart;
    WireL3(env, key, nonce0, Eth(f), Ip(f, p), First(f, p), id, 0, ps);
    WireL3(env, key, nonce1, Eth(f), Ip(f, p), Second(f, p), id, 1, ps);
  }

  lemma FrameHeader(f: bytes, p: Plan)
    requires RequireIpv4(f) == p.ihl && ETH_LEN + p.ihl <= p.cut < |f|
    ensures EtherType(Eth(f)) == 0x0800 && |Ip(f, p)| >= 20 && HeaderLen(Ip(f, p)[0]) == p.ihl && Ip(f, p)[9] == f[23]
  {
  }

  lemma SplitDispatchedL4(env: Settings, key: Key, nonce0: Nonce, nonce1: Nonce, id: uint16, f: bytes, max0: nat,
                          max1: nat, ps: seq<Ref>)
    requires NeedSplitL4(env.mode, |f|) && SplitL4(env, key, nonce0, nonce1, id, f, max0, max1).Some?
    requires Apart(env) && Configured(ps, ENCRYPT_L4, env.policyId)
    ensures var w := SplitL4(env, key, nonce0, nonce1, id, f, max0, max1).value;
            OnlyL4(env, ps, w.0, id, 0) && OnlyL4(env, ps, w.1, id, 1)
  {
    var p := PlanL4(env.mode, f).value;
    FrameHeader(f, p);
    hide PlanL4, RequireIpv4, Configured, OnlyL4, EtherType, HeaderLen, Layer4.FragWire, Apart;
    WireL4(env, key, nonce0, Eth(f), Ip(f, p), PortBytes(f, p), First(f, p), id, 0, ps);
    WireL4(env, key, nonce1, Eth(f), Ip(f, p), PortBytes(f, p), Second(f, p), id, 1, ps);
  }

  lemma SplitDispatchedL2(env: Settings, key: Key, nonce0: Nonce, nonce1: Nonce, id: uint16, f: bytes, max0: nat,
                          max1: nat, ps: seq<Ref>)
    requires SplitL2(env, key, nonce0, nonce1, id, f, max0, max1).Some?
    requires Apart(env) && Configured(ps, ENCRYPT_L2, env.policyId)
    ensures var w := SplitL2(env, key, nonce0, nonce1, id, f, max0, max1).value;
            OnlyL2(env, ps, w.0, id, 0) && OnlyL2(env, ps, w.1, id, 1)
  {
    var p := PlanL2(env.mode, f).value;
    hide PlanL2, Configured, OnlyL2, Layer2.FragWire, Apart;
    WireL2(env, key, nonce0, f[..Layer2.MAC_LEN], First(f, p), id, 0, ps);
    WireL2(env, key, nonce1, f[..Layer2.MAC_LEN], Second(f, p), id, 1, ps);
  }
}
