/**
 * A packet from a WAN through all three layers: `decrypt_wan` of `src/core/dataplane_wan.c` with the policy
 * tests of `src/crypto/crypto_dispatch.c`, and what becomes of a frame that was split on the far side.
 */
module Wan {
  import opened Bytes
  import opened Checksum
  import opened Ipv4
  import opened Cipher
  import opened Wire
  import opened FragTable
  import opened FragRuns
  import opened Delivery
  import opened Split
  import opened Reassembly
  import opened Dispatch
  import opened EndToEnd
  import Layer2
  import Layer3
  import Layer4

  /** The settings, the policies, and by layer and wire id the keys of the policies that are ready. */
  datatype Receiver = Receiver(env: Settings, policies: seq<Ref>, l2: map<uint8, Keys>, l3: map<uint8, Keys>,
                               l4: map<uint8, Keys>)

  /** The reassembly tables of a profile. */
  datatype Tables = Tables(l2: seq<Entry>, l3: seq<Entry>, l4: seq<Entry>)

  /** Dropped, kept in a table, or handed on. */
  datatype Verdict = Dropped | Kept | Passed(packet: bytes)

  predicate TablesInv(ts: Tables, now: uint64) { TableInv(ts.l2, now) && TableInv(ts.l3, now) && TableInv(ts.l4, now) }

  /* The stages */

  /** crypto_l3_extract_policy_id */
  function PolicyL3(h: Receiver, p: bytes): Option<uint8> {
    var ihl := RequireIpv4(p);
    var marker := if h.env.fakeProto == 0 then 99 else h.env.fakeProto;
    if ihl < 0 || |p| < ETH_LEN + ihl + TUNNEL_LEN || p[23] != marker then None
    else
      var wireId := p[ETH_LEN + ihl + NONCE_LEN];
      if Configured(h.policies, ENCRYPT_L3, wireId) then Some(wireId) else None
  }

  /** crypto_l4_extract_policy_id_ipv4 */
  function PolicyL4(h: Receiver, p: bytes): Option<uint8> {
    match Layer4.Ipv4Shape(p)
    case None => None
    case Some((off, ihl)) =>
      var t := off + ihl + Layer4.PORT_LEN;
      if |p| < off + ihl + 8 || t + NONCE_LEN + 1 >= |p| then None
      else if p[t + 13] != Layer4.TUNNEL_MAGIC && p[t + 13] != Layer4.FRAG_MAGIC then None
      else if Configured(h.policies, ENCRYPT_L4, p[t + NONCE_LEN]) then Some(p[t + NONCE_LEN]) else None
  }

  lemma ReceiveFits(layer: Layer, env: Settings, keys: Keys, t: seq<Entry>, w: bytes, now: uint64)
    requires TableInv(t, now)
    ensures var r := Receive(layer, env, keys, t, w, now);
            TableInv(r.0, now) && (r.1.Joined? ==> ETH_LEN <= |r.1.packet| <= OUT_MAX && r.0 != t)
  {
    hide Layer2.DecryptFragment, Layer3.DecryptFragment, Layer4.DecryptFragment;
    hide Admit, TableInv, Next, HeaderInside, ClearedAt;
    match DecryptedAt(layer, env, keys, w)
    case None =>
    case Some(o) =>
      DecryptedHeaderInside(env, keys, w);
      AdmissionFits(layer, o, t, now);
  }

  lemma AdmissionFits(layer: Layer, o: Opened, t: seq<Entry>, now: uint64)
    requires TableInv(t, now) && (layer.L4? ==> HeaderInside(o.packet))
    ensures match Admit(layer, o.packet, o.index)
            case Refused => true
            case Emptied => TableInv(ClearedAt(t, o.id, now), now)
            case Admitted(half) =>
              var r := Next(KindOf(layer), t, Offer(o.id, half, now));
              TableInv(r.0, now) && (r.1.Joined? ==> ETH_LEN <= |r.1.packet| <= OUT_MAX && r.0 != t)
  {
    assert |t| == SIZE;
    hide Admit, TableInv, Next, HeaderInside, ClearedAt;
    match Admit(layer, o.packet, o.index)
    case Refused =>
    case Emptied => ClearedKeepsInv(t, o.id, now);
    case Admitted(half) =>
      AdmittedEth(layer, o.packet, o.index, now, o.id);
      NextKeepsInv(KindOf(layer), t, Offer(o.id, half, now));
      JoinedFits(KindOf(layer), t, o.id, half, now);
      if Next(KindOf(layer), t, Offer(o.id, half, now)).1.Joined? {
        JoinChanges(KindOf(layer), t, o.id, half, now);
      }
  }

  /** A packet is joined at the cost of the half that was stored. */
  lemma JoinChanges(kind: Kind, t: seq<Entry>, id: uint16, half: Half, now: uint64)
    requires TableInv(t, now) && WellFormed(Offer(id, half, now)) && Next(kind, t, Offer(id, half, now)).1.Joined?
    ensures Next(kind, t, Offer(id, half, now)).0 != t
  {
    hide Put, SlotFor, OneHalf;
    var i := SlotFor(kind, t, id, now).value;
    PutMeaning(t[i], id, half, now);
  }

  /** reassemble_l2, reassemble_l3 and reassemble_l4 */
  function Reassembled(layer: Layer, env: Settings, ready: map<uint8, Keys>, t: seq<Entry>, wireId: uint8, p: bytes,
                       now: uint64)
    : (r: (seq<Entry>, Verdict))
    requires TableInv(t, now)
    ensures TableInv(r.0, now)
  {
    if wireId !in ready then (t, Dropped)
    else
      ReceiveFits(layer, env, ready[wireId], t, p, now);
      var (t2, out) := Receive(layer, env, ready[wireId], t, p, now);
      (t2, match out case Pending => Kept case Rejected => Dropped case Joined(q) => Passed(Finish(layer, q)))
  }

  /** crypto_decrypt_packet_auto_by_action takes only a result shorter than the packet. */
  function OpenedL3(h: Receiver, wireId: uint8, p: bytes): Verdict {
    if wireId !in h.l3 || |p| > ONES then Dropped
    else match Layer3.Decrypt(h.env, h.l3[wireId], p)
      case None => Dropped
      case Some(q) => if |q| < |p| then Passed(q) else Dropped
  }

  function OpenedL4(h: Receiver, wireId: uint8, p: bytes): Verdict {
    if wireId !in h.l4 || |p| > ONES then Dropped
    else match Layer4.Decrypt(h.env, h.l4[wireId], p)
      case None => Dropped
      case Some(q) => if |q| < |p| then Passed(q) else Dropped
  }

  /** decrypt_l2 and wan_l2_plain_ipv4, or else the layer's fragments. */
  function StageL2(h: Receiver, t: seq<Entry>, p: bytes, now: uint64): (r: (seq<Entry>, Verdict))
    requires TableInv(t, now) && |p| >= 16
    ensures TableInv(r.0, now)
  {
    var plain := if !Layer2.HasFakeEther(h.env, p) then Some(p)
                  else if p[14] in h.l2 then Layer2.Decrypt(h.env, h.l2[p[14]], p) else None;
    if plain.Some? && |plain.value| >= ETH_LEN && EtherType(plain.value) == 0x0800 then (t, Passed(plain.value))
    else if FragmentL2(h.env, h.policies, p).Some? then Reassembled(L2, h.env, h.l2, t, p[14], p, now)
    else (t, Dropped)
  }

  function StageL3(h: Receiver, t: seq<Entry>, p: bytes, now: uint64): (r: (seq<Entry>, Verdict))
    requires TableInv(t, now)
    ensures TableInv(r.0, now)
  {
    var wireId := PolicyL3(h, p);
    if FragmentL3(h.env, h.policies, p).Some? then
      if wireId.None? then (t, Dropped) else Reassembled(L3, h.env, h.l3, t, wireId.value, p, now)
    else if wireId.Some? then (t, OpenedL3(h, wireId.value, p))
    else (t, Passed(p))
  }

  function StageL4(h: Receiver, t: seq<Entry>, p: bytes, now: uint64): (r: (seq<Entry>, Verdict))
    requires TableInv(t, now)
    ensures TableInv(r.0, now)
  {
    var wireId := PolicyL4(h, p);
    if FragmentL4(h.policies, p).Some? then
      if wireId.None? then (t, Dropped) else Reassembled(L4, h.env, h.l4, t, wireId.value, p, now)
    else if wireId.Some? then (t, OpenedL4(h, wireId.value, p))
    else (t, Passed(p))
  }

  /** A layer keeps a packet, or changes its table, only for what its test takes for a fragment. */
  lemma OnlyFragmentsStored(h: Receiver, t: seq<Entry>, p: bytes, now: uint64)
    requires TableInv(t, now)
    ensures |p| >= 16 && FragmentL2(h.env, h.policies, p) == None ==>
              StageL2(h, t, p, now).0 == t && StageL2(h, t, p, now).1 != Kept
    ensures FragmentL3(h.env, h.policies, p) == None ==> StageL3(h, t, p, now).0 == t && StageL3(h, t, p, now).1 != Kept
    ensures FragmentL4(h.policies, p) == None ==> StageL4(h, t, p, now).0 == t && StageL4(h, t, p, now).1 != Kept
  {
    hide Reassembled, TableInv, FragmentL2, FragmentL3, FragmentL4;
  }

  /** decrypt_wan from layer 4, layer 3 and layer 2 on. */
  function FromL4(h: Receiver, ts: Tables, p: bytes, now: uint64): (r: (Tables, Verdict))
    requires TablesInv(ts, now)
    ensures TablesInv(r.0, now)
  {
    var (t, v) := StageL4(h, ts.l4, p, now);
    (ts.(l4 := t), v)
  }

  function FromL3(h: Receiver, ts: Tables, p: bytes, now: uint64): (r: (Tables, Verdict))
    requires TablesInv(ts, now)
    ensures TablesInv(r.0, now)
  {
    var (t, v) := StageL3(h, ts.l3, p, now);
    if v.Passed? then FromL4(h, ts.(l3 := t), v.packet, now) else (ts.(l3 := t), v)
  }

  function DecryptWan(h: Receiver, ts: Tables, p: bytes, now: uint64): (r: (Tables, Verdict))
    requires TablesInv(ts, now) && |p| >= 16
    ensures TablesInv(r.0, now)
  {
    var (t, v) := StageL2(h, ts.l2, p, now);
    if v.Passed? then FromL3(h, ts.(l2 := t), v.packet, now) else (ts.(l2 := t), v)
  }

  /* What a stage leaves alone */

  lemma FragmentHasPolicyL4(h: Receiver, p: bytes)
    ensures FragmentL4(h.policies, p).Some? ==> PolicyL4(h, p).Some?
  {
    hide Configured;
  }

  lemma OpenedDiffers(h: Receiver, wireId: uint8, p: bytes)
    ensures OpenedL3(h, wireId, p) != Passed(p) && OpenedL4(h, wireId, p) != Passed(p)
  {
    hide Layer3.Decrypt, Layer4.Decrypt;
  }

  lemma ReassembledDiffers(layer: Layer, env: Settings, ready: map<uint8, Keys>, t: seq<Entry>, wireId: uint8,
                           p: bytes, now: uint64)
    requires TableInv(t, now)
    ensures var r := Reassembled(layer, env, ready, t, wireId, p, now); r.1.Passed? ==> r.0 != t
  {
    hide Receive, TableInv, Finish;
    if wireId in ready {
      ReceiveFits(layer, env, ready[wireId], t, p, now);
    }
  }

  /** Layer 4 leaves packet and table alone exactly when it finds no policy in the packet. */
  lemma UntouchedL4(h: Receiver, t: seq<Entry>, p: bytes, now: uint64)
    requires TableInv(t, now)
    ensures StageL4(h, t, p, now) == (t, Passed(p)) <==> PolicyL4(h, p) == None
  {
    hide PolicyL4, FragmentL4, OpenedL4, Reassembled, TableInv;
    FragmentHasPolicyL4(h, p);
    var wireId := PolicyL4(h, p);
    if wireId.Some? {
      OpenedDiffers(h, wireId.value, p);
      ReassembledDiffers(L4, h.env, h.l4, t, wireId.value, p, now);
    }
  }

  /** Layer 3 takes the packet neither for a fragment nor for one that it has encrypted whole. */
  predicate PlainL3(h: Receiver, p: bytes) { FragmentL3(h.env, h.policies, p) == None && PolicyL3(h, p) == None }

  lemma UntouchedL3(h: Receiver, t: seq<Entry>, p: bytes, now: uint64)
    requires TableInv(t, now)
    ensures StageL3(h, t, p, now) == (t, Passed(p)) <==> PlainL3(h, p)
  {
    hide PolicyL3, FragmentL3, OpenedL3, Reassembled, TableInv;
    var wireId := PolicyL3(h, p);
    if wireId.Some? {
      OpenedDiffers(h, wireId.value, p);
      ReassembledDiffers(L3, h.env, h.l3, t, wireId.value, p, now);
    }
  }

  /* The sender's fragments on their way */

  /** The receiver knows the sender's policy and has its keys. */
  predicate Knows(h: Receiver, action: int, ready: map<uint8, Keys>) {
    Apart(h.env) && h.env.fakeProto != 0 && Configured(h.policies, action, h.env.policyId) && h.env.policyId in ready
  }

  predicate SeenL3(h: Receiver, w: bytes) {
    |w| >= 16 && EtherType(w) == 0x0800 && FragmentL3(h.env, h.policies, w).Some? && PolicyL3(h, w) == Some(h.env.policyId)
  }

  predicate SeenL4(h: Receiver, w: bytes) {
    |w| >= 16 && EtherType(w) == 0x0800 && PlainL3(h, w)
    && FragmentL4(h.policies, w).Some? && PolicyL4(h, w) == Some(h.env.policyId)
  }

  predicate SeenL2(h: Receiver, w: bytes) {
    |w| >= 16 && Layer2.HasFragMarker(h.env, w) && w[14] == h.env.policyId && FragmentL2(h.env, h.policies, w).Some?
  }

  lemma RouteL3(h: Receiver, ts: Tables, w: bytes, now: uint64)
    requires TablesInv(ts, now) && SeenL3(h, w) && h.env.fakeEther != 0x0800 && h.env.policyId in h.l3
    ensures var r := Receive(L3, h.env, h.l3[h.env.policyId], ts.l3, w, now);
            TableInv(r.0, now)
            && DecryptWan(h, ts, w, now) == match r.1
                                            case Pending => (ts.(l3 := r.0), Kept)
                                            case Rejected => (ts.(l3 := r.0), Dropped)
                                            case Joined(q) => FromL4(h, ts.(l3 := r.0), q, now)
  {
    hide TableInv, Receive, FragmentL2, FragmentL3, PolicyL3, FromL4, EtherType, Layer2.Decrypt;
    ReceiveFits(L3, h.env, h.l3[h.env.policyId], ts.l3, w, now);
  }

  lemma RouteL4(h: Receiver, ts: Tables, w: bytes, now: uint64)
    requires TablesInv(ts, now) && SeenL4(h, w) && h.env.fakeEther != 0x0800 && h.env.policyId in h.l4
    ensures var r := Receive(L4, h.env, h.l4[h.env.policyId], ts.l4, w, now);
            DecryptWan(h, ts, w, now)
            == (ts.(l4 := r.0), match r.1
                                case Pending => Kept
                                case Rejected => Dropped
                                case Joined(q) =>
                                  ReceiveFits(L4, h.env, h.l4[h.env.policyId], ts.l4, w, now);
                                  Passed(Finish(L4, q)))
  {
    hide TableInv, Receive, FragmentL2, FragmentL3, FragmentL4, PolicyL3, PolicyL4, EtherType, Layer2.Decrypt, Finish;
    ReceiveFits(L4, h.env, h.l4[h.env.policyId], ts.l4, w, now);
  }

  lemma RouteL2(h: Receiver, ts: Tables, w: bytes, now: uint64)
    requires TablesInv(ts, now) && SeenL2(h, w) && h.env.fakeEther != 0x0800 && h.env.policyId in h.l2
    ensures var r := Receive(L2, h.env, h.l2[h.env.policyId], ts.l2, w, now);
            TableInv(r.0, now)
            && (r.1.Joined? ==> ETH_LEN <= |r.1.packet| <= ONES)
            && DecryptWan(h, ts, w, now) == match r.1
                                            case Pending => (ts.(l2 := r.0), Kept)
                                            case Rejected => (ts.(l2 := r.0), Dropped)
                                            case Joined(q) => FromL3(h, ts.(l2 := r.0), Finish(L2, q), now)
  {
    hide TableInv, Receive, FragmentL2, FromL3, Finish;
    ReceiveFits(L2, h.env, h.l2[h.env.policyId], ts.l2, w, now);
  }

  lemma WireSeenL3(h: Receiver, key: Key, nonce: Nonce, eth: bytes, ip: bytes, plain: bytes, id: uint16, index: uint8)
    requires |eth| == ETH_LEN && EtherType(eth) == 0x0800 && |ip| >= 20 && HeaderLen(ip[0]) == |ip| && index <= 1
    requires Knows(h, ENCRYPT_L3, h.l3)
    ensures SeenL3(h, Layer3.FragWire(h.env, key, nonce, eth, ip, plain, id, index))
  {
    hide SealWith, Layer3.OuterIp, RequireIpv4, Configured, FragMid, HeaderLen, FragmentL3, FragmentL2, FragmentL4;
    WireL3(h.env, key, nonce, eth, ip, plain, id, index, h.policies);
    var total := (|ip| + |plain| + Layer3.FragMetaLen(h.env.mode)) % 0x1_0000;
    var front := eth + Layer3.OuterIp(ip, h.env.fakeProto, total);
    var mid, sealed := FragMid(h.env, nonce, Layer3.FRAG_MAGIC, id, index), SealWith(h.env, key, nonce, plain);
    var w := Layer3.FragWire(h.env, key, nonce, eth, ip, plain, id, index);
    assert w == front + (mid + sealed);
    Layer3.OuterIpParses(eth, ip, h.env.fakeProto, total, mid + sealed);
    MidParses(h.env, nonce, Layer3.FRAG_MAGIC, id, index, front, sealed);
    FrontTypes(eth, Layer3.OuterIp(ip, h.env.fakeProto, total) + (mid + sealed));
    assert w == eth + (Layer3.OuterIp(ip, h.env.fakeProto, total) + (mid + sealed));
  }

  lemma FrontTypes(eth: bytes, rest: bytes)
    requires |eth| == ETH_LEN
    ensures EtherType(eth + rest) == EtherType(eth)
  {
  }

  lemma WireSeenL4(h: Receiver, key: Key, nonce: Nonce, eth: bytes, ip: bytes, ports: bytes, plain: bytes,
                   id: uint16, index: uint8)
    requires |eth| == ETH_LEN && EtherType(eth) == 0x0800 && |ip| >= 20 && HeaderLen(ip[0]) == |ip| && index <= 1
    requires |ports| == Layer4.PORT_LEN && (ip[9] == TCP || ip[9] == UDP) && Knows(h, ENCRYPT_L4, h.l4)
    ensures SeenL4(h, Layer4.FragWire(h.env, key, nonce, eth, ip, ports, plain, id, index))
  {
    hide SealWith, Patched, RequireIpv4, Configured, FragMid, Low16, Layer4.Ipv4Shape, FragmentL2, FragmentL3, FragmentL4;
    hide PolicyL3, PolicyL4, HeaderLen, Layer4.FragWire, Layer4.Behind, Layer4.FragPayloadLen;
    WireL4(h.env, key, nonce, eth, ip, ports, plain, id, index, h.policies);
    var total := Low16(|ip| + Layer4.FragPayloadLen(h.env.mode, |plain|));
    var o := Patched(ip, total);
    var mid, sealed := FragMid(h.env, nonce, Layer4.FRAG_MAGIC, id, index), SealWith(h.env, key, nonce, plain);
    WireOfL4(h.env, key, nonce, eth, ip, ports, plain, id, index);
    MidParses(h.env, nonce, Layer4.FRAG_MAGIC, id, index, eth + o + ports, sealed);
    Layer4.PatchedParses(eth, ip, total, ports + (mid + sealed));
    FrontBytes(eth, o, ports, mid + sealed);
    FieldsL4(h, Layer4.FragWire(h.env, key, nonce, eth, ip, ports, plain, id, index), ETH_LEN, |ip|);
  }

  lemma WireOfL4(env: Settings, key: Key, nonce: Nonce, eth: bytes, ip: bytes, ports: bytes, plain: bytes, id: uint16, index: uint8)
    requires |eth| == ETH_LEN && |ip| >= 20 && |ports| == Layer4.PORT_LEN
    ensures var o := Patched(ip, Low16(|ip| + Layer4.FragPayloadLen(env.mode, |plain|)));
            var rest := FragMid(env, nonce, Layer4.FRAG_MAGIC, id, index) + SealWith(env, key, nonce, plain);
            var w := Layer4.FragWire(env, key, nonce, eth, ip, ports, plain, id, index);
            w == eth + o + ports + rest && w == eth + o + (ports + rest)
  {
    hide SealWith, Patched, FragMid, Low16, Layer4.FragPayloadLen;
    var o := Patched(ip, Low16(|ip| + Layer4.FragPayloadLen(env.mode, |plain|)));
    Layer4.Regroup5(eth, o, ports, FragMid(env, nonce, Layer4.FRAG_MAGIC, id, index), SealWith(env, key, nonce, plain));
  }

  /** A packet with the policy's number behind its ports. */
  lemma FieldsL4(h: Receiver, w: bytes, off: nat, ihl: nat)
    requires var t := off + ihl + Layer4.PORT_LEN;
             Layer4.Ipv4Shape(w) == Some((off, ihl)) && t + TUNNEL_LEN <= |w| && w[t + 12] == h.env.policyId
             && (w[t + 13] == Layer4.TUNNEL_MAGIC || w[t + 13] == Layer4.FRAG_MAGIC)
    requires Knows(h, ENCRYPT_L4, h.l4)
    ensures PolicyL4(h, w) == Some(h.env.policyId) && (off == ETH_LEN ==> PolicyL3(h, w) == None)
  {
    hide Configured;
  }

  lemma WireSeenL2(h: Receiver, key: Key, nonce: Nonce, macs: bytes, plain: bytes, id: uint16, index: uint8)
    requires |macs| == Layer2.MAC_LEN && h.env.fakeEther != 0 && index <= 1 && Knows(h, ENCRYPT_L2, h.l2)
    ensures SeenL2(h, Layer2.FragWire(h.env, key, nonce, macs, plain, id, index))
  {
    hide Layer2.FragWire, FragmentL2, FragmentL3, FragmentL4, Configured;
    WireL2(h.env, key, nonce, macs, plain, id, index, h.policies);
    Layer2.FragmentCarriesWorker(h.env, key, nonce, macs, plain, id, index);
  }

  /* Frames */

  /** The layer's table when the second fragment comes. */
  lemma TableLater(layer: Layer, env: Settings, keys: Keys, t: seq<Entry>, a: bytes, evs: seq<Event>, id: uint16,
                   start: uint64, end: uint64)
    requires Undisturbed(layer, t, id, evs, start, end)
    ensures TableInv(TableBefore(layer, env, keys, t, a, evs, start), end)
  {
    assert |t| == SIZE;
    hide TableInv, FreshId, Receive;
    ReceiveFits(layer, env, keys, t, a, start);
    var t1 := Receive(layer, env, keys, t, a, start).0;
    ReachableInv(KindOf(layer), t1, evs, start);
    InvLater(After(KindOf(layer), t1, evs), if evs == [] then start else evs[|evs| - 1].now, end);
  }

  /**
   * A frame split at layer 3, from its fragments' arrival to the end of `decrypt_wan`: it is handed on, byte for
   * byte and with layer 4's table untouched, if and only if layer 3 restores it and layer 4 finds no policy in it.
   */
  lemma ArrivesL3(h: Receiver, nonce0: Nonce, nonce1: Nonce, id: uint16, f: bytes, max0: nat, max1: nat, swapped: bool,
                  ts: Tables, evs: seq<Event>, others: Tables, start: uint64, end: uint64)
    requires Knows(h, ENCRYPT_L3, h.l3) && NeedSplitL3(h.env.mode, |f|)
    requires SplitL3(h.env, h.l3[h.env.policyId].current, nonce0, nonce1, id, f, max0, max1).Some?
    requires TablesInv(ts, start) && TablesInv(others, end) && Undisturbed(L3, ts.l3, id, evs, start, end)
    ensures var keys := h.l3[h.env.policyId];
            var w := SplitL3(h.env, keys.current, nonce0, nonce1, id, f, max0, max1).value;
            var (a, b) := if swapped then (w.1, w.0) else (w.0, w.1);
            var ts2 := others.(l3 := TableBefore(L3, h.env, keys, ts.l3, a, evs, start));
            var ok := Version4(f) && |f| + HeaderLen(f[14]) + Layer3.FragMetaLen(h.env.mode) <= MTU + HALF_MAX;
            |a| >= 16 && |b| >= 16 && TablesInv(ts2, end)
            && var r, r2 := DecryptWan(h, ts, a, start), DecryptWan(h, ts2, b, end);
               r.0 == ts.(l3 := Receive(L3, h.env, keys, ts.l3, a, start).0) && !r.1.Passed?
               && (r2.1 == Passed(f) && r2.0.l4 == others.l4 <==> ok && Spared(evs, id) && PolicyL4(h, f) == None)
  {
    var keys := h.l3[h.env.policyId];
    var w := SplitL3(h.env, keys.current, nonce0, nonce1, id, f, max0, max1).value;
    var (a, b) := if swapped then (w.1, w.0) else (w.0, w.1);
    SplitSeenL3(h, keys.current, nonce0, nonce1, id, f, max0, max1);
    RestoredL3(h.env, keys, nonce0, nonce1, id, f, max0, max1, swapped, ts.l3, evs, start, end);
    TableLater(L3, h.env, keys, ts.l3, a, evs, id, start, end);
    var ts2 := others.(l3 := TableBefore(L3, h.env, keys, ts.l3, a, evs, start));
    hide SplitL3, NeedSplitL3, SeenL3, Receive, Spared, Undisturbed, HeaderLen, PolicyL4, StageL4, DecryptWan, TableInv;
    RouteL3(h, ts, a, start);
    RouteL3(h, ts2, b, end);
    UntouchedL4(h, ts2.l4, f, end);
  }

  lemma SplitSeenL3(h: Receiver, key: Key, nonce0: Nonce, nonce1: Nonce, id: uint16, f: bytes, max0: nat, max1: nat)
    requires Knows(h, ENCRYPT_L3, h.l3) && SplitL3(h.env, key, nonce0, nonce1, id, f, max0, max1).Some?
    ensures var w := SplitL3(h.env, key, nonce0, nonce1, id, f, max0, max1).value; SeenL3(h, w.0) && SeenL3(h, w.1)
  {
    var p := PlanL3(h.env.mode, f).value;
    hide PlanL3, RequireIpv4, Layer3.FragWire, SeenL3, EtherType, HeaderLen, Knows;
    FrameHeader(f, p);
    WireSeenL3(h, key, nonce0, Eth(f), Ip(f, p), First(f, p), id, 0);
    WireSeenL3(h, key, nonce1, Eth(f), Ip(f, p), Second(f, p), id, 1);
  }

  /** The same for layer 4, the last: what is handed on is the fixed-up frame. */
  lemma ArrivesL4(h: Receiver, nonce0: Nonce, nonce1: Nonce, id: uint16, f: bytes, max0: nat, max1: nat, swapped: bool,
                  ts: Tables, evs: seq<Event>, others: Tables, start: uint64, end: uint64)
    requires Knows(h, ENCRYPT_L4, h.l4) && NeedSplitL4(h.env.mode, |f|)
    requires SplitL4(h.env, h.l4[h.env.policyId].current, nonce0, nonce1, id, f, max0, max1).Some?
    requires TablesInv(ts, start) && TablesInv(others, end) && Undisturbed(L4, ts.l4, id, evs, start, end)
    ensures var keys := h.l4[h.env.policyId];
            var w := SplitL4(h.env, keys.current, nonce0, nonce1, id, f, max0, max1).value;
            var (a, b) := if swapped then (w.1, w.0) else (w.0, w.1);
            var ts2 := others.(l4 := TableBefore(L4, h.env, keys, ts.l4, a, evs, start));
            var ok := Version4(f) && |f| + HeaderLen(f[14]) + Layer4.FragMetaLen(h.env.mode) <= MTU + HALF_MAX;
            |a| >= 16 && |b| >= 16 && TablesInv(ts2, end)
            && var r, r2 := DecryptWan(h, ts, a, start), DecryptWan(h, ts2, b, end);
               r.0 == ts.(l4 := Receive(L4, h.env, keys, ts.l4, a, start).0) && !r.1.Passed?
               && (r2.1.Passed? <==> ok && Spared(evs, id))
               && (r2.1.Passed? ==> Fixup(f) == Some(r2.1.packet))
  {
    var keys := h.l4[h.env.policyId];
    var w := SplitL4(h.env, keys.current, nonce0, nonce1, id, f, max0, max1).value;
    var (a, b) := if swapped then (w.1, w.0) else (w.0, w.1);
    SplitSeenL4(h, keys.current, nonce0, nonce1, id, f, max0, max1);
    RestoredL4(h.env, keys, nonce0, nonce1, id, f, max0, max1, swapped, ts.l4, evs, start, end);
    TableLater(L4, h.env, keys, ts.l4, a, evs, id, start, end);
    var ts2 := others.(l4 := TableBefore(L4, h.env, keys, ts.l4, a, evs, start));
    hide SplitL4, NeedSplitL4, SeenL4, Receive, Spared, Undisturbed;
    hide HeaderLen, StageL4, DecryptWan, TableInv, Fixup, Finish;
    RouteL4(h, ts, a, start);
    RouteL4(h, ts2, b, end);
  }

  lemma SplitSeenL4(h: Receiver, key: Key, nonce0: Nonce, nonce1: Nonce, id: uint16, f: bytes, max0: nat, max1: nat)
    requires Knows(h, ENCRYPT_L4, h.l4) && NeedSplitL4(h.env.mode, |f|)
    requires SplitL4(h.env, key, nonce0, nonce1, id, f, max0, max1).Some?
    ensures var w := SplitL4(h.env, key, nonce0, nonce1, id, f, max0, max1).value; SeenL4(h, w.0) && SeenL4(h, w.1)
  {
    var p := PlanL4(h.env.mode, f).value;
    hide PlanL4, RequireIpv4, Layer4.FragWire, SeenL4, EtherType, HeaderLen, Knows;
    FrameHeader(f, p);
    WireSeenL4(h, key, nonce0, Eth(f), Ip(f, p), PortBytes(f, p), First(f, p), id, 0);
    WireSeenL4(h, key, nonce1, Eth(f), Ip(f, p), PortBytes(f, p), Second(f, p), id, 1);
  }

  /** With its table untouched layer 3 hands a packet on as it is, or makes it shorter. */
  lemma OnlyShorterL3(h: Receiver, t: seq<Entry>, p: bytes, now: uint64)
    requires TableInv(t, now) && StageL3(h, t, p, now).0 == t && StageL3(h, t, p, now).1.Passed?
    ensures var q := StageL3(h, t, p, now).1.packet; if PlainL3(h, p) then q == p else |q| < |p|
  {
    hide PolicyL3, FragmentL3, Reassembled, TableInv, Layer3.Decrypt;
    var wireId := PolicyL3(h, p);
    if wireId.Some? {
      ReassembledDiffers(L3, h.env, h.l3, t, wireId.value, p, now);
    }
  }

  lemma OnlyShorterL4(h: Receiver, t: seq<Entry>, p: bytes, now: uint64)
    requires TableInv(t, now) && StageL4(h, t, p, now).0 == t && StageL4(h, t, p, now).1.Passed?
    ensures var q := StageL4(h, t, p, now).1.packet; if PolicyL4(h, p) == None then q == p else |q| < |p|
  {
    hide PolicyL4, FragmentL4, Reassembled, TableInv, Layer4.Decrypt;
    FragmentHasPolicyL4(h, p);
    var wireId := PolicyL4(h, p);
    if wireId.Some? {
      ReassembledDiffers(L4, h.env, h.l4, t, wireId.value, p, now);
    }
  }

  /** Layers 3 and 4 leave packet and tables alone exactly when neither takes the packet for one of its own. */
  lemma UntouchedFromL3(h: Receiver, ts: Tables, p: bytes, now: uint64)
    requires TablesInv(ts, now)
    ensures FromL3(h, ts, p, now) == (ts, Passed(p)) <==> PlainL3(h, p) && PolicyL4(h, p) == None
  {
    hide TableInv, StageL3, StageL4, PlainL3, PolicyL4;
    UntouchedL3(h, ts.l3, p, now);
    UntouchedL4(h, ts.l4, p, now);
    var (t, v) := StageL3(h, ts.l3, p, now);
    if FromL3(h, ts, p, now) == (ts, Passed(p)) {
      OnlyShorterL3(h, ts.l3, p, now);
      OnlyShorterL4(h, ts.l4, v.packet, now);
    }
  }

  /**
   * The same for layer 2: the frame is handed on with the tables of layers 3 and 4 untouched if and only if layer 2
   * restores it and neither of the others takes it for one of its own.
   */
  lemma ArrivesL2(h: Receiver, nonce0: Nonce, nonce1: Nonce, id: uint16, f: bytes, max0: nat, max1: nat, swapped: bool,
                  ts: Tables, evs: seq<Event>, others: Tables, start: uint64, end: uint64)
    requires Knows(h, ENCRYPT_L2, h.l2) && NeedSplitL2(h.env.mode, |f|)
    requires SplitL2(h.env, h.l2[h.env.policyId].current, nonce0, nonce1, id, f, max0, max1).Some?
    requires TablesInv(ts, start) && TablesInv(others, end) && Undisturbed(L2, ts.l2, id, evs, start, end)
    ensures var keys := h.l2[h.env.policyId];
            var w := SplitL2(h.env, keys.current, nonce0, nonce1, id, f, max0, max1).value;
            var (a, b) := if swapped then (w.1, w.0) else (w.0, w.1);
            var t2 := TableBefore(L2, h.env, keys, ts.l2, a, evs, start);
            var ts2, second := others.(l2 := t2), |f| + Layer2.FragMetaLen(h.env.mode) - MTU;
            var ok := Version4(f) && 20 <= second <= HALF_MAX && OnTheWay(ts.l2, t2, id, start, end);
            |a| >= 16 && |b| >= 16 && TablesInv(ts2, end)
            && var r, r2 := DecryptWan(h, ts, a, start), DecryptWan(h, ts2, b, end);
               r.0 == ts.(l2 := Receive(L2, h.env, keys, ts.l2, a, start).0) && !r.1.Passed?
               && (r2.1 == Passed(f) && r2.0.l3 == others.l3 && r2.0.l4 == others.l4
                   <==> ok && PlainL3(h, f) && PolicyL4(h, f) == None)
  {
    var keys := h.l2[h.env.policyId];
    var w := SplitL2(h.env, keys.current, nonce0, nonce1, id, f, max0, max1).value;
    var (a, b) := if swapped then (w.1, w.0) else (w.0, w.1);
    SplitSeenL2(h, keys.current, nonce0, nonce1, id, f, max0, max1);
    RestoredL2(h.env, keys, nonce0, nonce1, id, f, max0, max1, swapped, ts.l2, evs, start, end);
    TableLater(L2, h.env, keys, ts.l2, a, evs, id, start, end);
    var ts2 := others.(l2 := TableBefore(L2, h.env, keys, ts.l2, a, evs, start));
    hide SplitL2, NeedSplitL2, SeenL2, Receive, OnTheWay, Undisturbed;
    hide PlainL3, PolicyL4, FromL3, DecryptWan, TableInv, Finish;
    RouteL2(h, ts, a, start);
    RouteL2(h, ts2, b, end);
    var r := Receive(L2, h.env, keys, ts2.l2, b, end);
    FromKeepsL2(h, ts2.(l2 := r.0), f, end);
    UntouchedFromL3(h, ts2.(l2 := r.0), f, end);
  }

  lemma FromKeepsL2(h: Receiver, ts: Tables, p: bytes, now: uint64)
    requires TablesInv(ts, now)
    ensures FromL3(h, ts, p, now).0.l2 == ts.l2
  {
    hide TableInv, StageL3, StageL4;
  }

  lemma SplitSeenL2(h: Receiver, key: Key, nonce0: Nonce, nonce1: Nonce, id: uint16, f: bytes, max0: nat, max1: nat)
    requires Knows(h, ENCRYPT_L2, h.l2) && SplitL2(h.env, key, nonce0, nonce1, id, f, max0, max1).Some?
    ensures var w := SplitL2(h.env, key, nonce0, nonce1, id, f, max0, max1).value; SeenL2(h, w.0) && SeenL2(h, w.1)
  {
    var p := PlanL2(h.env.mode, f).value;
    hide PlanL2, RequireIpv4, Layer2.FragWire, SeenL2, Knows;
    WireSeenL2(h, key, nonce0, f[..Layer2.MAC_LEN], First(f, p), id, 0);
    WireSeenL2(h, key, nonce1, f[..Layer2.MAC_LEN], Second(f, p), id, 1);
  }

  /* Whole packets */

  /** An IPv4 packet in clear is handed on untouched exactly when neither layer takes it for one of its own. */
  lemma ArrivesInClear(h: Receiver, ts: Tables, p: bytes, now: uint64)
    requires TablesInv(ts, now) && |p| >= 16 && EtherType(p) == 0x0800 && h.env.fakeEther != 0x0800
    ensures DecryptWan(h, ts, p, now) == (ts, Passed(p)) <==> PlainL3(h, p) && PolicyL4(h, p) == None
  {
    UntouchedFromL3(h, ts, p, now);
    hide FromL3, PlainL3, PolicyL4, TableInv;
  }

  /** What the tests see of a packet that layer 3 has encrypted. */
  lemma WholeSeenL3(h: Receiver, keys: Keys, nonce: Nonce, p: bytes)
    requires RequireIpv4(p) > 0 && !Layer3.LooksFragmented(p, ETH_LEN + RequireIpv4(p))
    requires |p| + Layer3.Overhead(h.env.mode) <= ONES
    requires Knows(h, ENCRYPT_L3, h.l3) && Layer3.Encrypt(h.env, keys.current, nonce, p).Some?
    ensures var w, t := Layer3.Encrypt(h.env, keys.current, nonce, p).value, ETH_LEN + RequireIpv4(p);
            |w| == |p| + Layer3.Overhead(h.env.mode) && EtherType(w) == 0x0800
            && PolicyL3(h, w) == Some(h.env.policyId)
            && (p[23] != Layer3.FRAG_MAGIC ==> FragmentL3(h.env, h.policies, w) == None && Layer3.DecryptGuard(h.env, w) == Go(t))
  {
    hide Layer3.Encrypt, Layer3.LooksFragmented, RequireIpv4, PolicyL3, FragmentL3, Layer3.DecryptGuard, Configured;
    hide Layer3.SingleWire, Layer3.OuterIp, SealWith, OpenWith, Layer3.OpenSingle, Layer3.Restored, EtherType, HeaderLen;
    var t := ETH_LEN + RequireIpv4(p);
    Layer3.EncryptsTo(h.env, keys.current, nonce, p);
    Layer3.HeaderBytes(p, t);
    Layer3.SingleWireParses(h.env, keys.current, nonce, p[..ETH_LEN], p[ETH_LEN..t], p[t..]);
    Layer3.WireOpens(h.env, keys, nonce, p[..ETH_LEN], p[ETH_LEN..t], p[t..]);
    FieldsL3(h, Layer3.Encrypt(h.env, keys.current, nonce, p).value, t);
  }

  /** A packet with the fake protocol and the policy's number. */
  lemma FieldsL3(h: Receiver, w: bytes, t: nat)
    requires RequireIpv4(w) >= 0 && t == ETH_LEN + RequireIpv4(w) && t + TUNNEL_LEN <= |w| && w[23] == h.env.fakeProto
    requires w[t + 12] == h.env.policyId && Knows(h, ENCRYPT_L3, h.l3)
    ensures PolicyL3(h, w) == Some(h.env.policyId)
    ensures w[t + 13] != Layer3.FRAG_MAGIC ==> FragmentL3(h.env, h.policies, w) == None
  {
    hide RequireIpv4, Configured;
  }

  lemma OpenedSizeL3(env: Settings, keys: Keys, w: bytes, t: nat)
    requires 34 <= t <= 74 && t + TUNNEL_LEN <= |w| <= ONES && Layer3.DecryptGuard(env, w) == Go(t)
    ensures Layer3.Decrypt(env, keys, w).Some? ==> |Layer3.Decrypt(env, keys, w).value| + Layer3.Overhead(env.mode) == |w|
  {
    hide OpenWith, Layer3.Restored, Layer3.InnerTotal, Layer3.DecryptGuard;
  }

  /** Layer 3 tries to open a packet it has encrypted, unless the protocol is the fragment magic. */
  lemma StageOfWholeL3(h: Receiver, nonce: Nonce, p: bytes, t: seq<Entry>, now: uint64)
    requires Knows(h, ENCRYPT_L3, h.l3) && TableInv(t, now) && RequireIpv4(p) > 0
    requires !Layer3.LooksFragmented(p, ETH_LEN + RequireIpv4(p)) && |p| + Layer3.Overhead(h.env.mode) <= ONES
    requires Layer3.Encrypt(h.env, h.l3[h.env.policyId].current, nonce, p).Some?
    ensures var keys := h.l3[h.env.policyId];
            var w := Layer3.Encrypt(h.env, keys.current, nonce, p).value;
            var r, d := StageL3(h, t, w, now), Layer3.Decrypt(h.env, keys, w);
            if p[23] == Layer3.FRAG_MAGIC then !(r.1.Passed? && r.0 == t)
            else r == (t, if d.Some? then Passed(d.value) else Dropped) && (d.Some? ==> |d.value| == |p|)
  {
    var keys := h.l3[h.env.policyId];
    var w := Layer3.Encrypt(h.env, keys.current, nonce, p).value;
    WholeSeenL3(h, keys, nonce, p);
    Layer3.RoundTrip(h.env, keys, nonce, p);
    hide PolicyL3, FragmentL3, Reassembled, TableInv, Layer3.Decrypt, Layer3.Encrypt, Layer3.LooksFragmented, RequireIpv4;
    if p[23] == Layer3.FRAG_MAGIC {
      ReassembledDiffers(L3, h.env, h.l3, t, h.env.policyId, w, now);
    } else {
      OpenedSizeL3(h.env, keys, w, ETH_LEN + RequireIpv4(p));
    }
  }

  /**
   * A packet encrypted at layer 3 is handed on, checksums recomputed, exactly when layer 3 recovers it and layer
   * 4 finds no policy in it.
   */
  lemma WholeArrivesL3(h: Receiver, nonce: Nonce, p: bytes, ts: Tables, now: uint64)
    requires Knows(h, ENCRYPT_L3, h.l3) && TablesInv(ts, now) && RequireIpv4(p) > 0
    requires !Layer3.LooksFragmented(p, ETH_LEN + RequireIpv4(p)) && |p| + Layer3.Overhead(h.env.mode) <= ONES
    requires Layer3.Encrypt(h.env, h.l3[h.env.policyId].current, nonce, p).Some?
    ensures var w, t := Layer3.Encrypt(h.env, h.l3[h.env.policyId].current, nonce, p).value, ETH_LEN + RequireIpv4(p);
            |w| >= 16
            && (DecryptWan(h, ts, w, now) == (ts, Passed(Layer3.Normalised(p)))
                <==> p[23] != Layer3.FRAG_MAGIC && (h.env.mode.Ctr? ==> Plausible(Ports(p[23]), p[t..]))
                     && PolicyL4(h, Layer3.Normalised(p)) == None)
  {
    hide PolicyL3, PolicyL4, FragmentL3, Reassembled, TableInv, StageL3, StageL4, EtherType, Configured;
    hide Layer3.Decrypt, Layer3.Encrypt, Layer3.LooksFragmented, RequireIpv4, Layer3.Normalised, Plausible, Layer2.Decrypt;
    var keys := h.l3[h.env.policyId];
    var w := Layer3.Encrypt(h.env, keys.current, nonce, p).value;
    WholeSeenL3(h, keys, nonce, p);
    StageOfWholeL3(h, nonce, p, ts.l3, now);
    Layer3.RoundTrip(h.env, keys, nonce, p);
    Layer3.NormalisedKeeps(p, 0);
    var (t, v) := StageL3(h, ts.l3, w, now);
    if v.Passed? && t == ts.l3 {
      UntouchedL4(h, ts.l4, v.packet, now);
      if StageL4(h, ts.l4, v.packet, now) == (ts.l4, Passed(Layer3.Normalised(p))) {
        OnlyShorterL4(h, ts.l4, v.packet, now);
      }
    }
  }

  /**
   * A packet encrypted at layer 4 is handed on as its fixup, but one behind VLAN tags is dropped: layer 2 lets
   * only plain IPv4 through.
   */
  lemma WholeArrivesL4(h: Receiver, nonce: Nonce, p: bytes, ts: Tables, now: uint64)
    requires Knows(h, ENCRYPT_L4, h.l4) && TablesInv(ts, now) && Layer4.HeaderFits(p) && Layer4.EncryptGuard(p).Go?
    requires |p| + Layer4.Overhead(h.env.mode) <= ONES && (h.env.mode.Pqc? || nonce[0] < 0x80)
    ensures var w := Layer4.Encrypt(h.env, h.l4[h.env.policyId].current, nonce, p);
            w.Some? && |w.value| >= 16 && Fixup(p).Some?
            && (EtherType(p) == 0x0800 ==> DecryptWan(h, ts, w.value, now) == (ts, Passed(Fixup(p).value)))
            && (EtherType(p) != 0x0800 && EtherType(p) != h.env.fakeEther ==> DecryptWan(h, ts, w.value, now) == (ts, Dropped))
  {
    hide Layer4.Encrypt, Layer4.Decrypt, Layer4.EncryptGuard, Layer4.HeaderFits, Fixup;
    hide TableInv, PlainL3, PolicyL4, FragmentL2, FragmentL4;
    var keys := h.l4[h.env.policyId];
    Layer4.EncryptedParses(h.env, keys.current, nonce, p);
    Layer4.RoundTrip(h.env, keys, nonce, p);
    var w := Layer4.Encrypt(h.env, keys.current, nonce, p).value;
    WholeSeenL4(h, keys.current, nonce, p);
    hide Layer2.Decrypt, Knows;
    UntouchedL3(h, ts.l3, w, now);
    hide StageL3;
  }

  lemma WholeSeenL4(h: Receiver, key: Key, nonce: Nonce, p: bytes)
    requires Knows(h, ENCRYPT_L4, h.l4) && Layer4.HeaderFits(p) && Layer4.EncryptGuard(p).Go?
    requires |p| + Layer4.Overhead(h.env.mode) <= ONES && (h.env.mode.Pqc? || nonce[0] < 0x80)
    ensures var w := Layer4.Encrypt(h.env, key, nonce, p);
            w.Some? && |w.value| >= 16 && |w.value| > |p| >= ETH_LEN && EtherType(w.value) == EtherType(p)
            && PolicyL4(h, w.value) == Some(h.env.policyId)
            && (EtherType(p) == 0x0800 ==> PlainL3(h, w.value) && FragmentL4(h.policies, w.value) == None)
            && (EtherType(p) != h.env.fakeEther ==> FragmentL2(h.env, h.policies, w.value) == None)
            && (Fixup(p).Some? ==> |Fixup(p).value| == |p|)
  {
    hide Configured, Layer4.Encrypt, FixedAt;
    Layer4.EncryptedParses(h.env, key, nonce, p);
    var w := Layer4.Encrypt(h.env, key, nonce, p).value;
    var off := Layer4.EncryptGuard(p).off;
    assert w[12] == w[..off][12] && w[13] == w[..off][13];
    hide Layer4.EncryptGuard, Layer4.HeaderFits;
  }

  /**
   * A packet encrypted at layer 2 is handed on exactly when layer 2 recovers it and neither of the others takes
   * it for one of its own.
   */
  lemma WholeArrivesL2(h: Receiver, nonce: Nonce, p: bytes, ts: Tables, now: uint64)
    requires Knows(h, ENCRYPT_L2, h.l2) && TablesInv(ts, now) && |p| >= 22 && EtherType(p) == 0x0800 && h.env.fakeEther != 0
    ensures var w := Layer2.Encrypt(h.env, h.l2[h.env.policyId].current, nonce, p);
            w.Some? && |w.value| >= 16
            && (DecryptWan(h, ts, w.value, now) == (ts, Passed(p))
                <==> !Layer2.HasFragMarker(h.env, w.value) && (h.env.mode.Ctr? ==> Plausible(Ipv4Header, p[ETH_LEN..]))
                     && !(p[14] == 8 && p[15] == 0) && PlainL3(h, p) && PolicyL4(h, p) == None)
  {
    hide Layer2.Encrypt, Layer2.Decrypt, Layer2.HasFragMarker, Plausible, TableInv, PlainL3, PolicyL4, Reassembled, FromL3;
    var keys := h.l2[h.env.policyId];
    Layer2.RoundTrip(h.env, keys, nonce, p);
    WholeSeenL2(h, keys.current, nonce, p);
    var w := Layer2.Encrypt(h.env, keys.current, nonce, p).value;
    ReassembledDiffers(L2, h.env, h.l2, ts.l2, h.env.policyId, w, now);
    UntouchedFromL3(h, ts, p, now);
    var (t, v) := StageL2(h, ts.l2, w, now);
    if v.Passed? {
      FromKeepsL2(h, ts.(l2 := t), v.packet, now);
      FromL3Shrinks(h, ts.(l2 := t), v.packet, now);
    }
  }

  lemma FromL3Shrinks(h: Receiver, ts: Tables, p: bytes, now: uint64)
    requires TablesInv(ts, now)
    ensures var r := FromL3(h, ts, p, now); r.0 == ts && r.1.Passed? ==> |r.1.packet| <= |p|
  {
    hide TableInv, StageL3, StageL4, PlainL3, PolicyL4;
    var (t, v) := StageL3(h, ts.l3, p, now);
    if FromL3(h, ts, p, now).0 == ts && FromL3(h, ts, p, now).1.Passed? {
      OnlyShorterL3(h, ts.l3, p, now);
      OnlyShorterL4(h, ts.l4, v.packet, now);
    }
  }

  lemma WholeSeenL2(h: Receiver, key: Key, nonce: Nonce, p: bytes)
    requires |p| >= 22 && EtherType(p) == 0x0800 && h.env.fakeEther != 0
    ensures var w := Layer2.Encrypt(h.env, key, nonce, p);
            w.Some? && |w.value| >= 16 && Layer2.HasFakeEther(h.env, w.value) && w.value[14] == h.env.policyId
            && (!Layer2.HasFragMarker(h.env, w.value) ==> FragmentL2(h.env, h.policies, w.value) == None)
  {
    hide SealWith, Layer2.HasFragMarker, Configured;
    U16HiLo(h.env.fakeEther);
  }
}
