/**
 * The receiving end of `src/core/fragment.c`: what each layer admits to its table, and the packet that
 * comes out.  The main results: which split frames are restored, in either arrival order.
 */
module Reassembly {
  import opened Bytes
  import opened Checksum
  import opened Ipv4
  import opened FragTable
  import opened FragRuns
  import opened Delivery
  import Layer4

  datatype Layer = L2 | L3 | L4

  function KindOf(layer: Layer): Kind { if layer.L2? then Probing else Direct }

  /** An IPv4 header of version 4 whose claimed length is there. */
  predicate InnerIpv4(inner: bytes) {
    |inner| >= 20 && inner[0] as nat / 16 == 4 && 20 <= HeaderLen(inner[0]) <= |inner|
  }

  /** What a layer makes of a decrypted fragment: refused, an empty second half (layer 4), or a half for the table. */
  datatype Admission = Refused | Emptied | Admitted(half: Half)

  function AdmitL2(pkt: bytes, index: uint8): Admission {
    if |pkt| < 34 || index > 1 then Refused
    else if index == 1 then Admitted(SecondHalf(pkt[ETH_LEN..]))
    else if InnerIpv4(pkt[ETH_LEN..]) then Admitted(FirstHalf(pkt[..ETH_LEN], pkt[ETH_LEN..]))
    else Refused
  }

  function AdmitL3(pkt: bytes, index: uint8): Admission {
    var ihl := RequireIpv4(pkt);
    if ihl < 0 || index > 1 then Refused
    else if index == 1 then Admitted(SecondHalf(pkt[ETH_LEN + ihl..]))
    else if InnerIpv4(pkt[ETH_LEN + ihl..]) then Admitted(FirstHalf(pkt[..ETH_LEN], pkt[ETH_LEN + ihl..]))
    else Refused
  }

  /** The header of a decrypted layer-4 fragment lies inside it: `Layer4.DecryptFragment` has checked that. */
  predicate HeaderInside(pkt: bytes) {
    |pkt| >= 34 && EtherType(pkt) == 0x0800 ==> ETH_LEN + HeaderLen(pkt[14]) <= |pkt|
  }

  function AdmitL4(pkt: bytes, index: uint8): Admission
    requires HeaderInside(pkt)
  {
    if |pkt| < 34 || EtherType(pkt) != 0x0800 || index > 1 then Refused
    else
      var from := ETH_LEN + HeaderLen(pkt[14]) + Layer4.PORT_LEN;
      if from >= |pkt| then (if index == 1 then Emptied else Refused)
      else
        var plain := pkt[from..];
        if index == 1 then Admitted(SecondHalf(plain))
        else if InnerIpv4(plain) && |plain| >= HeaderLen(plain[0]) + 8 && (plain[9] == TCP || plain[9] == UDP) then
          Admitted(FirstHalf(pkt[..ETH_LEN], plain))
        else Refused
  }

  function Admit(layer: Layer, pkt: bytes, index: uint8): Admission
    requires layer.L4? ==> HeaderInside(pkt)
  {
    match layer
    case L2 => AdmitL2(pkt, index)
    case L3 => AdmitL3(pkt, index)
    case L4 => AdmitL4(pkt, index)
  }

  /** Layer 2 puts the ethertype back; layer 4 fixes lengths and checksums up, ignoring an error. */
  function Finish(layer: Layer, p: bytes): (r: bytes)
    requires ETH_LEN <= |p| <= ONES
    ensures |r| == |p|
  {
    match layer
    case L2 => p[12 := 8][13 := 0]
    case L3 => p
    case L4 => match Fixup(p) case None => p case Some(q) => q
  }

  /** A call with what was admitted. */
  function OfferTo(kind: Kind, t: seq<Entry>, id: uint16, a: Admission, now: uint64): (r: (seq<Entry>, Outcome))
    requires |t| == SIZE
    ensures |r.0| == SIZE
  {
    match a
    case Refused => (t, Rejected)
    case Emptied => (ClearedAt(t, id, now), Rejected)
    case Admitted(h) => Next(kind, t, Offer(id, h, now))
  }

  lemma JoinedFits(kind: Kind, t: seq<Entry>, id: uint16, half: Half, now: uint64)
    requires TableInv(t, now) && WellFormed(Offer(id, half, now))
    ensures Next(kind, t, Offer(id, half, now)).1.Joined?
            ==> ETH_LEN <= |Next(kind, t, Offer(id, half, now)).1.packet| <= OUT_MAX
  {
    var slot := SlotFor(kind, t, id, now);
    if slot.Some? {
      PutMeaning(t[slot.value], id, half, now);
    }
    hide Put, SlotFor;
  }

  lemma AdmittedEth(layer: Layer, pkt: bytes, index: uint8, now: uint64, id: uint16)
    requires layer.L4? ==> HeaderInside(pkt)
    ensures Admit(layer, pkt, index).Admitted? ==> WellFormed(Offer(id, Admit(layer, pkt, index).half, now))
  {
  }

  /** frag_try_reassemble, frag_try_reassemble_l2 and frag_try_reassemble_l4. */
  method TryReassemble(layer: Layer, ft: Table, pkt: array<uint8>, len: nat, id: uint16, index: uint8, now: uint64,
                       out: array<uint8>) returns (rc: int, outLen: nat)
    requires len <= pkt.Length && out.Length >= OUT_MAX && TableInv(ft.entries[..], now)
    requires layer.L4? ==> HeaderInside(pkt[..len])
    modifies ft.entries, out
    ensures var r := OfferTo(KindOf(layer), old(ft.entries[..]), id, Admit(layer, old(pkt[..len]), index), now);
            ft.entries[..] == r.0
            && (r.1 == Pending ==> rc == 0) && (r.1 == Rejected ==> rc == -1)
            && (r.1.Joined? ==> rc == 1 && ETH_LEN <= |r.1.packet| <= OUT_MAX
                                && outLen == |r.1.packet| && out[..outLen] == Finish(layer, r.1.packet))
  {
    rc, outLen := -1, 0;
    var a := Admit(layer, pkt[..len], index);
    AdmittedEth(layer, pkt[..len], index, now, id);
    hide Admit, Next, Finish, TableInv, ClearedAt;
    if a == Refused { return; }
    if a == Emptied {
      ft.Clear(id, now);
      return;
    }
    JoinedFits(KindOf(layer), ft.entries[..], id, a.half, now);
    var outcome := ft.OfferHalf(KindOf(layer), id, a.half, now);
    match outcome
    case Rejected =>
    case Pending => rc := 0;
    case Joined(p) =>
      Emit(layer, out, p);
      rc, outLen := 1, |p|;
  }

  method Emit(layer: Layer, out: array<uint8>, p: bytes)
    requires out.Length >= OUT_MAX && ETH_LEN <= |p| <= OUT_MAX
    modifies out
    ensures out[..|p|] == Finish(layer, p)
  {
    hide Splice, Fixup;
    ghost var before := out[..];
    Write(out, 0, p);
    SpliceFront(before, p);
    match layer
    case L2 => out[12], out[13] := 8, 0;
    case L3 =>
    case L4 =>
      ghost var joined := out[..];
      var ok := FixupPacket(out, |p|);
      if ok {
        SpliceFront(joined, Fixup(p).value);
      }
  }

  /* Two halves of one packet */

  /** A table without a live half under the id: what 16-bit ids that wrap around must leave true. */
  predicate Ready(t: seq<Entry>, id: uint16, now: uint64) { TableInv(t, now) && FreshId(t, id, now) }

  predicate Storable(a: Admission) { a.Admitted? && |a.half.data| <= HALF_MAX }

  predicate GoodHalf(a: Admission) { a.Admitted? && a.half.FirstHalf? ==> |a.half.eth| == ETH }

  /** What the two calls for one packet answer, with other calls in between. */
  function TwoCalls(kind: Kind, t: seq<Entry>, id: uint16, a: Admission, evs: seq<Event>, b: Admission,
                    start: uint64, end: uint64): (Outcome, Outcome)
    requires |t| == SIZE
  {
    var r := OfferTo(kind, t, id, a, start);
    (r.1, OfferTo(kind, After(kind, r.0, evs), id, b, end).1)
  }

  /**
   * The two calls for one packet complete it exactly when both halves were admitted and fit their
   * buffers and the second one still finds the first; the packet is then the two halves joined.
   */
  lemma TwoCallsComplete(kind: Kind, t: seq<Entry>, id: uint16, a: Admission, evs: seq<Event>, b: Admission,
                         start: uint64, end: uint64)
    requires Ready(t, id, start) && start <= end <= start + TIMEOUT && Between(evs, id, start, end)
    requires GoodHalf(a) && GoodHalf(b) && (a.Admitted? && b.Admitted? ==> a.half.FirstHalf? != b.half.FirstHalf?)
    ensures var r, t2 := TwoCalls(kind, t, id, a, evs, b, start, end), After(kind, OfferTo(kind, t, id, a, start).0, evs);
            !r.0.Joined?
            && (r.1.Joined? <==> Storable(a) && Storable(b) && StillFound(kind, t, t2, id, evs, start, end))
            && (r.1.Joined? ==> r.1 == Joined(Combine(a.half, b.half)))
  {
    assert |t| == SIZE;
    hide TableInv, FreshBut, Next, After, StillFound;
    if Storable(a) && Storable(b) {
      DeliveredIff(kind, t, id, a.half, evs, b.half, start, end);
    } else if Storable(a) {
      FreshNeverJoins(kind, t, id, a.half, start);
      if b.Admitted? {
        TooLongRejected(kind, After(kind, Next(kind, t, Offer(id, a.half, start)).0, evs), id, b.half, end);
      }
    } else {
      var r := OfferTo(kind, t, id, a, start);
      NotStorable(kind, t, id, a, start);
      hide ClearedAt;
      FreshAfter(kind, r.0, evs, id, start, end, SIZE);
      if b.Admitted? {
        FreshNeverJoins(kind, After(kind, r.0, evs), id, b.half, end);
      }
    }
  }

  /** A call that cannot store its half leaves no half of its id behind. */
  lemma NotStorable(kind: Kind, t: seq<Entry>, id: uint16, a: Admission, now: uint64)
    requires TableInv(t, now) && FreshId(t, id, now) && GoodHalf(a) && !Storable(a)
    ensures var r := OfferTo(kind, t, id, a, now); TableInv(r.0, now) && FreshId(r.0, id, now) && !r.1.Joined?
  {
    match a
    case Refused =>
    case Emptied =>
      ClearedKeepsInv(t, id, now);
      hide TableInv;
    case Admitted(h) =>
      FreshNeverJoins(kind, t, id, h, now);
      NextKeepsInv(kind, t, Offer(id, h, now));
      hide Next, TableInv, FreshId;
  }

}
