/**
 * Sender and receiver together: a frame is split and encrypted, the two fragments arrive in either order
 * among other traffic, are decrypted (`src/core/dataplane_wan.c`) and joined.
 */
module EndToEnd {
  import opened Bytes
  import opened Modular
  import opened Checksum
  import opened Ipv4
  import opened Cipher
  import opened Wire
  import opened FragTable
  import opened FragRuns
  import opened Delivery
  import opened Split
  import opened Reassembly
  import opened Dispatch
  import Layer2
  import Layer3
  import Layer4

  function DecryptedAt(layer: Layer, env: Settings, keys: Keys, w: bytes): Option<Opened> {
    match layer
    case L2 => Layer2.DecryptFragment(env, keys, w)
    case L3 => Layer3.DecryptFragment(env, keys, w)
    case L4 => Layer4.DecryptFragment(env, keys, w)
  }

  /** What a wire fragment is to the table: the half it carries, if it decrypts and is admitted. */
  datatype Arrival = Lost | Empty(id: uint16) | Arrived(id: uint16, half: Half)

  function Read(layer: Layer, env: Settings, keys: Keys, w: bytes): Arrival {
    match DecryptedAt(layer, env, keys, w)
    case None => Lost
    case Some(o) =>
      DecryptedHeaderInside(env, keys, w);
      match Admit(layer, o.packet, o.index)
      case Refused => Lost
      case Emptied => Empty(o.id)
      case Admitted(half) => Arrived(o.id, half)
  }

  lemma DecryptedHeaderInside(env: Settings, keys: Keys, w: bytes)
    ensures Layer4.DecryptFragment(env, keys, w).Some? ==> HeaderInside(Layer4.DecryptFragment(env, keys, w).value.packet)
  {
    var g := Layer4.FragGuard(env, w);
    hide OpenWith;
    if g.Go? && OpenFragment(env, keys, w, g.off).Some? {
      var p := OpenFragment(env, keys, w, g.off).value.packet;
      assert p[..g.off] == w[..g.off];
      assert forall i :: 0 <= i < g.off ==> p[i] == p[..g.off][i] && w[i] == w[..g.off][i];
    }
  }

  /** reassemble_l2, reassemble_l3 and reassemble_l4: one wire fragment of a profile. */
  function Receive(layer: Layer, env: Settings, keys: Keys, t: seq<Entry>, w: bytes, now: uint64): (r: (seq<Entry>,
                   Outcome))
    requires |t| == SIZE
    ensures |r.0| == SIZE
  {
    match Read(layer, env, keys, w)
    case Lost => (t, Rejected)
    case Empty(id) => (ClearedAt(t, id, now), Rejected)
    case Arrived(id, half) => Next(KindOf(layer), t, Offer(id, half, now))
  }

  /**
   * The same in the packet's frame, with the packet joined in a buffer of its own and copied back.  The
   * frame must be long enough for it; that of a sender's packet is, by `RestoredL3` and the like.
   */
  method ReceiveInPlace(layer: Layer, env: Settings, keys: Keys, ft: Table, pkt: array<uint8>, len: nat, now: uint64)
    returns (rc: int, outLen: nat)
    requires len <= pkt.Length && TableInv(ft.entries[..], now)
    requires var r := Receive(layer, env, keys, ft.entries[..], pkt[..len], now); r.1.Joined? ==> |r.1.packet| <= pkt.Length
    modifies pkt, ft.entries
    ensures var r := Receive(layer, env, keys, old(ft.entries[..]), old(pkt[..len]), now);
            ft.entries[..] == r.0
            && (r.1 == Pending ==> rc == 0) && (r.1 == Rejected ==> rc == -1)
            && (r.1.Joined? ==> rc == 1 && ETH_LEN <= |r.1.packet| <= OUT_MAX
                                && outLen == |r.1.packet| && pkt[..outLen] == Finish(layer, r.1.packet))
  {
    hide Layer2.DecryptFragment, Layer3.DecryptFragment, Layer4.DecryptFragment, Admit, Next;
    hide ClearedAt, Finish, TableInv, HeaderInside;
    DecryptedHeaderInside(env, keys, pkt[..len]);
    var n, id, index := DecryptInPlace(layer, env, keys, pkt, len);
    rc, outLen := -1, 0;
    if n >= 0 {
      var buf := new uint8[OUT_MAX];
      rc, outLen := TryReassemble(layer, ft, pkt, n, id, index, now, buf);
      if rc == 1 {
        CopyBack(pkt, buf, outLen);
      }
    }
  }

  method CopyBack(pkt: array<uint8>, buf: array<uint8>, n: nat)
    requires n <= pkt.Length && n <= buf.Length && pkt != buf
    modifies pkt
    ensures pkt[..n] == buf[..n]
  {
    ghost var s, x := pkt[..], buf[0..n];
    Move(pkt, 0, buf, 0, n);
    SpliceFront(s, x);
  }

  method DecryptInPlace(layer: Layer, env: Settings, keys: Keys, pkt: array<uint8>, len: nat)
    returns (n: int, id: uint16, index: uint8)
    requires len <= pkt.Length
    modifies pkt
    ensures match DecryptedAt(layer, env, keys, old(pkt[..len]))
            case None => n == -1
            case Some(o) => n == |o.packet| && n <= len && pkt[..n] == o.packet && id == o.id && index == o.index
  {
    hide Layer2.DecryptFragment, Layer3.DecryptFragment, Layer4.DecryptFragment;
    match layer
    case L2 => n, id, index := Layer2.DecryptFragmentInPlace(env, keys, pkt, len);
    case L3 => n, id, index := Layer3.DecryptFragmentInPlace(env, keys, pkt, len);
    case L4 => n, id, index := Layer4.DecryptFragmentInPlace(env, keys, pkt, len);
  }

  /** The answers to two fragments with other calls in between. */
  function ReceiveTwo(layer: Layer, env: Settings, keys: Keys, t: seq<Entry>, a: bytes, evs: seq<Event>, b: bytes,
                      start: uint64, end: uint64): (Outcome, Outcome)
    requires |t| == SIZE
  {
    var r := Receive(layer, env, keys, t, a, start);
    (r.1, Receive(layer, env, keys, After(KindOf(layer), r.0, evs), b, end).1)
  }

  /** An arrival without its id; that of a lost one does not matter. */
  function AdmissionOf(x: Arrival): Admission {
    match x case Lost => Refused case Empty(_) => Emptied case Arrived(_, half) => Admitted(half)
  }

  predicate ForId(x: Arrival, id: uint16) { !x.Lost? ==> x.id == id }

  /** The table that the second of two fragments finds. */
  function TableBefore(layer: Layer, env: Settings, keys: Keys, t: seq<Entry>, a: bytes, evs: seq<Event>,
                       start: uint64): (r: seq<Entry>)
    requires |t| == SIZE
    ensures |r| == SIZE
  {
    After(KindOf(layer), Receive(layer, env, keys, t, a, start).0, evs)
  }

  /** What must hold of the two arrivals: the table is ready, the timeout is kept, and other traffic has other ids. */
  predicate Undisturbed(layer: Layer, t: seq<Entry>, id: uint16, evs: seq<Event>, start: uint64, end: uint64) {
    Ready(t, id, start) && start <= end <= start + TIMEOUT && Between(evs, id, start, end)
  }

  /** Of two fragments of a packet, in either order, what the receiver makes. */
  lemma TwoArrive(layer: Layer, env: Settings, keys: Keys, id: uint16, t: seq<Entry>, a: bytes, evs: seq<Event>, b: bytes,
                  start: uint64, end: uint64)
    requires Undisturbed(layer, t, id, evs, start, end)
    requires ForId(Read(layer, env, keys, a), id) && ForId(Read(layer, env, keys, b), id)
    requires GoodHalf(AdmissionOf(Read(layer, env, keys, a))) && GoodHalf(AdmissionOf(Read(layer, env, keys, b)))
    requires var x, y := Read(layer, env, keys, a), Read(layer, env, keys, b);
             x.Arrived? && y.Arrived? ==> x.half.FirstHalf? != y.half.FirstHalf?
    ensures var x, y := AdmissionOf(Read(layer, env, keys, a)), AdmissionOf(Read(layer, env, keys, b));
            var r := ReceiveTwo(layer, env, keys, t, a, evs, b, start, end);
            var t2 := TableBefore(layer, env, keys, t, a, evs, start);
            !r.0.Joined?
            && (r.1.Joined? <==> Storable(x) && Storable(y) && StillFound(KindOf(layer), t, t2, id, evs, start, end))
            && (r.1.Joined? ==> r.1 == Joined(Combine(x.half, y.half)))
  {
    var x, y := AdmissionOf(Read(layer, env, keys, a)), AdmissionOf(Read(layer, env, keys, b));
    hide Read, Ready, Between, Next, After, StillFound;
    TwoCallsComplete(KindOf(layer), t, id, x, evs, y, start, end);
  }

  /* What the receiver reads from the sender's two fragments */

  predicate Version4(f: bytes) requires |f| > ETH_LEN { f[14] as nat / 16 == 4 }

  lemma PlannedFrame(f: bytes, p: Plan)
    requires RequireIpv4(f) == p.ihl && ETH_LEN + p.ihl <= p.cut < |f|
    ensures 20 <= p.ihl <= 60 && EtherType(Eth(f)) == 0x0800 && HeaderLen(Ip(f, p)[0]) == p.ihl
            && Ip(f, p)[0] == f[14] && Ip(f, p)[9] == f[23] && First(f, p)[0] == f[14] && First(f, p)[9] == f[23]
            && Eth(f) + First(f, p) + Second(f, p) == f && HeaderLen(f[14]) == p.ihl
  {
  }

  /** A layer-3 fragment is admitted as the half it carries; a first one only if its IP version is 4. */
  lemma ReadL3(env: Settings, keys: Keys, nonce: Nonce, eth: bytes, ip: bytes, plain: bytes, id: uint16, index: uint8)
    requires |eth| == ETH_LEN && EtherType(eth) == 0x0800 && |ip| >= 20 && HeaderLen(ip[0]) == |ip|
    requires |plain| > 0 && index <= 1
    ensures var w := Layer3.FragWire(env, keys.current, nonce, eth, ip, plain, id, index);
            Read(L3, env, keys, w)
            == (if index == 1 then Arrived(id, SecondHalf(plain))
                else if InnerIpv4(plain) then Arrived(id, FirstHalf(eth, plain)) else Lost)
  {
    hide Layer3.FragWire, Layer3.DecryptFragment, Layer2.DecryptFragment, Layer4.DecryptFragment, InnerIpv4;
    hide Layer3.OuterIp, RequireIpv4, EtherType, HeaderLen;
    Layer3.FragmentRoundTrip(env, keys, nonce, eth, ip, plain, id, index);
    var total := (|ip| + |plain| + Layer3.FragMetaLen(env.mode)) % 0x1_0000;
    Layer3.OuterIpParses(eth, ip, env.fakeProto, total, plain);
    WholeParts(eth, Layer3.OuterIp(ip, env.fakeProto, total), plain);
  }

  lemma WholeParts(a: bytes, b: bytes, c: bytes)
    ensures (a + b + c)[..|a|] == a && (a + b + c)[|a| + |b|..] == c
  {
  }

  /** The plan's halves are what arrives. */
  lemma HalvesL3(env: Settings, keys: Keys, nonce0: Nonce, nonce1: Nonce, id: uint16, f: bytes, max0: nat, max1: nat)
    requires SplitL3(env, keys.current, nonce0, nonce1, id, f, max0, max1).Some?
    ensures var w := SplitL3(env, keys.current, nonce0, nonce1, id, f, max0, max1).value;
            var p := PlanL3(env.mode, f).value;
            Read(L3, env, keys, w.0) == (if Version4(f) then Arrived(id, FirstHalf(Eth(f), First(f, p))) else Lost)
            && Read(L3, env, keys, w.1) == Arrived(id, SecondHalf(Second(f, p)))
  {
    var p := PlanL3(env.mode, f).value;
    hide PlanL3, RequireIpv4;
    PlannedFrame(f, p);
    hide Read, Layer3.FragWire, EtherType, HeaderLen;
    ReadL3(env, keys, nonce0, Eth(f), Ip(f, p), First(f, p), id, 0);
    ReadL3(env, keys, nonce1, Eth(f), Ip(f, p), Second(f, p), id, 1);
  }

  /**
   * Layer 3 restores a split frame exactly, in either arrival order, if and only if its IP version is 4,
   * its second half fits the table's buffers (which it does for every frame of at most 2048 bytes), and
   * no half of another packet takes its slot in between.
   */
  lemma RestoredL3(env: Settings, keys: Keys, nonce0: Nonce, nonce1: Nonce, id: uint16, f: bytes, max0: nat, max1: nat,
                   swapped: bool, t: seq<Entry>, evs: seq<Event>, start: uint64, end: uint64)
    requires NeedSplitL3(env.mode, |f|) && SplitL3(env, keys.current, nonce0, nonce1, id, f, max0, max1).Some?
    requires Undisturbed(L3, t, id, evs, start, end)
    ensures var w := SplitL3(env, keys.current, nonce0, nonce1, id, f, max0, max1).value;
            var (a, b) := if swapped then (w.1, w.0) else (w.0, w.1);
            var r := ReceiveTwo(L3, env, keys, t, a, evs, b, start, end);
            var ok := Version4(f) && |f| + HeaderLen(f[14]) + Layer3.FragMetaLen(env.mode) <= MTU + HALF_MAX;
            !r.0.Joined? && (r.1.Joined? <==> ok && Spared(evs, id)) && (r.1.Joined? ==> r.1 == Joined(f))
  {
    hide PlanL3, RequireIpv4, WiresL3, EtherType, Read, ReceiveTwo, TableBefore, Undisturbed, Spared, HeaderLen;
    var w := SplitL3(env, keys.current, nonce0, nonce1, id, f, max0, max1).value;
    var p := PlanL3(env.mode, f).value;
    HalvesL3(env, keys, nonce0, nonce1, id, f, max0, max1);
    SizesL3(env, keys.current, nonce0, nonce1, id, f);
    PlannedFrame(f, p);
    TwoArrive(L3, env, keys, id, t, if swapped then w.1 else w.0, evs, if swapped then w.0 else w.1, start, end);
  }

  /** A layer-4 fragment is admitted as the half it carries. */
  lemma ReadL4(env: Settings, keys: Keys, nonce: Nonce, eth: bytes, ip: bytes, ports: bytes, plain: bytes,
               id: uint16, index: uint8)
    requires |eth| == ETH_LEN && EtherType(eth) == 0x0800 && |ip| >= 20 && HeaderLen(ip[0]) == |ip|
    requires |ports| == Layer4.PORT_LEN && (ip[9] == TCP || ip[9] == UDP)
    requires index == 0 ==> |plain| >= |ip| + 8 && plain[0] == ip[0] && plain[9] == ip[9]
    requires |plain| > 0 && index <= 1
    ensures var w := Layer4.FragWire(env, keys.current, nonce, eth, ip, ports, plain, id, index);
            Read(L4, env, keys, w)
            == (if index == 1 then Arrived(id, SecondHalf(plain))
                else if ip[0] as nat / 16 == 4 then Arrived(id, FirstHalf(eth, plain)) else Lost)
  {
    hide Layer4.FragWire, Layer4.DecryptFragment, Layer2.DecryptFragment, Layer3.DecryptFragment, Patched, Low16;
    hide EtherType, Layer4.FragPayloadLen;
    Layer4.FragmentRoundTrip(env, keys, nonce, eth, ip, ports, plain, id, index);
    var total := Low16(|ip| + Layer4.FragPayloadLen(env.mode, |plain|));
    PatchedByte(ip, total, 0);
    BehindPorts(eth, Patched(ip, total), ports, plain);
  }

  /** The parts of a decrypted fragment that `AdmitL4` looks at. */
  lemma BehindPorts(eth: bytes, ip: bytes, ports: bytes, plain: bytes)
    requires |eth| == ETH_LEN && |ip| >= 20 && |ports| == Layer4.PORT_LEN
    ensures var p := eth + ip + ports + plain;
            p[..ETH_LEN] == eth && p[14] == ip[0] && EtherType(p) == EtherType(eth)
            && p[ETH_LEN + |ip| + Layer4.PORT_LEN..] == plain
  {
  }

  lemma HalvesL4(env: Settings, keys: Keys, nonce0: Nonce, nonce1: Nonce, id: uint16, f: bytes, max0: nat, max1: nat)
    requires NeedSplitL4(env.mode, |f|) && SplitL4(env, keys.current, nonce0, nonce1, id, f, max0, max1).Some?
    ensures var w := SplitL4(env, keys.current, nonce0, nonce1, id, f, max0, max1).value;
            var p := PlanL4(env.mode, f).value;
            Read(L4, env, keys, w.0) == (if Version4(f) then Arrived(id, FirstHalf(Eth(f), First(f, p))) else Lost)
            && Read(L4, env, keys, w.1) == Arrived(id, SecondHalf(Second(f, p)))
  {
    var p := PlanL4(env.mode, f).value;
    hide PlanL4, RequireIpv4;
    PlannedFrame(f, p);
    hide Read, Layer4.FragWire, EtherType, HeaderLen;
    ReadL4(env, keys, nonce0, Eth(f), Ip(f, p), PortBytes(f, p), First(f, p), id, 0);
    ReadL4(env, keys, nonce1, Eth(f), Ip(f, p), PortBytes(f, p), Second(f, p), id, 1);
  }

  lemma FixesUp(f: bytes, p: Plan)
    requires RequireIpv4(f) == p.ihl && ETH_LEN + p.ihl + 8 <= p.cut < |f| <= ONES
    ensures Fixup(f).Some? && Finish(L4, f) == Fixup(f).value
  {
    hide FixedAt;
  }

  /** Layer 4 restores it up to the fixup of lengths and checksums, under the same condition. */
  lemma RestoredL4(env: Settings, keys: Keys, nonce0: Nonce, nonce1: Nonce, id: uint16, f: bytes, max0: nat, max1: nat,
                   swapped: bool, t: seq<Entry>, evs: seq<Event>, start: uint64, end: uint64)
    requires NeedSplitL4(env.mode, |f|) && SplitL4(env, keys.current, nonce0, nonce1, id, f, max0, max1).Some?
    requires Undisturbed(L4, t, id, evs, start, end)
    ensures var w := SplitL4(env, keys.current, nonce0, nonce1, id, f, max0, max1).value;
            var (a, b) := if swapped then (w.1, w.0) else (w.0, w.1);
            var r := ReceiveTwo(L4, env, keys, t, a, evs, b, start, end);
            var ok := Version4(f) && |f| + HeaderLen(f[14]) + Layer4.FragMetaLen(env.mode) <= MTU + HALF_MAX;
            !r.0.Joined? && (r.1.Joined? <==> ok && Spared(evs, id))
            && (r.1.Joined? ==> r.1 == Joined(f) && Fixup(f).Some? && Finish(L4, f) == Fixup(f).value)
  {
    hide PlanL4, WiresL4, RequireIpv4, EtherType, Read, ReceiveTwo, TableBefore, Undisturbed, Spared, HeaderLen, Fixup, Finish;
    var w := SplitL4(env, keys.current, nonce0, nonce1, id, f, max0, max1).value;
    var p := PlanL4(env.mode, f).value;
    HalvesL4(env, keys, nonce0, nonce1, id, f, max0, max1);
    SizesL4(env, keys.current, nonce0, nonce1, id, f);
    PlannedFrame(f, p);
    if |f| <= ONES {
      FixesUp(f, p);
    }
    TwoArrive(L4, env, keys, id, t, if swapped then w.1 else w.0, evs, if swapped then w.0 else w.1, start, end);
  }

  /** A layer-2 fragment of fewer than 34 bytes once decrypted is rejected. */
  lemma ReadL2(env: Settings, keys: Keys, nonce: Nonce, macs: bytes, plain: bytes, id: uint16, index: uint8)
    requires |macs| == Layer2.MAC_LEN && env.fakeEther != 0 && |plain| > 0 && index <= 1
    ensures var w := Layer2.FragWire(env, keys.current, nonce, macs, plain, id, index);
            Read(L2, env, keys, w)
            == (if |plain| < 20 then Lost
                else if index == 1 then Arrived(id, SecondHalf(plain))
                else if InnerIpv4(plain) then Arrived(id, FirstHalf(macs + [Hi(env.fakeEther), Lo(env.fakeEther)], plain))
                else Lost)
  {
    Layer2.FragmentRoundTrip(env, keys, nonce, macs, plain, id, index);
    hide Layer2.FragWire, Layer2.DecryptFragment, Layer4.DecryptFragment, InnerIpv4;
    WholeParts(macs + [Hi(env.fakeEther), Lo(env.fakeEther)], [], plain);
    assert macs + [Hi(env.fakeEther), Lo(env.fakeEther)] + [] + plain == macs + [Hi(env.fakeEther), Lo(env.fakeEther)] + plain;
  }

  /** The Ethernet header of a layer-2 fragment: the fake ethertype stays until the packet is whole. */
  function Disguised(env: Settings, f: bytes): (r: bytes)
    requires |f| >= ETH_LEN
    ensures |r| == ETH_LEN
  {
    f[..Layer2.MAC_LEN] + [Hi(env.fakeEther), Lo(env.fakeEther)]
  }

  lemma HalvesL2(env: Settings, keys: Keys, nonce0: Nonce, nonce1: Nonce, id: uint16, f: bytes, max0: nat, max1: nat)
    requires SplitL2(env, keys.current, nonce0, nonce1, id, f, max0, max1).Some?
    ensures var w := SplitL2(env, keys.current, nonce0, nonce1, id, f, max0, max1).value;
            var p := PlanL2(env.mode, f).value;
            Read(L2, env, keys, w.0) == (if Version4(f) then Arrived(id, FirstHalf(Disguised(env, f), First(f, p))) else Lost)
            && Read(L2, env, keys, w.1) == (if |Second(f, p)| >= 20 then Arrived(id, SecondHalf(Second(f, p))) else Lost)
  {
    var p := PlanL2(env.mode, f).value;
    hide PlanL2, RequireIpv4;
    PlannedFrame(f, p);
    hide Read, Layer2.FragWire, EtherType, HeaderLen;
    ReadL2(env, keys, nonce0, f[..Layer2.MAC_LEN], First(f, p), id, 0);
    ReadL2(env, keys, nonce1, f[..Layer2.MAC_LEN], Second(f, p), id, 1);
  }

  lemma Undisguised(env: Settings, f: bytes, cut: nat)
    requires |f| >= ETH_LEN && EtherType(f) == 0x0800 && ETH_LEN <= cut <= |f| <= ONES
    ensures Finish(L2, Disguised(env, f) + f[ETH_LEN..cut] + f[cut..]) == f
  {
    Layer2.EtherTypeBytes(f);
    var r := Disguised(env, f) + f[ETH_LEN..cut] + f[cut..];
    assert r[12 := 8][13 := 0] == f;
  }

  /**
   * Layer 2 restores a split frame exactly if and only if its IP version is 4, its second half has 20 to 1600
   * bytes, there was a slot for the first fragment to arrive, and the slots it had to pass are still taken.  So
   * with the overhead `k` a frame of 1501 - k to 1519 - k bytes is lost.
   */
  lemma RestoredL2(env: Settings, keys: Keys, nonce0: Nonce, nonce1: Nonce, id: uint16, f: bytes, max0: nat, max1: nat,
                   swapped: bool, t: seq<Entry>, evs: seq<Event>, start: uint64, end: uint64)
    requires NeedSplitL2(env.mode, |f|) && SplitL2(env, keys.current, nonce0, nonce1, id, f, max0, max1).Some?
    requires Undisturbed(L2, t, id, evs, start, end)
    ensures var w := SplitL2(env, keys.current, nonce0, nonce1, id, f, max0, max1).value;
            var (a, b) := if swapped then (w.1, w.0) else (w.0, w.1);
            var r := ReceiveTwo(L2, env, keys, t, a, evs, b, start, end);
            var second := |f| + Layer2.FragMetaLen(env.mode) - MTU;
            var ok := Version4(f) && 20 <= second <= HALF_MAX;
            !r.0.Joined?
            && (r.1.Joined? <==> ok && OnTheWay(t, TableBefore(L2, env, keys, t, a, evs, start), id, start, end))
            && (r.1.Joined? ==> |r.1.packet| == |f| <= ONES && Finish(L2, r.1.packet) == f)
  {
    hide PlanL2, RequireIpv4, WiresL2, Read, ReceiveTwo, TableBefore, OnTheWay, Undisturbed, HeaderLen, EtherType, Disguised, Finish;
    var w := SplitL2(env, keys.current, nonce0, nonce1, id, f, max0, max1).value;
    var p := PlanL2(env.mode, f).value;
    HalvesL2(env, keys, nonce0, nonce1, id, f, max0, max1);
    SizesL2(env, keys.current, nonce0, nonce1, id, f);
    assert EtherType(f) == 0x0800;
    PlannedFrame(f, p);
    TwoArrive(L2, env, keys, id, t, if swapped then w.1 else w.0, evs, if swapped then w.0 else w.1, start, end);
    if |f| <= ONES {
      Undisguised(env, f, p.cut);
    }
  }

  /* Ids */

  /** frag_next_pkt_id: packets are numbered by a counter that wraps around at 16 bits. */
  function PktId(count: nat): uint16 { Low16(count) }

  /** Two packets of a sender share a slot exactly when a multiple of 4096 packets lies between them. */
  lemma IdsShareSlot(i: nat, j: nat)
    requires i <= j
    ensures PktId(i) % SIZE == PktId(j) % SIZE <==> (j - i) % SIZE == 0
  {
    hide PktId;
    SameResidue(i);
    SameResidue(j);
    SameSlot(i, j);
  }

  lemma SameSlot(i: nat, j: nat)
    requires i <= j
    ensures i % SIZE == j % SIZE <==> (j - i) % SIZE == 0
  {
    var a, r := DivParts(i, SIZE);
    var b, s := DivParts(j, SIZE);
    if r <= s {
      DivUnique(j - i, SIZE, b - a, s - r);
    } else {
      DivUnique(j - i, SIZE, b - a - 1, s - r + SIZE);
    }
  }

  lemma SameResidue(n: nat)
    ensures PktId(n) % SIZE == n % SIZE
  {
    var q := n / 0x1_0000;
    assert n == q * 16 * SIZE + PktId(n);
  }

  /* Layer 2 workers */

  /** The receiver: the processors of its workers, the layer-2 policies it has a key context for, and its policies. */
  datatype Host = Host(enabled: bool, cpus: seq<uint8>, indexed: set<uint8>, policies: seq<Ref>)

  /** fwd_crypto_has_l2_marker */
  predicate HasMarker(host: Host, env: Settings, w: bytes) {
    |w| >= 16 && Layer2.HasFakeEther(env, w) && w[14] in host.indexed
  }

  /** dp_crypto_pick_wan_worker: worker 0, the wire's index, or the worker pinned to the processor it names. */
  function PickWorker(host: Host, env: Settings, w: bytes): Option<nat> {
    if !host.enabled || (!HasMarker(host, env, w) && FragmentL2(env, host.policies, w) == None) then Some(0)
    else if |w| < 16 || !Layer2.HasFakeEther(env, w) then None
    else if w[15] as nat < |host.cpus| then Some(w[15] as nat)
    else WorkerOn(host.cpus, w[15], 0)
  }

  /** dp_crypto_worker_idx_for_cpu from position `i` on */
  function WorkerOn(cpus: seq<uint8>, cpu: uint8, i: nat): (r: Option<nat>)
    requires i <= |cpus|
    ensures r.Some? ==> i <= r.value < |cpus|
    decreases |cpus| - i
  {
    if i == |cpus| then None else if cpus[i] == cpu then Some(i) else WorkerOn(cpus, cpu, i + 1)
  }

  /** The worker found by processor is the first that is pinned to it; there is none only if no worker is. */
  lemma {:induction false} WorkerIsFirst(cpus: seq<uint8>, cpu: uint8, i: nat)
    requires i <= |cpus|
    ensures match WorkerOn(cpus, cpu, i)
            case Some(k) => i <= k < |cpus| && cpus[k] == cpu && forall j :: i <= j < k ==> cpus[j] != cpu
            case None => forall j :: i <= j < |cpus| ==> cpus[j] != cpu
    decreases |cpus| - i
  {
    if i < |cpus| {
      WorkerIsFirst(cpus, cpu, i + 1);
    }
  }

  /** A marked packet names a worker by its index, or else by the processor it is pinned to. */
  lemma PickMeans(host: Host, env: Settings, w: bytes)
    requires host.enabled && |w| >= 16 && Layer2.HasFakeEther(env, w) && w[14] in host.indexed
    ensures match PickWorker(host, env, w)
            case Some(k) => k < |host.cpus| && (k == w[15] as nat || (w[15] as nat >= |host.cpus| && host.cpus[k] == w[15]))
            case None => w[15] as nat >= |host.cpus| && w[15] !in host.cpus
  {
    WorkerIsFirst(host.cpus, w[15], 0);
  }

  /**
   * Both fragments of a packet go to the same worker: the one of the index that encrypted it, if the
   * receiver knows the policy, or worker 0.
   */
  lemma SameWorker(host: Host, env: Settings, key: Key, nonce0: Nonce, nonce1: Nonce, id: uint16, f: bytes,
                   max0: nat, max1: nat)
    requires SplitL2(env, key, nonce0, nonce1, id, f, max0, max1).Some? && env.worker as nat < |host.cpus|
    ensures var w := SplitL2(env, key, nonce0, nonce1, id, f, max0, max1).value;
            var known := env.policyId in host.indexed || Configured(host.policies, ENCRYPT_L2, env.policyId);
            PickWorker(host, env, w.0) == PickWorker(host, env, w.1)
            == Some(if host.enabled && known then env.worker as nat else 0)
  {
    var p := PlanL2(env.mode, f).value;
    hide Layer2.FragWire, PlanL2, PickWorker;
    PickFragment(host, env, key, nonce0, f[..Layer2.MAC_LEN], First(f, p), id, 0);
    PickFragment(host, env, key, nonce1, f[..Layer2.MAC_LEN], Second(f, p), id, 1);
  }

  lemma PickFragment(host: Host, env: Settings, key: Key, nonce: Nonce, macs: bytes, plain: bytes, id: uint16, index: uint8)
    requires |macs| == Layer2.MAC_LEN && env.fakeEther != 0 && index <= 1 && env.worker as nat < |host.cpus|
    ensures var known := env.policyId in host.indexed || Configured(host.policies, ENCRYPT_L2, env.policyId);
            PickWorker(host, env, Layer2.FragWire(env, key, nonce, macs, plain, id, index))
            == Some(if host.enabled && known then env.worker as nat else 0)
  {
    Layer2.FragmentCarriesWorker(env, key, nonce, macs, plain, id, index);
    hide Layer2.FragWire, Configured, Layer2.HasFakeEther;
  }
}
