/** Cutting a long frame in two: `inc/core/fragment.h` and the split functions of `src/core/fragment.c`. */
module Split {
  import opened Bytes
  import opened Ipv4
  import opened Cipher
  import opened Wire
  import Layer2
  import Layer3
  import Layer4

  const MTU: nat := 1500

  /** frag_need_split, frag_need_split_l2 and frag_need_split_l4, which leaves the tag out in PQC mode. */
  predicate NeedSplitL3(mode: Mode, len: nat) { len + Layer3.FragMetaLen(mode) > MTU }
  predicate NeedSplitL2(mode: Mode, len: nat) { len + Layer2.FragMetaLen(mode) > MTU }
  predicate NeedSplitL4(mode: Mode, len: nat) {
    len + Layer4.PORT_LEN + TUNNEL_LEN + FRAG_TAG_LEN + (if mode.Gcm? then TAG_LEN else 0) > MTU
  }

  /** Where to cut: the IP header's length and the offset of the second half. */
  datatype Plan = Plan(ihl: nat, cut: nat)

  /** As much of the application data goes into fragment 0 as fits, but never all of it. */
  function CutAt(len: nat, appOff: nat, ihl: nat, overhead: nat): (r: Option<Plan>)
    requires ETH_LEN + ihl <= appOff <= len
    ensures r.Some? ==> r.value.ihl == ihl && appOff <= r.value.cut < len
  {
    if appOff == len || overhead >= MTU || MTU - overhead <= appOff - ETH_LEN then None
    else
      var half1 := MTU - overhead - (appOff - ETH_LEN);
      Some(Plan(ihl, if appOff + half1 >= len then len - 1 else appOff + half1))
  }

  function PlanL3(mode: Mode, f: bytes): (r: Option<Plan>)
    ensures r.Some? ==> RequireIpv4(f) == r.value.ihl && ETH_LEN + r.value.ihl + 8 <= r.value.cut < |f|
  {
    var ihl := RequireIpv4(f);
    if |f| < 42 || ihl < 0 then None
    else
      var thl := TransportHdrSize(f[ETH_LEN + ihl..], f[23]);
      if thl < 0 then None else CutAt(|f|, ETH_LEN + ihl + thl, ihl, ETH_LEN + ihl + Layer3.FragMetaLen(mode))
  }

  function PlanL4(mode: Mode, f: bytes): (r: Option<Plan>)
    requires NeedSplitL4(mode, |f|)
    ensures r.Some? ==> RequireIpv4(f) == r.value.ihl && ETH_LEN + r.value.ihl + 8 <= r.value.cut < |f|
                        && (f[23] == TCP || f[23] == UDP)
  {
    if |f| < 42 || EtherType(f) != 0x0800 || (f[23] != TCP && f[23] != UDP) || HeaderLen(f[14]) < 20 then None
    else
      var ihl := HeaderLen(f[14]);
      var thl := TransportHdrSize(f[ETH_LEN + ihl..], f[23]);
      if thl < 0 then None else CutAt(|f|, ETH_LEN + ihl + thl, ihl, ETH_LEN + ihl + Layer4.FragMetaLen(mode))
  }

  /** Layer 2 also cuts packets of other protocols, right behind the IP header. */
  function PlanL2(mode: Mode, f: bytes): (r: Option<Plan>)
    ensures r.Some? ==> RequireIpv4(f) == r.value.ihl && ETH_LEN + r.value.ihl <= r.value.cut < |f|
  {
    var ihl := RequireIpv4(f);
    if |f| < 34 || ihl < 0 then None
    else
      var thl := if f[23] == TCP || f[23] == UDP then TransportHdrSize(f[ETH_LEN + ihl..], f[23]) else 0;
      if thl < 0 then None else CutAt(|f|, ETH_LEN + ihl + thl, ihl, ETH_LEN + Layer2.FragMetaLen(mode))
  }

  /** The frame's headers as both fragments' builders see them. */
  function Eth(f: bytes): bytes requires |f| >= ETH_LEN { f[..ETH_LEN] }
  function Ip(f: bytes, p: Plan): bytes requires ETH_LEN + p.ihl <= |f| { f[ETH_LEN..ETH_LEN + p.ihl] }
  function PortBytes(f: bytes,
                     p: Plan): bytes requires ETH_LEN + p.ihl + 4 <= |f| { f[ETH_LEN + p.ihl..ETH_LEN + p.ihl + 4] }
  function First(f: bytes, p: Plan): bytes requires ETH_LEN <= p.cut <= |f| { f[ETH_LEN..p.cut] }
  function Second(f: bytes, p: Plan): bytes requires p.cut <= |f| { f[p.cut..] }

  function WiresL3(env: Settings, key: Key, nonce0: Nonce, nonce1: Nonce, id: uint16, f: bytes, p: Plan): (bytes, bytes)
    requires 20 <= p.ihl && ETH_LEN + p.ihl <= p.cut <= |f|
  {
    (Layer3.FragWire(env, key, nonce0, Eth(f), Ip(f, p), First(f, p), id, 0),
     Layer3.FragWire(env, key, nonce1, Eth(f), Ip(f, p), Second(f, p), id, 1))
  }

  function WiresL4(env: Settings, key: Key, nonce0: Nonce, nonce1: Nonce, id: uint16, f: bytes, p: Plan): (bytes, bytes)
    requires 20 <= p.ihl && ETH_LEN + p.ihl + 8 <= p.cut <= |f|
  {
    var ports := PortBytes(f, p);
    (Layer4.FragWire(env, key, nonce0, Eth(f), Ip(f, p), ports, First(f, p), id, 0),
     Layer4.FragWire(env, key, nonce1, Eth(f), Ip(f, p), ports, Second(f, p), id, 1))
  }

  function WiresL2(env: Settings, key: Key, nonce0: Nonce, nonce1: Nonce, id: uint16, f: bytes, p: Plan): (bytes, bytes)
    requires ETH_LEN <= p.cut <= |f|
  {
    (Layer2.FragWire(env, key, nonce0, f[..Layer2.MAC_LEN], First(f, p), id, 0),
     Layer2.FragWire(env, key, nonce1, f[..Layer2.MAC_LEN], Second(f, p), id, 1))
  }

  /** Both fragments fit their buffers. */
  function Fitting(w: (bytes, bytes), max0: nat, max1: nat): Option<(bytes, bytes)> {
    if |w.0| > max0 || |w.1| > max1 then None else Some(w)
  }

  /** frag_split_and_encrypt: the two wire fragments, or None for its error return. */
  function SplitL3(env: Settings, key: Key, nonce0: Nonce, nonce1: Nonce, id: uint16, f: bytes, max0: nat, max1: nat)
    : Option<(bytes, bytes)>
  {
    var plan := PlanL3(env.mode, f);
    if plan == None then None else Fitting(WiresL3(env, key, nonce0, nonce1, id, f, plan.value), max0, max1)
  }

  function SplitL4(env: Settings, key: Key, nonce0: Nonce, nonce1: Nonce, id: uint16, f: bytes, max0: nat, max1: nat)
    : Option<(bytes, bytes)>
    requires NeedSplitL4(env.mode, |f|)
  {
    var plan := PlanL4(env.mode, f);
    if plan == None then None else Fitting(WiresL4(env, key, nonce0, nonce1, id, f, plan.value), max0, max1)
  }

  /** Without a fake ethertype layer 2 cannot mark its packets. */
  function SplitL2(env: Settings, key: Key, nonce0: Nonce, nonce1: Nonce, id: uint16, f: bytes, max0: nat, max1: nat)
    : Option<(bytes, bytes)>
  {
    var plan := PlanL2(env.mode, f);
    if plan == None || env.fakeEther == 0 then None
    else Fitting(WiresL2(env, key, nonce0, nonce1, id, f, plan.value), max0, max1)
  }

  lemma FrameParts(s: bytes, len: nat, p: Plan)
    requires ETH_LEN + p.ihl <= p.cut <= len <= |s|
    ensures var f := s[..len];
            Eth(f) == s[..ETH_LEN] && Ip(f, p) == s[ETH_LEN..ETH_LEN + p.ihl] && First(f, p) == s[ETH_LEN..p.cut]
            && Second(f, p) == s[p.cut..len] && f[..Layer2.MAC_LEN] == s[..Layer2.MAC_LEN]
            && (ETH_LEN + p.ihl + 4 <= len ==> PortBytes(f, p) == s[ETH_LEN + p.ihl..ETH_LEN + p.ihl + 4])
  {
  }

  lemma WiresOfL3(env: Settings, key: Key, nonce0: Nonce, nonce1: Nonce, id: uint16, s: bytes, len: nat, p: Plan)
    requires 20 <= p.ihl <= 60 && ETH_LEN + p.ihl <= p.cut && p.cut < len <= |s|
    ensures WiresL3(env, key, nonce0, nonce1, id, s[..len], p)
         == (Layer3.FragWire(env, key, nonce0, s[..ETH_LEN], s[ETH_LEN..ETH_LEN + p.ihl], s[ETH_LEN..p.cut], id, 0),
             Layer3.FragWire(env, key, nonce1, s[..ETH_LEN], s[ETH_LEN..ETH_LEN + p.ihl], s[p.cut..len], id, 1))
  {
    hide Layer3.FragWire;
    FrameParts(s, len, p);
  }

  /** frag_split_and_encrypt.  Fragment 1 is built first, because fragment 0 overwrites the frame it is cut from. */
  method FragSplitAndEncrypt(env: Settings, key: Key, nonce0: Nonce, nonce1: Nonce, id: uint16,
      pkt: array<uint8>, len: nat, max0: nat, frag1: array<uint8>, max1: nat) returns (n0: int, n1: int)
    requires pkt != frag1 && len <= pkt.Length && max0 <= pkt.Length && max1 <= frag1.Length
    modifies pkt, frag1
    ensures match SplitL3(env, key, nonce0, nonce1, id, old(pkt[..len]), max0, max1)
            case None => n0 == -1
            case Some(w) => n0 == |w.0| && pkt[..n0] == w.0 && n1 == |w.1| && frag1[..n1] == w.1
  {
    n0, n1 := -1, -1;
    var plan := PlanL3(env.mode, pkt[..len]);
    hide PlanL3, WiresL3;
    if plan == None { return; }
    n0, n1 := BuildL3(env, key, nonce0, nonce1, id, pkt, len, plan.value, max0, frag1, max1);
  }

  method BuildL3(env: Settings, key: Key, nonce0: Nonce, nonce1: Nonce, id: uint16, pkt: array<uint8>, len: nat, p: Plan,
                 max0: nat, frag1: array<uint8>, max1: nat) returns (n0: int, n1: int)
    requires pkt != frag1 && len <= pkt.Length && max0 <= pkt.Length && max1 <= frag1.Length
    requires 20 <= p.ihl <= 60 && ETH_LEN + p.ihl <= p.cut && p.cut < len
    modifies pkt, frag1
    ensures match Fitting(WiresL3(env, key, nonce0, nonce1, id, old(pkt[..len]), p), max0, max1)
            case None => n0 == -1
            case Some(w) => n0 == |w.0| && pkt[..n0] == w.0 && n1 == |w.1| && frag1[..n1] == w.1
  {
    hide Layer3.FragWire, WiresL3;
    ghost var s := pkt[..];
    WiresOfL3(env, key, nonce0, nonce1, id, s, len, p);
    ghost var w := WiresL3(env, key, nonce0, nonce1, id, s[..len], p);
    n0 := -1;
    n1 := OneL3(env, key, nonce1, pkt, p.ihl, p.cut, len, id, 1, frag1, max1, s, w.1);
    if n1 >= 0 {
      n0 := OneL3(env, key, nonce0, pkt, p.ihl, ETH_LEN, p.cut, id, 0, pkt, max0, s, w.0);
    }
  }

  /** One fragment of `src[from..to]`. */
  method OneL3(env: Settings, key: Key, nonce: Nonce, src: array<uint8>, ihl: nat, from: nat, to: nat, id: uint16,
               index: uint8,
               out: array<uint8>, outMax: nat, ghost s: bytes, ghost w: bytes) returns (n: int)
    requires s == src[..] && 20 <= ihl <= 60 && ETH_LEN + ihl <= |s| && from < to <= |s| && outMax <= out.Length
    requires w == Layer3.FragWire(env, key, nonce, s[..ETH_LEN], s[ETH_LEN..ETH_LEN + ihl], s[from..to], id, index)
    modifies out
    ensures n == if |w| > outMax then -1 else |w|
    ensures n >= 0 ==> out[..n] == w
  {
    hide Splice, Layer3.FragWire, Layer3.FragMetaLen;
    ghost var b := out[..];
    n := Layer3.EncryptFragment(env, key, nonce, src, ihl, from, to - from, id, index, out, outMax);
    if n >= 0 {
      SpliceFront(b, w);
    }
  }

  lemma WiresOfL4(env: Settings, key: Key, nonce0: Nonce, nonce1: Nonce, id: uint16, s: bytes, len: nat, p: Plan)
    requires 20 <= p.ihl <= 60 && ETH_LEN + p.ihl + 8 <= p.cut && p.cut < len <= |s|
    ensures var t := ETH_LEN + p.ihl;
            var eth, ip, ports := s[..ETH_LEN], s[ETH_LEN..t], s[t..t + Layer4.PORT_LEN];
            WiresL4(env, key, nonce0, nonce1, id, s[..len], p)
            == (Layer4.FragWire(env, key, nonce0, eth, ip, ports, s[ETH_LEN..p.cut], id, 0),
                Layer4.FragWire(env, key, nonce1, eth, ip, ports, s[p.cut..len], id, 1))
  {
    hide Layer4.FragWire;
    FrameParts(s, len, p);
  }

  /** frag_split_and_encrypt_l4, called when frag_need_split_l4 says so. */
  method FragSplitAndEncryptL4(env: Settings, key: Key, nonce0: Nonce, nonce1: Nonce, id: uint16,
      pkt: array<uint8>, len: nat, max0: nat, frag1: array<uint8>, max1: nat) returns (n0: int, n1: int)
    requires pkt != frag1 && len <= pkt.Length && max0 <= pkt.Length && max1 <= frag1.Length
    requires NeedSplitL4(env.mode, len)
    modifies pkt, frag1
    ensures match SplitL4(env, key, nonce0, nonce1, id, old(pkt[..len]), max0, max1)
            case None => n0 == -1
            case Some(w) => n0 == |w.0| && pkt[..n0] == w.0 && n1 == |w.1| && frag1[..n1] == w.1
  {
    n0, n1 := -1, -1;
    var plan := PlanL4(env.mode, pkt[..len]);
    hide PlanL4, WiresL4;
    if plan == None { return; }
    n0, n1 := BuildL4(env, key, nonce0, nonce1, id, pkt, len, plan.value, max0, frag1, max1);
  }

  method BuildL4(env: Settings, key: Key, nonce0: Nonce, nonce1: Nonce, id: uint16, pkt: array<uint8>, len: nat, p: Plan,
                 max0: nat, frag1: array<uint8>, max1: nat) returns (n0: int, n1: int)
    requires pkt != frag1 && len <= pkt.Length && max0 <= pkt.Length && max1 <= frag1.Length
    requires 20 <= p.ihl <= 60 && ETH_LEN + p.ihl + 8 <= p.cut && p.cut < len
    modifies pkt, frag1
    ensures match Fitting(WiresL4(env, key, nonce0, nonce1, id, old(pkt[..len]), p), max0, max1)
            case None => n0 == -1
            case Some(w) => n0 == |w.0| && pkt[..n0] == w.0 && n1 == |w.1| && frag1[..n1] == w.1
  {
    hide Layer4.FragWire, WiresL4;
    ghost var s := pkt[..];
    WiresOfL4(env, key, nonce0, nonce1, id, s, len, p);
    ghost var w := WiresL4(env, key, nonce0, nonce1, id, s[..len], p);
    n0 := -1;
    n1 := OneL4(env, key, nonce1, pkt, p.ihl, p.cut, len, id, 1, frag1, max1, s, w.1);
    if n1 >= 0 {
      n0 := OneL4(env, key, nonce0, pkt, p.ihl, ETH_LEN, p.cut, id, 0, pkt, max0, s, w.0);
    }
  }

  /** One fragment of `src[from..to]`. */
  method OneL4(env: Settings, key: Key, nonce: Nonce, src: array<uint8>, ihl: nat, from: nat, to: nat, id: uint16,
               index: uint8,
               out: array<uint8>, outMax: nat, ghost s: bytes, ghost w: bytes) returns (n: int)
    requires s == src[..] && 20 <= ihl <= 60 && ETH_LEN + ihl + 4 <= |s| && from < to <= |s| && outMax <= out.Length
    requires var t := ETH_LEN + ihl;
             var ports := s[t..t + Layer4.PORT_LEN];
             w == Layer4.FragWire(env, key, nonce, s[..ETH_LEN], s[ETH_LEN..t], ports, s[from..to], id, index)
    modifies out
    ensures n == if |w| > outMax then -1 else |w|
    ensures n >= 0 ==> out[..n] == w
  {
    hide Splice, Layer4.FragWire, Layer4.FragMetaLen;
    ghost var b := out[..];
    n := Layer4.EncryptFragment(env, key, nonce, src, ihl, from, to - from, id, index, out, outMax);
    if n >= 0 {
      SpliceFront(b, w);
    }
  }

  lemma WiresOfL2(env: Settings, key: Key, nonce0: Nonce, nonce1: Nonce, id: uint16, s: bytes, len: nat, p: Plan)
    requires 20 <= p.ihl <= 60 && ETH_LEN + p.ihl <= p.cut && p.cut < len <= |s|
    ensures WiresL2(env, key, nonce0, nonce1, id, s[..len], p)
         == (Layer2.FragWire(env, key, nonce0, s[..Layer2.MAC_LEN], s[ETH_LEN..p.cut], id, 0),
             Layer2.FragWire(env, key, nonce1, s[..Layer2.MAC_LEN], s[p.cut..len], id, 1))
  {
    hide Layer2.FragWire;
    FrameParts(s, len, p);
  }

  /** frag_split_and_encrypt_l2 */
  method FragSplitAndEncryptL2(env: Settings, key: Key, nonce0: Nonce, nonce1: Nonce, id: uint16,
      pkt: array<uint8>, len: nat, max0: nat, frag1: array<uint8>, max1: nat) returns (n0: int, n1: int)
    requires pkt != frag1 && len <= pkt.Length && max0 <= pkt.Length && max1 <= frag1.Length
    modifies pkt, frag1
    ensures match SplitL2(env, key, nonce0, nonce1, id, old(pkt[..len]), max0, max1)
            case None => n0 == -1
            case Some(w) => n0 == |w.0| && pkt[..n0] == w.0 && n1 == |w.1| && frag1[..n1] == w.1
  {
    n0, n1 := -1, -1;
    var plan := PlanL2(env.mode, pkt[..len]);
    if plan == None || env.fakeEther == 0 { return; }
    assert EtherType(pkt[..]) == EtherType(pkt[..len]);
    hide PlanL2, WiresL2;
    n0, n1 := BuildL2(env, key, nonce0, nonce1, id, pkt, len, plan.value, max0, frag1, max1);
  }

  method BuildL2(env: Settings, key: Key, nonce0: Nonce, nonce1: Nonce, id: uint16, pkt: array<uint8>, len: nat, p: Plan,
                 max0: nat, frag1: array<uint8>, max1: nat) returns (n0: int, n1: int)
    requires pkt != frag1 && len <= pkt.Length && max0 <= pkt.Length && max1 <= frag1.Length
    requires 20 <= p.ihl <= 60 && ETH_LEN + p.ihl <= p.cut && p.cut < len
    requires env.fakeEther != 0 && EtherType(pkt[..]) == 0x0800
    modifies pkt, frag1
    ensures match Fitting(WiresL2(env, key, nonce0, nonce1, id, old(pkt[..len]), p), max0, max1)
            case None => n0 == -1
            case Some(w) => n0 == |w.0| && pkt[..n0] == w.0 && n1 == |w.1| && frag1[..n1] == w.1
  {
    hide Layer2.FragWire, WiresL2;
    ghost var s := pkt[..];
    WiresOfL2(env, key, nonce0, nonce1, id, s, len, p);
    ghost var w := WiresL2(env, key, nonce0, nonce1, id, s[..len], p);
    n0 := -1;
    n1 := OneL2(env, key, nonce1, pkt, p.cut, len, id, 1, frag1, max1, s, w.1);
    if n1 >= 0 {
      n0 := OneL2(env, key, nonce0, pkt, ETH_LEN, p.cut, id, 0, pkt, max0, s, w.0);
    }
  }

  /** One fragment of `src[from..to]`. */
  method OneL2(env: Settings, key: Key, nonce: Nonce, src: array<uint8>, from: nat, to: nat, id: uint16, index: uint8,
               out: array<uint8>, outMax: nat, ghost s: bytes, ghost w: bytes) returns (n: int)
    requires s == src[..] && ETH_LEN <= |s| && from < to <= |s| && outMax <= out.Length
    requires env.fakeEther != 0 && EtherType(s) == 0x0800
    requires w == Layer2.FragWire(env, key, nonce, s[..Layer2.MAC_LEN], s[from..to], id, index)
    modifies out
    ensures n == if |w| > outMax then -1 else |w|
    ensures n >= 0 ==> out[..n] == w
  {
    hide Splice, Layer2.FragWire, Layer2.FragMetaLen;
    ghost var b := out[..];
    n := Layer2.EncryptFragment(env, key, nonce, src, from, to - from, id, index, out, outMax);
    if n >= 0 {
      SpliceFront(b, w);
    }
  }

  /* Sizes */

  lemma CutWhenLong(len: nat, appOff: nat, ihl: nat, overhead: nat)
    requires ETH_LEN + ihl <= appOff <= len && CutAt(len, appOff, ihl, overhead).Some?
    ensures CutAt(len, appOff, ihl, overhead).value.cut
         == if len + overhead > MTU + ETH_LEN then MTU + ETH_LEN - overhead else len - 1
  {
  }

  /**
   * Fragment 0 never exceeds the MTU and fills it exactly when the frame is long enough, which a frame
   * that needs splitting always is; what is left for fragment 1 is then determined by the frame's length.
   */
  lemma SizesL3(env: Settings, key: Key, nonce0: Nonce, nonce1: Nonce, id: uint16, f: bytes)
    requires PlanL3(env.mode, f).Some?
    ensures var p := PlanL3(env.mode, f).value;
            var w := WiresL3(env, key, nonce0, nonce1, id, f, p);
            var k := p.ihl + Layer3.FragMetaLen(env.mode);
            (|w.0| <= MTU && (|w.0| == MTU <==> |f| + k > MTU))
            && (NeedSplitL3(env.mode, |f|) ==>
                  p.cut == MTU - k && |w.0| == MTU && |w.1| == |f| + 2 * k + ETH_LEN - MTU && (|f| <= 1514 ==> |w.1| <= MTU))
  {
    var ihl := RequireIpv4(f);
    var thl := TransportHdrSize(f[ETH_LEN + ihl..], f[23]);
    CutWhenLong(|f|, ETH_LEN + ihl + thl, ihl, ETH_LEN + ihl + Layer3.FragMetaLen(env.mode));
    hide CutAt, RequireIpv4, TransportHdrSize, Layer3.FragWire;
  }

  lemma SizesL4(env: Settings, key: Key, nonce0: Nonce, nonce1: Nonce, id: uint16, f: bytes)
    requires NeedSplitL4(env.mode, |f|) && PlanL4(env.mode, f).Some?
    ensures var p := PlanL4(env.mode, f).value;
            var w := WiresL4(env, key, nonce0, nonce1, id, f, p);
            var k := p.ihl + Layer4.FragMetaLen(env.mode);
            p.cut == MTU - k && |w.0| == MTU && |w.1| == |f| + 2 * k + ETH_LEN - MTU && (|f| <= 1514 ==> |w.1| <= MTU)
  {
    var ihl := HeaderLen(f[14]);
    var thl := TransportHdrSize(f[ETH_LEN + ihl..], f[23]);
    CutWhenLong(|f|, ETH_LEN + ihl + thl, ihl, ETH_LEN + ihl + Layer4.FragMetaLen(env.mode));
    hide CutAt, RequireIpv4, HeaderLen, TransportHdrSize, Layer4.FragWire;
  }

  lemma SizesL2(env: Settings, key: Key, nonce0: Nonce, nonce1: Nonce, id: uint16, f: bytes)
    requires PlanL2(env.mode, f).Some?
    ensures var p := PlanL2(env.mode, f).value;
            var w := WiresL2(env, key, nonce0, nonce1, id, f, p);
            var k := Layer2.FragMetaLen(env.mode);
            (|w.0| <= MTU && (|w.0| == MTU <==> |f| + k > MTU))
            && (NeedSplitL2(env.mode, |f|) ==>
                  |Second(f, p)| == |f| + k - MTU && |w.0| == MTU && |w.1| == |f| + 2 * k + ETH_LEN - MTU
                  && (|f| <= 1514 ==> |w.1| <= MTU))
  {
    var ihl := RequireIpv4(f);
    var thl := if f[23] == TCP || f[23] == UDP then TransportHdrSize(f[ETH_LEN + ihl..], f[23]) else 0;
    CutWhenLong(|f|, ETH_LEN + ihl + thl, ihl, ETH_LEN + Layer2.FragMetaLen(env.mode));
    hide CutAt, RequireIpv4, TransportHdrSize, Layer2.FragWire;
  }

  /** What is not split stays within the MTU once encrypted, except that PQC packets at layer 4 may exceed it. */
  lemma UnsplitWithinMtu(env: Settings, key: Key, nonce: Nonce, p: bytes)
    ensures !NeedSplitL2(env.mode, |p|) && Layer2.Encrypt(env, key, nonce, p).Some?
            ==> |Layer2.Encrypt(env, key, nonce, p).value| <= MTU
    ensures !NeedSplitL3(env.mode, |p|) && Layer3.Encrypt(env, key, nonce, p).Some?
            ==> |Layer3.Encrypt(env, key, nonce, p).value| <= MTU
    ensures !NeedSplitL4(env.mode, |p|) && Layer4.HeaderFits(p) && Layer4.EncryptGuard(p).Go?
            ==> (|Layer4.Encrypt(env, key, nonce, p).value| > MTU <==> env.mode.Pqc? && |p| > 1470)
  {
    hide Layer2.Encrypt, Layer3.Encrypt, Layer4.SingleWire, Layer4.EncryptGuard, Layer4.HeaderFits;
  }
}
