/** Which frames are split: the conditions of `Split` in numbers and bytes. */
module SplitLaws {
  import opened Bytes
  import opened Ipv4
  import opened Cipher
  import opened Wire
  import opened Split
  import opened HeaderLaws
  import Layer2
  import Layer3
  import Layer4

  /** The shortest frames that are split; at layer 4 the tag of PQC is not counted. */
  lemma SplitFrom(mode: Mode, len: nat)
    ensures NeedSplitL3(mode, len) <==> len >= if mode.Ctr? then 1483 else 1467
    ensures NeedSplitL2(mode, len) <==> len >= if mode.Ctr? then 1482 else 1466
    ensures NeedSplitL4(mode, len) <==> len >= if mode.Gcm? then 1463 else 1479
  {
  }

  /** An IPv4 frame of TCP or UDP with at least a byte behind the transport header. */
  predicate HasData(f: bytes) {
    WholeHeader(f) && (f[23] == 6 || f[23] == 17)
    && var t := 14 + HeaderLen(f[14]);
       WholeTransport(f, f[23], t) && |f| > t + if f[23] == 17 then 8 else 4 * (f[t + 12] / 16) as nat
  }

  /** No header is so long that the cut could not fall behind it. */
  lemma CutAlways(len: nat, appOff: nat, ihl: nat, overhead: nat)
    requires 14 + ihl <= appOff <= len && ihl <= 60 && appOff <= 14 + ihl + 60 && overhead <= 200
    ensures CutAt(len, appOff, ihl, overhead).Some? <==> appOff < len
  {
  }

  lemma TransportLength(f: bytes, t: nat, proto: uint8)
    requires t <= |f| && (proto == 6 || proto == 17)
    ensures var n := TransportHdrSize(f[t..], proto);
            (n >= 0 <==> WholeTransport(f, proto, t))
            && (n >= 0 ==> n <= 60 && n == if proto == 17 then 8 else 4 * (f[t + 12] / 16) as nat)
  {
  }

  /** Layers 3 and 4 plan a split for exactly the frames that have data behind their transport header. */
  lemma PlannedL3(mode: Mode, f: bytes)
    ensures PlanL3(mode, f).Some? <==> HasData(f)
  {
    hide TransportHdrSize, CutAt, WholeTransport;
    if WholeHeader(f) {
      var ihl := HeaderLen(f[14]);
      if f[23] == 6 || f[23] == 17 {
        TransportLength(f, 14 + ihl, f[23]);
        var thl := TransportHdrSize(f[14 + ihl..], f[23]);
        if thl >= 0 {
          CutAlways(|f|, 14 + ihl + thl, ihl, 14 + ihl + Layer3.FragMetaLen(mode));
        }
      } else {
        OtherHeaderIs(f[14 + ihl..], f[23]);
      }
    }
  }

  lemma PlannedL4(mode: Mode, f: bytes)
    requires NeedSplitL4(mode, |f|)
    ensures PlanL4(mode, f).Some? <==> HasData(f)
  {
    hide TransportHdrSize, CutAt, WholeTransport;
    if WholeHeader(f) && (f[23] == 6 || f[23] == 17) {
      var ihl := HeaderLen(f[14]);
      TransportLength(f, 14 + ihl, f[23]);
      var thl := TransportHdrSize(f[14 + ihl..], f[23]);
      if thl >= 0 {
        CutAlways(|f|, 14 + ihl + thl, ihl, 14 + ihl + Layer4.FragMetaLen(mode));
      }
    }
  }

  /** Layer 2 also for those of other protocols that have data behind their IP header. */
  lemma PlannedL2(mode: Mode, f: bytes)
    ensures PlanL2(mode, f).Some?
            <==> HasData(f) || (WholeHeader(f) && f[23] != 6 && f[23] != 17 && |f| > 14 + HeaderLen(f[14]))
  {
    hide TransportHdrSize, CutAt, WholeTransport;
    if WholeHeader(f) {
      var ihl := HeaderLen(f[14]);
      var thl := 0;
      if f[23] == 6 || f[23] == 17 {
        TransportLength(f, 14 + ihl, f[23]);
        thl := TransportHdrSize(f[14 + ihl..], f[23]);
      }
      if thl >= 0 {
        CutAlways(|f|, 14 + ihl + thl, ihl, 14 + Layer2.FragMetaLen(mode));
      }
    }
  }

  /** A long frame of at most 1514 bytes becomes two fragments, given room for the MTU, if and only if it has data. */
  lemma SplitMadeL3(env: Settings, key: Key, nonce0: Nonce, nonce1: Nonce, id: uint16, f: bytes, max0: nat, max1: nat)
    requires NeedSplitL3(env.mode, |f|) && |f| <= 1514 && max0 >= 1500 && max1 >= 1500
    ensures SplitL3(env, key, nonce0, nonce1, id, f, max0, max1).Some? <==> HasData(f)
  {
    hide PlanL3, WiresL3, HasData;
    PlannedL3(env.mode, f);
    if PlanL3(env.mode, f).Some? {
      SizesL3(env, key, nonce0, nonce1, id, f);
    }
  }

  lemma SplitMadeL4(env: Settings, key: Key, nonce0: Nonce, nonce1: Nonce, id: uint16, f: bytes, max0: nat, max1: nat)
    requires NeedSplitL4(env.mode, |f|) && |f| <= 1514 && max0 >= 1500 && max1 >= 1500
    ensures SplitL4(env, key, nonce0, nonce1, id, f, max0, max1).Some? <==> HasData(f)
  {
    hide PlanL4, WiresL4, HasData;
    PlannedL4(env.mode, f);
    if PlanL4(env.mode, f).Some? {
      SizesL4(env, key, nonce0, nonce1, id, f);
    }
  }

  /** At layer 2 also if it is of another protocol; without a fake ethertype never. */
  lemma SplitMadeL2(env: Settings, key: Key, nonce0: Nonce, nonce1: Nonce, id: uint16, f: bytes, max0: nat, max1: nat)
    requires NeedSplitL2(env.mode, |f|) && |f| <= 1514 && max0 >= 1500 && max1 >= 1500
    ensures SplitL2(env, key, nonce0, nonce1, id, f, max0, max1).Some?
            <==> env.fakeEther != 0
                 && (HasData(f) || (WholeHeader(f) && f[23] != 6 && f[23] != 17 && |f| > 14 + HeaderLen(f[14])))
  {
    hide PlanL2, WiresL2, HasData, WholeHeader;
    PlannedL2(env.mode, f);
    if PlanL2(env.mode, f).Some? {
      SizesL2(env, key, nonce0, nonce1, id, f);
    }
  }
}
