/** Which policy a flow gets: matching, selection and validation in `src/db/config.c`, and `dataplane_local.c`. */
module Policies {
  import opened Bytes
  import opened Masks

  const BYPASS: int := 0
  const ANY_PROTO: int := 0
  const TCP_OR_UDP: int := 254

  datatype Net = Net(any: bool, negate: bool, net: uint32, mask: uint32)
  datatype Ports = Ports(from: int, to: int)

  /** struct crypto_policy, as far as choosing it goes. */
  datatype Policy = Policy(id: int, dbId: int, priority: int, action: int, protocol: int, src: Net, dst: Net,
                           srcPorts: Ports, dstPorts: Ports)

  datatype Profile = Profile(id: int, enabled: bool, locals: seq<int>, wans: seq<int>, policies: seq<int>)

  datatype Config = Config(localCount: nat, wanCount: nat, policies: seq<Policy>, profiles: seq<Profile>)

  datatype Packet = Packet(src: uint32, dst: uint32, sport: int, dport: int, proto: int)

  function Reversed(p: Packet): Packet { Packet(p.dst, p.src, p.dport, p.sport, p.proto) }

  /* Matching */

  /** cidr_match_with_negate */
  predicate InNet(n: Net, ip: uint32) { n.any || ((And32(ip, n.mask) == And32(n.net, n.mask)) != n.negate) }

  /** A range with a negative end restricts nothing. */
  predicate InPorts(r: Ports, port: int) { r.from >= 0 && r.to >= 0 ==> r.from <= port <= r.to }

  /** crypto_policy_match_packet */
  predicate MatchesPacket(cp: Policy, p: Packet) {
    InNet(cp.src, p.src) && InNet(cp.dst, p.dst) && InPorts(cp.srcPorts, p.sport) && InPorts(cp.dstPorts, p.dport)
    && if cp.protocol == TCP_OR_UDP then p.proto == 6 || p.proto == 17 else cp.protocol == ANY_PROTO || cp.protocol == p.proto
  }

  /** crypto_policy_matches_flow */
  predicate MatchesFlow(cp: Policy, p: Packet) { MatchesPacket(cp, p) || MatchesPacket(cp, Reversed(p)) }

  /* Selection */

  predicate Better(a: Policy, b: Policy) { a.priority < b.priority || (a.priority == b.priority && a.id < b.id) }

  /** Is entry `k` of a profile's list a policy of the wanted kind that matches? */
  predicate Candidate(cfg: Config, list: seq<int>, p: Packet, bypass: bool, k: nat) {
    k < |list| && 0 <= list[k] < |cfg.policies| && MatchesFlow(cfg.policies[list[k]], p)
    && (cfg.policies[list[k]].action == BYPASS) == bypass
  }

  /** The best candidate among the first `n` entries. */
  function BestOf(cfg: Config, list: seq<int>, p: Packet, bypass: bool, n: nat): (r: Option<nat>)
    requires n <= |list|
    ensures r.Some? ==> r.value < n && Candidate(cfg, list, p, bypass, r.value)
  {
    if n == 0 then None
    else
      var b := BestOf(cfg, list, p, bypass, n - 1);
      if Candidate(cfg, list, p, bypass, n - 1)
        && (b.None? || Better(cfg.policies[list[n - 1]], cfg.policies[list[b.value]])) then Some(n - 1) else b
  }

  /** Encryption beats bypass. */
  function Chosen(cfg: Config, list: seq<int>, p: Packet): (r: Option<nat>)
    ensures r.Some? ==> r.value < |list| && 0 <= list[r.value] < |cfg.policies|
  {
    var e := BestOf(cfg, list, p, false, |list|);
    if e.Some? then e else BestOf(cfg, list, p, true, |list|)
  }

  /** config_select_crypto_policy: the index of the policy chosen. */
  method SelectCryptoPolicy(cfg: Config, profile: int, p: Packet) returns (best: Option<nat>)
    ensures !(0 <= profile < |cfg.profiles|) ==> best == None
    ensures 0 <= profile < |cfg.profiles| ==>
              var list := cfg.profiles[profile].policies;
              var c := Chosen(cfg, list, p);
              best == if c.None? then None else Some(list[c.value])
  {
    if profile < 0 || profile >= |cfg.profiles| { return None; }
    var list := cfg.profiles[profile].policies;
    var encrypt: Option<nat>, bypass: Option<nat> := None, None;
    hide MatchesFlow, Better;
    for i := 0 to |list|
      invariant encrypt == BestOf(cfg, list, p, false, i) && bypass == BestOf(cfg, list, p, true, i)
    {
      if 0 <= list[i] < |cfg.policies| && MatchesFlow(cfg.policies[list[i]], p) {
        var cp := cfg.policies[list[i]];
        if cp.action == BYPASS {
          if bypass == None || Better(cp, cfg.policies[list[bypass.value]]) { bypass := Some(i); }
        } else {
          if encrypt == None || Better(cp, cfg.policies[list[encrypt.value]]) { encrypt := Some(i); }
        }
      }
    }
    var c := if encrypt != None then encrypt else bypass;
    best := if c == None then None else Some(list[c.value]);
  }

  /** The first candidate that no other beats: earlier ones are worse, later ones at best as good. */
  predicate FirstBest(cfg: Config, list: seq<int>, p: Packet, bypass: bool, n: nat, k: nat)
    requires n <= |list|
  {
    k < n && Candidate(cfg, list, p, bypass, k)
    && (forall j :: 0 <= j < k && Candidate(cfg, list, p, bypass, j) ==> Better(cfg.policies[list[k]], cfg.policies[list[j]]))
    && (forall j :: k < j < n && Candidate(cfg, list, p, bypass, j) ==> !Better(cfg.policies[list[j]], cfg.policies[list[k]]))
  }

  lemma {:induction false} BestIsFirst(cfg: Config, list: seq<int>, p: Packet, bypass: bool, n: nat)
    requires n <= |list|
    ensures match BestOf(cfg, list, p, bypass, n)
            case Some(k) => FirstBest(cfg, list, p, bypass, n, k)
            case None => forall j :: 0 <= j < n ==> !Candidate(cfg, list, p, bypass, j)
  {
    if n > 0 {
      BestIsFirst(cfg, list, p, bypass, n - 1);
      hide MatchesFlow;
    }
  }

  /** The policy chosen is the first lexicographic minimum of (priority, id): there is no other such. */
  lemma ChosenExactly(cfg: Config, list: seq<int>, p: Packet, k: nat)
    ensures Chosen(cfg, list, p) == Some(k)
            <==> FirstBest(cfg, list, p, false, |list|, k)
                 || (FirstBest(cfg, list, p, true, |list|, k)
                     && forall j :: 0 <= j < |list| ==> !Candidate(cfg, list, p, false, j))
  {
    BestIsFirst(cfg, list, p, false, |list|);
    BestIsFirst(cfg, list, p, true, |list|);
    FirstUnique(cfg, list, p, false, k);
    FirstUnique(cfg, list, p, true, k);
    hide Better, Candidate;
  }

  lemma FirstUnique(cfg: Config, list: seq<int>, p: Packet, bypass: bool, k: nat)
    ensures FirstBest(cfg, list, p, bypass, |list|, k) ==> BestOf(cfg, list, p, bypass, |list|) == Some(k)
  {
    BestIsFirst(cfg, list, p, bypass, |list|);
    hide MatchesFlow, BestOf;
  }

  lemma {:induction false} BestSymmetric(cfg: Config, list: seq<int>, p: Packet, bypass: bool, n: nat)
    requires n <= |list|
    ensures BestOf(cfg, list, Reversed(p), bypass, n) == BestOf(cfg, list, p, bypass, n)
  {
    if n > 0 {
      BestSymmetric(cfg, list, p, bypass, n - 1);
      assert Reversed(Reversed(p)) == p;
      hide MatchesPacket, Better, Reversed;
    }
  }

  /** Both directions of a flow get the same policy. */
  lemma ChosenSymmetric(cfg: Config, list: seq<int>, p: Packet)
    ensures Chosen(cfg, list, Reversed(p)) == Chosen(cfg, list, p)
  {
    BestSymmetric(cfg, list, p, false, |list|);
    BestSymmetric(cfg, list, p, true, |list|);
    hide Reversed, BestOf;
  }

  /* Owners */

  datatype Binding = Lans | Wans

  function Bound(p: Profile, b: Binding): seq<int> { if b.Lans? then p.locals else p.wans }

  /** config_local_owner_profile and config_wan_owner_profile from profile `from` on. */
  function OwnerFrom(ps: seq<Profile>, b: Binding, idx: int, skip: int, from: nat): int
    requires from <= |ps|
    decreases |ps| - from
  {
    if from == |ps| then 0
    else if ps[from].id != skip && idx in Bound(ps[from], b) then ps[from].id
    else OwnerFrom(ps, b, idx, skip, from + 1)
  }

  method Owner(ps: seq<Profile>, b: Binding, idx: int, skip: int) returns (id: int)
    ensures id == OwnerFrom(ps, b, idx, skip, 0)
  {
    for i := 0 to |ps|
      invariant OwnerFrom(ps, b, idx, skip, 0) == OwnerFrom(ps, b, idx, skip, i)
    {
      var list := Bound(ps[i], b);
      if ps[i].id != skip {
        for k := 0 to |list|
          invariant idx !in list[..k]
        {
          if list[k] == idx { return ps[i].id; }
          assert list[..k + 1] == list[..k] + [list[k]];
        }
        assert list[..|list|] == list;
      }
    }
    id := 0;
  }

  predicate NoRepeats(list: seq<int>) { forall i, j :: 0 <= i < j < |list| ==> list[i] != list[j] }

  /** profile_has_dup_index */
  method HasDupIndex(list: seq<int>) returns (dup: bool)
    ensures dup == !NoRepeats(list)
  {
    for i := 0 to |list|
      invariant forall a, c :: 0 <= a < i && a < c < |list| ==> list[a] != list[c]
    {
      for j := i + 1 to |list|
        invariant forall c :: i < c < j ==> list[i] != list[c]
      {
        if list[i] == list[j] { return true; }
      }
    }
    dup := false;
  }

  /** None of the profile's bindings, as far as they exist, has an owner with another id. */
  predicate Unowned(ps: seq<Profile>, b: Binding, count: nat, p: Profile) {
    forall k :: 0 <= k < |Bound(p, b)| && 0 <= Bound(p, b)[k] < count ==> OwnerFrom(ps, b, Bound(p, b)[k], p.id, 0) <= 0
  }

  predicate ProfileOk(cfg: Config, p: Profile) {
    NoRepeats(p.locals) && NoRepeats(p.wans) && NoRepeats(p.policies)
    && Unowned(cfg.profiles, Lans, cfg.localCount, p) && Unowned(cfg.profiles, Wans, cfg.wanCount, p)
  }

  method CheckUnowned(ps: seq<Profile>, b: Binding, count: nat, p: Profile) returns (ok: bool)
    ensures ok == Unowned(ps, b, count, p)
  {
    var list := Bound(p, b);
    for k := 0 to |list|
      invariant forall i :: 0 <= i < k && 0 <= list[i] < count ==> OwnerFrom(ps, b, list[i], p.id, 0) <= 0
    {
      if 0 <= list[k] < count {
        var owner := Owner(ps, b, list[k], p.id);
        if owner > 0 { return false; }
      }
    }
    ok := true;
  }

  /** Two entries of policy lists that exist and carry one positive database id. */
  predicate SameDbId(cfg: Config, x: int, y: int) {
    0 <= x < |cfg.policies| && 0 <= y < |cfg.policies| && cfg.policies[x].dbId > 0 && cfg.policies[x].dbId == cfg.policies[y].dbId
  }

  predicate UsedIn(cfg: Config, x: int, list: seq<int>) { exists k :: 0 <= k < |list| && SameDbId(cfg, x, list[k]) }

  predicate Share(cfg: Config, a: seq<int>, b: seq<int>) { exists k :: 0 <= k < |a| && UsedIn(cfg, a[k], b) }

  predicate NoneShare(cfg: Config) {
    forall i, j :: 0 <= i < j < |cfg.profiles| ==> !Share(cfg, cfg.profiles[i].policies, cfg.profiles[j].policies)
  }

  /** The two inner loops of config_validate_policy_db_ids_across_profiles. */
  method DoShare(cfg: Config, a: seq<int>, b: seq<int>) returns (shared: bool)
    ensures shared == Share(cfg, a, b)
  {
    for i := 0 to |a|
      invariant forall k :: 0 <= k < i ==> !UsedIn(cfg, a[k], b)
    {
      if 0 <= a[i] < |cfg.policies| {
        for j := 0 to |b|
          invariant forall k :: 0 <= k < j ==> !SameDbId(cfg, a[i], b[k])
        {
          if 0 <= b[j] < |cfg.policies| && cfg.policies[a[i]].dbId > 0 && cfg.policies[a[i]].dbId == cfg.policies[b[j]].dbId {
            assert SameDbId(cfg, a[i], b[j]);
            return true;
          }
        }
      }
    }
    shared := false;
  }

  /** config_validate_policy_db_ids_across_profiles */
  method CheckDbIds(cfg: Config) returns (ok: bool)
    ensures ok == NoneShare(cfg)
  {
    hide Share;
    for i := 0 to |cfg.profiles|
      invariant forall a, c :: 0 <= a < i && a < c < |cfg.profiles|
                               ==> !Share(cfg, cfg.profiles[a].policies, cfg.profiles[c].policies)
    {
      for j := i + 1 to |cfg.profiles|
        invariant forall c :: i < c < j ==> !Share(cfg, cfg.profiles[i].policies, cfg.profiles[c].policies)
      {
        var shared := DoShare(cfg, cfg.profiles[i].policies, cfg.profiles[j].policies);
        if shared { return false; }
      }
    }
    ok := true;
  }

  predicate Carries(cfg: Config, p: Profile, id: int) {
    exists k :: 0 <= k < |p.policies| && 0 <= p.policies[k] < |cfg.policies| && cfg.policies[p.policies[k]].dbId == id
  }

  /** At most one profile has a policy with this database id. */
  predicate OneCarrier(cfg: Config, id: int) {
    var ps := cfg.profiles;
    forall i, j :: 0 <= i < |ps| && 0 <= j < |ps| && Carries(cfg, ps[i], id) && Carries(cfg, ps[j], id) ==> i == j
  }

  lemma ShareMeans(cfg: Config, p: Profile, q: Profile)
    ensures Share(cfg, p.policies, q.policies) <==> exists id :: id > 0 && Carries(cfg, p, id) && Carries(cfg, q, id)
  {
    if Share(cfg, p.policies, q.policies) {
      var k :| 0 <= k < |p.policies| && UsedIn(cfg, p.policies[k], q.policies);
      var m :| 0 <= m < |q.policies| && SameDbId(cfg, p.policies[k], q.policies[m]);
      assert Carries(cfg, p, cfg.policies[p.policies[k]].dbId);
      assert Carries(cfg, q, cfg.policies[p.policies[k]].dbId);
    }
    if id :| id > 0 && Carries(cfg, p, id) && Carries(cfg, q, id) {
      var k :| 0 <= k < |p.policies| && 0 <= p.policies[k] < |cfg.policies| && cfg.policies[p.policies[k]].dbId == id;
      var m :| 0 <= m < |q.policies| && 0 <= q.policies[m] < |cfg.policies| && cfg.policies[q.policies[m]].dbId == id;
      assert SameDbId(cfg, p.policies[k], q.policies[m]);
      assert UsedIn(cfg, p.policies[k], q.policies);
    }
  }

  /** The comparison of ids passes exactly when every positive id belongs to at most one profile. */
  lemma NoneShareMeans(cfg: Config)
    ensures NoneShare(cfg) <==> forall id :: id > 0 ==> OneCarrier(cfg, id)
  {
    hide Carries, Share;
    var ps := cfg.profiles;
    if NoneShare(cfg) {
      forall id | id > 0 ensures OneCarrier(cfg, id) {
        forall i, j | 0 <= i < |ps| && 0 <= j < |ps| && Carries(cfg, ps[i], id) && Carries(cfg, ps[j], id) ensures i == j {
          ShareMeans(cfg, ps[i], ps[j]);
          ShareMeans(cfg, ps[j], ps[i]);
        }
      }
    }
    if forall id :: id > 0 ==> OneCarrier(cfg, id) {
      forall i, j | 0 <= i < j < |ps| ensures !Share(cfg, ps[i].policies, ps[j].policies) {
        ShareMeans(cfg, ps[i], ps[j]);
        forall id | id > 0 ensures !(Carries(cfg, ps[i], id) && Carries(cfg, ps[j], id)) {
          assert OneCarrier(cfg, id);
        }
      }
    }
  }

  /** config_validate_profiles */
  method ValidateProfiles(cfg: Config) returns (ok: bool)
    ensures ok <==> NoneShare(cfg) && forall i :: 0 <= i < |cfg.profiles| ==> ProfileOk(cfg, cfg.profiles[i])
  {
    hide NoneShare;
    for i := 0 to |cfg.profiles|
      invariant forall k :: 0 <= k < i ==> ProfileOk(cfg, cfg.profiles[k])
    {
      var p := cfg.profiles[i];
      var dupLan := HasDupIndex(p.locals);
      var dupWan := HasDupIndex(p.wans);
      var dupPolicy := HasDupIndex(p.policies);
      if dupLan || dupWan || dupPolicy { return false; }
      var lans := CheckUnowned(cfg.profiles, Lans, cfg.localCount, p);
      var wans := CheckUnowned(cfg.profiles, Wans, cfg.wanCount, p);
      if !lans || !wans { return false; }
    }
    ok := CheckDbIds(cfg);
  }

  /** Profile ids are positive and different, as the database gives them. */
  predicate GoodIds(ps: seq<Profile>) {
    (forall i :: 0 <= i < |ps| ==> ps[i].id > 0) && (forall i, j :: 0 <= i < j < |ps| ==> ps[i].id != ps[j].id)
  }

  lemma {:induction false} OwnerIs(ps: seq<Profile>, b: Binding, idx: int, skip: int, from: nat)
    requires from <= |ps| && GoodIds(ps)
    ensures OwnerFrom(ps, b, idx, skip, from) > 0
            <==> exists i :: from <= i < |ps| && ps[i].id != skip && idx in Bound(ps[i], b)
    decreases |ps| - from
  {
    if from < |ps| {
      OwnerIs(ps, b, idx, skip, from + 1);
    }
  }

  /** At most one profile binds an interface. */
  predicate OneOwner(ps: seq<Profile>, b: Binding, idx: int) {
    forall i, j :: 0 <= i < |ps| && 0 <= j < |ps| && idx in Bound(ps[i], b) && idx in Bound(ps[j], b) ==> i == j
  }

  /** Validation accepts the bindings exactly when every existing interface has at most one profile. */
  lemma ValidMeansOneOwner(ps: seq<Profile>, b: Binding, count: nat)
    requires GoodIds(ps)
    ensures (forall i :: 0 <= i < |ps| ==> Unowned(ps, b, count, ps[i]))
            <==> forall idx :: 0 <= idx < count ==> OneOwner(ps, b, idx)
  {
    if forall i :: 0 <= i < |ps| ==> Unowned(ps, b, count, ps[i]) {
      forall idx | 0 <= idx < count ensures OneOwner(ps, b, idx) {
        forall i, j | 0 <= i < |ps| && 0 <= j < |ps| && idx in Bound(ps[i], b) && idx in Bound(ps[j], b) ensures i == j {
          OwnerIs(ps, b, idx, ps[i].id, 0);
          assert Unowned(ps, b, count, ps[i]);
          var k :| 0 <= k < |Bound(ps[i], b)| && Bound(ps[i], b)[k] == idx;
        }
      }
    }
    if forall idx :: 0 <= idx < count ==> OneOwner(ps, b, idx) {
      forall i | 0 <= i < |ps| ensures Unowned(ps, b, count, ps[i]) {
        forall k | 0 <= k < |Bound(ps[i], b)| && 0 <= Bound(ps[i], b)[k] < count
          ensures OwnerFrom(ps, b, Bound(ps[i], b)[k], ps[i].id, 0) <= 0
        {
          OwnerIs(ps, b, Bound(ps[i], b)[k], ps[i].id, 0);
          assert OneOwner(ps, b, Bound(ps[i], b)[k]);
        }
      }
    }
  }

  /** At most one profile has the LAN, or the WAN. */
  predicate OneForLan(ps: seq<Profile>, lan: int) {
    forall i, j :: 0 <= i < |ps| && 0 <= j < |ps| && lan in ps[i].locals && lan in ps[j].locals ==> i == j
  }

  predicate OneForWan(ps: seq<Profile>, wan: int) {
    forall i, j :: 0 <= i < |ps| && 0 <= j < |ps| && wan in ps[i].wans && wan in ps[j].wans ==> i == j
  }

  lemma OneFor(ps: seq<Profile>, idx: int)
    ensures OneOwner(ps, Lans, idx) <==> OneForLan(ps, idx)
    ensures OneOwner(ps, Wans, idx) <==> OneForWan(ps, idx)
  {
  }

  /** What validation asks of every profile: lists without repeats, and every LAN and every WAN to itself. */
  lemma ProfilesOkMean(cfg: Config)
    requires GoodIds(cfg.profiles)
    ensures (forall i :: 0 <= i < |cfg.profiles| ==> ProfileOk(cfg, cfg.profiles[i]))
            <==> (forall i :: 0 <= i < |cfg.profiles| ==>
                    var p := cfg.profiles[i]; NoRepeats(p.locals) && NoRepeats(p.wans) && NoRepeats(p.policies))
                 && (forall lan :: 0 <= lan < cfg.localCount ==> OneForLan(cfg.profiles, lan))
                 && (forall wan :: 0 <= wan < cfg.wanCount ==> OneForWan(cfg.profiles, wan))
  {
    hide NoRepeats, Unowned, OneOwner, OneForLan, OneForWan, GoodIds;
    var ps := cfg.profiles;
    ValidMeansOneOwner(ps, Lans, cfg.localCount);
    ValidMeansOneOwner(ps, Wans, cfg.wanCount);
    forall idx ensures (OneOwner(ps, Lans, idx) <==> OneForLan(ps, idx)) && (OneOwner(ps, Wans, idx) <==> OneForWan(ps, idx)) {
      OneFor(ps, idx);
    }
  }

  /* Picking a profile */

  /** What a profile offers for a packet from a LAN. */
  function Offer(cfg: Config, pi: nat, lan: int, flow: Option<Packet>): (r: Option<nat>)
    requires pi < |cfg.profiles|
    ensures r.Some? ==> r.value < |cfg.policies|
  {
    var p := cfg.profiles[pi];
    if !p.enabled || lan !in p.locals || flow.None? then None
    else
      var c := Chosen(cfg, p.policies, flow.value);
      if c.None? then None else Some(p.policies[c.value])
  }

  datatype Pick = Pick(profile: nat, policy: nat)

  /** The best offer of the first `n` profiles. */
  function PickFrom(cfg: Config, lan: int, flow: Option<Packet>, n: nat): (r: Option<Pick>)
    requires n <= |cfg.profiles|
    ensures r.Some? ==> r.value.profile < n && Offer(cfg, r.value.profile, lan, flow) == Some(r.value.policy)
  {
    if n == 0 then None
    else
      var b := PickFrom(cfg, lan, flow, n - 1);
      var o := Offer(cfg, n - 1, lan, flow);
      if o.Some? && (b.None? || Better(cfg.policies[o.value], cfg.policies[b.value.policy])) then Some(Pick(n - 1, o.value)) else b
  }

  /** pick_profile_policy; `flow` is None when the packet could not be parsed. */
  method PickProfilePolicy(cfg: Config, lan: int, flow: Option<Packet>) returns (best: Option<Pick>)
    ensures best == PickFrom(cfg, lan, flow, |cfg.profiles|)
  {
    best := None;
    hide Better, Chosen;
    for pi := 0 to |cfg.profiles|
      invariant best == PickFrom(cfg, lan, flow, pi)
    {
      if cfg.profiles[pi].enabled && lan in cfg.profiles[pi].locals && flow != None {
        var c := SelectCryptoPolicy(cfg, pi, flow.value);
        if c != None && (best == None || Better(cfg.policies[c.value], cfg.policies[best.value.policy])) {
          best := Some(Pick(pi, c.value));
        }
      }
    }
  }

  /** On a validated LAN the pick is its one profile's choice. */
  lemma {:induction false} PickIsOwnersChoice(cfg: Config, lan: int, flow: Option<Packet>, owner: nat, n: nat)
    requires n <= |cfg.profiles| && owner < |cfg.profiles| && OneOwner(cfg.profiles, Lans, lan)
    requires lan in cfg.profiles[owner].locals
    ensures var o := Offer(cfg, owner, lan, flow);
            PickFrom(cfg, lan, flow, n) == if owner < n && o.Some? then Some(Pick(owner, o.value)) else None
  {
    if n > 0 {
      PickIsOwnersChoice(cfg, lan, flow, owner, n - 1);
      assert lan in Bound(cfg.profiles[owner], Lans);
      assert lan in cfg.profiles[n - 1].locals ==> lan in Bound(cfg.profiles[n - 1], Lans);
      hide Chosen, Better;
    }
  }

  /* The same in numbers */

  /** Is policy `a` at `k` to be taken before policy `b` at `j`? */
  predicate Before(a: Policy, k: nat, b: Policy, j: nat) {
    a.priority < b.priority || (a.priority == b.priority && (a.id < b.id || (a.id == b.id && k <= j)))
  }

  /** Entry `j` of the list is a policy that matches the flow. */
  predicate Applies(cfg: Config, list: seq<int>, p: Packet, j: nat) {
    j < |list| && 0 <= list[j] < |cfg.policies| && MatchesFlow(cfg.policies[list[j]], p)
  }

  /**
   * The policy chosen matches, and comes before every other that matches: lower priority number first, then lower id,
   * then earlier in the list; one that encrypts comes before any that bypasses.  None is chosen only if none matches.
   */
  lemma ChosenIsFirst(cfg: Config, list: seq<int>, p: Packet)
    ensures match Chosen(cfg, list, p)
            case None => forall j :: 0 <= j < |list| ==> !Applies(cfg, list, p, j)
            case Some(k) =>
              Applies(cfg, list, p, k)
              && forall j :: 0 <= j < |list| && Applies(cfg, list, p, j) ==>
                   var a, b := cfg.policies[list[k]], cfg.policies[list[j]];
                   if a.action != 0 then b.action == 0 || Before(a, k, b, j) else b.action == 0 && Before(a, k, b, j)
  {
    BestIsFirst(cfg, list, p, false, |list|);
    BestIsFirst(cfg, list, p, true, |list|);
    hide MatchesFlow, BestOf;
    forall j | 0 <= j < |list| && Applies(cfg, list, p, j)
      ensures Candidate(cfg, list, p, cfg.policies[list[j]].action == 0, j) {
    }
  }

  /** A net with the mask of a prefix takes the addresses of its block of 2^(32 - len), a negated one all others. */
  lemma NetTakes(n: Net, ip: uint32, len: nat)
    requires len <= 32 && n.mask == PrefixMask(len)
    ensures InNet(n, ip) <==> n.any || (if n.negate then ip / Pow2(32 - len) != n.net / Pow2(32 - len)
                                        else ip / Pow2(32 - len) == n.net / Pow2(32 - len))
  {
    hide And32, PrefixMask, Pow2;
    SamePrefix(ip, n.net, len);
  }

  /** 10.0.0.0/8 takes 10.0.0.5 and not 11.0.0.5. */
  lemma NetExample()
    ensures PrefixMask(8) == 0xFF00_0000
    ensures InNet(Net(false, false, 0x0A00_0000, PrefixMask(8)), 0x0A00_0005)
    ensures !InNet(Net(false, false, 0x0A00_0000, PrefixMask(8)), 0x0B00_0005)
    ensures !InNet(Net(false, true, 0x0A00_0000, PrefixMask(8)), 0x0A00_0005)
  {
    assert Pow2(8) == 256;
    assert Pow2(16) == 0x1_0000;
    assert Pow2(24) == 0x100_0000;
    hide Pow2;
    NetTakes(Net(false, false, 0x0A00_0000, PrefixMask(8)), 0x0A00_0005, 8);
    NetTakes(Net(false, false, 0x0A00_0000, PrefixMask(8)), 0x0B00_0005, 8);
    NetTakes(Net(false, true, 0x0A00_0000, PrefixMask(8)), 0x0A00_0005, 8);
  }

  /** What a range of ports asks: nothing if an end is negative. */
  predicate PortsAsk(from: int, to: int, port: int) { from < 0 || to < 0 || (from <= port && port <= to) }

  /** 0 stands for any protocol and 254 for TCP or UDP. */
  predicate ProtocolAsks(want: int, proto: int) {
    want == 0 || (want == 254 && (proto == 6 || proto == 17)) || (want != 254 && proto == want)
  }

  /** A policy matches a flow if its packets do in one direction: addresses, ports and protocol all at once. */
  lemma FlowTakes(cp: Policy, p: Packet)
    ensures MatchesFlow(cp, p)
            <==> (InNet(cp.src, p.src) && InNet(cp.dst, p.dst)
                  && PortsAsk(cp.srcPorts.from, cp.srcPorts.to, p.sport) && PortsAsk(cp.dstPorts.from, cp.dstPorts.to, p.dport)
                  && ProtocolAsks(cp.protocol, p.proto))
                 || (InNet(cp.src, p.dst) && InNet(cp.dst, p.src)
                     && PortsAsk(cp.srcPorts.from, cp.srcPorts.to, p.dport) && PortsAsk(cp.dstPorts.from, cp.dstPorts.to, p.sport)
                     && ProtocolAsks(cp.protocol, p.proto))
  {
    hide InNet;
  }

  /**
   * Among the first `n` profiles that are enabled and bind the LAN, the pick is the one whose own choice comes first
   * in the same order; none is picked only if none of them has a choice.
   */
  lemma {:induction false} PickIsFirst(cfg: Config, lan: int, flow: Option<Packet>, n: nat)
    requires n <= |cfg.profiles|
    ensures match PickFrom(cfg, lan, flow, n)
            case None => forall i :: 0 <= i < n ==> Offer(cfg, i, lan, flow) == None
            case Some(b) =>
              b.profile < n && Offer(cfg, b.profile, lan, flow) == Some(b.policy)
              && forall i :: 0 <= i < n && Offer(cfg, i, lan, flow).Some? ==>
                   Before(cfg.policies[b.policy], b.profile, cfg.policies[Offer(cfg, i, lan, flow).value], i)
  {
    hide Offer;
    if n > 0 {
      PickIsFirst(cfg, lan, flow, n - 1);
    }
  }

  /** What a profile offers is what it chooses, and only if it is enabled, binds the LAN and the packet is a flow's. */
  lemma OfferMeans(cfg: Config, i: nat, lan: int, flow: Option<Packet>)
    requires i < |cfg.profiles|
    ensures Offer(cfg, i, lan, flow).Some?
            <==> cfg.profiles[i].enabled && flow.Some? && (exists k :: 0 <= k < |cfg.profiles[i].locals| && cfg.profiles[i].locals[k] == lan)
                 && exists j :: 0 <= j < |cfg.profiles[i].policies| && Applies(cfg, cfg.profiles[i].policies, flow.value, j)
  {
    if flow.Some? {
      ChosenIsFirst(cfg, cfg.profiles[i].policies, flow.value);
    }
    hide Applies, Chosen;
  }
}
