/** Which server of a group a request goes to (src/ServerGroup.cpp `getMaster`, `getReadServer`). */
module ServerGroups {
  import opened Bytes
  import opened Servers
  import opened Ranking

  /** A server as a handler sees it during one call; `pending` are the handler's pending requests to it. */
  datatype Server = Server(id: nat, online: bool, role: Role, isStatic: bool, fail: bool, dc: Option<nat>,
                           pending: int)

  /** The read priorities of a pool. */
  datatype Priorities = Priorities(master: int, staticSlave: int, dynamicSlave: int)

  /** What the local data centre thinks of each data centre. */
  datatype Policy = Policy(priority: seq<int>, weight: seq<int>) {
    predicate Valid() { |priority| == |weight| }
  }

  function ReadPriority(p: Priorities, s: Server): int {
    match s.role
    case Master => p.master
    case Slave => if s.isStatic then p.staticSlave else p.dynamicSlave
    case Unknown => 0
  }

  /** The server may be read from at all. */
  predicate Candidate(p: Priorities, s: Server) { s.online && ReadPriority(p, s) > 0 }

  /** `getMaster`, and `getServer` for writes: the first master that is online. */
  method GetMaster(servs: seq<Server>) returns (r: Option<Server>)
    ensures r == None <==> forall s :: s in servs ==> !(s.online && s.role.Master?)
    ensures r.Some? ==> exists i :: 0 <= i < |servs| && servs[i] == r.value && r.value.online && r.value.role.Master?
                                    && forall j :: 0 <= j < i ==> !(servs[j].online && servs[j].role.Master?)
  {
    for i := 0 to |servs|
      invariant forall j :: 0 <= j < i ==> !(servs[j].online && servs[j].role.Master?)
    {
      if servs[i].online && servs[i].role.Master? { return Some(servs[i]); }
    }
    r := None;
  }

  function RankOf(p: Priorities, s: Server): Ranked<Server> {
    Ranked(s, ReadPriority(p, s), if s.fail then 0 else -s.pending)
  }

  /** The candidates that are down, or those that are not, with their ranks. */
  function Ranks(p: Priorities, servs: seq<Server>, down: bool): seq<Ranked<Server>> {
    if servs == [] then []
    else
      var r, s := Ranks(p, servs[..|servs| - 1], down), servs[|servs| - 1];
      if Candidate(p, s) && s.fail == down then r + [RankOf(p, s)] else r
  }

  lemma {:induction false} RanksSnoc(p: Priorities, servs: seq<Server>, s: Server, down: bool)
    ensures Ranks(p, servs + [s], down)
         == if Candidate(p, s) && s.fail == down then Ranks(p, servs, down) + [RankOf(p, s)]
            else Ranks(p, servs, down)
  {
    assert (servs + [s])[..|servs|] == servs;
  }

  lemma {:induction false} RanksAreCandidates(p: Priorities, servs: seq<Server>, down: bool)
    ensures forall i :: 0 <= i < |Ranks(p, servs, down)| ==>
              var r := Ranks(p, servs, down)[i];
              r == RankOf(p, r.val) && r.val in servs && Candidate(p, r.val) && r.val.fail == down
    ensures forall s :: s in servs && Candidate(p, s) && s.fail == down ==> RankOf(p, s) in Ranks(p, servs, down)
  {
    if servs != [] {
      RanksAreCandidates(p, servs[..|servs| - 1], down);
      assert servs == servs[..|servs| - 1] + [servs[|servs| - 1]];
    }
  }

  /** An array holds the best so far, and `hi` and `lo` are what they are judged by. */
  ghost predicate Holds<T>(a: array<T>, n: nat, best: seq<Ranked<T>>, hi: int, lo: int)
    reads a
  {
    && n == |best| <= a.Length && (forall i :: 0 <= i < n ==> a[i] == best[i].val)
    && (n == 0 ==> hi == 0) && (n > 0 ==> hi == best[0].hi && lo == best[0].lo)
  }

  /** One more candidate: a better one starts the list anew, an equal one is added. */
  method Note<T>(a: array<T>, n: nat, x: Ranked<T>, hi: int, lo: int, ghost rs: seq<Ranked<T>>)
    returns (m: nat, hi': int, lo': int)
    requires Holds(a, n, Tops(rs), hi, lo) && n < a.Length && x.hi > 0
    modifies a
    ensures Holds(a, m, Tops(rs + [x]), hi', lo') && m <= n + 1
    ensures forall i :: n < i < a.Length ==> a[i] == old(a[i])
  {
    TopsSnoc(rs, x);
    hide Tops;
    m, hi', lo' := n, hi, lo;
    if x.hi > hi {
      m, hi', lo' := 1, x.hi, x.lo;
      a[0] := x.val;
    } else if x.hi == hi {
      if x.lo > lo {
        m, lo' := 1, x.lo;
        a[0] := x.val;
      } else if x.lo == lo {
        a[n] := x.val;
        m := n + 1;
      }
    }
  }

  lemma {:induction false} HoldsNone<T>(a: array<T>, lo: int)
    ensures Holds(a, 0, [], 0, lo)
  {
  }

  /** The servers a read may go to: the best of those that are up, or if none is up, of those that are down. */
  function Choices(p: Priorities, servs: seq<Server>): seq<Ranked<Server>> {
    if Ranks(p, servs, false) != [] then Tops(Ranks(p, servs, false)) else Tops(Ranks(p, servs, true))
  }

  function Pick(rs: seq<Ranked<Server>>, rand: nat): Option<Server> {
    if rs == [] then None else Some(rs[rand % |rs|].val)
  }

  /** `getReadServer` without data centres */
  method GetReadServer(p: Priorities, mServs: seq<Server>, rand: nat) returns (r: Option<Server>)
    requires |mServs| <= MAX_SERV_IN_GROUP
    ensures r == Pick(Choices(p, mServs), rand)
  {
    hide Ranks, Tops, Holds, Pick, Choices;
    var servs, deadServs := new Server[MAX_SERV_IN_GROUP], new Server[MAX_SERV_IN_GROUP];
    var n: nat, prior, negPend, dn: nat, dprior, zero := 0, 0, 0, 0, 0, 0;
    NoRanks(p);
    HoldsNone(servs, 0);
    HoldsNone(deadServs, 0);
    for i := 0 to |mServs|
      invariant n <= i && Holds(servs, n, Tops(Ranks(p, mServs[..i], false)), prior, negPend)
      invariant dn <= i && Holds(deadServs, dn, Tops(Ranks(p, mServs[..i], true)), dprior, zero)
    {
      var s := mServs[i];
      assert mServs[..i + 1] == mServs[..i] + [s];
      RanksSnoc(p, mServs[..i], s, false);
      RanksSnoc(p, mServs[..i], s, true);
      if s.online && ReadPriority(p, s) > 0 {
        if s.fail {
          dn, dprior, zero := Note(deadServs, dn, RankOf(p, s), dprior, zero, Ranks(p, mServs[..i], true));
        } else {
          n, prior, negPend := Note(servs, n, RankOf(p, s), prior, negPend, Ranks(p, mServs[..i], false));
        }
      }
    }
    assert mServs[..|mServs|] == mServs;
    PickHeld(p, mServs, servs, n, prior, negPend, deadServs, dn, dprior, zero, rand);
    if n > 0 {
      r := Some(servs[rand % n]);
    } else if dn > 0 {
      r := Some(deadServs[rand % dn]);
    } else {
      r := None;
    }
  }

  /** Drawing from the live candidates held, or if there is none from the others, is drawing from the choices. */
  lemma {:induction false} PickHeld(p: Priorities, cands: seq<Server>, servs: array<Server>, n: nat, hi: int, lo: int,
          deadServs: array<Server>, dn: nat, dhi: int, dlo: int, rand: nat)
    requires Holds(servs, n, Tops(Ranks(p, cands, false)), hi, lo)
    requires Holds(deadServs, dn, Tops(Ranks(p, cands, true)), dhi, dlo)
    ensures n <= servs.Length && dn <= deadServs.Length
    ensures Pick(Choices(p, cands), rand)
         == if n > 0 then Some(servs[rand % n]) else if dn > 0 then Some(deadServs[rand % dn]) else None
  {
    hide Ranks, Tops;
    TopsAreBest(Ranks(p, cands, false));
    NoTops<Server>();
  }

  lemma {:induction false} NoRanks(p: Priorities)
    ensures Tops(Ranks(p, [], false)) == [] && Tops(Ranks(p, [], true)) == []
  {
  }

  lemma {:induction false} NoTops<T>()
    ensures Tops<T>([]) == []
  {
  }

  /** `s` is as good as any other candidate that is up or down like it: the highest read priority, and when it is
      up the fewest pending requests among those. */
  predicate BestOfItsKind(p: Priorities, servs: seq<Server>, s: Server) {
    forall t :: t in servs && Candidate(p, t) && t.fail == s.fail ==>
      ReadPriority(p, t) < ReadPriority(p, s)
      || (ReadPriority(p, t) == ReadPriority(p, s) && (s.fail || s.pending <= t.pending))
  }

  /** What a read goes to: a candidate that is up if any is, and the best of its kind; nothing exactly when there
      is no candidate. */
  lemma {:induction false} ReadGoesToTheBest(p: Priorities, servs: seq<Server>, rand: nat)
    ensures Pick(Choices(p, servs), rand) == None <==> forall s :: s in servs ==> !Candidate(p, s)
    ensures Pick(Choices(p, servs), rand).Some? ==>
              var s := Pick(Choices(p, servs), rand).value;
              && s in servs && Candidate(p, s) && BestOfItsKind(p, servs, s)
              && (s.fail ==> forall t :: t in servs && Candidate(p, t) ==> t.fail)
  {
    hide Ranks, Tops;
    var up, down := Ranks(p, servs, false), Ranks(p, servs, true);
    RanksAreCandidates(p, servs, false);
    RanksAreCandidates(p, servs, true);
    TopsAreBest(up);
    TopsAreBest(down);
    NoTops<Server>();
  }

  /** The kinds of servers that have a priority of their own. */
  datatype Kind = OfMaster | OfStaticSlave | OfDynamicSlave

  predicate IsKind(s: Server, k: Kind) {
    match k
    case OfMaster => s.role == Master
    case OfStaticSlave => s.role == Slave && s.isStatic
    case OfDynamicSlave => s.role == Slave && !s.isStatic
  }

  /** The configured priority of the kind is positive and above those of the other two. */
  predicate IsAhead(p: Priorities, k: Kind) {
    match k
    case OfMaster => p.master > 0 && p.master > p.staticSlave && p.master > p.dynamicSlave
    case OfStaticSlave => p.staticSlave > 0 && p.staticSlave > p.master && p.staticSlave > p.dynamicSlave
    case OfDynamicSlave => p.dynamicSlave > 0 && p.dynamicSlave > p.master && p.dynamicSlave > p.staticSlave
  }

  /** If a kind of server is ahead of the others and one of it is online and up, a read goes to one of that kind that
      is. */
  lemma {:induction false} ReadGoesToKind(p: Priorities, servs: seq<Server>, rand: nat, k: Kind, s: Server)
    requires IsAhead(p, k) && s in servs && IsKind(s, k) && s.online && !s.fail
    ensures var r := Pick(Choices(p, servs), rand);
            r.Some? && r.value in servs && IsKind(r.value, k) && r.value.online && !r.value.fail
  {
    hide Choices, Pick;
    ReadGoesToTheBest(p, servs, rand);
    assert Candidate(p, s);
  }

  /** The best of its kind is among the ranks that no other beats. */
  lemma {:induction false} BestIsTop(p: Priorities, servs: seq<Server>, s: Server)
    requires s in servs && Candidate(p, s) && BestOfItsKind(p, servs, s)
    ensures RankOf(p, s) in Tops(Ranks(p, servs, s.fail))
  {
    hide Ranks, Tops, Candidate, ReadPriority;
    var rs := Ranks(p, servs, s.fail);
    RanksAreCandidates(p, servs, s.fail);
    TopsAreBest(rs);
    forall i | 0 <= i < |rs| ensures !Beats(rs[i], RankOf(p, s)) {
      assert rs[i] == RankOf(p, rs[i].val);
    }
  }

  /** Those that are up come first. */
  lemma {:induction false} ChoicesAre(p: Priorities, servs: seq<Server>, s: Server)
    requires s in servs && Candidate(p, s)
    requires s.fail ==> forall t :: t in servs && Candidate(p, t) ==> t.fail
    ensures Choices(p, servs) == Tops(Ranks(p, servs, s.fail))
  {
    hide Ranks, Tops, Candidate, RankOf;
    RanksAreCandidates(p, servs, false);
    var up := Ranks(p, servs, false);
    var first := if up == [] then s else up[0].val;
    assert first in servs && Candidate(p, first) && (up != [] ==> !first.fail);
    if !s.fail { assert RankOf(p, s) in up; }
  }

  lemma {:induction false} PickAt(rs: seq<Ranked<Server>>, i: nat)
    requires i < |rs|
    ensures Pick(rs, i) == Some(rs[i].val)
  {
    SmallRemainder(i, |rs|);
  }

  lemma {:induction false} SmallRemainder(i: nat, n: nat)
    requires i < n
    ensures i % n == i
  {
  }

  /** Any of the servers that no other is better than may be drawn. */
  lemma {:induction false} AnyBestIsDrawn(p: Priorities, servs: seq<Server>, s: Server) returns (rand: nat)
    requires s in servs && Candidate(p, s) && BestOfItsKind(p, servs, s)
    requires s.fail ==> forall t :: t in servs && Candidate(p, t) ==> t.fail
    ensures Pick(Choices(p, servs), rand) == Some(s)
  {
    hide Choices, Pick, Ranks, Tops, Candidate, BestOfItsKind;
    BestIsTop(p, servs, s);
    ChoicesAre(p, servs, s);
    var rs := Choices(p, servs);
    rand :| 0 <= rand < |rs| && rs[rand] == RankOf(p, s);
    PickAt(rs, rand);
  }

  // ----- with data centres -----

  predicate KnownDCs(policy: Policy, servs: seq<Server>) {
    forall i :: 0 <= i < |servs| && servs[i].dc.Some? ==> servs[i].dc.value < |policy.priority|
  }

  /** The server may be read from, from the local data centre. */
  predicate DCCandidate(p: Priorities, policy: Policy, s: Server) {
    && Candidate(p, s) && s.dc.Some? && s.dc.value < |policy.priority| && policy.priority[s.dc.value] > 0
  }

  function DCCandidates(p: Priorities, policy: Policy, servs: seq<Server>): (r: seq<Server>)
    ensures |r| <= |servs|
    ensures forall s :: s in r <==> s in servs && DCCandidate(p, policy, s)
  {
    if servs == [] then []
    else
      var r, s := DCCandidates(p, policy, servs[..|servs| - 1]), servs[|servs| - 1];
      assert servs == servs[..|servs| - 1] + [s];
      if DCCandidate(p, policy, s) then r + [s] else r
  }

  lemma {:induction false} DCCandidatesSnoc(p: Priorities, policy: Policy, servs: seq<Server>, s: Server)
    ensures DCCandidates(p, policy, servs + [s])
         == if DCCandidate(p, policy, s) then DCCandidates(p, policy, servs) + [s]
            else DCCandidates(p, policy, servs)
  {
    assert (servs + [s])[..|servs|] == servs;
  }

  /** The data centres of candidates that are down, or of those that are not, ranked by the policy. */
  function DCRanks(policy: Policy, cands: seq<Server>, down: bool): seq<Ranked<nat>>
    requires KnownDCs(policy, cands)
  {
    if cands == [] then []
    else
      var r, s := DCRanks(policy, cands[..|cands| - 1], down), cands[|cands| - 1];
      if s.dc.Some? && s.fail == down then r + [Ranked(s.dc.value, policy.priority[s.dc.value], 0)] else r
  }

  lemma {:induction false} DCRanksSnoc(policy: Policy, cands: seq<Server>, s: Server, down: bool)
    requires KnownDCs(policy, cands) && (s.dc.Some? ==> s.dc.value < |policy.priority|)
    ensures KnownDCs(policy, cands + [s])
    ensures DCRanks(policy, cands + [s], down)
         == if s.dc.Some? && s.fail == down
            then DCRanks(policy, cands, down) + [Ranked(s.dc.value, policy.priority[s.dc.value], 0)]
            else DCRanks(policy, cands, down)
  {
    assert (cands + [s])[..|cands|] == cands;
  }

  lemma {:induction false} DCRanksAreThere(policy: Policy, cands: seq<Server>, down: bool)
    requires KnownDCs(policy, cands)
    ensures forall i :: 0 <= i < |DCRanks(policy, cands, down)| ==>
              var r := DCRanks(policy, cands, down)[i];
              && r.val < |policy.priority| && r == Ranked(r.val, policy.priority[r.val], 0)
              && exists s :: s in cands && s.dc == Some(r.val) && s.fail == down
    ensures forall s :: s in cands && s.dc.Some? && s.fail == down ==>
              Ranked(s.dc.value, policy.priority[s.dc.value], 0) in DCRanks(policy, cands, down)
  {
    if cands != [] {
      DCRanksAreThere(policy, cands[..|cands| - 1], down);
      assert cands == cands[..|cands| - 1] + [cands[|cands| - 1]];
      assert cands[|cands| - 1] in cands;
    }
  }

  /** `std::lower_bound` */
  method LowerBound(a: array<int>, n: nat, w: int) returns (i: nat)
    requires n <= a.Length && Rising(a[..n])
    ensures i <= n && (forall j :: 0 <= j < i ==> a[j] < w) && (forall j :: i <= j < n ==> a[j] >= w)
  {
    i := 0;
    var hi := n;
    while i < hi
      invariant i <= hi <= n
      invariant (forall j :: 0 <= j < i ==> a[j] < w) && (forall j :: hi <= j < n ==> a[j] >= w)
    {
      var mid := (i + hi) / 2;
      assert forall j, k :: 0 <= j <= k < n ==> a[..n][j] <= a[..n][k];
      if a[mid] < w { i := mid + 1; } else { hi := mid; }
    }
  }

  /** One of these data centres, with a positive weight. */
  predicate Weighted(policy: Policy, dcs: seq<nat>, d: nat) {
    d in dcs && d < |policy.weight| && policy.weight[d] > 0
  }

  /** The data centres with a positive weight are compacted in place, beside the sums of their weights, and one of
      them is drawn. */
  method Draw(policy: Policy, sdc: array<nat>, m: nat, rand: nat) returns (dc: Option<nat>)
    requires policy.Valid() && m <= sdc.Length && forall i :: 0 <= i < m ==> sdc[i] < |policy.weight|
    modifies sdc
    ensures dc.Some? ==> Weighted(policy, old(sdc[..m]), dc.value)
    ensures dc == None ==> forall i :: 0 <= i < m ==> policy.weight[old(sdc[..m])[i]] <= 0
  {
    ghost var was := sdc[..m];
    var weights := new int[sdc.Length];
    var w, n: nat := 0, 0;
    for i := 0 to m
      invariant n <= i && (n == 0 ==> w == 0) && (n > 0 ==> w == weights[n - 1] > 0)
      invariant forall k :: i <= k < m ==> sdc[k] == was[k]
      invariant Rising(weights[..n]) && AllWeighted(policy, was, sdc[..n])
      invariant n == 0 ==> forall j :: 0 <= j < i ==> policy.weight[was[j]] <= 0
    {
      hide Rising, AllWeighted;
      var d := sdc[i];
      var dw := policy.weight[d];
      if dw > 0 {
        ghost var ws, ds := weights[..n], sdc[..n];
        w := w + dw;
        sdc[n] := d;
        weights[n] := w;
        n := n + 1;
        assert weights[..n] == ws + [w] && sdc[..n] == ds + [d];
        assert d == was[i];
        OneMoreWeight(policy, was, ws, w, ds, d);
      }
    }
    if w > 0 {
      var i := LowerBound(weights, n, rand % w);
      assert n > 0 && weights[n - 1] == w > rand % w;
      assert i < n && sdc[..n][i] == sdc[i];
      dc := Some(sdc[i]);
    } else {
      dc := None;
    }
  }

  predicate Rising(ws: seq<int>) {
    forall j, k :: 0 <= j < k < |ws| ==> ws[j] <= ws[k]
  }

  predicate AllWeighted(policy: Policy, dcs: seq<nat>, ds: seq<nat>) {
    forall j :: 0 <= j < |ds| ==> Weighted(policy, dcs, ds[j])
  }

  lemma {:induction false} OneMoreWeight(policy: Policy, dcs: seq<nat>, ws: seq<int>, w: int, ds: seq<nat>, d: nat)
    requires Rising(ws) && AllWeighted(policy, dcs, ds) && Weighted(policy, dcs, d)
    requires ws != [] ==> ws[|ws| - 1] <= w
    ensures Rising(ws + [w]) && AllWeighted(policy, dcs, ds + [d])
  {
  }

  /** One of the data centres is drawn by weight; those without a positive weight are never drawn. */
  method ChooseDC(policy: Policy, idUnique: IDUnique, sdc: array<nat>, num: nat, rand: nat)
    returns (dc: Option<nat>)
    requires policy.Valid() && idUnique.Clear() && idUnique.marker.Length == |policy.priority|
    requires 0 < num <= sdc.Length && forall i :: 0 <= i < num ==> sdc[i] < |policy.priority|
    modifies sdc, idUnique.marker
    ensures idUnique.Clear()
    ensures dc.Some? ==> Weighted(policy, old(sdc[..num]), dc.value)
    ensures dc == None ==> forall i :: 0 <= i < num ==> policy.weight[old(sdc[..num])[i]] <= 0
  {
    if num == 1 {
      if policy.weight[sdc[0]] > 0 { return Some(sdc[0]); }
      return None;
    }
    hide Firsts;
    ghost var all := sdc[..num];
    FirstsAreDistinct(all);
    var m := idUnique.Unique(sdc, num);
    forall j | 0 <= j < m ensures sdc[j] in all && sdc[j] < |policy.weight| {
      assert sdc[..m][j] in Firsts(all);
    }
    ghost var distinct := sdc[..m];
    dc := Draw(policy, sdc, m, rand);
    if dc == None {
      forall i | 0 <= i < num ensures policy.weight[all[i]] <= 0 {
        assert all[i] in distinct;
      }
    }
  }

  function DCChoices(p: Priorities, policy: Policy, servs: seq<Server>): seq<Ranked<nat>> {
    var cands := DCCandidates(p, policy, servs);
    if !KnownDCs(policy, cands) then []
    else if DCRanks(policy, cands, false) != [] then Tops(DCRanks(policy, cands, false))
    else Tops(DCRanks(policy, cands, true))
  }

  /** The candidates in one data centre. */
  function InDC(cands: seq<Server>, dc: nat): (r: seq<Server>)
    ensures forall s :: s in r <==> s in cands && s.dc == Some(dc)
  {
    if cands == [] then []
    else
      var r, s := InDC(cands[..|cands| - 1], dc), cands[|cands| - 1];
      assert cands == cands[..|cands| - 1] + [s];
      if s.dc == Some(dc) then r + [s] else r
  }

  lemma {:induction false} InDCSnoc(cands: seq<Server>, dc: nat, s: Server)
    ensures InDC(cands + [s], dc) == if s.dc == Some(dc) then InDC(cands, dc) + [s] else InDC(cands, dc)
  {
    assert (cands + [s])[..|cands|] == cands;
  }

  lemma {:induction false} NoDCRanks(p: Priorities, policy: Policy)
    ensures DCCandidates(p, policy, []) == [] && KnownDCs(policy, [])
    ensures Tops(DCRanks(policy, [], false)) == [] && Tops(DCRanks(policy, [], true)) == []
  {
  }

  lemma {:induction false} ChoicesHeld(p: Priorities, policy: Policy, servs: seq<Server>, dcs: array<nat>, n: nat,
          hi: int, lo: int, deadDCs: array<nat>, dn: nat, dhi: int, dlo: int)
    requires KnownDCs(policy, DCCandidates(p, policy, servs))
    requires Holds(dcs, n, Tops(DCRanks(policy, DCCandidates(p, policy, servs), false)), hi, lo)
    requires Holds(deadDCs, dn, Tops(DCRanks(policy, DCCandidates(p, policy, servs), true)), dhi, dlo)
    ensures n <= dcs.Length && dn <= deadDCs.Length
    ensures var ds := DCChoices(p, policy, servs);
            && |ds| == (if n > 0 then n else dn)
            && forall i :: 0 <= i < |ds| ==> ds[i].val == if n > 0 then dcs[i] else deadDCs[i]
  {
    hide DCRanks, Tops, DCCandidates;
    TopsAreBest(DCRanks(policy, DCCandidates(p, policy, servs), false));
    NoTops<nat>();
  }

  /** The first pass: the candidates, and the data centres that the policy ranks highest. */
  method Collect(p: Priorities, policy: Policy, mServs: seq<Server>, servs: array<Server>)
    returns (num: nat, sdc: array<nat>, n: nat)
    requires |mServs| <= MAX_SERV_IN_GROUP == servs.Length && KnownDCs(policy, mServs)
    modifies servs
    ensures num <= |mServs| && servs[..num] == DCCandidates(p, policy, mServs)
    ensures fresh(sdc) && n == |DCChoices(p, policy, mServs)| <= sdc.Length
    ensures forall i :: 0 <= i < n ==> sdc[i] == DCChoices(p, policy, mServs)[i].val
  {
    hide DCRanks, Tops, DCCandidates, DCChoices, Holds, KnownDCs, Candidate;
    num := 0;
    var dcs, deadDCs := new nat[MAX_SERV_IN_GROUP], new nat[MAX_SERV_IN_GROUP];
    var prior, lo, dn: nat, dprior, dlo := 0, 0, 0, 0, 0;
    n := 0;
    NoDCRanks(p, policy);
    HoldsNone(dcs, 0);
    HoldsNone(deadDCs, 0);
    for i := 0 to |mServs|
      invariant num <= i && servs[..num] == DCCandidates(p, policy, mServs[..i])
      invariant KnownDCs(policy, servs[..num])
      invariant n <= i && Holds(dcs, n, Tops(DCRanks(policy, servs[..num], false)), prior, lo)
      invariant dn <= i && Holds(deadDCs, dn, Tops(DCRanks(policy, servs[..num], true)), dprior, dlo)
    {
      var s := mServs[i];
      assert mServs[..i + 1] == mServs[..i] + [s];
      DCCandidatesSnoc(p, policy, mServs[..i], s);
      if DCCandidate(p, policy, s) {
        ghost var before := servs[..num];
        DCRanksSnoc(policy, before, s, false);
        DCRanksSnoc(policy, before, s, true);
        servs[num] := s;
        num := num + 1;
        assert servs[..num] == before + [s];
        var x := Ranked(s.dc.value, policy.priority[s.dc.value], 0);
        if s.fail {
          dn, dprior, dlo := Note(deadDCs, dn, x, dprior, dlo, DCRanks(policy, before, true));
        } else {
          n, prior, lo := Note(dcs, n, x, prior, lo, DCRanks(policy, before, false));
        }
      }
    }
    assert mServs[..|mServs|] == mServs;
    ChoicesHeld(p, policy, mServs, dcs, n, prior, lo, deadDCs, dn, dprior, dlo);
    sdc := dcs;
    if n == 0 {
      n, sdc := dn, deadDCs;
    }
  }

  /** The last pass, over the candidates again: those in the chosen data centre are compacted in place, in the
      array that is being read. */
  method ChooseServer(p: Priorities, servs: array<Server>, num: nat, dc: nat, rand: nat) returns (r: Option<Server>)
    requires num <= servs.Length && forall i :: 0 <= i < num ==> Candidate(p, servs[i])
    modifies servs
    ensures r == Pick(Choices(p, InDC(old(servs[..num]), dc)), rand)
  {
    hide Ranks, Tops, InDC, Holds, Pick, Choices;
    ghost var cands := servs[..num];
    var deadServs := new Server[servs.Length];
    var n: nat, prior, negPend, dn: nat, dprior, zero := 0, 0, 0, 0, 0, 0;
    NoRanks(p);
    NoneInDC(dc);
    HoldsNone(servs, 0);
    HoldsNone(deadServs, 0);
    for i := 0 to num
      invariant n <= i && dn <= i && forall k :: i <= k < num ==> servs[k] == cands[k]
      invariant Holds(servs, n, Tops(Ranks(p, InDC(cands[..i], dc), false)), prior, negPend)
      invariant Holds(deadServs, dn, Tops(Ranks(p, InDC(cands[..i], dc), true)), dprior, zero)
    {
      var s := servs[i];
      ghost var seen := InDC(cands[..i], dc);
      assert cands[..i + 1] == cands[..i] + [s];
      InDCSnoc(cands[..i], dc, s);
      RanksSnoc(p, seen, s, false);
      RanksSnoc(p, seen, s, true);
      if s.dc == Some(dc) {
        if s.fail {
          dn, dprior, zero := Note(deadServs, dn, RankOf(p, s), dprior, zero, Ranks(p, seen, true));
        } else {
          n, prior, negPend := Note(servs, n, RankOf(p, s), prior, negPend, Ranks(p, seen, false));
        }
      }
    }
    assert cands[..num] == cands;
    PickHeld(p, InDC(cands, dc), servs, n, prior, negPend, deadServs, dn, dprior, zero, rand);
    if n > 0 {
      r := Some(servs[rand % n]);
    } else if dn > 0 {
      r := Some(deadServs[rand % dn]);
    } else {
      r := None;
    }
  }

  lemma {:induction false} NoneInDC(dc: nat)
    ensures InDC([], dc) == []
  {
  }

  /** The server may be read from, and is up unless every such server is down. */
  predicate Eligible(p: Priorities, policy: Policy, servs: seq<Server>, s: Server) {
    && s in servs && DCCandidate(p, policy, s)
    && (s.fail ==> forall t :: t in servs && DCCandidate(p, policy, t) ==> t.fail)
  }

  /** No eligible server is in a data centre that ranks higher. */
  predicate InTopDC(p: Priorities, policy: Policy, servs: seq<Server>, s: Server) {
    && Eligible(p, policy, servs, s)
    && forall t :: t in servs && Eligible(p, policy, servs, t) ==>
         policy.priority[t.dc.value] <= policy.priority[s.dc.value]
  }

  predicate HasWeight(policy: Policy, s: Server) {
    s.dc.Some? && s.dc.value < |policy.weight| && policy.weight[s.dc.value] > 0
  }

  /** What a read may go to: a server in a data centre that ranks highest and has a positive weight, with the
      highest read priority there, and if it is up the fewest pending requests among those. */
  predicate ReadChoice(p: Priorities, policy: Policy, servs: seq<Server>, s: Server) {
    && InTopDC(p, policy, servs, s) && HasWeight(policy, s)
    && forall t :: t in servs && Eligible(p, policy, servs, t) && t.dc == s.dc ==>
         ReadPriority(p, t) < ReadPriority(p, s)
         || (ReadPriority(p, t) == ReadPriority(p, s) && (s.fail || s.pending <= t.pending))
  }

  /** A server that is online, of a kind that is read from, in a data centre that is read from. */
  predicate MayBeRead(p: Priorities, policy: Policy, s: Server) {
    && s.online
    && ((IsKind(s, OfMaster) && p.master > 0) || (IsKind(s, OfStaticSlave) && p.staticSlave > 0)
        || (IsKind(s, OfDynamicSlave) && p.dynamicSlave > 0))
    && s.dc.Some? && s.dc.value < |policy.priority| && policy.priority[s.dc.value] > 0
  }

  /** What a read from the local data centre never does: go to a server that may not be read, to one that is down while
      another is up, or to a data centre with no weight or a lower priority than that of another that is as well. */
  lemma {:induction false} ReadIsInBestDC(p: Priorities, policy: Policy, servs: seq<Server>, s: Server, t: Server)
    requires ReadChoice(p, policy, servs, s) && t in servs && MayBeRead(p, policy, t)
    ensures MayBeRead(p, policy, s) && s.dc.value < |policy.weight| && policy.weight[s.dc.value] > 0
    ensures s.fail ==> t.fail
    ensures s.fail == t.fail ==> policy.priority[t.dc.value] <= policy.priority[s.dc.value]
  {
  }

  /** If one data centre is ahead of all others and has weight, and a server there that may be read is up, then a read
      goes there. */
  lemma {:induction false} AheadIsRead(p: Priorities, policy: Policy, servs: seq<Server>, t: Server)
    requires t in servs && MayBeRead(p, policy, t) && !t.fail
    requires t.dc.value < |policy.weight| && policy.weight[t.dc.value] > 0
    requires forall d :: 0 <= d < |policy.priority| && d != t.dc.value ==> policy.priority[d] < policy.priority[t.dc.value]
    ensures !NothingToRead(p, policy, servs)
    ensures forall s :: ReadChoice(p, policy, servs, s) ==> s.dc == t.dc && !s.fail
  {
    assert InTopDC(p, policy, servs, t);
    forall s | ReadChoice(p, policy, servs, s) ensures s.dc == t.dc && !s.fail {
      ReadIsInBestDC(p, policy, servs, s, t);
    }
  }

  /** Without a server that may be read there is nothing to read. */
  lemma {:induction false} NoneMayBeRead(p: Priorities, policy: Policy, servs: seq<Server>)
    requires forall s :: s in servs ==> !MayBeRead(p, policy, s)
    ensures NothingToRead(p, policy, servs)
  {
    forall s | s in servs ensures !DCCandidate(p, policy, s) {
      assert !MayBeRead(p, policy, s);
    }
  }

  /** The ranks that the choices are the best of: of the candidates that are up, or if there is none, of all. */
  function RanksToDraw(p: Priorities, policy: Policy, servs: seq<Server>): seq<Ranked<nat>>
    requires KnownDCs(policy, DCCandidates(p, policy, servs))
  {
    var cands := DCCandidates(p, policy, servs);
    DCRanks(policy, cands, DCRanks(policy, cands, false) == [])
  }

  lemma {:induction false} CandidatesKnown(p: Priorities, policy: Policy, servs: seq<Server>)
    ensures KnownDCs(policy, DCCandidates(p, policy, servs))
  {
    var cands := DCCandidates(p, policy, servs);
    forall i | 0 <= i < |cands| ensures cands[i].dc.Some? && cands[i].dc.value < |policy.priority| {
      assert cands[i] in cands;
    }
  }

  lemma {:induction false} ChoicesAreBest(p: Priorities, policy: Policy, servs: seq<Server>)
    requires KnownDCs(policy, DCCandidates(p, policy, servs))
    ensures AreBest(DCChoices(p, policy, servs), RanksToDraw(p, policy, servs))
  {
    hide DCRanks, Tops, DCCandidates, AreBest;
    TopsAreBest(RanksToDraw(p, policy, servs));
  }

  /** Every eligible server has such a rank. */
  lemma {:induction false} EligibleIsRanked(p: Priorities, policy: Policy, servs: seq<Server>, s: Server)
    requires KnownDCs(policy, DCCandidates(p, policy, servs))
    requires Eligible(p, policy, servs, s)
    ensures s.dc.Some? && s.dc.value < |policy.priority|
    ensures Ranked(s.dc.value, policy.priority[s.dc.value], 0) in RanksToDraw(p, policy, servs)
  {
    hide DCRanks, DCCandidates;
    var cands := DCCandidates(p, policy, servs);
    DCRanksAreThere(policy, cands, false);
    DCRanksAreThere(policy, cands, true);
    if DCRanks(policy, cands, false) != [] { var t := LiveCandidate(p, policy, servs); }
  }

  lemma {:induction false} LiveCandidate(p: Priorities, policy: Policy, servs: seq<Server>) returns (t: Server)
    requires KnownDCs(policy, DCCandidates(p, policy, servs))
    requires DCRanks(policy, DCCandidates(p, policy, servs), false) != []
    ensures t in servs && DCCandidate(p, policy, t) && !t.fail
  {
    hide DCRanks, DCCandidates;
    var cands := DCCandidates(p, policy, servs);
    DCRanksAreThere(policy, cands, false);
    t :| t in cands && t.dc == Some(DCRanks(policy, cands, false)[0].val) && !t.fail;
  }

  lemma {:induction false} RankedIsEligible(p: Priorities, policy: Policy, servs: seq<Server>, r: Ranked<nat>)
    returns (s: Server)
    requires KnownDCs(policy, DCCandidates(p, policy, servs)) && r in RanksToDraw(p, policy, servs)
    ensures r.val < |policy.priority| && r == Ranked(r.val, policy.priority[r.val], 0)
    ensures s in servs && Eligible(p, policy, servs, s) && s.dc == Some(r.val)
  {
    hide DCRanks, DCCandidates;
    var cands := DCCandidates(p, policy, servs);
    var down := DCRanks(policy, cands, false) == [];
    DCRanksAreThere(policy, cands, false);
    DCRanksAreThere(policy, cands, down);
    s :| s in cands && s.dc == Some(r.val) && s.fail == down;
  }

  lemma {:induction false} ChoiceIsTop(p: Priorities, policy: Policy, servs: seq<Server>, i: nat) returns (s: Server)
    requires i < |DCChoices(p, policy, servs)|
    ensures var d := DCChoices(p, policy, servs)[i].val;
            d < |policy.priority| && s in servs && InTopDC(p, policy, servs, s) && s.dc == Some(d)
  {
    hide DCChoices, RanksToDraw, Eligible, KnownDCs;
    CandidatesKnown(p, policy, servs);
    ChoicesAreBest(p, policy, servs);
    var best, rs := DCChoices(p, policy, servs), RanksToDraw(p, policy, servs);
    s := RankedIsEligible(p, policy, servs, best[i]);
    forall t | t in servs && Eligible(p, policy, servs, t)
      ensures t.dc.Some? && t.dc.value < |policy.priority|
              && policy.priority[t.dc.value] <= policy.priority[s.dc.value]
    {
      EligibleIsRanked(p, policy, servs, t);
      var j :| 0 <= j < |rs| && rs[j] == Ranked(t.dc.value, policy.priority[t.dc.value], 0);
      assert !Beats(rs[j], best[0]) && Equals(best[i], best[0]);
    }
  }

  lemma {:induction false} TopIsChoice(p: Priorities, policy: Policy, servs: seq<Server>, s: Server) returns (i: nat)
    requires s in servs && InTopDC(p, policy, servs, s)
    ensures s.dc.Some? && i < |DCChoices(p, policy, servs)| && DCChoices(p, policy, servs)[i].val == s.dc.value
  {
    hide DCChoices, RanksToDraw, Eligible, KnownDCs;
    CandidatesKnown(p, policy, servs);
    ChoicesAreBest(p, policy, servs);
    var best, rs := DCChoices(p, policy, servs), RanksToDraw(p, policy, servs);
    EligibleIsRanked(p, policy, servs, s);
    var r := Ranked(s.dc.value, policy.priority[s.dc.value], 0);
    var j :| 0 <= j < |rs| && rs[j] == r;
    var t := RankedIsEligible(p, policy, servs, best[0]);
    assert !Beats(rs[j], best[0]) && Equals(rs[j], best[0]);
    i :| 0 <= i < |best| && best[i] == r;
  }

  lemma {:induction false} NoneInTopDC(p: Priorities, policy: Policy, servs: seq<Server>)
    requires KnownDCs(policy, servs) && policy.Valid()
    requires forall i :: 0 <= i < |DCChoices(p, policy, servs)| ==>
               var d := DCChoices(p, policy, servs)[i].val; d < |policy.weight| ==> policy.weight[d] <= 0
    ensures NothingToRead(p, policy, servs)
  {
    hide DCChoices, InTopDC, KnownDCs, Policy.Valid;
    forall s | s in servs && InTopDC(p, policy, servs, s) ensures !HasWeight(policy, s) {
      var i := TopIsChoice(p, policy, servs, s);
    }
  }

  /** No top data centre has a positive weight. */
  predicate NothingToRead(p: Priorities, policy: Policy, servs: seq<Server>) {
    forall s :: s in servs ==> !(InTopDC(p, policy, servs, s) && HasWeight(policy, s))
  }

  /** The best of the candidates in the data centre that was drawn. */
  lemma {:induction false} BestInDC(p: Priorities, policy: Policy, servs: seq<Server>, i: nat, rand: nat)
    requires KnownDCs(policy, servs) && policy.Valid() && i < |DCChoices(p, policy, servs)|
    requires var d := DCChoices(p, policy, servs)[i].val; d < |policy.weight| && policy.weight[d] > 0
    ensures var d := DCChoices(p, policy, servs)[i].val;
            var r := Pick(Choices(p, InDC(DCCandidates(p, policy, servs), d)), rand);
            r.Some? && ReadChoice(p, policy, servs, r.value) && !NothingToRead(p, policy, servs)
  {
    hide DCChoices, Choices, Pick, InTopDC, ReadChoice, BestOfItsKind;
    var d := DCChoices(p, policy, servs)[i].val;
    var s0 := ChoiceIsTop(p, policy, servs, i);
    var there := InDC(DCCandidates(p, policy, servs), d);
    ReadGoesToTheBest(p, there, rand);
    InTopIsCandidate(p, policy, servs, s0);
    assert s0 in there;
    BestThere(p, policy, servs, s0, Pick(Choices(p, there), rand).value, there);
    SomethingToRead(p, policy, servs, s0);
  }

  lemma {:induction false} SomethingToRead(p: Priorities, policy: Policy, servs: seq<Server>, s: Server)
    requires s in servs && InTopDC(p, policy, servs, s) && HasWeight(policy, s)
    ensures !NothingToRead(p, policy, servs)
  {
  }

  lemma {:induction false} InTopIsCandidate(p: Priorities, policy: Policy, servs: seq<Server>, s: Server)
    requires InTopDC(p, policy, servs, s)
    ensures DCCandidate(p, policy, s)
  {
  }

  lemma {:induction false} BestThere(p: Priorities, policy: Policy, servs: seq<Server>, s0: Server, s: Server,
                                    there: seq<Server>)
    requires InTopDC(p, policy, servs, s0) && s0 in servs && HasWeight(policy, s0) && s in there
    requires forall t :: t in there <==> t in servs && DCCandidate(p, policy, t) && t.dc == s0.dc
    requires BestOfItsKind(p, there, s) && (s.fail ==> forall t :: t in there && Candidate(p, t) ==> t.fail)
    ensures ReadChoice(p, policy, servs, s)
  {
    assert s0 in there;
    assert Eligible(p, policy, servs, s);
    assert InTopDC(p, policy, servs, s);
    forall t | t in servs && Eligible(p, policy, servs, t) && t.dc == s.dc
      ensures t in there && t.fail == s.fail
    {
    }
  }

  lemma {:induction false} ChoicesInRange(p: Priorities, policy: Policy, servs: seq<Server>)
    ensures forall i :: 0 <= i < |DCChoices(p, policy, servs)| ==> DCChoices(p, policy, servs)[i].val < |policy.priority|
  {
    hide DCChoices, InTopDC;
    forall i | 0 <= i < |DCChoices(p, policy, servs)| ensures DCChoices(p, policy, servs)[i].val < |policy.priority| {
      var s := ChoiceIsTop(p, policy, servs, i);
    }
  }

  lemma {:induction false} CandidatesAre(p: Priorities, policy: Policy, servs: seq<Server>, s: Server)
    requires s in DCCandidates(p, policy, servs)
    ensures Candidate(p, s)
  {
    hide DCCandidates;
  }

  /** `getReadServer` with data centres */
  method GetReadServerFrom(p: Priorities, policy: Policy, idUnique: IDUnique, mServs: seq<Server>,
                           rand1: nat, rand2: nat) returns (r: Option<Server>)
    requires |mServs| <= MAX_SERV_IN_GROUP && KnownDCs(policy, mServs) && policy.Valid()
    requires idUnique.Clear() && idUnique.marker.Length == |policy.priority|
    modifies idUnique.marker
    ensures idUnique.Clear()
    ensures r == None <==> NothingToRead(p, policy, mServs)
    ensures r.Some? ==> ReadChoice(p, policy, mServs, r.value)
  {
    hide DCChoices, DCCandidates, InDC, Choices, Pick, KnownDCs, ReadChoice, NothingToRead, Candidate;
    var servs := new Server[MAX_SERV_IN_GROUP];
    var num, sdc, n := Collect(p, policy, mServs, servs);
    ghost var cands, tops := servs[..num], DCChoices(p, policy, mServs);
    ChoicesInRange(p, policy, mServs);
    forall i | 0 <= i < num ensures Candidate(p, servs[i]) {
      assert cands[i] in DCCandidates(p, policy, mServs);
      CandidatesAre(p, policy, mServs, cands[i]);
    }
    if n == 0 {
      NoneInTopDC(p, policy, mServs);
      return None;
    }
    ghost var all := sdc[..n];
    assert forall i :: 0 <= i < n ==> all[i] == tops[i].val;
    var dc := ChooseDC(policy, idUnique, sdc, n, rand1);
    if dc == None {
      NoneInTopDC(p, policy, mServs);
      return None;
    }
    assert servs[..num] == cands;
    r := ChooseServer(p, servs, num, dc.value, rand2);
    ghost var i :| 0 <= i < n && all[i] == dc.value;
    BestInDC(p, policy, mServs, i, rand2);
  }
}
