/** The servers, groups and slots of a cluster, brought up to date from a listing of its nodes
    (src/ClusterServerPool.cpp `handleResponse`, src/ServerGroup.cpp `add`, `remove`). */
module ClusterPools {
  import opened Bytes
  import opened Servers
  import opened ClusterNodes
  import Gather

  const SLOTS: nat := 16384
  const MAX_SERV_NUM: nat := 2048
  const MAX_SERV_GROUP_NUM: nat := 1024

  datatype Server = Server(addr: string, name: string, masterName: string, role: Role, group: Option<nat>,
                           updating: bool)

  datatype Group = Group(name: string, members: seq<nat>)

  /** Servers and groups are known by their place in the pool; `byAddr` and `byName` are `mServs` and `mGroups`. */
  datatype Pool = Pool(servs: seq<Server>, byAddr: map<string, nat>, groups: seq<Group>, byName: map<string, nat>,
                       slots: seq<Option<nat>>)

  // ----- one group -----

  /** `ServerGroup::add` */
  function Added(members: seq<nat>, k: nat): seq<nat> {
    if |members| == MAX_SERV_IN_GROUP || k in members then members else members + [k]
  }

  /** `ServerGroup::remove`: the last member takes the place of the one removed. */
  function Removed(members: seq<nat>, k: nat): seq<nat> {
    if k !in members then members
    else
      var i := FirstIndex(members, k);
      members[i := members[|members| - 1]][..|members| - 1]
  }

  function FirstIndex(s: seq<nat>, k: nat): (i: nat)
    requires k in s
    ensures i < |s| && s[i] == k
  {
    if s[0] == k then 0 else 1 + FirstIndex(s[1..], k)
  }

  predicate Distinct(s: seq<nat>) {
    forall i, j :: 0 <= i < j < |s| ==> s[i] != s[j]
  }

  lemma {:induction false} AddedMembers(members: seq<nat>, k: nat)
    requires Distinct(members)
    ensures Distinct(Added(members, k))
    ensures forall x :: x != k ==> (x in Added(members, k) <==> x in members)
    ensures k in Added(members, k) <==> k in members || |members| != 64
    ensures members <= Added(members, k)
  {
  }

  /** Removing takes one member out and keeps all others. */
  lemma {:induction false} RemovedMembers(members: seq<nat>, k: nat)
    requires Distinct(members)
    ensures Distinct(Removed(members, k)) && k !in Removed(members, k)
    ensures forall x :: x != k ==> (x in Removed(members, k) <==> x in members)
  {
    if k in members {
      var i, n := FirstIndex(members, k), |members| - 1;
      var r := Removed(members, k);
      assert forall j :: 0 <= j < n ==> r[j] == if j == i then members[n] else members[j];
      forall x | x in members && x != k ensures x in r {
        var j :| 0 <= j < |members| && members[j] == x;
        assert r[if j == n then i else j] == x;
      }
    }
  }

  // ----- one node of the listing -----

  function BeforeAt(addr: string): string { addr[..IndexOf(addr, '@')] }

  predicate Myself(f: Fields) { Contains(CString(f.flags), "myself") }

  predicate Abnormal(f: Fields) {
    f.role == Unknown || Contains(CString(f.flags), "fail") || Contains(CString(f.flags), "handshake")
  }

  /** The server a node is: by its address, or the one that was asked, or by what stands before an `@`. */
  function Resolve(p: Pool, f: Fields, self: nat): Option<nat> {
    if f.addr in p.byAddr then Some(p.byAddr[f.addr])
    else if Myself(f) then Some(self)
    else if '@' in f.addr && BeforeAt(f.addr) in p.byAddr then Some(p.byAddr[BeforeAt(f.addr)])
    else None
  }

  function NewServer(addr: string): Server { Server(addr, [], [], Unknown, None, false) }

  /** The server of a node, which may be a new one; nodes without an address, and unknown ones that are not in
      order, are passed over. */
  function Located(p: Pool, f: Fields, self: nat): (r: (Pool, Option<nat>)) {
    if f.addr == [] then (p, None) else
    match Resolve(p, f, self)
    case Some(k) =>
      (if k < |p.servs| then p.(servs := p.servs[k := p.servs[k].(updating := false)]) else p, Some(k))
    case None =>
      if Abnormal(f) || |p.servs| >= MAX_SERV_NUM then (p, None)
      else
        var addr := BeforeAt(f.addr);
        (p.(servs := p.servs + [NewServer(addr)], byAddr := p.byAddr[addr := |p.servs|]), Some(|p.servs|))
  }

  function Described(p: Pool, k: nat, f: Fields): Pool
    requires k < |p.servs|
  {
    p.(servs := p.servs[k := p.servs[k].(role := f.role, name := f.nodeId, masterName := f.master)])
  }

  /** The group of a master, which may be a new one. */
  function Grouped(p: Pool, name: string): (Pool, Option<nat>) {
    if name in p.byName then (p, Some(p.byName[name]))
    else if |p.groups| >= MAX_SERV_GROUP_NUM then (p, None)
    else (p.(groups := p.groups + [Group(name, [])], byName := p.byName[name := |p.groups|]), Some(|p.groups|))
  }

  function AddTo(p: Pool, g: nat, k: nat): Pool
    requires g < |p.groups|
  {
    p.(groups := p.groups[g := p.groups[g].(members := Added(p.groups[g].members, k))])
  }

  function RemoveFrom(p: Pool, g: nat, k: nat): Pool
    requires g < |p.groups|
  {
    p.(groups := p.groups[g := p.groups[g].(members := Removed(p.groups[g].members, k))])
  }

  /** Slots `begin` up to `end` go to group `g`. */
  function Filled(slots: seq<Option<nat>>, begin: int, end: int, g: nat): (r: seq<Option<nat>>)
    ensures |r| == |slots|
    ensures forall t :: 0 <= t < |slots| ==> r[t] == if begin <= t < end then Some(g) else slots[t]
  {
    seq(|slots|, t requires 0 <= t < |slots| => if begin <= t < end then Some(g) else slots[t])
  }

  /** What one report does, and the group that its slots go to. */
  function Applied(p: Pool, r: Report, self: nat): (Pool, Option<nat>) {
    var (p1, k) := Located(p, r.f, self);
    if k == None || k.value >= |p1.servs| then (p1, None) else
    var p2 := Described(p1, k.value, r.f);
    if r.f.role != Master then (p2, None) else
    var (p3, g) := Grouped(p2, r.f.nodeId);
    if g == None || g.value >= |p3.groups| then (p3, None) else
    var p4 := AddTo(p3, g.value, k.value);
    (if r.HasSlots() then p4.(slots := Filled(p4.slots, r.begin, r.end, g.value)) else p4, g)
  }

  function ApplyAll(p: Pool, rs: seq<Report>, self: nat): Pool
    decreases |rs|
  {
    if rs == [] then p else ApplyAll(Applied(p, rs[0], self).0, rs[1..], self)
  }

  /** The groups that the reports give their slots to. */
  function Claims(p: Pool, rs: seq<Report>, self: nat): (gs: seq<Option<nat>>)
    ensures |gs| == |rs|
    decreases |rs|
  {
    if rs == [] then [] else [Applied(p, rs[0], self).1] + Claims(Applied(p, rs[0], self).0, rs[1..], self)
  }

  predicate Covers(r: Report, g: Option<nat>, t: nat) { g.Some? && r.HasSlots() && r.begin <= t < r.end }

  /** The group of the last report that covers slot `t`, or what was there. */
  function LastClaim(was: Option<nat>, rs: seq<Report>, gs: seq<Option<nat>>, t: nat): Option<nat>
    requires |rs| == |gs|
  {
    if rs == [] then was
    else
      var n := |rs| - 1;
      if Covers(rs[n], gs[n], t) then gs[n] else LastClaim(was, rs[..n], gs[..n], t)
  }

  lemma {:induction false} LastClaimCons(was: Option<nat>, r: Report, g: Option<nat>, rs: seq<Report>,
                                        gs: seq<Option<nat>>, t: nat)
    requires |rs| == |gs|
    ensures LastClaim(was, [r] + rs, [g] + gs, t)
         == LastClaim(if Covers(r, g, t) then g else was, rs, gs, t)
    decreases |rs|
  {
    var n := |rs|;
    if n == 0 {
      assert ([r] + rs)[..0] == [] && ([g] + gs)[..0] == [];
    } else {
      assert ([r] + rs)[..n] == [r] + rs[..n - 1] && ([g] + gs)[..n] == [g] + gs[..n - 1];
      LastClaimCons(was, r, g, rs[..n - 1], gs[..n - 1], t);
    }
  }

  lemma {:induction false} AppliedSlots(p: Pool, r: Report, self: nat, t: nat)
    requires t < |p.slots|
    ensures var (q, g) := Applied(p, r, self);
            |q.slots| == |p.slots| && q.slots[t] == if Covers(r, g, t) then g else p.slots[t]
  {
    hide Resolve, Abnormal, BeforeAt;
  }

  /** After all reports each slot has the group of the last accepted report of a master that covers it, and the
      others have what they had. */
  lemma {:induction false} SlotsAreLastClaims(p: Pool, rs: seq<Report>, self: nat, t: nat)
    requires t < |p.slots|
    ensures var q := ApplyAll(p, rs, self);
            |q.slots| == |p.slots| && q.slots[t] == LastClaim(p.slots[t], rs, Claims(p, rs, self), t)
    decreases |rs|
  {
    hide Applied, Covers;
    if rs != [] {
      var (q, g) := Applied(p, rs[0], self);
      AppliedSlots(p, rs[0], self, t);
      SlotsAreLastClaims(q, rs[1..], self, t);
      LastClaimCons(p.slots[t], rs[0], g, rs[1..], Claims(q, rs[1..], self), t);
      assert [rs[0]] + rs[1..] == rs;
    }
  }

  // ----- membership -----

  /** The pool's indices lead somewhere, and no group has a member twice. */
  predicate WellFormedPool(p: Pool) {
    && (forall a :: a in p.byAddr ==> p.byAddr[a] < |p.servs|)
    && (forall n :: n in p.byName ==> p.byName[n] < |p.groups|)
    && (forall i :: 0 <= i < |p.servs| && p.servs[i].group.Some? ==> p.servs[i].group.value < |p.groups|)
    && (forall g :: 0 <= g < |p.groups| ==> Distinct(p.groups[g].members))
    && (forall g, k :: 0 <= g < |p.groups| && k in p.groups[g].members ==> k < |p.servs|)
  }

  function GroupNamed(p: Pool, name: string): Option<nat> {
    if name in p.byName && p.byName[name] < |p.groups| then Some(p.byName[name]) else None
  }

  /** The group a server belongs to by what was said of it last. */
  function Target(p: Pool, x: Server): Option<nat> {
    match x.role
    case Master => GroupNamed(p, x.name)
    case Slave => GroupNamed(p, x.masterName)
    case Unknown => None
  }

  /** Server `k` points to group `g`, or was listed as one of it. */
  predicate Belongs(p: Pool, g: nat, k: nat)
    requires k < |p.servs|
  {
    var x := p.servs[k];
    x.group == Some(g) || (!x.updating && Target(p, x) == Some(g))
  }

  predicate AllBelong(p: Pool) {
    forall g, k :: 0 <= g < |p.groups| && k in p.groups[g].members ==> k < |p.servs| && Belongs(p, g, k)
  }

  /** Every member of a group points to the group. */
  predicate MembersPointBack(p: Pool) {
    forall g, k :: 0 <= g < |p.groups| && k in p.groups[g].members ==> k < |p.servs| && p.servs[k].group == Some(g)
  }

  /** If so, no server is in two groups. */
  lemma {:induction false} InOneGroup(p: Pool, g: nat, h: nat, k: nat)
    requires MembersPointBack(p) && g < |p.groups| && h < |p.groups|
    requires k in p.groups[g].members && k in p.groups[h].members
    ensures g == h
  {
    assert p.servs[k].group == Some(g) && p.servs[k].group == Some(h);
  }

  /** The report says of a server that was listed before what was said then. */
  predicate Agrees(p: Pool, r: Report, self: nat) {
    r.f.addr != [] && Resolve(p, r.f, self).Some? && Resolve(p, r.f, self).value < |p.servs| ==>
      var x := p.servs[Resolve(p, r.f, self).value];
      x.updating || (x.role == r.f.role && x.name == r.f.nodeId && x.masterName == r.f.master)
  }

  /** No server is found under two different nodes of the listing. */
  predicate OneNodePerServer(p: Pool, rs: seq<Report>, self: nat)
    decreases |rs|
  {
    rs == [] || (Agrees(p, rs[0], self) && OneNodePerServer(Applied(p, rs[0], self).0, rs[1..], self))
  }

  lemma {:induction false} LocatedKeeps(p: Pool, f: Fields, self: nat)
    requires WellFormedPool(p) && self < |p.servs|
    ensures var (q, k) := Located(p, f, self);
            && WellFormedPool(q) && |p.servs| <= |q.servs| && q.groups == p.groups && q.byName == p.byName
            && (k.Some? ==> k.value < |q.servs| && !q.servs[k.value].updating)
            && (forall i :: 0 <= i < |p.servs| ==>
                  q.servs[i] == if k == Some(i) then p.servs[i].(updating := false) else p.servs[i])
            && (k.Some? && k.value >= |p.servs| ==> q.servs[k.value].group == None)
            && (k.Some? && k.value < |p.servs| ==> f.addr != [] && Resolve(p, f, self) == k)
  {
    hide Resolve, Abnormal, BeforeAt, Distinct;
    ResolvedInPool(p, f, self);
  }

  lemma {:induction false} ResolvedInPool(p: Pool, f: Fields, self: nat)
    requires WellFormedPool(p) && self < |p.servs|
    ensures Resolve(p, f, self).Some? ==> Resolve(p, f, self).value < |p.servs|
  {
  }

  lemma {:induction false} MasterBelongs(p: Pool, g: nat, k: nat)
    requires k < |p.servs| && !p.servs[k].updating && p.servs[k].role == Master && g < |p.groups|
    requires p.servs[k].name in p.byName && p.byName[p.servs[k].name] == g
    ensures Belongs(p, g, k)
  {
  }

  /** A report that agrees with those before keeps memberships in order. */
  lemma {:induction false} AppliedKeeps(p: Pool, r: Report, self: nat)
    requires WellFormedPool(p) && AllBelong(p) && self < |p.servs| && Agrees(p, r, self)
    ensures var q := Applied(p, r, self).0; WellFormedPool(q) && AllBelong(q) && |p.servs| <= |q.servs|
  {
    hide Located, Resolve, Distinct, Belongs, AllBelong, WellFormedPool, Added;
    LocatedKeeps(p, r.f, self);
    var (p1, k) := Located(p, r.f, self);
    LocatedBelong(p, p1, k, r, self);
    if k.Some? {
      var p2 := Described(p1, k.value, r.f);
      if r.f.role == Master {
        GroupedBelong(p2, r.f.nodeId);
        var (p3, g) := Grouped(p2, r.f.nodeId);
        if g.Some? {
          MasterBelongs(p3, g.value, k.value);
          AddedBelong(p3, g.value, k.value);
          SlotsDoNotMatter(AddTo(p3, g.value, k.value), Filled(p3.slots, r.begin, r.end, g.value));
        }
      }
    }
  }

  lemma {:induction false} SlotsDoNotMatter(p: Pool, slots: seq<Option<nat>>)
    ensures WellFormedPool(p) ==> WellFormedPool(p.(slots := slots))
    ensures AllBelong(p) ==> AllBelong(p.(slots := slots))
  {
    hide Distinct;
    var q := p.(slots := slots);
    if AllBelong(p) {
      forall g, k | 0 <= g < |q.groups| && k in q.groups[g].members ensures k < |q.servs| && Belongs(q, g, k) {
        assert Belongs(p, g, k);
      }
    }
  }

  lemma {:induction false} LocatedBelong(p: Pool, q: Pool, k: Option<nat>, r: Report, self: nat)
    requires WellFormedPool(p) && AllBelong(p) && self < |p.servs| && Agrees(p, r, self)
    requires (q, k) == Located(p, r.f, self) && WellFormedPool(q)
    requires |p.servs| <= |q.servs| && q.groups == p.groups && q.byName == p.byName
    requires k.Some? ==> k.value < |q.servs| && !q.servs[k.value].updating
    requires forall i :: 0 <= i < |p.servs| ==>
               q.servs[i] == if k == Some(i) then p.servs[i].(updating := false) else p.servs[i]
    requires k.Some? && k.value < |p.servs| ==> r.f.addr != [] && Resolve(p, r.f, self) == k
    ensures AllBelong(q)
    ensures k.Some? ==> WellFormedPool(Described(q, k.value, r.f)) && AllBelong(Described(q, k.value, r.f))
  {
    hide Located, Resolve, Distinct, WellFormedPool;
    forall g, i | 0 <= g < |q.groups| && i in q.groups[g].members
      ensures i < |q.servs| && Belongs(q, g, i) && (k.Some? ==> Belongs(Described(q, k.value, r.f), g, i))
    {
      assert Belongs(p, g, i);
    }
    if k.Some? { DescribedWellFormed(q, k.value, r.f); }
  }

  lemma {:induction false} DescribedWellFormed(p: Pool, k: nat, f: Fields)
    requires WellFormedPool(p) && k < |p.servs|
    ensures WellFormedPool(Described(p, k, f))
  {
    hide Distinct;
  }

  lemma {:induction false} GroupedBelong(p: Pool, name: string)
    requires WellFormedPool(p) && AllBelong(p)
    ensures var (q, g) := Grouped(p, name);
            && WellFormedPool(q) && AllBelong(q) && q.servs == p.servs
            && (g.Some? ==> g.value < |q.groups| && name in q.byName && q.byName[name] == g.value)
  {
    var (q, g) := Grouped(p, name);
    forall h, i | 0 <= h < |q.groups| && i in q.groups[h].members ensures i < |q.servs| && Belongs(q, h, i) {
      assert h < |p.groups|;
      assert Belongs(p, h, i);
    }
  }

  lemma {:induction false} AddedBelong(p: Pool, g: nat, k: nat)
    requires WellFormedPool(p) && AllBelong(p) && g < |p.groups| && k < |p.servs| && Belongs(p, g, k)
    ensures WellFormedPool(AddTo(p, g, k)) && AllBelong(AddTo(p, g, k))
  {
    hide Distinct, Added;
    AddedMembers(p.groups[g].members, k);
    var q := AddTo(p, g, k);
    forall h, i | 0 <= h < |q.groups| && i in q.groups[h].members ensures i < |q.servs| && Belongs(q, h, i) {
      if h != g || i != k { assert Belongs(p, h, i); }
    }
  }

  lemma {:induction false} ApplyAllKeeps(p: Pool, rs: seq<Report>, self: nat)
    requires WellFormedPool(p) && AllBelong(p) && self < |p.servs| && OneNodePerServer(p, rs, self)
    ensures WellFormedPool(ApplyAll(p, rs, self)) && AllBelong(ApplyAll(p, rs, self))
    decreases |rs|
  {
    hide WellFormedPool, AllBelong, Applied, Agrees;
    if rs != [] {
      AppliedKeeps(p, rs[0], self);
      ApplyAllKeeps(Applied(p, rs[0], self).0, rs[1..], self);
    }
  }

  // ----- settling who is in which group -----

  /** Server `i` leaves the group it points to, unless that is `g`. */
  function Left(p: Pool, i: nat, g: Option<nat>): Pool
    requires i < |p.servs|
  {
    var was := p.servs[i].group;
    if was.Some? && was != g && was.value < |p.groups| then RemoveFrom(p, was.value, i) else p
  }

  function PointTo(p: Pool, i: nat, g: Option<nat>): Pool
    requires i < |p.servs|
  {
    p.(servs := p.servs[i := p.servs[i].(group := g)])
  }

  function Joined(p: Pool, i: nat, g: nat): Pool
    requires i < |p.servs| && g < |p.groups|
  {
    PointTo(AddTo(p, g, i), i, Some(g))
  }

  /** The second loop of `handleResponse` for one server. A server that was not listed stays where it is; a master
      without a group and a server of unknown role leave their group but still point to it. */
  function SettledOne(p: Pool, i: nat): (q: Pool)
    requires i < |p.servs|
    ensures |q.servs| == |p.servs| && q.slots == p.slots
  {
    var x := p.servs[i];
    if x.updating then p.(servs := p.servs[i := x.(updating := false)]) else
    match x.role
    case Master =>
      var g := GroupNamed(p, x.name);
      if g.Some? then Joined(Left(p, i, g), i, g.value) else Left(p, i, g)
    case Slave =>
      var g := GroupNamed(p, x.masterName);
      var q := Left(p, i, g);
      var q1 := if x.group.Some? && x.group != g then PointTo(q, i, None) else q;
      if g.Some? then Joined(q1, i, g.value) else q1
    case Unknown => Left(p, i, None)
  }

  function SettledFrom(p: Pool, i: nat): (q: Pool)
    requires i <= |p.servs|
    ensures q.slots == p.slots
    decreases |p.servs| - i
  {
    if i == |p.servs| then p else SettledFrom(SettledOne(p, i), i + 1)
  }

  /** Servers before `i` are only in the group they point to. */
  predicate PartlySettled(p: Pool, i: nat) {
    forall g, k :: 0 <= g < |p.groups| && k in p.groups[g].members ==>
      k < |p.servs| && (if k < i then p.servs[k].group == Some(g) else Belongs(p, g, k))
  }

  /** Server `i` is in no group but `g`, and nobody else has moved. */
  predicate OnlyIn(p: Pool, q: Pool, i: nat, g: Option<nat>) {
    && |q.groups| == |p.groups| && q.byName == p.byName && q.byAddr == p.byAddr
    && |q.servs| == |p.servs| && (forall j :: 0 <= j < |p.servs| && j != i ==> q.servs[j] == p.servs[j])
    && (forall h :: 0 <= h < |q.groups| ==> Distinct(q.groups[h].members))
    && (forall h, k :: 0 <= h < |q.groups| && k in q.groups[h].members ==>
          if k == i then g == Some(h) else k in p.groups[h].members)
  }

  lemma {:induction false} LeftOnlyIn(p: Pool, i: nat, g: Option<nat>)
    requires WellFormedPool(p) && i < |p.servs|
    requires forall h :: 0 <= h < |p.groups| && i in p.groups[h].members ==> p.servs[i].group == Some(h) || g == Some(h)
    ensures OnlyIn(p, Left(p, i, g), i, g) && Left(p, i, g).servs == p.servs
  {
    hide Distinct, Removed;
    var was := p.servs[i].group;
    if was.Some? && was != g && was.value < |p.groups| {
      RemovedMembers(p.groups[was.value].members, i);
    }
  }

  lemma {:induction false} JoinedOnlyIn(p: Pool, q: Pool, i: nat, g: nat)
    requires WellFormedPool(p) && i < |p.servs| && g < |p.groups| && OnlyIn(p, q, i, Some(g))
    ensures OnlyIn(p, Joined(q, i, g), i, Some(g)) && Joined(q, i, g).servs[i].group == Some(g)
  {
    hide Distinct, Added;
    AddedMembers(q.groups[g].members, i);
  }

  lemma {:induction false} OnlyInSettles(p: Pool, q: Pool, i: nat, g: Option<nat>)
    requires WellFormedPool(p) && PartlySettled(p, i) && i < |p.servs| && OnlyIn(p, q, i, g)
    requires g.Some? ==> q.servs[i].group == g && g.value < |p.groups|
    requires q.servs[i].group.Some? ==> q.servs[i].group.value < |p.groups|
    ensures WellFormedPool(q) && PartlySettled(q, i + 1)
  {
    hide Distinct;
    forall h, k | 0 <= h < |q.groups| && k in q.groups[h].members
      ensures k < |q.servs| && (if k < i + 1 then q.servs[k].group == Some(h) else Belongs(q, h, k))
    {
      if k != i { assert k in p.groups[h].members; }
    }
  }

  lemma {:induction false} SettledOneKeeps(p: Pool, i: nat)
    requires WellFormedPool(p) && PartlySettled(p, i) && i < |p.servs|
    ensures WellFormedPool(SettledOne(p, i)) && PartlySettled(SettledOne(p, i), i + 1)
  {
    hide OnlyIn, Distinct, Left, Joined;
    var x := p.servs[i];
    WhereIs(p, i);
    if x.updating {
      UnmarkedOnlyIn(p, i);
      OnlyInSettles(p, SettledOne(p, i), i, x.group);
    } else {
      var g := Target(p, x);
      LeftOnlyIn(p, i, g);
      var q := Left(p, i, g);
      var q1 := if x.role == Slave && x.group.Some? && x.group != g then PointTo(q, i, None) else q;
      PointedOnlyIn(p, q, i, g);
      if g.Some? {
        JoinedOnlyIn(p, q1, i, g.value);
      }
      OnlyInSettles(p, SettledOne(p, i), i, g);
    }
  }

  lemma {:induction false} PointedOnlyIn(p: Pool, q: Pool, i: nat, g: Option<nat>)
    requires i < |p.servs| && OnlyIn(p, q, i, g)
    ensures i < |q.servs| && OnlyIn(p, PointTo(q, i, None), i, g)
  {
    hide Distinct;
  }

  lemma {:induction false} UnmarkedOnlyIn(p: Pool, i: nat)
    requires WellFormedPool(p) && i < |p.servs| && p.servs[i].updating
    requires forall h :: 0 <= h < |p.groups| && i in p.groups[h].members ==> p.servs[i].group == Some(h)
    ensures OnlyIn(p, SettledOne(p, i), i, p.servs[i].group)
  {
    hide Distinct;
  }

  /** The groups server `i` can be in when its turn comes. */
  lemma {:induction false} WhereIs(p: Pool, i: nat)
    requires WellFormedPool(p) && PartlySettled(p, i) && i < |p.servs|
    ensures var x := p.servs[i];
            forall h :: 0 <= h < |p.groups| && i in p.groups[h].members ==>
              x.group == Some(h) || (!x.updating && Target(p, x) == Some(h))
  {
    hide Distinct;
    forall h | 0 <= h < |p.groups| && i in p.groups[h].members ensures Belongs(p, h, i) {}
  }

  lemma {:induction false} SettledFromKeeps(p: Pool, i: nat)
    requires WellFormedPool(p) && PartlySettled(p, i) && i <= |p.servs|
    ensures var q := SettledFrom(p, i);
            |q.servs| == |p.servs| && WellFormedPool(q) && PartlySettled(q, |q.servs|)
    decreases |p.servs| - i
  {
    hide WellFormedPool, PartlySettled, SettledOne;
    if i < |p.servs| {
      SettledOneKeeps(p, i);
      SettledFromKeeps(SettledOne(p, i), i + 1);
    }
  }

  /** Server `k` is in a group that it has never been said to belong to, or whose turn has passed without its
      pointing to it. */
  predicate Astray(p: Pool, i: nat, g: nat, k: nat) {
    && g < |p.groups| && k in p.groups[g].members && k < |p.servs|
    && (if k < i then p.servs[k].group != Some(g) else !Belongs(p, g, k))
  }

  lemma {:induction false} LeftKeeps(p: Pool, i: nat, h: Option<nat>, g: nat, k: nat)
    requires WellFormedPool(p) && i < |p.servs| && g < |p.groups| && k in p.groups[g].members
    requires k == i ==> p.servs[i].group != Some(g)
    ensures var q := Left(p, i, h);
            && q.servs == p.servs && q.byName == p.byName && |q.groups| == |p.groups| && k in q.groups[g].members
            && forall j :: 0 <= j < |q.groups| ==> Distinct(q.groups[j].members)
  {
    hide Distinct, Removed;
    var was := p.servs[i].group;
    if was.Some? && was.value < |p.groups| { RemovedMembers(p.groups[was.value].members, i); }
  }

  lemma {:induction false} JoinedKeeps(p: Pool, i: nat, h: nat, g: nat, k: nat)
    requires i < |p.servs| && h < |p.groups| && g < |p.groups| && k in p.groups[g].members
    requires forall j :: 0 <= j < |p.groups| ==> Distinct(p.groups[j].members)
    ensures var q := Joined(p, i, h);
            && k in q.groups[g].members && |q.groups| == |p.groups| && q.byName == p.byName
            && q.servs == PointTo(p, i, Some(h)).servs
  {
    hide Distinct, Added;
    AddedMembers(p.groups[h].members, i);
  }

  /** No server that has gone astray is brought back by its turn or that of another. */
  lemma {:induction false} AstrayStays(p: Pool, i: nat, g: nat, k: nat)
    requires WellFormedPool(p) && i < |p.servs| && Astray(p, i, g, k)
    ensures Astray(SettledOne(p, i), i + 1, g, k)
  {
    hide Distinct, Left, Joined, WellFormedPool;
    var x := p.servs[i];
    if !x.updating {
      var h := Target(p, x);
      TargetInRange(p, x);
      LeftKeeps(p, i, h, g, k);
      var q := Left(p, i, h);
      var q1 := if x.role == Slave && x.group.Some? && x.group != h then PointTo(q, i, None) else q;
      if h.Some? { JoinedKeeps(q1, i, h.value, g, k); }
    }
  }

  lemma {:induction false} AstrayToTheEnd(p: Pool, i: nat, g: nat, k: nat)
    requires WellFormedPool(p) && i <= |p.servs| && Astray(p, i, g, k)
    ensures var q := SettledFrom(p, i); |q.servs| == |p.servs| && Astray(q, |q.servs|, g, k)
    decreases |p.servs| - i
  {
    if i < |p.servs| {
      hide WellFormedPool, Astray, SettledOne;
      AstrayStays(p, i, g, k);
      SettledOneWellFormed(p, i);
      AstrayToTheEnd(SettledOne(p, i), i + 1, g, k);
    }
  }

  lemma {:induction false} TargetInRange(p: Pool, x: Server)
    ensures Target(p, x).Some? ==> Target(p, x).value < |p.groups|
  {
  }

  lemma {:induction false} LeftWellFormed(p: Pool, i: nat, h: Option<nat>)
    requires WellFormedPool(p) && i < |p.servs|
    ensures WellFormedPool(Left(p, i, h)) && |Left(p, i, h).groups| == |p.groups| && Left(p, i, h).servs == p.servs
  {
    hide Distinct, Removed;
    var was := p.servs[i].group;
    if was.Some? && was.value < |p.groups| { RemovedMembers(p.groups[was.value].members, i); }
  }

  lemma {:induction false} JoinedWellFormed(p: Pool, i: nat, h: nat)
    requires WellFormedPool(p) && i < |p.servs| && h < |p.groups|
    ensures WellFormedPool(Joined(p, i, h))
  {
    hide Distinct, Added;
    AddedMembers(p.groups[h].members, i);
  }

  lemma {:induction false} PointedWellFormed(p: Pool, i: nat)
    requires WellFormedPool(p) && i < |p.servs|
    ensures WellFormedPool(PointTo(p, i, None)) && WellFormedPool(p.(servs := p.servs[i := p.servs[i].(updating := false)]))
  {
    hide Distinct;
  }

  lemma {:induction false} SettledOneWellFormed(p: Pool, i: nat)
    requires WellFormedPool(p) && i < |p.servs|
    ensures WellFormedPool(SettledOne(p, i))
  {
    hide WellFormedPool, Left, Joined, GroupNamed;
    var x := p.servs[i];
    PointedWellFormed(p, i);
    if !x.updating {
      var h := Target(p, x);
      TargetInRange(p, x);
      LeftWellFormed(p, i, h);
      var q := Left(p, i, h);
      PointedWellFormed(q, i);
      var q1 := if x.role == Slave && x.group.Some? && x.group != h then PointTo(q, i, None) else q;
      if h.Some? { JoinedWellFormed(q1, i, h.value); }
    }
  }

  // ----- a whole refresh -----

  /** `setUpdating(true)` for every server */
  function Marked(p: Pool): Pool {
    p.(servs := seq(|p.servs|, i requires 0 <= i < |p.servs| => p.servs[i].(updating := true)))
  }

  /** All of `handleResponse`; when the listing does not end as it should, the groups are not settled. */
  function Refreshed(p: Pool, rs: seq<Report>, finished: bool, self: nat): Pool {
    var q := ApplyAll(Marked(p), rs, self);
    if finished then SettledFrom(q, 0) else q
  }

  lemma {:induction false} MarkedBelong(p: Pool)
    requires WellFormedPool(p) && MembersPointBack(p)
    ensures WellFormedPool(Marked(p)) && AllBelong(Marked(p))
  {
    hide Distinct;
  }

  /** A refresh that finishes keeps every member of a group pointing to it, so that no server is in two groups,
      provided that no server is found under two different nodes of the listing. */
  lemma {:induction false} RefreshKeepsMembers(p: Pool, rs: seq<Report>, self: nat)
    requires WellFormedPool(p) && MembersPointBack(p) && self < |p.servs|
    requires OneNodePerServer(Marked(p), rs, self)
    ensures WellFormedPool(Refreshed(p, rs, true, self)) && MembersPointBack(Refreshed(p, rs, true, self))
  {
    hide WellFormedPool, OneNodePerServer, ApplyAll, SettledFrom, Belongs;
    MarkedBelong(p);
    ApplyAllKeeps(Marked(p), rs, self);
    SettledFromKeeps(ApplyAll(Marked(p), rs, self), 0);
    AllSettled(SettledFrom(ApplyAll(Marked(p), rs, self), 0));
  }

  lemma {:induction false} AllSettled(p: Pool)
    requires WellFormedPool(p) && PartlySettled(p, |p.servs|)
    ensures MembersPointBack(p)
  {
    hide Belongs, Distinct;
    forall g, k | 0 <= g < |p.groups| && k in p.groups[g].members
      ensures k < |p.servs| && p.servs[k].group == Some(g)
    {
      var belongs := Belongs(p, g, k);
    }
  }

  /** A refresh that finishes keeps every member pointing to its group exactly when every member, once all nodes
      have been applied, points to its group or was last listed as one of it. */
  lemma {:induction false} KeptIfAllBelong(p: Pool, rs: seq<Report>, self: nat)
    requires WellFormedPool(p) && self < |p.servs|
    ensures MembersPointBack(Refreshed(p, rs, true, self)) <==> AllBelong(ApplyAll(Marked(p), rs, self))
  {
    hide WellFormedPool, AllBelong, ApplyAll, SettledFrom, MembersPointBack;
    var q := ApplyAll(Marked(p), rs, self);
    MarkedWellFormed(p);
    ApplyAllWellFormed(Marked(p), rs, self);
    if AllBelong(q) {
      NoneSettled(q);
      SettledFromKeeps(q, 0);
      AllSettled(SettledFrom(q, 0));
    } else {
      var g, k := SomeAstray(q);
      AstrayToTheEnd(q, 0, g, k);
      AstrayAtTheEnd(SettledFrom(q, 0), g, k);
    }
  }

  lemma {:induction false} NoneSettled(p: Pool)
    requires AllBelong(p)
    ensures PartlySettled(p, 0)
  {
    forall g, k | 0 <= g < |p.groups| && k in p.groups[g].members ensures k < |p.servs| && Belongs(p, g, k) {}
  }

  lemma {:induction false} SomeAstray(p: Pool) returns (g: nat, k: nat)
    requires WellFormedPool(p) && !AllBelong(p)
    ensures Astray(p, 0, g, k)
  {
    hide Distinct, Belongs;
    g, k :| g < |p.groups| && k in p.groups[g].members && !(k < |p.servs| && Belongs(p, g, k));
  }

  lemma {:induction false} AstrayAtTheEnd(p: Pool, g: nat, k: nat)
    requires Astray(p, |p.servs|, g, k)
    ensures !MembersPointBack(p)
  {
  }

  lemma {:induction false} MarkedWellFormed(p: Pool)
    requires WellFormedPool(p)
    ensures WellFormedPool(Marked(p))
  {
    hide Distinct;
  }

  lemma {:induction false} AppliedWellFormed(p: Pool, r: Report, self: nat)
    requires WellFormedPool(p) && self < |p.servs|
    ensures var q := Applied(p, r, self).0; WellFormedPool(q) && |p.servs| <= |q.servs|
  {
    hide Located, Grouped, WellFormedPool, Added;
    LocatedKeeps(p, r.f, self);
    var (p1, k) := Located(p, r.f, self);
    if k.Some? {
      DescribedWellFormed(p1, k.value, r.f);
      var p2 := Described(p1, k.value, r.f);
      if r.f.role == Master {
        GroupedWellFormed(p2, r.f.nodeId);
        var (p3, g) := Grouped(p2, r.f.nodeId);
        if g.Some? {
          AddedWellFormed(p3, g.value, k.value);
          SlotsDoNotMatter(AddTo(p3, g.value, k.value), Filled(p3.slots, r.begin, r.end, g.value));
        }
      }
    }
  }

  lemma {:induction false} GroupedWellFormed(p: Pool, name: string)
    requires WellFormedPool(p)
    ensures var (q, g) := Grouped(p, name);
            WellFormedPool(q) && q.servs == p.servs && (g.Some? ==> g.value < |q.groups|)
  {
  }

  lemma {:induction false} AddedWellFormed(p: Pool, g: nat, k: nat)
    requires WellFormedPool(p) && g < |p.groups| && k < |p.servs|
    ensures WellFormedPool(AddTo(p, g, k))
  {
    hide Distinct, Added;
    AddedMembers(p.groups[g].members, k);
  }

  lemma {:induction false} ApplyAllWellFormed(p: Pool, rs: seq<Report>, self: nat)
    requires WellFormedPool(p) && self < |p.servs|
    ensures WellFormedPool(ApplyAll(p, rs, self))
    decreases |rs|
  {
    hide WellFormedPool, Applied;
    if rs != [] {
      AppliedWellFormed(p, rs[0], self);
      ApplyAllWellFormed(Applied(p, rs[0], self).0, rs[1..], self);
    }
  }

  /** After a refresh that finishes, each slot has the group of the last accepted line of a master that covers it,
      and all others have what they had. */
  lemma {:induction false} RefreshSetsSlots(p: Pool, rs: seq<Report>, self: nat, t: nat)
    requires t < |p.slots|
    ensures var q := Refreshed(p, rs, true, self);
            && |q.slots| == |p.slots|
            && q.slots[t] == LastClaim(p.slots[t], rs, Claims(Marked(p), rs, self), t)
  {
    hide LastClaim, Claims, ApplyAll, SettledFrom;
    SlotsAreLastClaims(Marked(p), rs, self, t);
  }

  lemma {:induction false} LacksCharacter(s: string, w: string, c: char)
    requires c in w && c !in s
    ensures !Contains(s, w)
  {
    var j :| 0 <= j < |w| && w[j] == c;
    assert |w| <= |s| ==> s[j] != c;
    if s != [] { LacksCharacter(s[1..], w, c); }
  }

  const MASTER_X := Fields(Master, "x", "a@1", "master", "-")
  const MASTER_Y := Fields(Master, "y", "a", "master", "-")

  lemma {:induction false} OrdinaryFlags(f: Fields)
    requires f.flags == "master" && f.role == Master
    ensures !Myself(f) && !Abnormal(f)
  {
    var flags := f.flags;
    assert '\0' !in flags && 'f' !in flags && 'h' !in flags;
    assert CString(flags) == flags;
    assert "myself"[5] == 'f' && "fail"[0] == 'f' && "handshake"[0] == 'h';
    LacksCharacter(flags, "myself", 'f');
    LacksCharacter(flags, "fail", 'f');
    LacksCharacter(flags, "handshake", 'h');
  }

  lemma {:induction false} AtSign()
    ensures BeforeAt("a@1") == "a" && '@' in "a@1"
  {
    assert "a@1"[1] == '@' && "a@1"[1..][0] == '@';
    assert IndexOf("a@1"[1..], '@') == 0;
  }

  lemma {:induction false} MasterLine(p: Pool, f: Fields, self: nat, k: nat, g: nat, p1: Pool, p2: Pool, p3: Pool)
    requires f.role == Master && Located(p, f, self) == (p1, Some(k)) && k < |p1.servs|
    requires Described(p1, k, f) == p2 && Grouped(p2, f.nodeId) == (p3, Some(g)) && g < |p3.groups|
    ensures Applied(p, Report(f, -1, -1), self).0 == AddTo(p3, g, k)
  {
    hide Located, Described, Grouped, AddTo;
  }

  lemma {:induction false} AddFirst(p: Pool)
    requires |p.groups| == 1 && p.groups[0].members == []
    ensures AddTo(p, 0, 1) == p.(groups := [Group(p.groups[0].name, [1])])
  {
    assert Added([], 1) == [1];
  }

  lemma {:induction false} FirstLocated(s0: Server)
    ensures Located(Pool([s0], map["s" := 0], [], map[], []), MASTER_X, 0)
         == (Pool([s0, NewServer("a")], map["s" := 0, "a" := 1], [], map[], []), Some(1))
  {
    OrdinaryFlags(MASTER_X);
    AtSign();
    hide Myself, Abnormal, BeforeAt;
    assert Resolve(Pool([s0], map["s" := 0], [], map[], []), MASTER_X, 0) == None;
    assert [s0] + [NewServer("a")] == [s0, NewServer("a")];
    assert map["s" := 0]["a" := 1] == map["s" := 0, "a" := 1];
  }

  /** The first of two lines makes server "a", in a group of its own. */
  lemma {:induction false} FirstLine(s0: Server)
    ensures Applied(Pool([s0], map["s" := 0], [], map[], []), Report(MASTER_X, -1, -1), 0).0
         == Pool([s0, Server("a", "x", "-", Master, None, false)], map["s" := 0, "a" := 1], [Group("x", [1])],
                 map["x" := 0], [])
  {
    var addrs := map["s" := 0, "a" := 1];
    var p0 := Pool([s0], map["s" := 0], [], map[], []);
    var p1 := Pool([s0, NewServer("a")], addrs, [], map[], []);
    var x := Server("a", "x", "-", Master, None, false);
    var p2 := Pool([s0, x], addrs, [], map[], []);
    var p3 := Pool([s0, x], addrs, [Group("x", [])], map["x" := 0], []);
    hide Located, Applied;
    FirstLocated(s0);
    assert Described(p1, 1, MASTER_X) == p2 by { assert p1.servs[1 := x] == p2.servs; }
    assert Grouped(p2, "x") == (p3, Some(0)) by { assert [] + [Group("x", [])] == p3.groups; }
    hide Described, Grouped, AddTo;
    AddFirst(p3);
    MasterLine(p0, MASTER_X, 0, 1, 0, p1, p2, p3);
  }

  /** The second line finds the same server, and puts it into another group. */
  lemma {:induction false} SecondLine(s0: Server)
    ensures Applied(Pool([s0, Server("a", "x", "-", Master, None, false)], map["s" := 0, "a" := 1],
                         [Group("x", [1])], map["x" := 0], []), Report(MASTER_Y, -1, -1), 0).0
         == Pool([s0, Server("a", "y", "-", Master, None, false)], map["s" := 0, "a" := 1],
                 [Group("x", [1]), Group("y", [1])], map["x" := 0, "y" := 1], [])
  {
    var addrs := map["s" := 0, "a" := 1];
    var x, y := Server("a", "x", "-", Master, None, false), Server("a", "y", "-", Master, None, false);
    var p0 := Pool([s0, x], addrs, [Group("x", [1])], map["x" := 0], []);
    var p2 := Pool([s0, y], addrs, [Group("x", [1])], map["x" := 0], []);
    var names := map["x" := 0, "y" := 1];
    var p3 := Pool([s0, y], addrs, [Group("x", [1]), Group("y", [])], names, []);
    assert Located(p0, MASTER_Y, 0) == (p0, Some(1)) by {
      assert Resolve(p0, MASTER_Y, 0) == Some(1);
      assert p0.servs[1 := x] == p0.servs;
    }
    assert Described(p0, 1, MASTER_Y) == p2 by { assert p0.servs[1 := y] == p2.servs; }
    assert Grouped(p2, "y") == (p3, Some(1)) by {
      assert [Group("x", [1])] + [Group("y", [])] == p3.groups;
      assert map["x" := 0]["y" := 1] == names;
    }
    assert AddTo(p3, 1, 1).groups == [Group("x", [1]), Group("y", [1])] by { assert Added([], 1) == [1]; }
    hide Located, Described, Grouped, Applied;
    MasterLine(p0, MASTER_Y, 0, 1, 1, p0, p2, p3);
  }

  /** Distinct addresses are not enough: "a@1" and "a" are one server, which ends in two groups. */
  lemma {:induction false} InTwoGroups()
    ensures var p := Pool([Server("s", [], [], Unknown, None, false)], map["s" := 0], [], map[], []);
            var q := Refreshed(p, [Report(MASTER_X, -1, -1), Report(MASTER_Y, -1, -1)], true, 0);
            && WellFormedPool(p) && MembersPointBack(p)
            && |q.groups| == 2 && q.groups[0].members == [1] && q.groups[1].members == [1]
  {
    hide ApplyAll, SettledFrom, WellFormedPool, MembersPointBack;
    var s0 := Server("s", [], [], Unknown, None, true);
    var p := Pool([s0.(updating := false)], map["s" := 0], [], map[], []);
    var m0 := Pool([s0], map["s" := 0], [], map[], []);
    EmptyPoolOk(p);
    assert Marked(p) == m0;
    var s2 := Server("a", "y", "-", Master, None, false);
    TwoLines(s0);
    SettledToTwo(Pool([s0, s2], map["s" := 0, "a" := 1], [Group("x", [1]), Group("y", [1])],
                      map["x" := 0, "y" := 1], []), s0, s2);
  }

  lemma {:induction false} EmptyPoolOk(p: Pool)
    requires |p.servs| == 1 && p.byAddr == map["s" := 0] && p.groups == [] && p.byName == map[]
    requires p.servs[0].group == None
    ensures WellFormedPool(p) && MembersPointBack(p)
  {
  }

  lemma {:induction false} TwoLines(s0: Server)
    ensures ApplyAll(Pool([s0], map["s" := 0], [], map[], []), [Report(MASTER_X, -1, -1), Report(MASTER_Y, -1, -1)], 0)
         == Pool([s0, Server("a", "y", "-", Master, None, false)], map["s" := 0, "a" := 1],
                 [Group("x", [1]), Group("y", [1])], map["x" := 0, "y" := 1], [])
  {
    hide Applied, ApplyAll;
    FirstLine(s0);
    SecondLine(s0);
    TwoReports(Pool([s0], map["s" := 0], [], map[], []), Report(MASTER_X, -1, -1), Report(MASTER_Y, -1, -1), 0);
  }

  lemma {:induction false} TwoReports(p: Pool, r1: Report, r2: Report, self: nat)
    ensures ApplyAll(p, [r1, r2], self) == Applied(Applied(p, r1, self).0, r2, self).0
  {
    hide Applied;
    var q := Applied(p, r1, self).0;
    assert [r1, r2][1..] == [r2] && [r2][1..] == [];
    assert ApplyAll(p, [r1, r2], self) == ApplyAll(q, [r2], self);
    assert ApplyAll(q, [r2], self) == ApplyAll(Applied(q, r2, self).0, [], self);
  }

  lemma {:induction false} SettledToTwo(m: Pool, s0: Server, s2: Server)
    requires s0.updating && s2 == Server("a", "y", "-", Master, None, false)
    requires m == Pool([s0, s2], map["s" := 0, "a" := 1], [Group("x", [1]), Group("y", [1])],
                       map["x" := 0, "y" := 1], [])
    ensures SettledFrom(m, 0).groups == m.groups
  {
    var n1 := m.(servs := [s0.(updating := false), s2]);
    assert SettledOne(m, 0) == n1;
    assert SettledOne(n1, 1).groups == m.groups;
    assert SettledFrom(n1, 1) == SettledFrom(SettledOne(n1, 1), 2) == SettledOne(n1, 1);
  }

  // ----- when addresses are enough -----

  /** Every server is registered under its address, and no address has an `@`. */
  predicate Registered(p: Pool) {
    && (forall a :: a in p.byAddr ==> '@' !in a && p.byAddr[a] < |p.servs| && p.servs[p.byAddr[a]].addr == a)
    && (forall k :: 0 <= k < |p.servs| ==> p.servs[k].addr in p.byAddr && p.byAddr[p.servs[k].addr] == k)
  }

  ghost predicate HasAddr(p: Pool, a: string) {
    exists k :: 0 <= k < |p.servs| && p.servs[k].addr == a
  }

  /** `a` is what stands in front of the first `@` of the address, or all of it. */
  predicate InFrontOfAt(addr: string, a: string) {
    '@' !in a && (addr == a || a + ['@'] <= addr)
  }

  lemma {:induction false} BeforeAtIs(addr: string, a: string)
    requires InFrontOfAt(addr, a)
    ensures BeforeAt(addr) == a && ('@' in addr <==> addr != a)
  {
    if addr != a {
      assert addr[|a|] == (a + ['@'])[|a|] == '@';
      assert addr[..|a|] == (a + ['@'])[..|a|] == a;
      FirstAt(addr, |a|);
    }
  }

  lemma {:induction false} FirstAt(s: string, n: nat)
    requires n < |s| && s[n] == '@' && '@' !in s[..n]
    ensures IndexOf(s, '@') == n
  {
    if n > 0 {
      assert s[..n][0] == s[0] && s[1..][..n - 1] == s[..n][1..];
      FirstAt(s[1..], n - 1);
    }
  }

  lemma {:induction false} KnownAddr(p: Pool, a: string)
    requires Registered(p)
    ensures a in p.byAddr <==> HasAddr(p, a)
    ensures a in p.byAddr ==> p.byAddr[a] < |p.servs| && p.servs[p.byAddr[a]].addr == a
  {
  }

  /** The server that a node is: the one with its address; or the one that was asked, if the flags say "myself"; or the
      one with what stands in front of the `@`; or a new one with that address, if the node is in order and there is
      room; or none. */
  lemma {:induction false} NodeIsFound(p: Pool, f: Fields, self: nat, a: string)
    requires Registered(p) && self < |p.servs| && InFrontOfAt(f.addr, a)
    ensures var (q, k) := Located(p, f, self);
            if f.addr == [] then k == None && q == p
            else if HasAddr(p, f.addr) then k.Some? && k.value < |p.servs| && p.servs[k.value].addr == f.addr
            else if Occurs("myself", f.flags) then k == Some(self)
            else if HasAddr(p, a) then k.Some? && k.value < |p.servs| && p.servs[k.value].addr == a
            else if f.role == Unknown || Occurs("fail", f.flags) || Occurs("handshake", f.flags) || |p.servs| >= 2048
            then k == None && q == p
            else k == Some(|p.servs|) && q.servs == p.servs + [Server(a, [], [], Unknown, None, false)]
                 && q.byAddr == p.byAddr[a := |p.servs|]
  {
    hide Contains, CString, Occurs, Registered, BeforeAt, HasAddr, InFrontOfAt;
    FlagOccurs(f.flags, "myself");
    FlagOccurs(f.flags, "fail");
    FlagOccurs(f.flags, "handshake");
    BeforeAtIs(f.addr, a);
    KnownAddr(p, f.addr);
    KnownAddr(p, a);
  }

  predicate SameNode(f: Fields, g: Fields) { f.role == g.role && f.nodeId == g.nodeId && f.master == g.master }

  predicate SameAddress(f: Fields, g: Fields) {
    f.addr != [] && g.addr != [] && BeforeAt(f.addr) == BeforeAt(g.addr)
  }

  /** What stands before the `@` tells nodes apart, and a node that calls itself the one asked has the address of
      that server. */
  predicate TellsApart(rs: seq<Report>, selfAddr: string) {
    && (forall i, j :: 0 <= i < |rs| && 0 <= j < |rs| && SameAddress(rs[i].f, rs[j].f) ==> SameNode(rs[i].f, rs[j].f))
    && (forall i :: 0 <= i < |rs| && Myself(rs[i].f) ==> BeforeAt(rs[i].f.addr) == selfAddr)
  }

  /** A server that has been seen was described by one of the first `n` reports. */
  predicate SeenIn(p: Pool, rs: seq<Report>, n: nat)
    requires n <= |rs|
  {
    forall k :: 0 <= k < |p.servs| && !p.servs[k].updating ==> exists i :: 0 <= i < n && DescribedBy(p.servs[k], rs[i].f)
  }

  predicate DescribedBy(x: Server, f: Fields) {
    && f.addr != [] && BeforeAt(f.addr) == x.addr
    && x.role == f.role && x.name == f.nodeId && x.masterName == f.master
  }

  lemma {:induction false} NoAtBefore(addr: string)
    ensures '@' !in addr ==> BeforeAt(addr) == addr
    ensures '@' !in BeforeAt(addr)
  {
  }

  lemma {:induction false} ResolvedAddr(p: Pool, f: Fields, self: nat)
    requires Registered(p) && self < |p.servs| && (Myself(f) ==> BeforeAt(f.addr) == p.servs[self].addr)
    ensures var k := Resolve(p, f, self);
            if k.Some? then k.value < |p.servs| && p.servs[k.value].addr == BeforeAt(f.addr)
            else BeforeAt(f.addr) !in p.byAddr
  {
    hide Myself, BeforeAt;
    NoAtBefore(f.addr);
  }

  lemma {:induction false} AgreesWithSeen(p: Pool, rs: seq<Report>, n: nat, self: nat)
    requires Registered(p) && self < |p.servs| && n < |rs| && TellsApart(rs, p.servs[self].addr) && SeenIn(p, rs, n)
    ensures Agrees(p, rs[n], self)
  {
    hide Resolve, Myself, BeforeAt;
    var r := rs[n];
    ResolvedAddr(p, r.f, self);
    if r.f.addr != [] && Resolve(p, r.f, self).Some? && !p.servs[Resolve(p, r.f, self).value].updating {
      var i :| 0 <= i < n && DescribedBy(p.servs[Resolve(p, r.f, self).value], rs[i].f);
      assert SameAddress(rs[i].f, r.f);
    }
  }

  lemma {:induction false} AppliedRegistered(p: Pool, rs: seq<Report>, n: nat, self: nat)
    requires Registered(p) && self < |p.servs| && n < |rs| && TellsApart(rs, p.servs[self].addr) && SeenIn(p, rs, n)
    ensures var q := Applied(p, rs[n], self).0;
            Registered(q) && SeenIn(q, rs, n + 1) && self < |q.servs| && q.servs[self].addr == p.servs[self].addr
  {
    hide Applied, Resolve, Myself, BeforeAt, SameNode, SeenIn;
    var r, q := rs[n], Applied(p, rs[n], self).0;
    ResolvedAddr(p, r.f, self);
    NoAtBefore(r.f.addr);
    AppliedServers(p, r, self);
    forall k | 0 <= k < |q.servs|
      ensures DescribedBy(q.servs[k], r.f) || (k < |p.servs| && q.servs[k] == p.servs[k])
    {
    }
    SeenOneMore(p, q, rs, n);
  }

  lemma {:induction false} SeenOneMore(p: Pool, q: Pool, rs: seq<Report>, n: nat)
    requires n < |rs| && SeenIn(p, rs, n)
    requires forall k :: 0 <= k < |q.servs| ==>
               DescribedBy(q.servs[k], rs[n].f) || (k < |p.servs| && q.servs[k] == p.servs[k])
    ensures SeenIn(q, rs, n + 1)
  {
    hide DescribedBy;
    forall k | 0 <= k < |q.servs| && !q.servs[k].updating
      ensures exists i :: 0 <= i < n + 1 && DescribedBy(q.servs[k], rs[i].f)
    {
      if !DescribedBy(q.servs[k], rs[n].f) {
        var i :| 0 <= i < n && DescribedBy(p.servs[k], rs[i].f);
        assert DescribedBy(q.servs[k], rs[i].f);
      }
    }
  }

  /** What a report does to the servers. */
  lemma {:induction false} AppliedServers(p: Pool, r: Report, self: nat)
    requires Resolve(p, r.f, self).Some? ==> Resolve(p, r.f, self).value < |p.servs|
    ensures var q := Applied(p, r, self).0;
            var k := Resolve(p, r.f, self);
            var x := Server(BeforeAt(r.f.addr), r.f.nodeId, r.f.master, r.f.role, None, false);
            if r.f.addr != [] && k.Some? then
              q.byAddr == p.byAddr && q.servs == p.servs[k.value := x.(addr := p.servs[k.value].addr,
                                                                    group := p.servs[k.value].group)]
            else
              (q.servs == p.servs && q.byAddr == p.byAddr)
              || (r.f.addr != [] && q.servs == p.servs + [x] && q.byAddr == p.byAddr[x.addr := |p.servs|])
  {
    hide Resolve, Abnormal, BeforeAt, Added, Filled;
  }

  lemma {:induction false} AllAgree(p: Pool, rs: seq<Report>, n: nat, self: nat)
    requires Registered(p) && self < |p.servs| && n <= |rs| && TellsApart(rs, p.servs[self].addr) && SeenIn(p, rs, n)
    ensures OneNodePerServer(p, rs[n..], self)
    decreases |rs| - n
  {
    hide Registered, TellsApart, SeenIn, Applied, Agrees;
    if n < |rs| {
      AgreesWithSeen(p, rs, n, self);
      AppliedRegistered(p, rs, n, self);
      AllAgree(Applied(p, rs[n], self).0, rs, n + 1, self);
      assert rs[n..][0] == rs[n] && rs[n..][1..] == rs[n + 1..];
    }
  }

  /** Servers stay registered while the lines are applied. */
  lemma {:induction false} StayRegistered(p: Pool, rs: seq<Report>, n: nat, self: nat)
    requires Registered(p) && self < |p.servs| && n <= |rs| && TellsApart(rs, p.servs[self].addr) && SeenIn(p, rs, n)
    ensures Registered(ApplyAll(p, rs[n..], self))
    decreases |rs| - n
  {
    hide Registered, TellsApart, SeenIn, Applied;
    if n < |rs| {
      AppliedRegistered(p, rs, n, self);
      StayRegistered(Applied(p, rs[n], self).0, rs, n + 1, self);
      assert rs[n..][0] == rs[n] && rs[n..][1..] == rs[n + 1..];
    }
  }

  /** Settling changes no address. */
  lemma {:induction false} SettledAddresses(p: Pool, i: nat)
    requires i <= |p.servs|
    ensures var q := SettledFrom(p, i);
            q.byAddr == p.byAddr && |q.servs| == |p.servs|
            && forall k :: 0 <= k < |p.servs| ==> q.servs[k].addr == p.servs[k].addr
    decreases |p.servs| - i
  {
    hide SettledOne;
    if i < |p.servs| {
      SettledOneAddresses(p, i);
      SettledAddresses(SettledOne(p, i), i + 1);
    }
  }

  lemma {:induction false} SettledOneAddresses(p: Pool, i: nat)
    requires i < |p.servs|
    ensures var q := SettledOne(p, i);
            q.byAddr == p.byAddr && |q.servs| == |p.servs|
            && forall k :: 0 <= k < |p.servs| ==> q.servs[k].addr == p.servs[k].addr
  {
    hide Left, Joined, GroupNamed;
    var x := p.servs[i];
    if !x.updating {
      var g := Target(p, x);
      TargetInRange(p, x);
      LeftServers(p, i, g);
      var q := Left(p, i, g);
      var q1 := if x.role == Slave && x.group.Some? && x.group != g then PointTo(q, i, None) else q;
      if g.Some? { JoinedServers(q1, i, g.value); }
    }
  }

  lemma {:induction false} LeftServers(p: Pool, i: nat, g: Option<nat>)
    requires i < |p.servs|
    ensures Left(p, i, g).servs == p.servs && Left(p, i, g).byAddr == p.byAddr
    ensures |Left(p, i, g).groups| == |p.groups|
  {
    hide Removed;
  }

  lemma {:induction false} JoinedServers(p: Pool, i: nat, g: nat)
    requires i < |p.servs| && g < |p.groups|
    ensures Joined(p, i, g).servs == p.servs[i := p.servs[i].(group := Some(g))] && Joined(p, i, g).byAddr == p.byAddr
  {
    hide Added;
  }

  /** Addresses that tell the nodes apart by what stands before the `@` are enough for a refresh to keep every
      server in one group, and to leave a pool in which this holds again of the next listing. */
  lemma {:induction false} AddressesAreEnough(p: Pool, rs: seq<Report>, self: nat)
    requires WellFormedPool(p) && MembersPointBack(p) && Registered(p) && self < |p.servs|
    requires TellsApart(rs, p.servs[self].addr)
    ensures var q := Refreshed(p, rs, true, self); WellFormedPool(q) && MembersPointBack(q) && Registered(q)
  {
    hide WellFormedPool, MembersPointBack, TellsApart, OneNodePerServer, ApplyAll, SettledFrom;
    assert Registered(Marked(p)) && SeenIn(Marked(p), rs, 0);
    AllAgree(Marked(p), rs, 0, self);
    StayRegistered(Marked(p), rs, 0, self);
    assert rs[0..] == rs;
    RefreshKeepsMembers(p, rs, self);
    SettledAddresses(ApplyAll(Marked(p), rs, self), 0);
  }

  predicate InRange(p: Pool) {
    && (forall a :: a in p.byAddr ==> p.byAddr[a] < |p.servs|)
    && (forall n :: n in p.byName ==> p.byName[n] < |p.groups|)
  }

  predicate SlotsBelow(rs: seq<Report>) {
    forall i :: 0 <= i < |rs| && rs[i].HasSlots() ==> rs[i].end <= 16384
  }

  lemma {:induction false} LocatedInRange(p: Pool, f: Fields, self: nat)
    requires InRange(p) && self < |p.servs|
    ensures var (q, k) := Located(p, f, self);
            InRange(q) && |p.servs| <= |q.servs| && (k.Some? ==> k.value < |q.servs|)
  {
    hide Abnormal, Myself, BeforeAt;
  }

  lemma {:induction false} DescribedInRange(p: Pool, k: nat, f: Fields)
    requires InRange(p) && k < |p.servs|
    ensures InRange(Described(p, k, f))
  {
  }

  lemma {:induction false} GroupedInRange(p: Pool, name: string)
    requires InRange(p)
    ensures var (q, g) := Grouped(p, name);
            InRange(q) && q.servs == p.servs && (g.Some? ==> g.value < |q.groups|)
  {
  }

  lemma {:induction false} AppliedInRange(p: Pool, r: Report, self: nat)
    requires InRange(p) && self < |p.servs|
    ensures InRange(Applied(p, r, self).0) && self < |Applied(p, r, self).0.servs|
  {
    hide Located, Grouped, Added, Filled;
    LocatedInRange(p, r.f, self);
    var (p1, k) := Located(p, r.f, self);
    if k.Some? {
      DescribedInRange(p1, k.value, r.f);
      GroupedInRange(Described(p1, k.value, r.f), r.f.nodeId);
    }
  }

  lemma {:induction false} MarkedInRange(p: Pool)
    requires InRange(p)
    ensures InRange(Marked(p))
  {
  }

  lemma {:induction false} StartEnters()
    ensures Enter(START) == START
  {
  }

  class ClusterServerPool {
    /** `mServPool`, `mServs`, `mGroupPool`, `mGroups`, `mSlots` */
    var servs: seq<Server>
    var byAddr: map<string, nat>
    var groups: seq<Group>
    var byName: map<string, nat>
    var slots: array<Option<nat>>

    ghost function View(): Pool
      reads this, slots
    {
      Pool(servs, byAddr, groups, byName, slots[..])
    }

    constructor ()
      ensures View() == Pool([], map[], [], map[], seq(16384, _ => None)) && fresh(slots)
    {
      servs, byAddr, groups, byName := [], map[], [], map[];
      slots := new Option<nat>[SLOTS](_ => None);
    }

    /** Finding the server of a node, or making one. */
    method Locate(f: Fields, self: nat) returns (k: Option<nat>)
      requires InRange(View()) && self < |servs|
      modifies `servs, `byAddr
      ensures (View(), k) == Located(old(View()), f, self) && (k.Some? ==> k.value < |servs|)
    {
      hide Abnormal, Myself, BeforeAt;
      if f.addr == [] { return None; }
      if f.addr in byAddr {
        k := Some(byAddr[f.addr]);
      } else if Myself(f) {
        k := Some(self);
      } else if '@' in f.addr && BeforeAt(f.addr) in byAddr {
        k := Some(byAddr[BeforeAt(f.addr)]);
      } else {
        if Abnormal(f) || |servs| >= MAX_SERV_NUM { return None; }
        k := Some(|servs|);
        servs := servs + [NewServer(BeforeAt(f.addr))];
        byAddr := byAddr[BeforeAt(f.addr) := k.value];
        return;
      }
      servs := servs[k.value := servs[k.value].(updating := false)];
    }

    /** Finding the group of a master, or making one. */
    method GroupFor(name: string) returns (g: Option<nat>)
      requires InRange(View())
      modifies `groups, `byName
      ensures (View(), g) == Grouped(old(View()), name) && (g.Some? ==> g.value < |groups|)
    {
      if name in byName { return Some(byName[name]); }
      if |groups| >= MAX_SERV_GROUP_NUM { return None; }
      g := Some(|groups|);
      groups := groups + [Group(name, [])];
      byName := byName[name := g.value];
    }

    /** The body of the loop for one node; slots lie below 16384. */
    method ApplyNode(r: Report, self: nat)
      requires InRange(View()) && self < |servs| && slots.Length == SLOTS && (r.HasSlots() ==> r.end <= SLOTS)
      modifies this, slots
      ensures slots == old(slots) && View() == Applied(old(View()), r, self).0
      ensures InRange(View()) && self < |servs|
    {
      hide Located, Grouped, Added, InRange;
      AppliedInRange(View(), r, self);
      LocatedInRange(View(), r.f, self);
      var k := Locate(r.f, self);
      if k == None { return; }
      servs := servs[k.value := servs[k.value].(role := r.f.role, name := r.f.nodeId, masterName := r.f.master)];
      if r.f.role != Master { return; }
      DescribedInRange(Located(old(View()), r.f, self).0, k.value, r.f);
      var g := GroupFor(r.f.nodeId);
      if g == None { return; }
      groups := groups[g.value := groups[g.value].(members := Added(groups[g.value].members, k.value))];
      if r.HasSlots() {
        FillSlots(r.begin, r.end, g.value);
      }
    }

    /** `handleResponse`: the listing is parsed, whatever buffers it comes in, and every node applied as it is
        met; if the listing ends as it should, the groups are settled. */
    method HandleResponse(chunks: seq<string>, self: nat) returns (finished: bool)
      requires InRange(View()) && self < |servs| && slots.Length == SLOTS
      requires SlotsBelow(ParseAll(START, Gather.Flat(chunks)).0)
      modifies this, slots
      ensures (var (rs, ok) := ParseAll(START, Gather.Flat(chunks));
               finished == ok && View() == Refreshed(old(View()), rs, ok, self))
    {
      hide Applied, ParseAll, ParseOne, Enter, InRange, Marked;
      var p := new ClusterNodesParser(chunks);
      ghost var rs, ok := ParseAll(START, Gather.Flat(chunks)).0, ParseAll(START, Gather.Flat(chunks)).1;
      MarkAll();
      MarkedInRange(old(View()));
      ghost var marked := View();
      ghost var left := rs;
      ghost var stream := Gather.Flat(chunks);
      finished := false;
      StartEnters();
      while !finished
        invariant InRange(View()) && self < |servs| && slots == old(slots) && slots.Length == SLOTS
        invariant !finished ==> stream == Gather.Flat(p.nodes) && ParseAll(Enter(p.p), stream) == (left, ok)
        invariant SlotsBelow(left) && ApplyAll(marked, rs, self) == ApplyAll(View(), left, self)
        invariant finished ==> left == [] && ok
        decreases |stream|, !finished
      {
        AllFromOne(Enter(p.p), stream);
        var st := p.Parse();
        match st
        case GotNode =>
          ghost var rest := ParseAll(Enter(p.p), Gather.Flat(p.nodes)).0;
          assert left == [ReportOf(p.p)] + rest;
          assert left[0] == ReportOf(p.p) && left[1..] == rest;
          ApplyNode(ReportOf(p.p), self);
          left, stream := rest, Gather.Flat(p.nodes);
        case GotFinished =>
          finished := true;
        case GotError =>
          return false;
      }
      Settle();
    }

    /** The first loop of all: every server is marked. */
    method MarkAll()
      modifies `servs
      ensures View() == Marked(old(View())) && |servs| == |old(servs)|
    {
      ghost var was := servs;
      for i := 0 to |servs|
        invariant |servs| == |was|
        invariant forall j :: 0 <= j < |was| ==> servs[j] == if j < i then was[j].(updating := true) else was[j]
      {
        servs := servs[i := servs[i].(updating := true)];
      }
      assert servs == Marked(old(View())).servs;
    }

    /** The last loop. */
    method Settle()
      modifies this
      ensures View() == SettledFrom(old(View()), 0)
    {
      hide SettledOne;
      ghost var p := View();
      var n := |servs|;
      for i := 0 to n
        invariant |servs| == n && slots == old(slots) && SettledFrom(p, 0) == SettledFrom(View(), i)
      {
        SettleServer(i);
      }
    }

    function GetGroup(name: string): (g: Option<nat>)
      reads `byName, `groups
    {
      if name in byName && byName[name] < |groups| then Some(byName[name]) else None
    }

    method SettleServer(i: nat)
      requires i < |servs|
      modifies `servs, `groups
      ensures View() == SettledOne(old(View()), i)
    {
      hide Added, Removed;
      var x := servs[i];
      if x.updating {
        servs := servs[i := x.(updating := false)];
        return;
      }
      match x.role
      case Master =>
        var g := GetGroup(x.name);
        Leave(i, g);
        if g.Some? { Join(i, g.value); }
      case Slave =>
        var g := GetGroup(x.masterName);
        Leave(i, g);
        if x.group.Some? && x.group != g { servs := servs[i := x.(group := None)]; }
        if g.Some? { Join(i, g.value); }
      case Unknown =>
        Leave(i, None);
    }

    method Leave(i: nat, g: Option<nat>)
      requires i < |servs|
      modifies `groups
      ensures View() == Left(old(View()), i, g)
    {
      var was := servs[i].group;
      if was.Some? && was != g && was.value < |groups| {
        groups := groups[was.value := groups[was.value].(members := Removed(groups[was.value].members, i))];
      }
    }

    method Join(i: nat, g: nat)
      requires i < |servs| && g < |groups|
      modifies `servs, `groups
      ensures View() == Joined(old(View()), i, g)
    {
      groups := groups[g := groups[g].(members := Added(groups[g].members, i))];
      servs := servs[i := servs[i].(group := Some(g))];
    }

    method FillSlots(begin: int, end: int, g: nat)
      requires 0 <= begin <= end <= slots.Length
      modifies slots
      ensures slots[..] == Filled(old(slots[..]), begin, end, g)
    {
      var t := begin;
      while t < end
        invariant begin <= t <= end
        invariant forall i :: 0 <= i < slots.Length ==>
                    slots[i] == if begin <= i < t then Some(g) else old(slots[..])[i]
      {
        slots[t] := Some(g);
        t := t + 1;
      }
    }
  }
}
