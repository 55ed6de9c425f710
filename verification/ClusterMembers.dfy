/** Exactly which listings keep every server in one group, and what a pool keeps over any number of them
    (src/ClusterServerPool.cpp `handleResponse`). */
module ClusterMembers {
  import opened Bytes
  import opened Servers
  import opened ClusterNodes
  import opened ClusterPools

  /** The groups are known by their names. */
  predicate NamedGroups(p: Pool) {
    && (forall n :: n in p.byName ==> p.byName[n] < |p.groups| && p.groups[p.byName[n]].name == n)
    && (forall g :: 0 <= g < |p.groups| ==> p.groups[g].name in p.byName && p.byName[p.groups[g].name] == g)
  }

  ghost predicate HasGroup(p: Pool, name: string) {
    exists g :: 0 <= g < |p.groups| && p.groups[g].name == name
  }

  /** The group of a master: the one with its name; or a new one without members, while there are less than 1024; or
      none. */
  lemma {:induction false} GroupIsFound(p: Pool, name: string)
    requires NamedGroups(p)
    ensures var (q, g) := Grouped(p, name);
            && NamedGroups(q) && q.servs == p.servs && q.byAddr == p.byAddr && q.slots == p.slots
            && if HasGroup(p, name) then q == p && g.Some? && g.value < |p.groups| && p.groups[g.value].name == name
               else if |p.groups| < 1024 then q.groups == p.groups + [Group(name, [])] && g == Some(|p.groups|)
               else q == p && g == None
  {
  }

  /** The server that each line is about: a matter of addresses alone. */
  function Landings(p: Pool, rs: seq<Report>, self: nat): (ls: seq<Option<nat>>)
    ensures |ls| == |rs|
    decreases |rs|
  {
    if rs == [] then [] else
    var (q, k) := Located(p, rs[0].f, self);
    [k] + Landings(q, rs[1..], self)
  }

  /** The group that the line has its server in, if there was room for the group and in it. */
  function PutBy(p: Pool, r: Report, self: nat): Option<nat> {
    var (q, g) := Applied(p, r, self);
    var k := Located(p, r.f, self).1;
    if g.Some? && k.Some? && g.value < |q.groups| && k.value in q.groups[g.value].members then g else None
  }

  function Puts(p: Pool, rs: seq<Report>, self: nat): (gs: seq<Option<nat>>)
    ensures |gs| == |rs|
    decreases |rs|
  {
    if rs == [] then [] else [PutBy(p, rs[0], self)] + Puts(Applied(p, rs[0], self).0, rs[1..], self)
  }

  /** The line names this group as that of its server. */
  predicate Says(f: Fields, name: string) {
    (f.role == Master && f.nodeId == name) || (f.role == Slave && f.master == name)
  }

  function LastOf(ls: seq<Option<nat>>, k: nat): (l: nat)
    requires Some(k) in ls
    ensures l < |ls| && ls[l] == Some(k) && forall j :: l < j < |ls| ==> ls[j] != Some(k)
  {
    if Some(k) in ls[1..] then 1 + LastOf(ls[1..], k) else 0
  }

  /** What line `i` says of the group of its server is what the server pointed to before, or, if the groups are
      settled, what the last line about this server says. */
  predicate LineHolds(p: Pool, rs: seq<Report>, ls: seq<Option<nat>>, gs: seq<Option<nat>>, i: nat, settled: bool)
    requires i < |rs| == |ls| == |gs|
  {
    gs[i].Some? && ls[i].Some? ==>
      var k := ls[i].value;
      (k < |p.servs| && p.servs[k].group == gs[i]) || (settled && Says(rs[LastOf(ls, k)].f, rs[i].f.nodeId))
  }

  predicate LinesHold(p: Pool, rs: seq<Report>, self: nat, settled: bool) {
    var ls, gs := Landings(Marked(p), rs, self), Puts(Marked(p), rs, self);
    forall i :: 0 <= i < |rs| ==> LineHolds(p, rs, ls, gs, i, settled)
  }

  // ----- one line -----

  lemma {:induction false} SameLandings(p: Pool, q: Pool, rs: seq<Report>, self: nat)
    requires p.byAddr == q.byAddr && |p.servs| == |q.servs|
    ensures Landings(p, rs, self) == Landings(q, rs, self)
    decreases |rs|
  {
    hide Abnormal, Myself, BeforeAt;
    if rs != [] { SameLandings(Located(p, rs[0].f, self).0, Located(q, rs[0].f, self).0, rs[1..], self); }
  }

  predicate SaidBy(x: Server, f: Fields) {
    !x.updating && x.role == f.role && x.name == f.nodeId && x.masterName == f.master
  }

  /** A line changes no server but the one it is about, and not what that one points to. */
  lemma {:induction false} LineServers(p: Pool, r: Report, self: nat)
    requires WellFormedPool(p) && self < |p.servs|
    ensures var (q, l, k) := (Applied(p, r, self).0, Located(p, r.f, self).0, Located(p, r.f, self).1);
            && q.byAddr == l.byAddr && |q.servs| == |l.servs| && |p.servs| <= |q.servs|
            && (k.Some? ==> k.value < |q.servs| && SaidBy(q.servs[k.value], r.f))
            && (k.Some? ==> q.servs[k.value].group == GroupBefore(p, k.value))
            && (forall j :: 0 <= j < |q.servs| && k != Some(j) ==> j < |p.servs| && q.servs[j] == p.servs[j])
  {
    hide Resolve, Abnormal, BeforeAt, Grouped, Added, Filled, WellFormedPool;
    LocatedServers(p, r.f, self);
    GroupedServers(Located(p, r.f, self).0, r.f.nodeId);
    var (l, k) := Located(p, r.f, self);
    if k.Some? { GroupedServers(Described(l, k.value, r.f), r.f.nodeId); }
  }

  function GroupBefore(p: Pool, k: nat): Option<nat> {
    if k < |p.servs| then p.servs[k].group else None
  }

  lemma {:induction false} LocatedServers(p: Pool, f: Fields, self: nat)
    requires WellFormedPool(p) && self < |p.servs|
    ensures var (l, k) := Located(p, f, self);
            && |p.servs| <= |l.servs| && l.groups == p.groups && l.byName == p.byName
            && (k.Some? ==> k.value < |l.servs| && !l.servs[k.value].updating)
            && (k.Some? ==> l.servs[k.value].group == GroupBefore(p, k.value))
            && (forall j :: 0 <= j < |l.servs| && k != Some(j) ==> j < |p.servs| && l.servs[j] == p.servs[j])
  {
    hide Resolve, Abnormal, BeforeAt, Distinct;
    ResolvedInPool(p, f, self);
  }

  lemma {:induction false} GroupedServers(p: Pool, name: string)
    ensures Grouped(p, name).0.servs == p.servs && Grouped(p, name).0.byAddr == p.byAddr
  {
  }

  lemma {:induction false} SameNames(p: Pool, q: Pool)
    requires NamedGroups(p) && q.byName == p.byName && |q.groups| == |p.groups|
    requires forall g :: 0 <= g < |p.groups| ==> q.groups[g].name == p.groups[g].name
    ensures NamedGroups(q)
  {
  }

  /** What a line does to the groups. */
  lemma {:induction false} LineShape(p: Pool, r: Report, self: nat)
    requires WellFormedPool(p) && self < |p.servs| && NamedGroups(p)
    ensures var (a, l, k) := (Applied(p, r, self), Located(p, r.f, self).0, Located(p, r.f, self).1);
            if k == None || r.f.role != Master || Grouped(l, r.f.nodeId).1 == None
            then a.1 == None && a.0.groups == p.groups && a.0.byName == p.byName
            else var (d, g) := (Grouped(l, r.f.nodeId).0, Grouped(l, r.f.nodeId).1.value);
                 g < |d.groups| && a.1 == Some(g) && a.0.byName == d.byName && a.0.groups == AddTo(d, g, k.value).groups
  {
    hide Located, Added, Filled, WellFormedPool, NamedGroups;
    LocatedServers(p, r.f, self);
    var (l, k) := Located(p, r.f, self);
    NamedByThis(p, l);
    GroupedNames(l, r.f.nodeId);
  }

  lemma {:induction false} NamedByThis(p: Pool, q: Pool)
    requires NamedGroups(p) && q.groups == p.groups && q.byName == p.byName
    ensures NamedGroups(q)
  {
  }

  /** A line that puts its server into a group is that of a master, and the group is named as the node. */
  lemma {:induction false} LineGroups(p: Pool, r: Report, self: nat)
    requires WellFormedPool(p) && self < |p.servs| && NamedGroups(p)
    ensures var q := Applied(p, r, self).0;
            && NamedGroups(q) && |p.groups| <= |q.groups|
            && (forall g :: 0 <= g < |p.groups| ==> q.groups[g].name == p.groups[g].name)
            && (PutBy(p, r, self).Some? ==>
                  Located(p, r.f, self).1.Some? && PutBy(p, r, self).value < |q.groups|
                  && q.groups[PutBy(p, r, self).value].name == r.f.nodeId)
  {
    hide Located, Grouped, Added, WellFormedPool, Applied, NamedGroups;
    LineShape(p, r, self);
    LocatedServers(p, r.f, self);
    var (l, k) := Located(p, r.f, self);
    NamedByThis(p, l);
    GroupedNames(l, r.f.nodeId);
    var q := Applied(p, r, self).0;
    var (d, g) := Grouped(l, r.f.nodeId);
    if k == None || r.f.role != Master || g == None {
      SameNames(p, q);
    } else {
      SameNames(d, q);
    }
  }

  lemma {:induction false} GroupedNames(p: Pool, name: string)
    requires NamedGroups(p)
    ensures var (q, g) := Grouped(p, name);
            && NamedGroups(q) && p.groups <= q.groups && |q.groups| <= |p.groups| + 1
            && (|q.groups| > |p.groups| ==> q.groups[|p.groups|].members == [])
            && (g.Some? ==> g.value < |q.groups| && q.groups[g.value].name == name)
  {
  }

  /** The members after a line: those before, and the one put in. */
  lemma {:induction false} LineMembers(p: Pool, r: Report, self: nat, g: nat, x: nat)
    requires WellFormedPool(p) && self < |p.servs| && NamedGroups(p) && g < |Applied(p, r, self).0.groups|
    ensures x in Applied(p, r, self).0.groups[g].members <==>
            (g < |p.groups| && x in p.groups[g].members)
            || (PutBy(p, r, self) == Some(g) && Located(p, r.f, self).1 == Some(x))
  {
    hide Located, Grouped, Added, WellFormedPool, Applied, NamedGroups;
    LineShape(p, r, self);
    LocatedServers(p, r.f, self);
    var (l, k) := Located(p, r.f, self);
    NamedByThis(p, l);
    GroupedNames(l, r.f.nodeId);
    var (d, h) := Grouped(l, r.f.nodeId);
    if k.Some? && r.f.role == Master && h.Some? { InMembers(d.groups[h.value].members, k.value, x); }
  }

  lemma {:induction false} InMembers(members: seq<nat>, k: nat, x: nat)
    ensures x in Added(members, k) <==> x in members || (x == k && k in Added(members, k))
  {
  }

  // ----- all lines -----

  lemma {:induction false} LandingsCons(p: Pool, rs: seq<Report>, self: nat)
    requires WellFormedPool(p) && self < |p.servs| && rs != []
    ensures Landings(p, rs, self)
         == [Located(p, rs[0].f, self).1] + Landings(Applied(p, rs[0], self).0, rs[1..], self)
  {
    hide Located, Applied, WellFormedPool;
    LineServers(p, rs[0], self);
    SameLandings(Located(p, rs[0].f, self).0, Applied(p, rs[0], self).0, rs[1..], self);
  }

  lemma {:induction false} LastOfCons(l: Option<nat>, ls: seq<Option<nat>>, k: nat)
    ensures Some(k) in [l] + ls <==> l == Some(k) || Some(k) in ls
    ensures Some(k) in ls ==> LastOf([l] + ls, k) == 1 + LastOf(ls, k)
    ensures Some(k) !in ls && l == Some(k) ==> LastOf([l] + ls, k) == 0
  {
    assert ([l] + ls)[1..] == ls;
    if Some(k) in ls {
      var i :| 0 <= i < |ls| && ls[i] == Some(k);
      assert ([l] + ls)[i + 1] == Some(k);
    } else if l == Some(k) {
      assert ([l] + ls)[0] == Some(k);
    }
  }

  /** Every server points to what it did, and is what the last line about it says. */
  lemma {:induction false} ServersAfter(p: Pool, rs: seq<Report>, self: nat, k: nat)
    requires WellFormedPool(p) && self < |p.servs| && k < |ApplyAll(p, rs, self).servs|
    ensures var (q, ls) := (ApplyAll(p, rs, self), Landings(p, rs, self));
            && q.servs[k].group == GroupBefore(p, k)
            && (if Some(k) in ls then SaidBy(q.servs[k], rs[LastOf(ls, k)].f)
                else k < |p.servs| && q.servs[k] == p.servs[k])
    decreases |rs|
  {
    hide WellFormedPool, Applied, Located, SaidBy, LastOf, Landings, ApplyAll;
    if rs == [] {
      NoLines(p, self);
    } else {
      var q := Applied(p, rs[0], self).0;
      var first, rest := Located(p, rs[0].f, self).1, Landings(q, rs[1..], self);
      AppliedWellFormed(p, rs[0], self);
      LineServers(p, rs[0], self);
      LandingsCons(p, rs, self);
      OneLineMore(p, rs, self);
      LastOfCons(first, rest, k);
      ServersAfter(q, rs[1..], self, k);
      if Some(k) in rest { assert rs[1 + LastOf(rest, k)] == rs[1..][LastOf(rest, k)]; }
    }
  }

  lemma {:induction false} NoLines(p: Pool, self: nat)
    ensures ApplyAll(p, [], self) == p && Landings(p, [], self) == []
  {
  }

  lemma {:induction false} OneLineMore(p: Pool, rs: seq<Report>, self: nat)
    requires rs != []
    ensures ApplyAll(p, rs, self) == ApplyAll(Applied(p, rs[0], self).0, rs[1..], self)
  {
    hide Applied;
  }

  lemma {:induction false} NamesAfter(p: Pool, rs: seq<Report>, self: nat)
    requires WellFormedPool(p) && self < |p.servs| && NamedGroups(p)
    ensures var q := ApplyAll(p, rs, self);
            && NamedGroups(q) && |p.groups| <= |q.groups|
            && (forall g :: 0 <= g < |p.groups| ==> q.groups[g].name == p.groups[g].name)
    decreases |rs|
  {
    hide WellFormedPool, NamedGroups, Applied;
    if rs != [] {
      AppliedWellFormed(p, rs[0], self);
      LineGroups(p, rs[0], self);
      NamesAfter(Applied(p, rs[0], self).0, rs[1..], self);
    }
  }

  /** Line `i` has put server `x` into group `g`. */
  predicate HasPut(ls: seq<Option<nat>>, gs: seq<Option<nat>>, i: nat, g: nat, x: nat)
    requires i < |ls| == |gs|
  {
    ls[i] == Some(x) && gs[i] == Some(g)
  }

  ghost predicate WasPut(ls: seq<Option<nat>>, gs: seq<Option<nat>>, g: nat, x: nat)
    requires |ls| == |gs|
  {
    exists i :: 0 <= i < |ls| && HasPut(ls, gs, i, g, x)
  }

  lemma {:induction false} WasPutCons(l: Option<nat>, o: Option<nat>, ls: seq<Option<nat>>, gs: seq<Option<nat>>,
                                      g: nat, x: nat)
    requires |ls| == |gs|
    ensures WasPut([l] + ls, [o] + gs, g, x) <==> (l == Some(x) && o == Some(g)) || WasPut(ls, gs, g, x)
  {
    var ls', gs' := [l] + ls, [o] + gs;
    if l == Some(x) && o == Some(g) { assert HasPut(ls', gs', 0, g, x); }
    if i :| 0 <= i < |ls| && HasPut(ls, gs, i, g, x) { assert HasPut(ls', gs', i + 1, g, x); }
    if i :| 0 <= i < |ls'| && HasPut(ls', gs', i, g, x) {
      if i > 0 { assert HasPut(ls, gs, i - 1, g, x); }
    }
  }

  /** The members of a group are those from before and those that a line has put there. */
  lemma {:induction false} MembersAfter(p: Pool, rs: seq<Report>, self: nat, g: nat, x: nat)
    requires WellFormedPool(p) && self < |p.servs| && NamedGroups(p) && g < |ApplyAll(p, rs, self).groups|
    ensures x in ApplyAll(p, rs, self).groups[g].members <==>
            (g < |p.groups| && x in p.groups[g].members)
            || WasPut(Landings(p, rs, self), Puts(p, rs, self), g, x)
    decreases |rs|
  {
    hide WellFormedPool, NamedGroups, Applied, Located, PutBy, WasPut;
    if rs == [] {
      NonePut(g, x);
    } else {
      var q := Applied(p, rs[0], self).0;
      AppliedWellFormed(p, rs[0], self);
      LineServers(p, rs[0], self);
      LineGroups(p, rs[0], self);
      LandingsCons(p, rs, self);
      WasPutCons(Located(p, rs[0].f, self).1, PutBy(p, rs[0], self), Landings(q, rs[1..], self),
                 Puts(q, rs[1..], self), g, x);
      MembersAfter(q, rs[1..], self, g, x);
      if g < |q.groups| {
        LineMembers(p, rs[0], self, g, x);
      } else {
        PutsInRange(p, rs[0], self);
      }
    }
  }

  lemma {:induction false} NonePut(g: nat, x: nat)
    ensures !WasPut([], [], g, x)
  {
  }

  lemma {:induction false} PutsInRange(p: Pool, r: Report, self: nat)
    ensures PutBy(p, r, self).Some? ==> PutBy(p, r, self).value < |Applied(p, r, self).0.groups|
  {
    hide Applied, Located;
  }

  /** The group that a line has its server in is named as the node, then and at the end. */
  lemma {:induction false} PutsAreNamed(p: Pool, rs: seq<Report>, self: nat, i: nat)
    requires WellFormedPool(p) && self < |p.servs| && NamedGroups(p) && i < |rs| && Puts(p, rs, self)[i].Some?
    ensures var (q, g) := (ApplyAll(p, rs, self), Puts(p, rs, self)[i].value);
            g < |q.groups| && q.groups[g].name == rs[i].f.nodeId && Landings(p, rs, self)[i].Some?
    decreases |rs|
  {
    hide WellFormedPool, NamedGroups, Applied, Located, PutBy;
    var q := Applied(p, rs[0], self).0;
    AppliedWellFormed(p, rs[0], self);
    LineGroups(p, rs[0], self);
    LandingsCons(p, rs, self);
    if i == 0 {
      NamesAfter(q, rs[1..], self);
    } else {
      PutsAreNamed(q, rs[1..], self, i - 1);
    }
  }

  // ----- the exact condition -----

  /** A server that was listed belongs to a group exactly if it points to it or the last line about it says so. */
  lemma {:induction false} BelongsBySaying(p: Pool, x: Server, f: Fields, g: nat)
    requires NamedGroups(p) && g < |p.groups| && SaidBy(x, f)
    ensures Target(p, x) == Some(g) <==> Says(f, p.groups[g].name)
  {
  }

  lemma {:induction false} LineBelongs(p: Pool, rs: seq<Report>, self: nat, i: nat)
    requires WellFormedPool(p) && self < |p.servs| && NamedGroups(p) && i < |rs|
    requires var gs, ls := Puts(Marked(p), rs, self), Landings(Marked(p), rs, self); gs[i].Some? && ls[i].Some?
    ensures var (q, k, g) := (ApplyAll(Marked(p), rs, self), Landings(Marked(p), rs, self)[i].value,
                              Puts(Marked(p), rs, self)[i].value);
            && k < |q.servs| && g < |q.groups| && k in q.groups[g].members
            && (Belongs(q, g, k) <==>
                LineHolds(p, rs, Landings(Marked(p), rs, self), Puts(Marked(p), rs, self), i, true))
            && (q.servs[k].group == Some(g) <==>
                LineHolds(p, rs, Landings(Marked(p), rs, self), Puts(Marked(p), rs, self), i, false))
  {
    hide WellFormedPool, NamedGroups, ApplyAll, Landings, Puts, Target, WasPut, SaidBy, Says;
    var m := Marked(p);
    var q, ls, gs := ApplyAll(m, rs, self), Landings(m, rs, self), Puts(m, rs, self);
    var k, g := ls[i].value, gs[i].value;
    MarkedWellFormed(p);
    MarkedNamed(p);
    ApplyAllWellFormed(m, rs, self);
    NamesAfter(m, rs, self);
    PutsAreNamed(m, rs, self, i);
    MembersAfter(m, rs, self, g, k);
    PutAt(ls, gs, i);
    MemberInPool(q, g, k);
    ServersAfter(m, rs, self, k);
    assert ls[i] == Some(k);
    BelongsBySaying(q, q.servs[k], rs[LastOf(ls, k)].f, g);
    SaidIsListed(q.servs[k], rs[LastOf(ls, k)].f);
  }

  lemma {:induction false} PutAt(ls: seq<Option<nat>>, gs: seq<Option<nat>>, i: nat)
    requires i < |ls| == |gs| && ls[i].Some? && gs[i].Some?
    ensures WasPut(ls, gs, gs[i].value, ls[i].value)
  {
    assert HasPut(ls, gs, i, gs[i].value, ls[i].value);
  }

  lemma {:induction false} MemberInPool(p: Pool, g: nat, k: nat)
    requires WellFormedPool(p) && g < |p.groups| && k in p.groups[g].members
    ensures k < |p.servs|
  {
    hide Distinct;
  }

  lemma {:induction false} SaidIsListed(x: Server, f: Fields)
    requires SaidBy(x, f)
    ensures !x.updating
  {
  }

  lemma {:induction false} MarkedNamed(p: Pool)
    requires NamedGroups(p)
    ensures NamedGroups(Marked(p))
  {
  }

  /** A member belongs to its group, or if the groups are not settled, points to it. */
  predicate InPlace(p: Pool, g: nat, k: nat, settled: bool)
    requires k < |p.servs|
  {
    if settled then Belongs(p, g, k) else p.servs[k].group == Some(g)
  }

  predicate AllInPlace(p: Pool, settled: bool) {
    forall g, k :: 0 <= g < |p.groups| && k in p.groups[g].members ==> k < |p.servs| && InPlace(p, g, k, settled)
  }

  /** Every member of a group, when all lines have been applied, is in place exactly if every line holds. */
  lemma {:induction false} InPlaceIfLinesHold(p: Pool, rs: seq<Report>, self: nat, settled: bool)
    requires WellFormedPool(p) && self < |p.servs| && NamedGroups(p) && MembersPointBack(p)
    ensures AllInPlace(ApplyAll(Marked(p), rs, self), settled) <==> LinesHold(p, rs, self, settled)
  {
    hide WellFormedPool, NamedGroups, ApplyAll, Landings, Puts, Belongs, LineHolds, WasPut, MembersPointBack;
    var m := Marked(p);
    var q, ls, gs := ApplyAll(m, rs, self), Landings(m, rs, self), Puts(m, rs, self);
    MarkedWellFormed(p);
    MarkedNamed(p);
    ApplyAllWellFormed(m, rs, self);
    if LinesHold(p, rs, self, settled) {
      forall g, k | 0 <= g < |q.groups| && k in q.groups[g].members
        ensures k < |q.servs| && InPlace(q, g, k, settled)
      {
        MemberInPool(q, g, k);
        MembersAfter(m, rs, self, g, k);
        if g < |m.groups| && k in m.groups[g].members {
          OldMember(p, rs, self, g, k);
        } else {
          var i := WhichPut(ls, gs, g, k);
          LineBelongs(p, rs, self, i);
        }
      }
    } else {
      var i :| 0 <= i < |rs| && !LineHolds(p, rs, ls, gs, i, settled);
      HoldsUnlessPut(p, rs, ls, gs, i, settled);
      LineBelongs(p, rs, self, i);
    }
  }

  lemma {:induction false} HoldsUnlessPut(p: Pool, rs: seq<Report>, ls: seq<Option<nat>>, gs: seq<Option<nat>>, i: nat,
                                         settled: bool)
    requires i < |rs| == |ls| == |gs| && !LineHolds(p, rs, ls, gs, i, settled)
    ensures gs[i].Some? && ls[i].Some?
  {
  }

  lemma {:induction false} WhichPut(ls: seq<Option<nat>>, gs: seq<Option<nat>>, g: nat, x: nat) returns (i: nat)
    requires |ls| == |gs| && WasPut(ls, gs, g, x)
    ensures i < |ls| && ls[i] == Some(x) && gs[i] == Some(g)
  {
    i :| i < |ls| && HasPut(ls, gs, i, g, x);
  }

  lemma {:induction false} PointsBack(p: Pool, g: nat, k: nat)
    requires MembersPointBack(p) && g < |p.groups| && k in p.groups[g].members
    ensures k < |p.servs| && p.servs[k].group == Some(g) && GroupBefore(Marked(p), k) == Some(g)
  {
  }

  /** A member from before still points to its group. */
  lemma {:induction false} OldMember(p: Pool, rs: seq<Report>, self: nat, g: nat, k: nat)
    requires WellFormedPool(p) && self < |p.servs| && MembersPointBack(p)
    requires g < |p.groups| && k in p.groups[g].members && k < |ApplyAll(Marked(p), rs, self).servs|
    ensures Belongs(ApplyAll(Marked(p), rs, self), g, k)
    ensures ApplyAll(Marked(p), rs, self).servs[k].group == Some(g)
  {
    hide WellFormedPool, ApplyAll, Landings;
    MarkedWellFormed(p);
    PointsBack(p, g, k);
    ServersAfter(Marked(p), rs, self, k);
  }

  /** A refresh keeps every member pointing to its group, and so every server in one group, exactly if for every
      line that has a server in a group, the server pointed to that group before the refresh, or the listing ends as
      it should and the last line about the server names the group. */
  lemma {:induction false} RefreshKeepsMembersExactly(p: Pool, rs: seq<Report>, finished: bool, self: nat)
    requires WellFormedPool(p) && self < |p.servs| && NamedGroups(p) && MembersPointBack(p)
    ensures MembersPointBack(Refreshed(p, rs, finished, self)) <==> LinesHold(p, rs, self, finished)
  {
    hide WellFormedPool, NamedGroups, ApplyAll, LinesHold, AllBelong, MembersPointBack, SettledFrom, AllInPlace;
    var q := ApplyAll(Marked(p), rs, self);
    KeptIfAllBelong(p, rs, self);
    InPlaceIfLinesHold(p, rs, self, finished);
    InPlaceMeans(q);
  }

  lemma {:induction false} InPlaceMeans(p: Pool)
    ensures AllInPlace(p, true) <==> AllBelong(p)
    ensures AllInPlace(p, false) <==> MembersPointBack(p)
  {
    hide Belongs;
    if AllInPlace(p, true) {
      forall g, k | 0 <= g < |p.groups| && k in p.groups[g].members ensures k < |p.servs| && Belongs(p, g, k) {
        assert InPlace(p, g, k, true);
      }
    }
    if AllBelong(p) {
      forall g, k | 0 <= g < |p.groups| && k in p.groups[g].members ensures k < |p.servs| && InPlace(p, g, k, true) {
        assert Belongs(p, g, k);
      }
    }
    if AllInPlace(p, false) {
      forall g, k | 0 <= g < |p.groups| && k in p.groups[g].members
        ensures k < |p.servs| && p.servs[k].group == Some(g)
      {
        assert InPlace(p, g, k, false);
      }
    }
    if MembersPointBack(p) {
      forall g, k | 0 <= g < |p.groups| && k in p.groups[g].members ensures k < |p.servs| && InPlace(p, g, k, false) {
        PointsBack(p, g, k);
      }
    }
  }

  // ----- the slots of a printed listing -----

  /** A node in order: a master or a slave with an address. */
  predicate InService(f: Fields) { f.addr != [] && f.role != Unknown && !Abnormal(f) }

  /** There is room for `n` more servers and groups. */
  predicate HasRoom(p: Pool, n: nat) { |p.servs| + n <= 2048 && |p.groups| + n <= 1024 }

  /** The server of the node is there, and so is its group. */
  predicate Knows(p: Pool, f: Fields, self: nat) {
    Resolve(p, f, self).Some? && (f.role == Master ==> f.nodeId in p.byName)
  }

  lemma {:induction false} LineIsTaken(p: Pool, r: Report, self: nat)
    requires WellFormedPool(p) && NamedGroups(p) && self < |p.servs| && InService(r.f)
    requires HasRoom(p, 1) || Knows(p, r.f, self)
    ensures var (q, g) := Applied(p, r, self);
            && |q.servs| <= |p.servs| + 1 && |q.groups| <= |p.groups| + 1 && Knows(q, r.f, self)
            && (Knows(p, r.f, self) ==> |q.servs| == |p.servs| && |q.groups| == |p.groups|)
            && (g.Some? <==> r.f.role == Master)
            && (g.Some? ==> g.value < |q.groups| && q.groups[g.value].name == r.f.nodeId)
  {
    hide WellFormedPool, NamedGroups, Located, Added, Filled, Applied, Resolve;
    LineShape(p, r, self);
    LocatedServers(p, r.f, self);
    LineServers(p, r, self);
    ServerIsTaken(p, r.f, self);
    var (l, k) := Located(p, r.f, self);
    NamedByThis(p, l);
    GroupedNames(l, r.f.nodeId);
    if r.f.role == Master { GroupIsTaken(l, r.f.nodeId); }
    SameAddrs(l, Applied(p, r, self).0, r.f, self);
  }

  lemma {:induction false} ServerIsTaken(p: Pool, f: Fields, self: nat)
    requires InService(f) && (|p.servs| < 2048 || Resolve(p, f, self).Some?)
    ensures var (q, k) := Located(p, f, self);
            && k.Some? && |q.servs| <= |p.servs| + 1 && Resolve(q, f, self).Some?
            && (Resolve(p, f, self).Some? ==> |q.servs| == |p.servs|)
  {
    hide Abnormal, Myself;
    NoAtAtAll(f.addr);
  }

  lemma {:induction false} NoAtAtAll(addr: string)
    ensures '@' !in addr ==> BeforeAt(addr) == addr
  {
  }

  lemma {:induction false} SameAddrs(p: Pool, q: Pool, f: Fields, self: nat)
    requires q.byAddr == p.byAddr
    ensures Resolve(q, f, self) == Resolve(p, f, self)
  {
  }

  lemma {:induction false} GroupIsTaken(p: Pool, name: string)
    requires |p.groups| < 1024 || name in p.byName
    ensures var (q, g) := Grouped(p, name);
            g.Some? && name in q.byName && (name in p.byName ==> |q.groups| == |p.groups|)
  {
  }

  predicate Reaches(r: Report, t: nat) { 0 <= r.begin <= t < r.end }

  ghost predicate AnyReaches(rs: seq<Report>, t: nat) {
    exists k :: 0 <= k < |rs| && Reaches(rs[k], t)
  }

  /** Slot `t` has a group of this name. */
  predicate SlotIsOf(p: Pool, t: nat, name: string) {
    && t < |p.slots| && p.slots[t].Some? && p.slots[t].value < |p.groups|
    && p.groups[p.slots[t].value].name == name
  }

  predicate AllOf(rs: seq<Report>, f: Fields) {
    forall i :: 0 <= i < |rs| ==> rs[i].f == f
  }

  /** All lines about one node. */
  lemma {:induction false} NodeTakesSlots(p: Pool, rs: seq<Report>, self: nat, t: nat, f: Fields)
    requires WellFormedPool(p) && NamedGroups(p) && self < |p.servs| && t < |p.slots|
    requires InService(f) && AllOf(rs, f) && (HasRoom(p, 1) || Knows(p, f, self))
    ensures var q := ApplyAll(p, rs, self);
            && |p.servs| <= |q.servs| <= |p.servs| + 1 && |q.groups| <= |p.groups| + 1
            && (Knows(p, f, self) ==> |q.servs| == |p.servs| && |q.groups| == |p.groups|)
            && WellFormedPool(q) && NamedGroups(q) && |q.slots| == |p.slots|
            && if f.role == Master && AnyReaches(rs, t) then SlotIsOf(q, t, f.nodeId) else q.slots[t] == p.slots[t]
    decreases |rs|
  {
    hide WellFormedPool, NamedGroups, Applied, InService, AnyReaches, Knows;
    if rs == [] {
      NoneReaches(t);
    } else {
      var (q, g) := Applied(p, rs[0], self);
      assert rs[0].f == f;
      LineIsTaken(p, rs[0], self);
      AppliedWellFormed(p, rs[0], self);
      LineGroups(p, rs[0], self);
      LineServers(p, rs[0], self);
      AppliedSlots(p, rs[0], self, t);
      AnyReachesCons(rs, t);
      NamesAfter(q, rs[1..], self);
      NodeTakesSlots(q, rs[1..], self, t, f);
    }
  }

  lemma {:induction false} NoneReaches(t: nat)
    ensures !AnyReaches([], t)
  {
  }

  lemma {:induction false} AnyReachesCons(rs: seq<Report>, t: nat)
    requires rs != []
    ensures AnyReaches(rs, t) <==> Reaches(rs[0], t) || AnyReaches(rs[1..], t)
  {
    if k :| 0 <= k < |rs| - 1 && Reaches(rs[1..][k], t) { assert Reaches(rs[k + 1], t); }
    if k :| 0 < k < |rs| && Reaches(rs[k], t) { assert Reaches(rs[1..][k - 1], t); }
  }

  predicate SlotIn(x: Slots, t: nat) {
    match x
    case Range(b, e) => b <= t <= e
    case Single(b) => t == b
    case Moving(_) => false
  }

  /** The line lists the slot as one of its node's. */
  ghost predicate Owns(r: Record, t: nat) {
    exists j :: 0 <= j < |r.slots| && SlotIn(r.slots[j], t)
  }

  lemma {:induction false} OwnedIsReached(f: Fields, xs: seq<Slots>, t: nat)
    ensures AnyReaches(SlotReports(f, xs), t) <==> exists j :: 0 <= j < |xs| && SlotIn(xs[j], t)
  {
    hide AnyReaches;
    if xs == [] {
      NoneReaches(t);
    } else {
      OwnedIsReached(f, xs[1..], t);
      var one := ItemReports(f, xs[0], |xs| == 1);
      assert SlotReports(f, xs) == one + SlotReports(f, xs[1..]);
      ItemReaches(f, xs[0], |xs| == 1, SlotReports(f, xs[1..]), t);
      if j :| 0 <= j < |xs| - 1 && SlotIn(xs[1..][j], t) { assert SlotIn(xs[j + 1], t); }
      if j :| 0 < j < |xs| && SlotIn(xs[j], t) { assert SlotIn(xs[1..][j - 1], t); }
    }
  }

  lemma {:induction false} ItemReaches(f: Fields, x: Slots, last: bool, more: seq<Report>, t: nat)
    ensures AnyReaches(ItemReports(f, x, last) + more, t) <==> SlotIn(x, t) || AnyReaches(more, t)
  {
    hide AnyReaches;
    var one := ItemReports(f, x, last);
    if one == [] {
      assert one + more == more;
    } else {
      assert (one + more)[1..] == more;
      AnyReachesCons(one + more, t);
    }
  }

  lemma {:induction false} RecordReaches(r: Record, t: nat)
    ensures AnyReaches(Reports(r), t) <==> Owns(r, t)
  {
    if r.slots == [] {
      assert Reports(r)[1..] == [];
      NoneReaches(t);
      AnyReachesCons(Reports(r), t);
    } else {
      OwnedIsReached(FieldsOf(r), r.slots, t);
    }
  }

  /** A line as servers in service have it. */
  ghost predicate IsUp(r: Record) {
    && r.addr != [] && !Occurs("noaddr", r.flags) && !Occurs("fail", r.flags) && !Occurs("handshake", r.flags)
    && (Occurs("master", r.flags) || Occurs("slave", r.flags))
  }

  lemma {:induction false} UpIsInService(r: Record)
    requires IsUp(r)
    ensures InService(FieldsOf(r)) && AllOf(Reports(r), FieldsOf(r))
    ensures FieldsOf(r).role == Master <==> Occurs("master", r.flags)
    ensures FieldsOf(r).nodeId == r.nodeId
  {
    hide Contains, Occurs, CString;
    FlagOccurs(r.flags, "master");
    FlagOccurs(r.flags, "slave");
    FlagOccurs(r.flags, "noaddr");
    FlagOccurs(r.flags, "fail");
    FlagOccurs(r.flags, "handshake");
    if r.slots != [] {
      forall k | 0 <= k < |Reports(r)| ensures Reports(r)[k].f == FieldsOf(r) { SameFields(FieldsOf(r), r.slots, k); }
    }
  }

  lemma {:induction false} ApplyInTwo(p: Pool, a: seq<Report>, b: seq<Report>, self: nat)
    ensures ApplyAll(p, a + b, self) == ApplyAll(ApplyAll(p, a, self), b, self)
    decreases |a|
  {
    hide Applied;
    if a == [] {
      assert a + b == b;
    } else {
      assert (a + b)[1..] == a[1..] + b;
      ApplyInTwo(Applied(p, a[0], self).0, a[1..], b, self);
    }
  }

  ghost predicate MasterOwns(r: Record, t: nat) { Occurs("master", r.flags) && Owns(r, t) }

  ghost predicate AllUp(recs: seq<Record>) {
    forall i :: 0 <= i < |recs| ==> IsUp(recs[i])
  }

  /** The last line of a master that lists slot `t` is line `n`; or there is none, and `n` is their number. */
  ghost predicate LastOwner(recs: seq<Record>, t: nat, n: nat) {
    && n <= |recs| && (n < |recs| ==> MasterOwns(recs[n], t))
    && forall i :: 0 <= i < |recs| && (i > n || n == |recs|) ==> !MasterOwns(recs[i], t)
  }

  /** The pool after slot `t` has gone to its last owner. */
  ghost predicate OwnerHas(p: Pool, q: Pool, recs: seq<Record>, t: nat, n: nat) {
    if n < |recs| then SlotIsOf(q, t, recs[n].nodeId) else |q.slots| == |p.slots| > t && q.slots[t] == p.slots[t]
  }

  lemma {:induction false} RoomInTwo(p: Pool, q: Pool, a: nat, b: nat)
    requires HasRoom(p, a + b)
    ensures HasRoom(p, a)
    ensures |q.servs| <= |p.servs| + a && |q.groups| <= |p.groups| + a ==> HasRoom(q, b)
  {
  }

  lemma {:induction false} LastOwnerRest(recs: seq<Record>, t: nat, n: nat)
    requires recs != [] && LastOwner(recs, t, n)
    ensures LastOwner(recs[1..], t, if n == 0 then |recs| - 1 else n - 1)
    ensures n == |recs| ==> !MasterOwns(recs[0], t)
    ensures n == 0 ==> MasterOwns(recs[0], t)
  {
    hide MasterOwns;
    forall i | 0 <= i < |recs| - 1 ensures recs[1..][i] == recs[i + 1] {}
  }

  lemma {:induction false} StillOf(p: Pool, q: Pool, t: nat, name: string)
    requires |q.slots| == |p.slots| > t && |p.groups| <= |q.groups|
    requires forall g :: 0 <= g < |p.groups| ==> q.groups[g].name == p.groups[g].name
    ensures SlotIsOf(p, t, name) && q.slots[t] == p.slots[t] ==> SlotIsOf(q, t, name)
  {
  }

  lemma {:induction false} LinesTakeSlots(p: Pool, recs: seq<Record>, self: nat, t: nat, n: nat)
    requires WellFormedPool(p) && NamedGroups(p) && self < |p.servs| && t < |p.slots|
    requires HasRoom(p, |recs|) && AllUp(recs) && LastOwner(recs, t, n)
    ensures var q := ApplyAll(p, AllReports(recs), self);
            |q.slots| == |p.slots| && NamedGroups(q) && OwnerHas(p, q, recs, t, n)
    decreases |recs|
  {
    hide WellFormedPool, NamedGroups, ApplyAll, IsUp, InService, AnyReaches, Reports, HasRoom, SlotIsOf, Owns, Occurs;
    if recs == [] {
      NoLines(p, self);
    } else {
      var r, rest := recs[0], recs[1..];
      var q := ApplyAll(p, Reports(r), self);
      assert AllReports(recs) == Reports(r) + AllReports(rest);
      ApplyInTwo(p, Reports(r), AllReports(rest), self);
      assert IsUp(r);
      UpIsInService(r);
      RecordReaches(r, t);
      NodeTakesSlots(p, Reports(r), self, t, FieldsOf(r)) by { RoomInTwo(p, p, 1, |rest|); }
      RoomInTwo(p, q, 1, |rest|);
      LastOwnerRest(recs, t, n);
      LinesTakeSlots(q, rest, self, t, if n == 0 then |rest| else n - 1);
      NamesAfter(q, AllReports(rest), self);
      StillOf(q, ApplyAll(q, AllReports(rest), self), t, r.nodeId);
      if 0 < n < |recs| { assert rest[n - 1] == recs[n]; }
    }
  }

  /** Settling changes no group's name. */
  lemma {:induction false} SettledGroups(p: Pool, i: nat)
    requires i <= |p.servs|
    ensures SameGroupNames(p, SettledFrom(p, i))
    decreases |p.servs| - i
  {
    hide SettledOne;
    if i < |p.servs| {
      SettledOneGroups(p, i);
      SettledGroups(SettledOne(p, i), i + 1);
    }
  }

  predicate SameGroupNames(p: Pool, q: Pool) {
    |q.groups| == |p.groups| && forall g :: 0 <= g < |p.groups| ==> q.groups[g].name == p.groups[g].name
  }

  lemma {:induction false} SettledOneGroups(p: Pool, i: nat)
    requires i < |p.servs|
    ensures SameGroupNames(p, SettledOne(p, i))
  {
    hide Left, Joined, GroupNamed;
    var x := p.servs[i];
    if !x.updating {
      var g := Target(p, x);
      TargetInRange(p, x);
      LeftGroups(p, i, g);
      var q := Left(p, i, g);
      var q1 := if x.role == Slave && x.group.Some? && x.group != g then PointTo(q, i, None) else q;
      if g.Some? { JoinedGroups(q1, i, g.value); }
    }
  }

  lemma {:induction false} LeftGroups(p: Pool, i: nat, g: Option<nat>)
    requires i < |p.servs|
    ensures SameGroupNames(p, Left(p, i, g)) && Left(p, i, g).servs == p.servs
  {
    hide Removed;
  }

  lemma {:induction false} JoinedGroups(p: Pool, i: nat, g: nat)
    requires i < |p.servs| && g < |p.groups|
    ensures SameGroupNames(p, Joined(p, i, g))
  {
    hide Added;
  }

  /** From the bytes of a listing to the slots: when the nodes listed are in service, each slot has the group that is
      named as the node of the last master listed with it, and the others have what they had. */
  lemma {:induction false} ListingSetsSlots(p: Pool, recs: seq<Record>, self: nat, t: nat, n: nat)
    requires WellFormedPool(p) && NamedGroups(p) && self < |p.servs| && t < |p.slots|
    requires forall i :: 0 <= i < |recs| ==> WellFormed(recs[i])
    requires AllUp(recs) && |p.servs| + |recs| <= 2048 && |p.groups| + |recs| <= 1024 && LastOwner(recs, t, n)
    ensures var (rs, ok) := ParseAll(START, Print(recs));
            ok && OwnerHas(p, Refreshed(p, rs, ok, self), recs, t, n)
  {
    hide ParseAll, Print, AllUp, WellFormed, ApplyAll, SettledFrom, AllReports, WellFormedPool, NamedGroups, LastOwner;
    ParseAfterPrint(recs);
    var m, rs := Marked(p), AllReports(recs);
    MarkedWellFormed(p);
    MarkedNamed(p);
    LinesTakeSlots(m, recs, self, t, n);
    var q := ApplyAll(m, rs, self);
    SettledGroups(q, 0);
    var r := SettledFrom(q, 0);
    if n < |recs| { StillOf(q, r, t, recs[n].nodeId); }
  }

  // ----- any number of listings -----

  datatype Listing = Listing(rs: seq<Report>, finished: bool, self: nat)

  function After(p: Pool, l: Listing): Pool {
    Refreshed(p, l.rs, l.finished, l.self)
  }

  function RefreshedAll(p: Pool, ls: seq<Listing>): Pool
    decreases |ls|
  {
    if ls == [] then p else RefreshedAll(After(p, ls[0]), ls[1..])
  }

  /** All lines of all listings hold, each in the pool that those before have left. */
  predicate AllLinesHold(p: Pool, ls: seq<Listing>)
    decreases |ls|
  {
    ls == [] || (LinesHold(p, ls[0].rs, ls[0].self, ls[0].finished) && AllLinesHold(After(p, ls[0]), ls[1..]))
  }

  /** Each listing comes from a server of the pool. */
  predicate FromPool(p: Pool, ls: seq<Listing>)
    decreases |ls|
  {
    ls == [] || (ls[0].self < |p.servs| && FromPool(After(p, ls[0]), ls[1..]))
  }

  /** Each listing ends as it should, and tells its nodes apart by their addresses. */
  predicate AllTellApart(p: Pool, ls: seq<Listing>)
    decreases |ls|
  {
    ls == [] || (ls[0].self < |p.servs| && ls[0].finished && TellsApart(ls[0].rs, p.servs[ls[0].self].addr)
                 && AllTellApart(After(p, ls[0]), ls[1..]))
  }

  lemma {:induction false} SettledNames(p: Pool, i: nat)
    requires NamedGroups(p) && i <= |p.servs|
    ensures NamedGroups(SettledFrom(p, i))
    decreases |p.servs| - i
  {
    hide SettledOne, NamedGroups;
    if i < |p.servs| {
      SettledOneNames(p, i);
      SettledNames(SettledOne(p, i), i + 1);
    }
  }

  lemma {:induction false} SettledOneNames(p: Pool, i: nat)
    requires NamedGroups(p) && i < |p.servs|
    ensures NamedGroups(SettledOne(p, i))
  {
    hide NamedGroups, Left, Joined, GroupNamed;
    var x := p.servs[i];
    if x.updating {
      SameNames(p, SettledOne(p, i));
    } else {
      var g := Target(p, x);
      TargetInRange(p, x);
      LeftNames(p, i, g);
      var q := Left(p, i, g);
      var q1 := if x.role == Slave && x.group.Some? && x.group != g then PointTo(q, i, None) else q;
      SameNames(q, q1);
      if g.Some? { JoinedNames(q1, i, g.value); }
    }
  }

  lemma {:induction false} LeftNames(p: Pool, i: nat, g: Option<nat>)
    requires NamedGroups(p) && i < |p.servs|
    ensures var q := Left(p, i, g); NamedGroups(q) && |q.groups| == |p.groups| && q.servs == p.servs
  {
    hide Removed, NamedGroups;
    SameNames(p, Left(p, i, g));
  }

  lemma {:induction false} JoinedNames(p: Pool, i: nat, g: nat)
    requires NamedGroups(p) && i < |p.servs| && g < |p.groups|
    ensures NamedGroups(Joined(p, i, g))
  {
    hide Added, NamedGroups;
    SameNames(p, Joined(p, i, g));
  }

  lemma {:induction false} RefreshKeepsNames(p: Pool, l: Listing)
    requires WellFormedPool(p) && l.self < |p.servs| && NamedGroups(p)
    ensures WellFormedPool(After(p, l)) && NamedGroups(After(p, l))
  {
    hide WellFormedPool, NamedGroups, ApplyAll, SettledFrom;
    MarkedWellFormed(p);
    MarkedNamed(p);
    NamesAfter(Marked(p), l.rs, l.self);
    ApplyAllWellFormed(Marked(p), l.rs, l.self);
    SettledNames(ApplyAll(Marked(p), l.rs, l.self), 0);
    SettledWellFormed(ApplyAll(Marked(p), l.rs, l.self), 0);
  }

  lemma {:induction false} SettledWellFormed(p: Pool, i: nat)
    requires WellFormedPool(p) && i <= |p.servs|
    ensures WellFormedPool(SettledFrom(p, i))
    decreases |p.servs| - i
  {
    hide SettledOne, WellFormedPool;
    if i < |p.servs| {
      SettledOneWellFormed(p, i);
      SettledWellFormed(SettledOne(p, i), i + 1);
    }
  }

  /** Members point to their groups after every one of the listings exactly if the lines of every one hold. */
  lemma {:induction false} ListingsKeepMembersExactly(p: Pool, ls: seq<Listing>)
    requires WellFormedPool(p) && NamedGroups(p) && MembersPointBack(p) && FromPool(p, ls)
    ensures (forall n :: 0 <= n <= |ls| ==> MembersPointBack(RefreshedAll(p, ls[..n]))) <==> AllLinesHold(p, ls)
    decreases |ls|
  {
    hide WellFormedPool, NamedGroups, MembersPointBack, Refreshed, LinesHold;
    if ls == [] {
      assert ls[..0] == [];
    } else {
      var l := ls[0];
      RefreshKeepsMembersExactly(p, l.rs, l.finished, l.self);
      RefreshKeepsNames(p, l);
      FirstOfAll(p, ls);
      if LinesHold(p, l.rs, l.self, l.finished) { ListingsKeepMembersExactly(After(p, l), ls[1..]); }
    }
  }

  lemma {:induction false} FirstOfAll(p: Pool, ls: seq<Listing>)
    requires ls != [] && MembersPointBack(p)
    ensures (forall n :: 0 <= n <= |ls| ==> MembersPointBack(RefreshedAll(p, ls[..n])))
            <==> (forall n :: 0 <= n <= |ls| - 1 ==> MembersPointBack(RefreshedAll(After(p, ls[0]), ls[1..][..n])))
    ensures RefreshedAll(After(p, ls[0]), ls[1..][..0]) == After(p, ls[0])
  {
    hide MembersPointBack, After;
    var q := After(p, ls[0]);
    forall n | 1 <= n <= |ls| ensures RefreshedAll(p, ls[..n]) == RefreshedAll(q, ls[1..][..n - 1]) {
      assert ls[..n][1..] == ls[1..][..n - 1];
    }
    assert ls[..0] == [];
    forall n | 0 <= n <= |ls| - 1 ensures RefreshedAll(q, ls[1..][..n]) == RefreshedAll(p, ls[..n + 1]) {
      assert ls[..n + 1][1..] == ls[1..][..n];
    }
  }

  /** What a pool keeps. */
  predicate Kept(p: Pool) {
    WellFormedPool(p) && NamedGroups(p) && MembersPointBack(p) && Registered(p)
  }

  /** Over any number of listings, asked of any servers, that tell the nodes apart by address: everything is kept,
      and no server is ever in two groups. */
  lemma {:induction false} ListingsKeep(p: Pool, ls: seq<Listing>)
    requires Kept(p) && AllTellApart(p, ls)
    ensures Kept(RefreshedAll(p, ls))
    decreases |ls|
  {
    hide WellFormedPool, NamedGroups, MembersPointBack, Registered, Refreshed, TellsApart;
    if ls != [] {
      AddressesAreEnough(p, ls[0].rs, ls[0].self);
      RefreshKeepsNames(p, ls[0]);
      ListingsKeep(After(p, ls[0]), ls[1..]);
    }
  }

  lemma {:induction false} NeverInTwoGroups(p: Pool, ls: seq<Listing>, g: nat, h: nat, k: nat)
    requires Kept(p) && AllTellApart(p, ls)
    requires var q := RefreshedAll(p, ls);
             g < |q.groups| && h < |q.groups| && k in q.groups[g].members && k in q.groups[h].members
    ensures g == h
  {
    hide WellFormedPool, NamedGroups, MembersPointBack, Registered, RefreshedAll;
    ListingsKeep(p, ls);
    InOneGroup(RefreshedAll(p, ls), g, h, k);
  }

  /** The pool of a configuration: its servers, and no groups yet. */
  function Configured(addrs: seq<string>): Pool {
    Pool(seq(|addrs|, k requires 0 <= k < |addrs| => NewServer(addrs[k])),
         map a | a in addrs :: Place(addrs, a), [], map[], [])
  }

  function Place(addrs: seq<string>, a: string): (k: nat)
    requires a in addrs
    ensures k < |addrs| && addrs[k] == a
  {
    if addrs[0] == a then 0 else 1 + Place(addrs[1..], a)
  }

  lemma {:induction false} ConfiguredIsKept(addrs: seq<string>)
    requires forall i, j :: 0 <= i < j < |addrs| ==> addrs[i] != addrs[j]
    requires forall i :: 0 <= i < |addrs| ==> '@' !in addrs[i]
    ensures Kept(Configured(addrs))
  {
    var p := Configured(addrs);
    forall k | 0 <= k < |p.servs| ensures p.servs[k].addr in p.byAddr && p.byAddr[p.servs[k].addr] == k {
      assert addrs[k] in addrs;
    }
  }
}
