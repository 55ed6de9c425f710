/** The list of clients in the order of their last activity, and the sweep that looks for idle ones
    (src/Handler.cpp `checkClientTimeout`, `addPostEvent`, src/Handler.h `setAcceptConnectionActiveTime`). */
module IdleSweep {
  import opened Deques

  predicate Sorted(ts: seq<int>) {
    forall i, j :: 0 <= i < j < |ts| ==> ts[i] <= ts[j]
  }

  /** No client was active later than `now`. */
  predicate Until(ts: seq<int>, now: int) {
    forall i :: 0 <= i < |ts| ==> ts[i] <= now
  }

  /** The client at `i` becomes the last, active at `now`. */
  function Renewed(ts: seq<int>, i: nat, now: int): (r: seq<int>)
    requires i < |ts|
    ensures |r| == |ts| && r[i..] == ts[i + 1..] + [now]
  {
    ts[..i] + ts[i + 1..] + [now]
  }

  lemma {:induction false} RenewedInOrder(ts: seq<int>, i: nat, now: int)
    requires i < |ts| && Sorted(ts) && Until(ts, now)
    ensures Sorted(Renewed(ts, i, now)) && Until(Renewed(ts, i, now), now)
  {
    var r := Renewed(ts, i, now);
    forall j | 0 <= j < |r| ensures r[j] == if j < i then ts[j] else if j < |ts| - 1 then ts[j + 1] else now {}
  }

  ghost function Times(s: seq<Client>): (r: seq<int>)
    reads s`lastActive
    ensures |r| == |s| && forall i :: 0 <= i < |s| ==> r[i] == s[i].lastActive
  {
    if s == [] then [] else [s[0].lastActive] + Times(s[1..])
  }

  ghost function Posted(s: seq<Client>): (r: seq<bool>)
    reads s`posted
    ensures |r| == |s| && forall i :: 0 <= i < |s| ==> r[i] == s[i].posted
  {
    if s == [] then [] else [s[0].posted] + Posted(s[1..])
  }

  ghost function Clients(s: seq<Client>): set<Client> {
    set c | c in s
  }

  lemma {:induction false} MovedClients(s: seq<Client>, i: nat)
    requires i < |s|
    ensures Clients(Cut(s, i) + [s[i]]) == Clients(s)
  {
    hide Cut;
    var r := Cut(s, i) + [s[i]];
    forall x | x in s ensures x in r {
      var j :| 0 <= j < |s| && s[j] == x;
      assert r[if j < i then j else if j == i then |s| - 1 else j - 1] == x;
    }
    forall x | x in r ensures x in s {
      var j :| 0 <= j < |r| && r[j] == x;
      assert s[if j < i then j else if j == |s| - 1 then i else j + 1] == x;
    }
  }

  /** Clients are where they were, but for the one at `i`, which is now the last and active at `now`. */
  lemma {:induction false} TimesAfterMove(s: seq<Client>, i: nat, ts: seq<int>, now: int)
    requires i < |s| == |ts| && s[i].lastActive == now
    requires forall j :: 0 <= j < |s| && j != i ==> s[j].lastActive == ts[j]
    ensures Times(Cut(s, i) + [s[i]]) == Renewed(ts, i, now)
  {
    hide Times, Cut;
    var r, rs := Cut(s, i) + [s[i]], ts[..i] + ts[i + 1..] + [now];
    forall j | 0 <= j < |r| ensures Times(r)[j] == rs[j] {
      assert rs[j] == if j < i then ts[j] else if j < |ts| - 1 then ts[j + 1] else now;
    }
    assert Times(r) == rs;
  }

  // ----- where the sweep ends -----

  ghost predicate Stale(c: Client, now: int, timeout: int)
    reads c`lastActive
  {
    now - c.lastActive >= timeout
  }

  /** An idle client that does not stand in the list of posted events. */
  ghost predicate Open(c: Client)
    reads c`empty, c`posted
  {
    c.empty && !c.posted
  }

  /** The sweep ends at the first client that is not stale, or that it posts. */
  ghost function SweepEnd(s: seq<Client>, now: int, timeout: int): (e: nat)
    reads s`lastActive, s`empty, s`posted
    ensures e <= |s| && forall j :: 0 <= j < e ==> Stale(s[j], now, timeout) && !Open(s[j])
    ensures e < |s| ==> !Stale(s[e], now, timeout) || Open(s[e])
  {
    if s == [] || !Stale(s[0], now, timeout) || Open(s[0]) then 0 else 1 + SweepEnd(s[1..], now, timeout)
  }

  /** The clients to be closed for being idle. */
  ghost function Overdue(s: seq<Client>, now: int, timeout: int): set<Client>
    reads s`lastActive, s`empty, s`posted
  {
    set c | c in s && Stale(c, now, timeout) && Open(c)
  }

  /** The one the sweep ends at, if it is stale. */
  ghost function Hit(s: seq<Client>, now: int, timeout: int): (h: set<Client>)
    reads s`lastActive, s`empty, s`posted
    ensures |h| <= 1
  {
    var e := SweepEnd(s, now, timeout);
    if e < |s| && Stale(s[e], now, timeout) then {s[e]} else {}
  }

  lemma {:induction false} OverdueAre(s: seq<Client>, now: int, timeout: int)
    ensures forall c :: c in Overdue(s, now, timeout) ==> c in s && !c.posted
  {
  }

  lemma {:induction false} StillDistinct(s: seq<Client>, v: nat)
    requires Distinct(s) && v < |s|
    ensures forall j :: 0 <= j < |s| && j != v ==> s[j] != s[v]
  {
  }

  lemma {:induction false} HitIs(s: seq<Client>, now: int, timeout: int)
    ensures var e := SweepEnd(s, now, timeout);
            Hit(s, now, timeout) == if e < |s| && Stale(s[e], now, timeout) then {s[e]} else {}
  {
  }

  /** The same of the times and posted events at the start. */
  ghost predicate IsEnd(s: seq<Client>, ts: seq<int>, ps: seq<bool>, e: nat, now: int, timeout: int)
    reads s`empty
  {
    && e <= |s| == |ts| == |ps|
    && (forall j :: 0 <= j < e ==> now - ts[j] >= timeout && (s[j].empty ==> ps[j]))
    && (e < |s| ==> now - ts[e] < timeout || (s[e].empty && !ps[e]))
  }

  lemma {:induction false} EndAt(s: seq<Client>, ts: seq<int>, ps: seq<bool>, e: nat, now: int, timeout: int, v: nat)
    requires IsEnd(s, ts, ps, e, now, timeout) && v <= e
    ensures e <= |s| == |ts| == |ps|
    ensures v < e ==> now - ts[v] >= timeout && (s[v].empty ==> ps[v])
    ensures v == e < |s| ==> now - ts[v] < timeout || (s[v].empty && !ps[v])
  {
  }

  lemma {:induction false} ItIsEnd(s: seq<Client>, now: int, timeout: int)
    ensures IsEnd(s, Times(s), Posted(s), SweepEnd(s, now, timeout), now, timeout)
  {
    hide Times, Posted, SweepEnd;
  }

  /** In front of a client that is not stale there are all that are. */
  lemma {:induction false} QuietBehind(s: seq<Client>, i: nat, now: int, timeout: int)
    requires i < |s| && Sorted(Times(s)) && !Stale(s[i], now, timeout)
    ensures forall j :: i <= j < |s| ==> !Stale(s[j], now, timeout)
  {
    hide Times;
    forall j | i <= j < |s| ensures !Stale(s[j], now, timeout) {
      assert Times(s)[i] <= Times(s)[j];
    }
  }

  /** The sweep hits one of the clients that are overdue exactly if there is one, and so all exactly if there is
      one at most. */
  lemma {:induction false} OneIsHit(s: seq<Client>, now: int, timeout: int)
    requires Sorted(Times(s))
    ensures var u, h := Overdue(s, now, timeout), Hit(s, now, timeout);
            h <= u && (h == {} <==> u == {}) && (h == u <==> |u| <= 1)
  {
    var u, h, e := Overdue(s, now, timeout), Hit(s, now, timeout), SweepEnd(s, now, timeout);
    if h == {} {
      forall c | c in u ensures false {
        var j :| 0 <= j < |s| && s[j] == c;
        if j >= e { QuietBehind(s, e, now, timeout); }
      }
    } else if |u| <= 1 {
      AtMostOne(u, s[e]);
    }
  }

  lemma {:induction false} AtMostOne(u: set<Client>, x: Client)
    requires x in u && |u| <= 1
    ensures u == {x}
  {
    assert |u - {x}| == |u| - 1;
    assert u - {x} == {};
  }

  // ----- what the sweep leaves -----

  ghost function Idle(s: seq<Client>): (r: seq<Client>)
    reads s`empty
    ensures forall x :: x in r ==> x in s && x.empty
  {
    if s == [] then [] else Idle(s[..|s| - 1]) + if s[|s| - 1].empty then [s[|s| - 1]] else []
  }

  ghost function Busy(s: seq<Client>): (r: seq<Client>)
    reads s`empty
    ensures forall x :: x in r ==> x in s && !x.empty
  {
    if s == [] then [] else Busy(s[..|s| - 1]) + if s[|s| - 1].empty then [] else [s[|s| - 1]]
  }

  /** The list once the first `v` clients of `s` have been passed: those with requests are behind the others. */
  ghost function Passed(s: seq<Client>, v: nat): seq<Client>
    requires v <= |s|
    reads s`empty
  {
    Idle(s[..v]) + s[v..] + Busy(s[..v])
  }

  lemma {:induction false} PassedOne(s: seq<Client>, v: nat)
    requires v < |s|
    ensures var i, q, r := |Idle(s[..v])|, Passed(s, v), Passed(s, v + 1);
            && i < |q| && q[i] == s[v]
            && r == (if s[v].empty then q else Cut(q, i) + [s[v]])
            && |Idle(s[..v + 1])| == (if s[v].empty then i + 1 else i)
  {
    IdleBusySnoc(s, v);
    hide Idle, Busy, Cut, Passed;
    PassedAt(s, v);
    if s[v].empty {
      PassedIdle(s, v);
    } else {
      PassedBusy(s, v);
    }
  }

  lemma {:induction false} PassedAt(s: seq<Client>, v: nat)
    requires v < |s|
    ensures |Idle(s[..v])| < |Passed(s, v)| && Passed(s, v)[|Idle(s[..v])|] == s[v]
  {
    PassedSplit(s, v);
    hide Idle, Busy, Passed;
    InMiddle(Idle(s[..v]), s[v], s[v + 1..], Busy(s[..v]));
  }

  lemma {:induction false} PassedIdle(s: seq<Client>, v: nat)
    requires v < |s| && s[v].empty
    ensures Passed(s, v + 1) == Passed(s, v)
  {
    IdleBusySnoc(s, v);
    PassedSplit(s, v);
    hide Idle, Busy, Passed;
    StayInFront(Idle(s[..v]), s[v], s[v + 1..], Busy(s[..v]));
  }

  lemma {:induction false} PassedBusy(s: seq<Client>, v: nat)
    requires v < |s| && !s[v].empty && |Idle(s[..v])| < |Passed(s, v)|
    ensures Passed(s, v + 1) == Cut(Passed(s, v), |Idle(s[..v])|) + [s[v]]
  {
    IdleBusySnoc(s, v);
    PassedSplit(s, v);
    hide Idle, Busy, Passed, Cut;
    MoveBehind(Idle(s[..v]), s[v], s[v + 1..], Busy(s[..v]));
  }

  lemma {:induction false} PassedSplit(s: seq<Client>, v: nat)
    requires v < |s|
    ensures Passed(s, v) == Idle(s[..v]) + ([s[v]] + s[v + 1..]) + Busy(s[..v])
    ensures Passed(s, v + 1) == Idle(s[..v + 1]) + s[v + 1..] + Busy(s[..v + 1])
  {
    hide Idle, Busy;
    assert s[v..] == [s[v]] + s[v + 1..];
  }

  lemma {:induction false} InMiddle(a: seq<Client>, x: Client, rest: seq<Client>, b: seq<Client>)
    ensures |a + ([x] + rest) + b| > |a| && (a + ([x] + rest) + b)[|a|] == x
  {
  }

  lemma {:induction false} StayInFront(a: seq<Client>, x: Client, rest: seq<Client>, b: seq<Client>)
    ensures a + ([x] + rest) + b == (a + [x]) + rest + b
  {
  }

  lemma {:induction false} MoveBehind(a: seq<Client>, x: Client, rest: seq<Client>, b: seq<Client>)
    ensures |a + ([x] + rest) + b| > |a|
    ensures Cut(a + ([x] + rest) + b, |a|) + [x] == a + rest + (b + [x])
  {
    var q := a + ([x] + rest) + b;
    assert q[..|a|] == a && q[|a| + 1..] == rest + b;
  }

  lemma {:induction false} IdleBusySnoc(s: seq<Client>, v: nat)
    requires v < |s|
    ensures Idle(s[..v + 1]) == Idle(s[..v]) + if s[v].empty then [s[v]] else []
    ensures Busy(s[..v + 1]) == Busy(s[..v]) + if s[v].empty then [] else [s[v]]
  {
    assert s[..v + 1][..v] == s[..v];
  }

  /** What is behind the client at `v` in the list: the next of `s`, or one that has been passed. */
  lemma {:induction false} PassedNext(s: seq<Client>, v: nat)
    requires v < |s|
    ensures var i, q := |Idle(s[..v])|, Passed(s, v);
            && (v + 1 < |s| ==> i + 1 < |q| && q[i + 1] == s[v + 1])
            && (v + 1 == |s| && i + 1 < |q| ==> q[i + 1] in s[..v] && !q[i + 1].empty)
  {
    hide Idle;
    if v + 1 == |s| && |Idle(s[..v])| + 1 < |Passed(s, v)| {
      assert Passed(s, v)[|Idle(s[..v])| + 1] == Busy(s[..v])[0];
    }
  }

  lemma {:induction false} PassedIn(s: seq<Client>, v: nat, j: nat)
    requires v <= |s| && j < |Passed(s, v)|
    ensures Passed(s, v)[j] in s
  {
    var a, b, rest, x := Idle(s[..v]), Busy(s[..v]), s[v..], Passed(s, v)[j];
    if j < |a| {
      assert a[j] == x && x in s[..v];
    } else if j < |a| + |rest| {
      assert rest[j - |a|] == x;
    } else {
      assert b[j - |a| - |rest|] == x && x in s[..v];
    }
  }

  lemma {:induction false} InIdleOrBusy(s: seq<Client>, v: nat, j: nat)
    requires j < v <= |s|
    ensures s[j] in Idle(s[..v]) + Busy(s[..v])
  {
    IdleBusySnoc(s, v - 1);
    if j < v - 1 { InIdleOrBusy(s, v - 1, j); }
  }

  /** Nobody is lost. */
  lemma {:induction false} PassedClients(s: seq<Client>, v: nat)
    requires v <= |s|
    ensures Clients(Passed(s, v)) == Clients(s)
  {
    hide Idle, Busy;
    forall x | x in Passed(s, v) ensures x in s {
      var j :| 0 <= j < |Passed(s, v)| && Passed(s, v)[j] == x;
      PassedIn(s, v, j);
    }
    forall x | x in s ensures x in Passed(s, v) {
      var j :| 0 <= j < |s| && s[j] == x;
      if j < v { InIdleOrBusy(s, v, j); } else { assert s[v..][j - v] == x; }
    }
  }

  /** Nor when the one at the cursor goes to the end. */
  lemma {:induction false} EndedClients(s: seq<Client>, v: nat)
    requires v < |s| && |Idle(s[..v])| < |Passed(s, v)|
    ensures Clients(Cut(Passed(s, v), |Idle(s[..v])|) + [s[v]]) == Clients(s)
  {
    hide Passed, Idle, Cut, Clients;
    PassedClients(s, v);
    PassedAt(s, v);
    MovedClients(Passed(s, v), |Idle(s[..v])|);
  }

  lemma {:induction false} NoneStaleBehind(ts: seq<int>, e: nat, now: int, timeout: int)
    requires Sorted(ts) && e <= |ts| && (e < |ts| ==> now - ts[e] < timeout)
    ensures forall j :: e <= j < |ts| ==> now - ts[j] < timeout
  {
  }

  lemma {:induction false} PassedNone(s: seq<Client>)
    ensures Passed(s, 0) == s && Idle(s[..0]) == []
  {
    assert s[..0] == [] && s[0..] == s && Busy([]) == [] && [] + s + [] == s;
  }

  lemma {:induction false} LaterStill(ts: seq<int>, now: int, later: int)
    requires Until(ts, now) && now <= later
    ensures Until(ts, later)
  {
  }

  class Handler {
    const acceptConns: Deque

    constructor ()
      ensures InOrder(0) && acceptConns.nodes == [] && fresh(acceptConns)
    {
      acceptConns := new Deque();
    }

    ghost predicate InOrder(now: int)
      reads acceptConns, acceptConns.nodes`prev, acceptConns.nodes`next, acceptConns.nodes`lastActive
    {
      acceptConns.Valid() && Sorted(Times(acceptConns.nodes)) && Until(Times(acceptConns.nodes), now)
    }

    /** The client, which is at `i`, becomes the last in the list. */
    method SetActiveTime(c: Client, now: int, ghost i: nat)
      requires InOrder(now) && i < |acceptConns.nodes| && c == acceptConns.nodes[i]
      modifies acceptConns, acceptConns.nodes`prev, acceptConns.nodes`next, c`lastActive
      ensures InOrder(now) && acceptConns.nodes == Cut(old(acceptConns.nodes), i) + [c] && c.lastActive == now
      ensures Clients(acceptConns.nodes) == old(Clients(acceptConns.nodes))
    {
      hide Without, Cut, Times, Sorted, Until, Renewed, Clients;
      ghost var s, ts := acceptConns.nodes, Times(acceptConns.nodes);
      WithoutAt(s, i);
      MovedClients(s, i);
      RenewedInOrder(ts, i, now);
      c.lastActive := now;
      acceptConns.Remove(c);
      acceptConns.PushBack(c);
      TimesAfterMove(s, i, ts, now);
    }

    /** The first event posted to a client counts as activity. */
    method AddPostEvent(c: Client, now: int, ghost i: nat)
      requires InOrder(now) && i < |acceptConns.nodes| && c == acceptConns.nodes[i]
      modifies acceptConns, acceptConns.nodes`prev, acceptConns.nodes`next, c`lastActive, c`posted
      ensures InOrder(now) && c.posted && Clients(acceptConns.nodes) == old(Clients(acceptConns.nodes))
      ensures old(c.posted) ==> acceptConns.nodes == old(acceptConns.nodes) && c.lastActive == old(c.lastActive)
      ensures old(c.posted) ==> Times(acceptConns.nodes) == old(Times(acceptConns.nodes))
      ensures !old(c.posted) ==>
                acceptConns.nodes == Cut(old(acceptConns.nodes), i) + [c] && c.lastActive == now
    {
      hide InOrder, Clients, Times, Cut;
      if !c.posted {
        SetActiveTime(c, now, i);
      }
      c.posted := true;
    }

    lemma {:induction false} NextAt(i: nat)
      requires acceptConns.Valid() && i < |acceptConns.nodes|
      ensures acceptConns.nodes[i].next == if i + 1 < |acceptConns.nodes| then acceptConns.nodes[i + 1] else null
    {
      assert LinkedAt(acceptConns.nodes, i);
    }

    /** The first `v` clients of `s` have been passed; `ts` and `ps` are the times and posted events of all at the
        start. */
    ghost predicate Along(s: seq<Client>, ts: seq<int>, ps: seq<bool>, v: nat, now: int)
      reads acceptConns, acceptConns.nodes, s
    {
      && v <= |s| == |ts| == |ps| && Distinct(s) && InOrder(now) && acceptConns.nodes == Passed(s, v)
      && forall j :: 0 <= j < |s| ==>
           s[j].posted == ps[j] && s[j].lastActive == if j < v && !s[j].empty then now else ts[j]
    }

    /** The sweep has ended with an event posted to the next client. */
    ghost predicate Ended(s: seq<Client>, ts: seq<int>, ps: seq<bool>, v: nat, now: int, later: int)
      reads acceptConns, acceptConns.nodes, s
    {
      && v < |s| == |ts| == |ps| && Distinct(s) && InOrder(later)
      && |Idle(s[..v])| < |Passed(s, v)| && acceptConns.nodes == Cut(Passed(s, v), |Idle(s[..v])|) + [s[v]]
      && s[v].posted && !ps[v] && s[v].empty && s[v].lastActive == later
      && forall j :: 0 <= j < |s| && j != v ==>
           s[j].posted == ps[j] && s[j].lastActive == if j < v && !s[j].empty then now else ts[j]
    }

    /** The client the sweep comes to next. */
    ghost predicate Comes(c: Client?, s: seq<Client>, v: nat, now: int)
      requires v <= |s|
      reads c, s
    {
      if v < |s| then c == s[v] else c != null ==> c.lastActive == now
    }

    /** A client that has requests is active now, and goes behind all others. */
    method Refresh(c: Client, now: int, ghost i: nat) returns (n: Client?)
      requires InOrder(now) && i < |acceptConns.nodes| && c == acceptConns.nodes[i]
      modifies acceptConns, acceptConns.nodes`prev, acceptConns.nodes`next, c`lastActive
      ensures InOrder(now) && c.lastActive == now && acceptConns.nodes == Cut(old(acceptConns.nodes), i) + [c]
      ensures n == if i + 1 < |old(acceptConns.nodes)| then old(acceptConns.nodes)[i + 1] else null
    {
      hide Without, Cut, Times, Sorted, Until, LinkedAll, Renewed;
      ghost var q, ts := acceptConns.nodes, Times(acceptConns.nodes);
      NextAt(i);
      WithoutAt(q, i);
      RenewedInOrder(ts, i, now);
      n := acceptConns.Next(c);
      c.lastActive := now;
      acceptConns.MoveBack(c);
      TimesAfterMove(q, i, ts, now);
    }

    method PassBusy(c: Client, now: int, ghost s: seq<Client>, ghost ts: seq<int>, ghost ps: seq<bool>, ghost v: nat)
      returns (n: Client?)
      requires Along(s, ts, ps, v, now) && v < |s| && c == s[v] && !c.empty
      modifies acceptConns, acceptConns.nodes`prev, acceptConns.nodes`next, c`lastActive
      ensures Along(s, ts, ps, v + 1, now) && Comes(n, s, v + 1, now)
    {
      hide Cut, Passed, Idle, Busy, InOrder, Distinct;
      PassedOne(s, v);
      PassedNext(s, v);
      StillDistinct(s, v);
      n := Refresh(c, now, |Idle(s[..v])|);
    }

    /** An idle client is closed by way of a posted event, unless one stands already. */
    method PostIdle(c: Client, now: int, later: int, ghost s: seq<Client>, ghost ts: seq<int>, ghost ps: seq<bool>,
                    ghost v: nat) returns (n: Client?)
      requires Along(s, ts, ps, v, now) && v < |s| && c == s[v] && c.empty && now <= later
      modifies acceptConns, acceptConns.nodes`prev, acceptConns.nodes`next, c`lastActive, c`posted
      ensures ps[v] ==> Along(s, ts, ps, v + 1, now) && Comes(n, s, v + 1, now)
      ensures !ps[v] ==> Ended(s, ts, ps, v, now, later) && n == null
    {
      hide Cut, Times, Clients, Sorted, Until, LinkedAll, Passed, Idle, Busy;
      ghost var i := |Idle(s[..v])|;
      PassedOne(s, v);
      PassedNext(s, v);
      LaterStill(Times(acceptConns.nodes), now, later);
      AddPostEvent(c, later, i);
      NextAt(if ps[v] then i else |acceptConns.nodes| - 1);
      n := acceptConns.Next(c);
    }

    lemma {:induction false} AlongFrame(s: seq<Client>, ts: seq<int>, ps: seq<bool>, v: nat, now: int)
      requires Along(s, ts, ps, v, now)
      ensures forall j :: 0 <= j < |acceptConns.nodes| ==> acceptConns.nodes[j] in s
    {
      hide InOrder, Passed;
      forall j | 0 <= j < |acceptConns.nodes| ensures acceptConns.nodes[j] in s { PassedIn(s, v, j); }
    }

    /** What the sweep knows of a client it comes to. */
    lemma {:induction false} AlongAt(s: seq<Client>, ts: seq<int>, ps: seq<bool>, v: nat, now: int)
      requires Along(s, ts, ps, v, now)
      ensures v <= |s| == |ts| == |ps|
      ensures v < |s| ==> s[v].posted == ps[v] && s[v].lastActive == ts[v]
    {
      hide Passed, InOrder;
    }

    lemma {:induction false} AlongEnds(s: seq<Client>, ts: seq<int>, ps: seq<bool>, v: nat, now: int, later: int)
      requires Along(s, ts, ps, v, now) && now <= later
      ensures v <= |s| == |ts| == |ps| && InOrder(later) && acceptConns.nodes == Passed(s, v)
      ensures forall j :: 0 <= j < |s| ==>
                s[j].posted == ps[j] && s[j].lastActive == if j < v && !s[j].empty then now else ts[j]
    {
      hide Passed;
    }

    lemma {:induction false} EndedEnds(s: seq<Client>, ts: seq<int>, ps: seq<bool>, v: nat, now: int, later: int)
      requires Ended(s, ts, ps, v, now, later)
      ensures v < |s| == |ts| == |ps| && InOrder(later) && Distinct(s) && |Idle(s[..v])| < |Passed(s, v)|
      ensures acceptConns.nodes == Cut(Passed(s, v), |Idle(s[..v])|) + [s[v]]
      ensures s[v].posted && s[v].lastActive == later
      ensures forall j :: 0 <= j < |s| && j != v ==>
                s[j].posted == ps[j] && s[j].lastActive == if j < v && !s[j].empty then now else ts[j]
    {
      hide Passed, InOrder, Cut, Idle;
    }

    lemma {:induction false} Start(ts: seq<int>, ps: seq<bool>, now: int)
      requires InOrder(now) && ts == Times(acceptConns.nodes) && ps == Posted(acceptConns.nodes)
      ensures var s := acceptConns.nodes;
              Along(s, ts, ps, 0, now) && Comes(acceptConns.head, s, 0, now) && Idle(s[..0]) == [] && Sorted(Times(s))
    {
      hide Times, Sorted, Until;
      PassedNone(acceptConns.nodes);
    }

    /** The body of the loop for a stale client. */
    method PassOne(c: Client, now: int, later: int, ghost s: seq<Client>, ghost ts: seq<int>, ghost ps: seq<bool>,
                   ghost v: nat) returns (n: Client?)
      requires Along(s, ts, ps, v, now) && v < |s| && c == s[v] && now <= later
      modifies acceptConns, s`prev, s`next, s`lastActive, s`posted
      ensures c.empty && !ps[v] ==> Ended(s, ts, ps, v, now, later) && n == null
      ensures !(c.empty && !ps[v]) ==> Along(s, ts, ps, v + 1, now) && Comes(n, s, v + 1, now)
    {
      hide Passed, Idle, InOrder, Along, Ended;
      AlongFrame(s, ts, ps, v, now);
      if c.empty {
        n := PostIdle(c, now, later, s, ts, ps, v);
      } else {
        n := PassBusy(c, now, s, ts, ps, v);
      }
    }

    /** The loop. */
    method Sweep(timeout: int, now: int, later: int, ghost s: seq<Client>, ghost ts: seq<int>, ghost ps: seq<bool>,
                 ghost e: nat) returns (num: nat, ghost hit: set<Client>)
      requires timeout > 0 && now <= later && IsEnd(s, ts, ps, e, now, timeout)
      requires Along(s, ts, ps, 0, now) && Comes(acceptConns.head, s, 0, now) && Idle(s[..0]) == []
      modifies acceptConns, s`prev, s`next, s`lastActive, s`posted
      ensures e <= |s| && num == |Idle(s[..e])| + |hit|
      ensures hit == if e < |s| && now - ts[e] >= timeout then {s[e]} else {}
      ensures if hit == {} then Along(s, ts, ps, e, now) else Ended(s, ts, ps, e, now, later)
    {
      hide Passed, Idle, Busy, Cut, InOrder, Along, Ended, IsEnd;
      num, hit := 0, {};
      ghost var v := 0;
      EndAt(s, ts, ps, e, now, timeout, 0);
      var c := acceptConns.head;
      while c != null
        invariant v <= e <= |s| && num == |Idle(s[..v])| + |hit|
        invariant hit == {} ==> Along(s, ts, ps, v, now) && Comes(c, s, v, now)
        invariant hit != {} ==>
                    c == null && v == e < |s| && now - ts[v] >= timeout && hit == {s[v]} && Ended(s, ts, ps, v, now, later)
        decreases if c == null then 0 else 1 + |s| - v
      {
        var t := now - c.lastActive;
        AlongAt(s, ts, ps, v, now);
        EndAt(s, ts, ps, e, now, timeout, v);
        if t < timeout { break; }
        IdleBusySnoc(s, v);
        if c.empty { num := num + 1; }
        if c.empty && !c.posted { hit := {c}; }
        c := PassOne(c, now, later, s, ts, ps, v);
        if hit == {} { v := v + 1; }
      }
    }

    /** The sweep, at `now`; an event is posted at `later`. It passes the stale clients from the front on, up to the
        first that is idle and does not stand in the list of posted events: that one is posted, and since posting
        moves it to the end, the sweep ends there. Those passed that have requests count as active and go behind the
        others; the rest stay where they are, and keep their times. */
    method CheckClientTimeout(timeout: int, now: int, later: int) returns (num: nat, ghost hit: set<Client>)
      requires timeout > 0 && now <= later && InOrder(now)
      modifies acceptConns, acceptConns.nodes`prev, acceptConns.nodes`next
      modifies acceptConns.nodes`lastActive, acceptConns.nodes`posted
      ensures InOrder(later) && Clients(acceptConns.nodes) == old(Clients(acceptConns.nodes))
      ensures hit == old(Hit(acceptConns.nodes, now, timeout))
      ensures var s, e := old(acceptConns.nodes), old(SweepEnd(acceptConns.nodes, now, timeout));
              && acceptConns.nodes == (if hit == {} then Passed(s, e) else Cut(Passed(s, e), |Idle(s[..e])|) + [s[e]])
              && num == |Idle(s[..e])| + |hit|
              && (forall j :: 0 <= j < e && !s[j].empty ==> s[j].lastActive == now)
              && (forall j :: 0 <= j < |s| && s[j] !in hit && (j < e ==> s[j].empty) ==>
                    s[j].lastActive == old(s[j].lastActive))
      ensures forall c :: c in hit ==> c.lastActive == later
      ensures forall c :: c in old(acceptConns.nodes) ==> c.posted == (old(c.posted) || c in hit)
      ensures var u := old(Overdue(acceptConns.nodes, now, timeout));
              && hit <= u && (hit == {} <==> u == {})
              && ((forall c :: c in u ==> c.posted) <==> |u| <= 1)
      ensures hit == {} ==> forall c :: c in old(acceptConns.nodes) && Stale(c, now, timeout) ==> c.empty && c.posted
    {
      hide Passed, Idle, Cut, InOrder, Along, Ended, Hit, Overdue, Times, Posted, Clients, Sorted;
      ghost var s, ts, ps := acceptConns.nodes, Times(acceptConns.nodes), Posted(acceptConns.nodes);
      ghost var e, u := SweepEnd(s, now, timeout), Overdue(s, now, timeout);
      Start(ts, ps, now);
      OneIsHit(s, now, timeout);
      HitIs(s, now, timeout);
      OverdueAre(s, now, timeout);
      ItIsEnd(s, now, timeout);
      num, hit := Sweep(timeout, now, later, s, ts, ps, e);
      if hit == {} {
        AlongEnds(s, ts, ps, e, now, later);
        PassedClients(s, e);
        NoneStaleBehind(ts, e, now, timeout);
      } else {
        EndedEnds(s, ts, ps, e, now, later);
        EndedClients(s, e);
      }
      if u != hit {
        ghost var x :| x in u && x !in hit;
        assert !x.posted;
      }
    }
  }
}
