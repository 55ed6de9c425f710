/** What the client gets once every part has been answered, for any replies in any order of arrival. */
module MergeOutcome {
  import opened Bytes
  import opened Resp
  import opened ResponseMachine
  import opened Merging

  /** A reply and the part it answers. */
  datatype Arrival = Arrival(part: nat, m: Message)

  /** A command just split into `n` parts. */
  function Begin(cmd: MultiCommand, n: nat): (g: Group)
    ensures n > 0 ==> g.Valid()
  {
    Group(cmd, n, seq(n, _ => false), seq(n, _ => None), 0)
  }

  predicate InRange(arrivals: seq<Arrival>, n: nat) {
    forall p :: 0 <= p < |arrivals| ==> arrivals[p].part < n
  }

  function DeliverAll(g: Group, arrivals: seq<Arrival>): (r: Group)
    requires g.Valid() && InRange(arrivals, |g.res|)
    ensures r.Valid() && |r.res| == |g.res| && r.cmd == g.cmd && r.followers == g.followers
    ensures r.followersDone == g.followersDone + |arrivals|
    decreases |arrivals|
  {
    if arrivals == [] then g else
    var k := |arrivals| - 1;
    Deliver(DeliverAll(g, arrivals[..k]), arrivals[k].part, arrivals[k].m)
  }

  /** The bytes the parts send to the client, in the order of the parts. */
  function ClientBytes(res: seq<Option<Message>>): string {
    if res == [] then [] else (if res[0].Some? then res[0].value.Wire() else []) + ClientBytes(res[1..])
  }

  lemma {:induction false} OnlyLeaderSends(res: seq<Option<Message>>, m: Message)
    requires |res| > 0 && res[0] == Some(m) && forall k :: 0 < k < |res| ==> res[k] == None
    ensures ClientBytes(res) == m.Wire()
  {
    NoneSends(res[1..]);
  }

  lemma {:induction false} NoneSends(res: seq<Option<Message>>)
    requires forall k :: 0 <= k < |res| ==> res[k] == None
    ensures ClientBytes(res) == []
  {
    if res != [] { NoneSends(res[1..]); }
  }

  /** Only the leader ever holds a reply, and it is not done before the last part is. */
  lemma {:induction false} LeaderHoldsAll(cmd: MultiCommand, n: nat, arrivals: seq<Arrival>)
    requires n > 0 && cmd != Mget && InRange(arrivals, n)
    ensures var g := DeliverAll(Begin(cmd, n), arrivals);
            (forall k :: 0 < k < n ==> g.res[k] == None)
            && (g.res[0].Some? <==> arrivals != []) && (g.IsDone(0) <==> |arrivals| == n)
    decreases |arrivals|
  {
    if arrivals != [] { LeaderHoldsAll(cmd, n, arrivals[..|arrivals| - 1]); }
  }

  // ----- touch, exists, del, unlink -----

  /** What a later reply adds to the count. */
  function Gain(m: Message): nat {
    if m.kind == KInteger && m.integer > 0 then m.integer else 0
  }

  /** The first reply's number, whatever that reply is, and what the others add. */
  function Total(arrivals: seq<Arrival>): int
    requires arrivals != []
  {
    var k := |arrivals| - 1;
    if k == 0 then arrivals[0].m.integer else Total(arrivals[..k]) + Gain(arrivals[k].m)
  }

  lemma {:induction false} CountSoFar(cmd: MultiCommand, n: nat, arrivals: seq<Arrival>)
    requires cmd.Counts() && 0 < |arrivals| <= n && InRange(arrivals, n)
    ensures var r := arrivals[0].m.(integer := Total(arrivals));
            DeliverAll(Begin(cmd, n), arrivals).res[0] == Some(if |arrivals| == n then AsInteger(r) else r)
    decreases |arrivals|
  {
    hide AsInteger, Deliver, MergeInto, AddToLeader;
    var k := |arrivals| - 1;
    var g := DeliverAll(Begin(cmd, n), arrivals[..k]);
    DeliverCount(g, arrivals[k]);
    if k == 0 {
      assert arrivals[..0] == [];
    } else {
      CountSoFar(cmd, n, arrivals[..k]);
    }
  }

  lemma {:induction false} DeliverCount(g: Group, a: Arrival)
    requires g.Valid() && g.cmd.Counts() && a.part < |g.res|
    ensures var last := g.followersDone + 1 == g.followers;
            var r := if g.res[0] == None then a.m
                     else g.res[0].value.(integer := g.res[0].value.integer + Gain(a.m));
            Deliver(g, a.part, a.m).res[0] == Some(if last then AsInteger(r) else r)
  {
    hide AsInteger;
  }

  /** The client of a counting command gets one integer, even when some or all parts failed. */
  lemma {:induction false} CountIsSent(cmd: MultiCommand, n: nat, arrivals: seq<Arrival>)
    requires cmd.Counts() && n > 0 && |arrivals| == n && InRange(arrivals, n)
    requires arrivals[0].m.head == []
    ensures ClientBytes(DeliverAll(Begin(cmd, n), arrivals).res) == ":" + Signed(Total(arrivals)) + CRLF
    ensures var r := DeliverAll(Begin(cmd, n), arrivals).res[0];
            r.Some? && r.value.kind == KInteger && r.value.integer == Total(arrivals)
  {
    var g := DeliverAll(Begin(cmd, n), arrivals);
    CountSoFar(cmd, n, arrivals);
    LeaderHoldsAll(cmd, n, arrivals);
    hide DeliverAll, Total, ClientBytes;
    OnlyLeaderSends(g.res, g.res[0].value);
    assert g.res[0].value.Wire() == g.res[0].value.body;
  }

  // ----- mset -----

  /** The index of the first error to arrive, or the number of arrivals. */
  function FirstError(arrivals: seq<Arrival>): (e: nat)
    ensures e <= |arrivals| && (e < |arrivals| ==> arrivals[e].m.kind == KError)
    ensures forall p :: 0 <= p < e ==> arrivals[p].m.kind != KError
    decreases |arrivals|
  {
    if arrivals == [] then 0 else
    var k := |arrivals| - 1;
    var e := FirstError(arrivals[..k]);
    assert forall p :: 0 <= p < k ==> arrivals[..k][p] == arrivals[p];
    if e < k then e else if arrivals[k].m.kind == KError then k else |arrivals|
  }

  /** The client of mset gets the first error to arrive, or else the first reply to arrive. */
  lemma {:induction false} MsetOutcome(n: nat, arrivals: seq<Arrival>)
    requires n > 0 && arrivals != [] && InRange(arrivals, n)
    ensures var e := FirstError(arrivals);
            DeliverAll(Begin(Mset, n), arrivals).res[0] == Some(arrivals[if e < |arrivals| then e else 0].m)
    decreases |arrivals|
  {
    var k := |arrivals| - 1;
    if k == 0 {
      assert arrivals[..0] == [];
    } else {
      MsetOutcome(n, arrivals[..k]);
    }
  }

  // ----- script load -----

  /** The index of the first reply to arrive that is not a string, or the number of arrivals. */
  function FirstOther(arrivals: seq<Arrival>): (e: nat)
    ensures e <= |arrivals| && (e < |arrivals| ==> arrivals[e].m.kind != KString)
    ensures forall p :: 0 <= p < e ==> arrivals[p].m.kind == KString
    decreases |arrivals|
  {
    if arrivals == [] then 0 else
    var k := |arrivals| - 1;
    var e := FirstOther(arrivals[..k]);
    assert forall p :: 0 <= p < k ==> arrivals[..k][p] == arrivals[p];
    if e < k then e else if arrivals[k].m.kind != KString then k else |arrivals|
  }

  /** The client of script load gets the first reply to arrive that is not a string, or else the first to arrive. */
  lemma {:induction false} ScriptLoadOutcome(n: nat, arrivals: seq<Arrival>)
    requires n > 0 && arrivals != [] && InRange(arrivals, n)
    ensures var e := FirstOther(arrivals);
            DeliverAll(Begin(ScriptLoad, n), arrivals).res[0] == Some(arrivals[if e < |arrivals| then e else 0].m)
    decreases |arrivals|
  {
    var k := |arrivals| - 1;
    if k == 0 {
      assert arrivals[..0] == [];
    } else {
      ScriptLoadOutcome(n, arrivals[..k]);
    }
  }

  // ----- msetnx -----

  /** A reply msetnx can have: an error, or 0 or 1 as redis prints them. */
  predicate IsFlag(m: Message) {
    m.head == [] && (m.kind == KError || (m.kind == KInteger && m.integer in {0, 1} && m.body == ":" + Decimal(m.integer) + CRLF))
  }

  /** How msetnx looks to the client when no part failed. */
  function FlagLine(zero: bool): string {
    ":" + Decimal(if zero then 0 else 1) + CRLF
  }

  predicate AnyZero(arrivals: seq<Arrival>) {
    exists p :: 0 <= p < |arrivals| && arrivals[p].m.integer == 0
  }

  lemma {:induction false} AnyZeroSnoc(arrivals: seq<Arrival>)
    requires arrivals != []
    ensures var k := |arrivals| - 1; AnyZero(arrivals) <==> AnyZero(arrivals[..k]) || arrivals[k].m.integer == 0
  {
    var k := |arrivals| - 1;
    if p :| 0 <= p < k && arrivals[p].m.integer == 0 {
      assert arrivals[..k][p].m.integer == 0;
    }
  }

  /** The wire bytes for msetnx: the first error to arrive, else 0 if any part said 0, else 1. */
  lemma {:induction false} MsetnxOutcome(n: nat, arrivals: seq<Arrival>)
    requires n > 0 && arrivals != [] && InRange(arrivals, n)
    requires forall p :: 0 <= p < |arrivals| ==> IsFlag(arrivals[p].m)
    ensures var e := FirstError(arrivals);
            var got := DeliverAll(Begin(Msetnx, n), arrivals).res[0];
            && got.Some?
            && (e < |arrivals| ==> got.value.kind == KError && got.value.Wire() == arrivals[e].m.Wire())
            && (e == |arrivals| ==> got.value.kind == KInteger && got.value.Wire() == FlagLine(AnyZero(arrivals)))
    decreases |arrivals|
  {
    hide FlagLine, Deliver;
    var k := |arrivals| - 1;
    AnyZeroSnoc(arrivals);
    assert IsFlag(arrivals[k].m);
    if k == 0 {
      assert arrivals[..0] == [];
      OneFlag(None, arrivals[0].m, n == 1, false);
      DeliverFlag(Begin(Msetnx, n), arrivals[0]);
    } else {
      var front := arrivals[..k];
      assert forall p :: 0 <= p < k ==> front[p] == arrivals[p];
      MsetnxOutcome(n, front);
      var g := DeliverAll(Begin(Msetnx, n), front);
      DeliverFlag(g, arrivals[k]);
      if g.res[0].value.kind == KInteger {
        OneFlag(g.res[0], arrivals[k].m, g.followersDone + 1 == n, AnyZero(front));
      } else {
        assert FirstError(front) < k;
        ErrorStays(g.res[0], arrivals[k].m, g.followersDone + 1 == n);
      }
    }
  }

  lemma {:induction false} DeliverFlag(g: Group, a: Arrival)
    requires g.Valid() && g.cmd == Msetnx && a.part < |g.res|
    ensures Deliver(g, a.part, a.m).res[0]
         == MergeInto(Msetnx, AddToLeader(Msetnx, g.res[0], a.m), a.m, g.followersDone + 1 == g.followers)
  {
  }

  lemma {:induction false} ErrorStays(leader: Option<Message>, m: Message, last: bool)
    requires leader.Some? && leader.value.kind == KError
    ensures var got := MergeInto(Msetnx, AddToLeader(Msetnx, leader, m), m, last);
            got.Some? && got.value.kind == KError && got.value.Wire() == leader.value.Wire()
  {
  }

  /** One more flag on top of those before. */
  lemma {:induction false} OneFlag(leader: Option<Message>, m: Message, last: bool, zero: bool)
    requires IsFlag(m)
    requires leader.Some? ==> leader.value.kind == KInteger && leader.value.Wire() == FlagLine(zero)
    requires leader == None ==> !zero
    ensures var got := MergeInto(Msetnx, AddToLeader(Msetnx, leader, m), m, last);
            && got.Some? && (m.kind == KError ==> got.value == m)
            && (m.kind == KInteger ==> got.value.kind == KInteger && got.value.Wire() == FlagLine(zero || m.integer == 0))
  {
    assert m.kind == KInteger ==> m.Wire() == FlagLine(m.integer == 0);
  }

  // ----- mget -----

  /** Every part of mget sends its own reply, as soon as that has arrived. */
  lemma {:induction false} MgetOutcome(n: nat, arrivals: seq<Arrival>, i: nat)
    requires i < n && InRange(arrivals, n)
    requires forall p, q :: 0 <= p < q < |arrivals| ==> arrivals[p].part != arrivals[q].part
    ensures var g := DeliverAll(Begin(Mget, n), arrivals);
            (forall p :: 0 <= p < |arrivals| && arrivals[p].part == i ==>
               && g.IsDone(i) && g.res[i] == Some(AdjustReply(Mget, n, i == 0, arrivals[p].m))
               && g.res[i].value.kind == KArray)
            && ((forall p :: 0 <= p < |arrivals| ==> arrivals[p].part != i) ==> !g.IsDone(i) && g.res[i] == None)
    decreases |arrivals|
  {
    if arrivals != [] {
      var k := |arrivals| - 1;
      MgetOutcome(n, arrivals[..k], i);
      assert forall p :: 0 <= p < k ==> arrivals[..k][p] == arrivals[p];
    }
  }

  // ----- a finished reply is final -----

  /** Once a part is done, no later reply changes what it sends. */
  lemma {:induction false} DoneIsFinal(cmd: MultiCommand, n: nat, arrivals: seq<Arrival>, k: nat, i: nat)
    requires i < n && k <= |arrivals| <= n && InRange(arrivals, n) && InRange(arrivals[..k], n)
    requires forall p, q :: 0 <= p < q < |arrivals| ==> arrivals[p].part != arrivals[q].part
    requires DeliverAll(Begin(cmd, n), arrivals[..k]).IsDone(i)
    ensures DeliverAll(Begin(cmd, n), arrivals).IsDone(i)
    ensures DeliverAll(Begin(cmd, n), arrivals).res[i] == DeliverAll(Begin(cmd, n), arrivals[..k]).res[i]
  {
    if cmd == Mget {
      MgetOutcome(n, arrivals, i);
      MgetOutcome(n, arrivals[..k], i);
      if forall p :: 0 <= p < k ==> arrivals[..k][p].part != i { return; }
      var p :| 0 <= p < k && arrivals[..k][p].part == i;
      assert arrivals[p].part == i;
    } else {
      LeaderHoldsAll(cmd, n, arrivals);
      LeaderHoldsAll(cmd, n, arrivals[..k]);
      if i == 0 {
        assert arrivals[..k] == arrivals;
      } else {
        FollowerDone(cmd, n, arrivals, k, i);
      }
    }
  }

  lemma {:induction false} FollowerDone(cmd: MultiCommand, n: nat, arrivals: seq<Arrival>, k: nat, i: nat)
    requires 0 < i < n && k <= |arrivals| && InRange(arrivals, n) && InRange(arrivals[..k], n)
    requires DeliverAll(Begin(cmd, n), arrivals[..k]).IsDone(i)
    ensures DeliverAll(Begin(cmd, n), arrivals).IsDone(i)
    decreases |arrivals|
  {
    if k < |arrivals| {
      assert arrivals[..|arrivals| - 1][..k] == arrivals[..k];
      FollowerDone(cmd, n, arrivals[..|arrivals| - 1], k, i);
    } else {
      assert arrivals[..k] == arrivals;
    }
  }
}
