/** Requests between connections to a cluster: sending, matching replies first in, first out, and following
    MOVED and ASK, as a state machine over the steps of one handler (src/Handler.cpp `redirect`,
    `handleRequest`, `handleResponse`, src/ConnectConnection.cpp `handleResponse`, `close`). */
module Redirection {
  import opened Bytes

  /** `Request::MaxRedirectLimit` */
  const MAX_REDIRECT_LIMIT: nat := 3

  /** What stands in the queue of a connection. A client's request keeps its identity when it is redirected;
      every ASKING is a request of its own, and so are the ones that set up a connection. */
  datatype Entry = Asking | Inner | Query(id: nat)

  /** `sent` and `send` are `mSentRequests` and `mSendRequests`; `order` is all that was ever sent, of which the
      first `answered` have been taken off the front. A connection that is opened again counts as a new one. */
  datatype Conn = Conn(good: bool, sent: seq<Entry>, send: seq<Entry>, order: seq<Entry>, answered: nat) {
    function Queue(): seq<Entry> { sent + send }
  }

  /** `count` is `mRedirectCnt`; `alive` tells whether the client's connection is still good. */
  datatype Request = Request(count: nat, alive: bool)

  /** The `k`-th reply of connection `conn` was given to the client of request `id`. */
  datatype Given = Given(id: nat, conn: nat, k: nat)

  /** `refused` are the requests that the proxy answers itself, with an error; nobody is told of those `lost`. */
  datatype State = State(conns: seq<Conn>, reqs: map<nat, Request>, given: seq<Given>, refused: seq<nat>, lost: seq<nat>)

  /** A reply, with the connection a redirection leads to, if there is one. */
  datatype Reply = Plain | Moved(target: Option<nat>) | Ask(target: Option<nat>)

  datatype Step =
    | Open
    | Send(to: Option<nat>, id: nat)
    | SendInner(c: nat)
    | WriteOut(c: nat)
    | Answer(c: nat, reply: Reply)
    | Fail(c: nat)
    | CloseFront(c: nat)
    | Gone(id: nat)

  const INITIAL := State([], map[], [], [], [])

  predicate Enabled(s: State, step: Step) {
    match step
    case Open => true
    case Send(c, id) => (c.Some? ==> c.value < |s.conns|) && id !in s.reqs
    case SendInner(c) => c < |s.conns| && s.conns[c].good
    case WriteOut(c) => c < |s.conns| && s.conns[c].good && s.conns[c].send != []
    case Answer(c, r) =>
      && c < |s.conns| && s.conns[c].good && s.conns[c].sent != []
      && (!r.Plain? && r.target.Some? ==> r.target.value < |s.conns|)
    case Fail(c) => c < |s.conns|
    case CloseFront(c) => c < |s.conns| && !s.conns[c].good && s.conns[c].Queue() != []
    case Gone(id) => id in s.reqs
  }

  /** `ConnectConnection::send` */
  function Push(s: State, c: nat, es: seq<Entry>): State
    requires c < |s.conns|
  {
    var x := s.conns[c];
    s.(conns := s.conns[c := x.(send := x.send + es, order := x.order + es)])
  }

  /** The first `handleRequest` of a request: without a server, or a connection to it that is good, it is refused. */
  function SendFirst(s: State, c: Option<nat>, id: nat): State
    requires c.Some? ==> c.value < |s.conns|
  {
    if c.Some? && s.conns[c.value].good then Push(s, c.value, [Query(id)])
    else s.(refused := s.refused + [id])
  }

  /** The `handleRequest` of a redirection drops what is meant for a connection that is not good. */
  function SendTo(s: State, c: nat, es: seq<Entry>, id: nat): State
    requires c < |s.conns|
  {
    if s.conns[c].good then Push(s, c, es) else s.(lost := s.lost + [id])
  }

  /** The front of the queue of `c` has been dealt with. */
  function Pop(s: State, c: nat): State
    requires c < |s.conns| && s.conns[c].Queue() != []
  {
    var x := s.conns[c];
    var y := if x.sent != [] then x.(sent := x.sent[1..]) else x.(send := x.send[1..]);
    s.(conns := s.conns[c := y.(answered := x.answered + 1)])
  }

  /** The reply goes to the client of `id`, unless that is gone. */
  function Give(s: State, c: nat, id: nat): State
    requires c < |s.conns|
  {
    if id in s.reqs && s.reqs[id].alive
    then s.(given := s.given + [Given(id, c, s.conns[c].answered)])
    else s.(lost := s.lost + [id])
  }

  /** `redirect`, up to the point where it has sent the request on; `None` if the reply goes to the client. The
      count goes up even then. */
  function Redirected(s: State, id: nat, target: Option<nat>, ask: bool): (r: (State, bool))
    requires id in s.reqs && (target.Some? ==> target.value < |s.conns|)
  {
    var n := s.reqs[id].count + 1;
    var s1 := s.(reqs := s.reqs[id := s.reqs[id].(count := n)]);
    if n > MAX_REDIRECT_LIMIT || target == None then (s1, false)
    else if ask then (SendTo(s1, target.value, [Asking, Query(id)], id), true)
    else (SendTo(s1, target.value, [Query(id)], id), true)
  }

  /** `Handler::handleResponse` for the request at the front of connection `c`. */
  function Handle(s: State, c: nat, id: nat, reply: Reply): State
    requires c < |s.conns| && (!reply.Plain? && reply.target.Some? ==> reply.target.value < |s.conns|)
  {
    if reply.Plain? || id !in s.reqs || !s.reqs[id].alive then Give(s, c, id)
    else
      var (s1, redirected) := Redirected(s, id, reply.target, reply.Ask?);
      if redirected then s1 else Give(s1, c, id)
  }

  function Next(s: State, step: Step): State
    requires Enabled(s, step)
  {
    match step
    case Open => s.(conns := s.conns + [Conn(true, [], [], [], 0)])
    case Send(c, id) => SendFirst(s.(reqs := s.reqs[id := Request(0, true)]), c, id)
    case SendInner(c) => Push(s, c, [Inner])
    case WriteOut(c) =>
      var x := s.conns[c];
      s.(conns := s.conns[c := x.(sent := x.sent + [x.send[0]], send := x.send[1..])])
    case Answer(c, r) =>
      var e := s.conns[c].sent[0];
      // the redirected request is pushed while it is still at the front of this queue
      if e.Query? then Pop(Handle(s, c, e.id, r), c) else Pop(s, c)
    case Fail(c) => s.(conns := s.conns[c := s.conns[c].(good := false)])
    case CloseFront(c) =>
      var e := s.conns[c].Queue()[0];
      if e.Query? then Pop(Give(s, c, e.id), c) else Pop(s, c)
    case Gone(id) => s.(reqs := s.reqs[id := s.reqs[id].(alive := false)])
  }

  // ----- how often a request is where -----

  function Count<T(==)>(q: seq<T>, e: T): nat {
    multiset(q)[e]
  }

  function Total(qs: seq<seq<Entry>>, e: Entry): nat {
    if qs == [] then 0 else Count(qs[0], e) + Total(qs[1..], e)
  }

  function Queues(cs: seq<Conn>): seq<seq<Entry>> {
    seq(|cs|, i requires 0 <= i < |cs| => cs[i].Queue())
  }

  function Orders(cs: seq<Conn>): seq<seq<Entry>> {
    seq(|cs|, i requires 0 <= i < |cs| => cs[i].order)
  }

  function GivenIds(gs: seq<Given>): seq<nat> {
    seq(|gs|, i requires 0 <= i < |gs| => gs[i].id)
  }

  /** In how many queues request `id` stands, and how often it was ever sent. */
  function Held(s: State, id: nat): nat { Total(Queues(s.conns), Query(id)) }

  function Times(s: State, id: nat): nat { Total(Orders(s.conns), Query(id)) }

  function Ended(s: State, id: nat): nat { Count(GivenIds(s.given), id) + Count(s.refused, id) + Count(s.lost, id) }

  lemma {:induction false} TotalUpdate(qs: seq<seq<Entry>>, i: nat, q: seq<Entry>, e: Entry)
    requires i < |qs|
    ensures Total(qs[i := q], e) + Count(qs[i], e) == Total(qs, e) + Count(q, e)
  {
    if i == 0 {
      assert qs[0 := q][1..] == qs[1..];
    } else {
      TotalUpdate(qs[1..], i - 1, q, e);
      assert qs[i := q][1..] == qs[1..][i - 1 := q];
    }
  }

  lemma {:induction false} TotalAdd(qs: seq<seq<Entry>>, e: Entry)
    ensures Total(qs + [[]], e) == Total(qs, e)
  {
    if qs == [] {
      assert Total([[]], e) == Count([], e) + Total([[]][1..], e);
    } else {
      TotalAdd(qs[1..], e);
      assert (qs + [[]])[1..] == qs[1..] + [[]];
    }
  }

  lemma {:induction false} CountConcat<T>(a: seq<T>, b: seq<T>, e: T)
    ensures Count(a + b, e) == Count(a, e) + Count(b, e)
  {
  }

  // ----- the invariant -----

  /** The queue is what is not answered yet of the order. */
  predicate InOrder(x: Conn) {
    && x.answered <= |x.order|
    && x.Queue() == x.order[x.answered..]
  }

  predicate ConnsOk(cs: seq<Conn>) {
    forall i :: 0 <= i < |cs| ==> InOrder(cs[i])
  }

  /** The reply is the one for the place of the request in the order of its connection. */
  predicate GivenOk(cs: seq<Conn>, g: Given) {
    && g.conn < |cs| && g.k < cs[g.conn].answered && g.k < |cs[g.conn].order|
    && cs[g.conn].order[g.k] == Query(g.id)
  }

  predicate AllGivenOk(cs: seq<Conn>, gs: seq<Given>) {
    forall i :: 0 <= i < |gs| ==> GivenOk(cs, gs[i])
  }

  function Capped(n: nat): nat { if n < MAX_REDIRECT_LIMIT then n else MAX_REDIRECT_LIMIT }

  /** Every request is in one place: in one queue, once, or answered once, or refused, or lost; and it has been
      sent at most once more than it was redirected. */
  predicate RequestOk(s: State, id: nat) {
    && Held(s, id) + Ended(s, id) == (if id in s.reqs then 1 else 0)
    && Times(s, id) <= (if id in s.reqs then 1 + Capped(s.reqs[id].count) else 0)
  }

  ghost predicate Valid(s: State) {
    && ConnsOk(s.conns) && AllGivenOk(s.conns, s.given)
    && forall id :: RequestOk(s, id)
  }

  // ----- one connection -----

  function Pushed(x: Conn, es: seq<Entry>): Conn {
    x.(send := x.send + es, order := x.order + es)
  }

  function Popped(x: Conn): Conn
    requires x.Queue() != []
  {
    (if x.sent != [] then x.(sent := x.sent[1..]) else x.(send := x.send[1..])).(answered := x.answered + 1)
  }

  lemma {:induction false} PushedOk(x: Conn, es: seq<Entry>)
    requires InOrder(x)
    ensures InOrder(Pushed(x, es)) && Pushed(x, es).Queue() == x.Queue() + es
    ensures Pushed(x, es).order == x.order + es
  {
    var y := Pushed(x, es);
    assert y.order == x.order + es;
    assert y.Queue() == x.Queue() + es;
    assert y.order[y.answered..] == x.order[x.answered..] + es;
  }

  lemma {:induction false} PoppedOk(x: Conn)
    requires InOrder(x) && x.Queue() != []
    ensures InOrder(Popped(x)) && x.Queue() == [x.Queue()[0]] + Popped(x).Queue()
    ensures x.answered < |x.order| && x.order[x.answered] == x.Queue()[0]
    ensures Popped(x).order == x.order
  {
    var y := Popped(x);
    var e := x.order;
    assert x.Queue()[0] == e[x.answered..][0] == e[x.answered];
    assert y.Queue() == x.Queue()[1..];
    assert e[x.answered..][1..] == e[x.answered + 1..];
  }

  lemma {:induction false} WrittenOutOk(x: Conn)
    requires InOrder(x) && x.send != []
    ensures InOrder(x.(sent := x.sent + [x.send[0]], send := x.send[1..]))
    ensures x.(sent := x.sent + [x.send[0]], send := x.send[1..]).Queue() == x.Queue()
  {
  }

  // ----- all connections -----

  lemma {:induction false} UpdateTotals(s: State, c: nat, x: Conn, e: Entry)
    requires c < |s.conns|
    ensures Total(Queues(s.conns[c := x]), e) + Count(s.conns[c].Queue(), e)
         == Total(Queues(s.conns), e) + Count(x.Queue(), e)
    ensures Total(Orders(s.conns[c := x]), e) + Count(s.conns[c].order, e)
         == Total(Orders(s.conns), e) + Count(x.order, e)
  {
    hide Total, Count, Conn.Queue;
    var cs := s.conns[c := x];
    assert Queues(cs) == Queues(s.conns)[c := x.Queue()];
    assert Orders(cs) == Orders(s.conns)[c := x.order];
    TotalUpdate(Queues(s.conns), c, x.Queue(), e);
    TotalUpdate(Orders(s.conns), c, x.order, e);
  }

  /** A connection only ever sends more and has more answered. */
  predicate Grown(x: Conn, y: Conn) { x.order <= y.order && x.answered <= y.answered }

  lemma {:induction false} GivenStaysOk(cs: seq<Conn>, c: nat, y: Conn, gs: seq<Given>)
    requires c < |cs| && Grown(cs[c], y) && AllGivenOk(cs, gs)
    ensures AllGivenOk(cs[c := y], gs)
  {
    forall i | 0 <= i < |gs| ensures GivenOk(cs[c := y], gs[i]) {
      assert GivenOk(cs, gs[i]);
    }
  }

  lemma {:induction false} PushTotals(s: State, c: nat, es: seq<Entry>, id: nat)
    requires c < |s.conns| && InOrder(s.conns[c])
    ensures Held(Push(s, c, es), id) == Held(s, id) + Count(es, Query(id))
    ensures Times(Push(s, c, es), id) == Times(s, id) + Count(es, Query(id))
  {
    hide Total, Count, Conn.Queue, InOrder;
    var x := s.conns[c];
    assert Push(s, c, es).conns == s.conns[c := Pushed(x, es)];
    PushedOk(x, es);
    UpdateTotals(s, c, Pushed(x, es), Query(id));
    CountConcat(x.Queue(), es, Query(id));
    CountConcat(x.order, es, Query(id));
  }

  lemma {:induction false} PopTotals(s: State, c: nat, id: nat)
    requires c < |s.conns| && InOrder(s.conns[c]) && s.conns[c].Queue() != []
    ensures Held(Pop(s, c), id) + Count([s.conns[c].Queue()[0]], Query(id)) == Held(s, id)
    ensures Times(Pop(s, c), id) == Times(s, id)
  {
    hide Total, Count, Conn.Queue, InOrder;
    var x := s.conns[c];
    assert Pop(s, c).conns == s.conns[c := Popped(x)];
    PoppedOk(x);
    UpdateTotals(s, c, Popped(x), Query(id));
    CountConcat([x.Queue()[0]], Popped(x).Queue(), Query(id));
  }

  lemma {:induction false} CountOne<T>(x: T, e: T)
    ensures Count([x], e) == if x == e then 1 else 0
  {
  }

  // ----- steps -----

  /** The request at the front of `c` is dealt with, and still at the front. */
  ghost predicate Handled(s: State, c: nat, id: nat) {
    && c < |s.conns| && ConnsOk(s.conns) && s.conns[c].Queue() != [] && s.conns[c].Queue()[0] == Query(id)
    && AllGivenOk(Pop(s, c).conns, s.given)
    && forall i :: RequestOver(s, i, id)
  }

  predicate RequestOver(s: State, i: nat, id: nat) {
    && Held(s, i) + Ended(s, i) == (if i in s.reqs then 1 else 0) + (if i == id then 1 else 0)
    && Times(s, i) <= (if i in s.reqs then 1 + Capped(s.reqs[i].count) else 0)
  }

  lemma {:induction false} HandledThenPopped(s: State, c: nat, id: nat)
    requires Handled(s, c, id)
    ensures Valid(Pop(s, c))
  {
    hide Held, Times, Ended, InOrder, AllGivenOk, Conn.Queue, Capped;
    var x := s.conns[c];
    assert Pop(s, c).conns == s.conns[c := Popped(x)];
    PoppedOk(x);
    forall i: nat ensures RequestOk(Pop(s, c), i) {
      assert RequestOver(s, i, id);
      PopTotals(s, c, i);
      CountOne(x.Queue()[0], Query(i));
      SameEnds(s, Pop(s, c), i);
    }
  }

  lemma {:induction false} SameEnds(s: State, t: State, id: nat)
    requires s.given == t.given && s.refused == t.refused && s.lost == t.lost
    ensures Ended(s, id) == Ended(t, id)
  {
  }

  lemma {:induction false} SameConns(s: State, t: State, id: nat)
    requires s.conns == t.conns
    ensures Held(s, id) == Held(t, id) && Times(s, id) == Times(t, id)
  {
  }

  lemma {:induction false} OneMoreEnd(s: State, c: nat, id: nat, i: nat)
    ensures c < |s.conns| ==> Ended(Give(s, c, id), i) == Ended(s, i) + (if i == id then 1 else 0)
    ensures Ended(s.(lost := s.lost + [id]), i) == Ended(s, i) + (if i == id then 1 else 0)
    ensures Ended(s.(refused := s.refused + [id]), i) == Ended(s, i) + (if i == id then 1 else 0)
  {
    hide Count;
    if c < |s.conns| {
      var g := Given(id, c, s.conns[c].answered);
      assert GivenIds(s.given + [g]) == GivenIds(s.given) + [id];
    }
    CountConcat(GivenIds(s.given), [id], i);
    CountConcat(s.refused, [id], i);
    CountConcat(s.lost, [id], i);
    CountOne(id, i);
  }

  /** A reply handed to the client, or to nobody. */
  lemma {:induction false} GiveIsHandled(s: State, c: nat, id: nat)
    requires Valid(s) && c < |s.conns| && s.conns[c].Queue() != [] && s.conns[c].Queue()[0] == Query(id)
    ensures Handled(Give(s, c, id), c, id)
  {
    hide Held, Times, Ended, InOrder, Conn.Queue, Capped;
    var x, t := s.conns[c], Give(s, c, id);
    PoppedOk(x);
    GivenStaysOk(s.conns, c, Popped(x), s.given);
    assert Pop(t, c).conns == s.conns[c := Popped(x)];
    forall i: nat ensures RequestOver(t, i, id) {
      assert RequestOk(s, i);
      SameConns(s, t, i);
      OneMoreEnd(s, c, id, i);
    }
  }

  /** The redirected request, sent on or lost. */
  lemma {:induction false} SendToIsHandled(s: State, c: nat, id: nat, t: nat, es: seq<Entry>)
    requires c < |s.conns| && t < |s.conns| && id in s.reqs && s.reqs[id].count > 0
    requires Valid(s.(reqs := s.reqs[id := s.reqs[id].(count := s.reqs[id].count - 1)]))
    requires s.reqs[id].count <= MAX_REDIRECT_LIMIT
    requires s.conns[c].Queue() != [] && s.conns[c].Queue()[0] == Query(id)
    requires forall i: nat :: Count(es, Query(i)) == if i == id then 1 else 0
    ensures Handled(SendTo(s, t, es, id), c, id)
  {
    hide Held, Times, Ended, InOrder, Conn.Queue, Count;
    var s0 := s.(reqs := s.reqs[id := s.reqs[id].(count := s.reqs[id].count - 1)]);
    var r := SendTo(s, t, es, id);
    var x := s.conns[c];
    forall i: nat ensures RequestOver(r, i, id) {
      assert RequestOk(s0, i);
      SameConns(s0, s, i);
      SameEnds(s0, s, i);
      if s.conns[t].good {
        PushTotals(s, t, es, i);
        SameEnds(s, r, i);
      } else {
        SameConns(s, r, i);
        OneMoreEnd(s, c, id, i);
      }
    }
    PoppedOk(x);
    if s.conns[t].good {
      PushThenFront(s, t, es, c);
    } else {
      GivenStaysOk(s.conns, c, Popped(x), s.given);
      assert Pop(r, c).conns == s.conns[c := Popped(x)];
    }
  }

  /** Pushing leaves the front of every queue, also of the one pushed onto. */
  lemma {:induction false} PushThenFront(s: State, t: nat, es: seq<Entry>, c: nat)
    requires ConnsOk(s.conns) && t < |s.conns| && c < |s.conns| && AllGivenOk(s.conns, s.given)
    requires s.conns[c].Queue() != []
    ensures var r := Push(s, t, es);
            && ConnsOk(r.conns) && r.conns[c].Queue() != [] && r.conns[c].Queue()[0] == s.conns[c].Queue()[0]
            && AllGivenOk(Pop(r, c).conns, r.given)
  {
    hide AllGivenOk, InOrder, Conn.Queue;
    var r := Push(s, t, es);
    assert r.conns == s.conns[t := Pushed(s.conns[t], es)];
    PushedOk(s.conns[t], es);
    GivenStaysOk(s.conns, t, Pushed(s.conns[t], es), s.given);
    PoppedOk(r.conns[c]);
    GivenStaysOk(r.conns, c, Popped(r.conns[c]), s.given);
    assert Pop(r, c).conns == r.conns[c := Popped(r.conns[c])];
  }

  lemma {:induction false} CountsOfBatch(id: nat, i: nat)
    ensures Count([Query(id)], Query(i)) == if i == id then 1 else 0
    ensures Count([Query(id)], Query(i)) == if i == id then 1 else 0
    ensures Count([Asking, Query(id)], Query(i)) == if i == id then 1 else 0
    ensures Count([Inner], Query(i)) == 0
  {
    assert [Query(id)] == [Query(id)];
    assert [Query(id)] == [Query(id)];
    assert [Asking, Query(id)] == [Asking] + [Query(id)];
    assert [Inner] == [Inner];
    CountOne(Query(id), Query(i));
    CountOne(Inner, Query(i));
    CountOne(Asking, Query(i));
    CountConcat([Asking], [Query(id)], Query(i));
  }

  /** A request whose count has gone up is still in one place. */
  lemma {:induction false} CountedOk(s: State, id: nat)
    requires Valid(s) && id in s.reqs
    ensures Valid(s.(reqs := s.reqs[id := s.reqs[id].(count := s.reqs[id].count + 1)]))
  {
    hide Held, Times, Ended, ConnsOk, AllGivenOk;
    var t := s.(reqs := s.reqs[id := s.reqs[id].(count := s.reqs[id].count + 1)]);
    forall i: nat ensures RequestOk(t, i) {
      assert RequestOk(s, i);
      SameConns(s, t, i);
      SameEnds(s, t, i);
    }
  }

  lemma {:induction false} HandleIsHandled(s: State, c: nat, id: nat, reply: Reply)
    requires Valid(s) && c < |s.conns| && s.conns[c].Queue() != [] && s.conns[c].Queue()[0] == Query(id)
    requires !reply.Plain? && reply.target.Some? ==> reply.target.value < |s.conns|
    ensures Handled(Handle(s, c, id, reply), c, id) && |Handle(s, c, id, reply).conns| == |s.conns|
  {
    hide Valid, Handled, Conn.Queue, Count;
    if reply.Plain? || id !in s.reqs || !s.reqs[id].alive {
      GiveIsHandled(s, c, id);
    } else {
      var n := s.reqs[id].count + 1;
      var s1 := s.(reqs := s.reqs[id := s.reqs[id].(count := n)]);
      CountedOk(s, id);
      if n > MAX_REDIRECT_LIMIT || reply.target == None {
        GiveIsHandled(s1, c, id);
      } else {
        forall i: nat { CountsOfBatch(id, i); }
        assert s1.(reqs := s1.reqs[id := s1.reqs[id].(count := s1.reqs[id].count - 1)]) == s by {
          assert s1.reqs[id := s1.reqs[id].(count := n - 1)] == s.reqs;
        }
        if reply.Ask? {
          SendToIsHandled(s1, c, id, reply.target.value, [Asking, Query(id)]);
        } else {
          SendToIsHandled(s1, c, id, reply.target.value, [Query(id)]);
        }
      }
    }
  }

  lemma {:induction false} PopOtherOk(s: State, c: nat)
    requires Valid(s) && c < |s.conns| && s.conns[c].Queue() != [] && !s.conns[c].Queue()[0].Query?
    ensures Valid(Pop(s, c))
  {
    hide Held, Times, Ended, InOrder, AllGivenOk, Conn.Queue, Capped;
    var x := s.conns[c];
    assert Pop(s, c).conns == s.conns[c := Popped(x)];
    PoppedOk(x);
    GivenStaysOk(s.conns, c, Popped(x), s.given);
    forall i: nat ensures RequestOk(Pop(s, c), i) {
      assert RequestOk(s, i);
      PopTotals(s, c, i);
      CountOne(x.Queue()[0], Query(i));
      SameEnds(s, Pop(s, c), i);
    }
  }

  /** Changing a connection without touching its queue or its order. */
  lemma {:induction false} SameQueueOk(s: State, c: nat, y: Conn)
    requires Valid(s) && c < |s.conns| && InOrder(y)
    requires y.Queue() == s.conns[c].Queue() && y.order == s.conns[c].order && y.answered == s.conns[c].answered
    ensures Valid(s.(conns := s.conns[c := y]))
  {
    hide Total, Ended, InOrder, AllGivenOk, Conn.Queue, Capped, Count;
    var t := s.(conns := s.conns[c := y]);
    GivenStaysOk(s.conns, c, y, s.given);
    forall i: nat ensures RequestOk(t, i) {
      assert RequestOk(s, i);
      UpdateTotals(s, c, y, Query(i));
      SameEnds(s, t, i);
    }
  }

  lemma {:induction false} OpenOk(s: State)
    requires Valid(s)
    ensures Valid(Next(s, Open))
  {
    hide Total, Ended, Capped, Count, Conn.Queue;
    var t := Next(s, Open);
    EmptyConnOk();
    forall i | 0 <= i < |t.given| ensures GivenOk(t.conns, t.given[i]) {
      assert GivenOk(s.conns, s.given[i]);
    }
    assert Queues(t.conns) == Queues(s.conns) + [[]];
    assert Orders(t.conns) == Orders(s.conns) + [[]];
    forall i: nat ensures RequestOk(t, i) {
      assert RequestOk(s, i);
      TotalAdd(Queues(s.conns), Query(i));
      TotalAdd(Orders(s.conns), Query(i));
      SameEnds(s, t, i);
    }
  }

  lemma {:induction false} EmptyConnOk()
    ensures var x := Conn(true, [], [], [], 0); InOrder(x) && x.Queue() == [] && x.order == []
  {
  }

  lemma {:induction false} PushInnerOk(s: State, c: nat)
    requires Valid(s) && c < |s.conns|
    ensures Valid(Push(s, c, [Inner]))
  {
    hide Held, Times, Ended, AllGivenOk, Capped, Count, InOrder, Conn.Queue;
    var es := [Inner];
    var t := Push(s, c, es);
    assert t.conns == s.conns[c := Pushed(s.conns[c], es)];
    PushedOk(s.conns[c], es);
    GivenStaysOk(s.conns, c, Pushed(s.conns[c], es), s.given);
    forall i: nat ensures RequestOk(t, i) {
      assert RequestOk(s, i);
      PushTotals(s, c, es, i);
      CountsOfBatch(0, i);
      SameEnds(s, t, i);
    }
  }

  lemma {:induction false} SendNewOk(s: State, c: Option<nat>, id: nat)
    requires Valid(s) && (c.Some? ==> c.value < |s.conns|) && id !in s.reqs
    ensures Valid(Next(s, Send(c, id)))
  {
    hide Held, Times, Ended, AllGivenOk, Count, InOrder, Conn.Queue;
    var es := [Query(id)];
    var s1 := s.(reqs := s.reqs[id := Request(0, true)]);
    var t := Next(s, Send(c, id));
    var good := c.Some? && s.conns[c.value].good;
    if good {
      assert t.conns == s.conns[c.value := Pushed(s.conns[c.value], es)];
      PushedOk(s.conns[c.value], es);
      GivenStaysOk(s.conns, c.value, Pushed(s.conns[c.value], es), s.given);
    }
    forall i: nat ensures RequestOk(t, i) {
      assert RequestOk(s, i);
      SameConns(s, s1, i);
      SameEnds(s, s1, i);
      if good {
        PushTotals(s1, c.value, es, i);
        CountsOfBatch(id, i);
        SameEnds(s1, t, i);
      } else {
        SameConns(s1, t, i);
        OneMoreEnd(s1, 0, id, i);
      }
    }
  }

  lemma {:induction false} GoneOk(s: State, id: nat)
    requires Valid(s) && id in s.reqs
    ensures Valid(Next(s, Gone(id)))
  {
    hide Held, Times, Ended, AllGivenOk, ConnsOk, Capped;
    var t := Next(s, Gone(id));
    forall i: nat ensures RequestOk(t, i) {
      assert RequestOk(s, i);
      SameConns(s, t, i);
      SameEnds(s, t, i);
    }
  }

  /** Every step keeps the invariant. */
  lemma {:induction false} NextKeepsValid(s: State, step: Step)
    requires Valid(s) && Enabled(s, step)
    ensures Valid(Next(s, step))
  {
    hide Valid, Handled, Handle, Pop, Give, InOrder;
    match step
    case Open => OpenOk(s);
    case Send(c, id) => SendNewOk(s, c, id);
    case SendInner(c) => PushInnerOk(s, c);
    case WriteOut(c) =>
      ConnAtOk(s, c);
      WrittenOutOk(s.conns[c]);
      SameQueueOk(s, c, s.conns[c].(sent := s.conns[c].sent + [s.conns[c].send[0]], send := s.conns[c].send[1..]));
    case Answer(c, r) =>
      assert s.conns[c].Queue()[0] == s.conns[c].sent[0];
      var e := s.conns[c].sent[0];
      if e.Query? {
        HandleIsHandled(s, c, e.id, r);
        HandledThenPopped(Handle(s, c, e.id, r), c, e.id);
      } else {
        PopOtherOk(s, c);
      }
    case Fail(c) =>
      ConnAtOk(s, c);
      FailedOk(s.conns[c]);
      SameQueueOk(s, c, s.conns[c].(good := false));
    case CloseFront(c) =>
      var e := s.conns[c].Queue()[0];
      if e.Query? {
        GiveIsHandled(s, c, e.id);
        HandledThenPopped(Give(s, c, e.id), c, e.id);
      } else {
        PopOtherOk(s, c);
      }
    case Gone(id) => GoneOk(s, id);
  }

  lemma {:induction false} ConnAtOk(s: State, c: nat)
    requires Valid(s) && c < |s.conns|
    ensures InOrder(s.conns[c])
  {
  }

  lemma {:induction false} FailedOk(x: Conn)
    requires InOrder(x)
    ensures InOrder(x.(good := false)) && x.(good := false).Queue() == x.Queue()
  {
  }

  // ----- runs -----

  predicate Possible(s: State, steps: seq<Step>)
    decreases |steps|
  {
    steps == [] || (Enabled(s, steps[0]) && Possible(Next(s, steps[0]), steps[1..]))
  }

  function Run(s: State, steps: seq<Step>): State
    requires Possible(s, steps)
    decreases |steps|
  {
    if steps == [] then s else Run(Next(s, steps[0]), steps[1..])
  }

  lemma {:induction false} RunKeepsValid(s: State, steps: seq<Step>)
    requires Valid(s) && Possible(s, steps)
    ensures Valid(Run(s, steps))
    decreases |steps|
  {
    hide Valid, Next, Enabled;
    if steps != [] {
      NextKeepsValid(s, steps[0]);
      RunKeepsValid(Next(s, steps[0]), steps[1..]);
    }
  }

  lemma {:induction false} InitialIsValid()
    ensures Valid(INITIAL)
  {
    forall id: nat ensures RequestOk(INITIAL, id) {
      assert Queues([]) == [] && Orders([]) == [];
    }
  }

  /** On every connection, at any time, what is written but unanswered followed by what is unwritten is the part
      of the order of sending that is not answered yet; and every reply a client was given is the one in the
      place of its request in that order. */
  lemma {:induction false} RepliesMatchRequests(steps: seq<Step>, c: nat, g: nat)
    requires Possible(INITIAL, steps)
    ensures var s := Run(INITIAL, steps);
            && (c < |s.conns| ==> InOrder(s.conns[c]))
            && (g < |s.given| ==> GivenOk(s.conns, s.given[g]))
  {
    InitialIsValid();
    RunKeepsValid(INITIAL, steps);
  }

  // ----- what a reply does -----

  /** The request at the front of `c` has a client, and has been redirected less often than is allowed. */
  predicate MayFollow(s: State, c: nat) {
    && c < |s.conns| && s.conns[c].sent != [] && s.conns[c].sent[0].Query?
    && var id := s.conns[c].sent[0].id; id in s.reqs && s.reqs[id].alive && s.reqs[id].count < 3
  }

  /** Nothing is given to a client, and nobody loses a request. */
  predicate NobodyIsTold(s: State, t: State) {
    t.given == s.given && t.refused == s.refused && t.lost == s.lost
  }

  /** The order of `to` grows by `es`, and no other. */
  predicate OnlyGrows(s: State, t: State, to: nat, es: seq<Entry>) {
    && |t.conns| == |s.conns|
    && forall i :: 0 <= i < |s.conns| ==> t.conns[i].order == s.conns[i].order + if i == to then es else []
  }

  predicate NoneGrows(s: State, t: State) {
    |t.conns| == |s.conns| && forall i :: 0 <= i < |s.conns| ==> t.conns[i].order == s.conns[i].order
  }

  /** A redirection is followed to a connection that is good, on an ASK behind an ASKING and on a MOVED alone. */
  lemma {:induction false} RedirectionIsFollowed(s: State, c: nat, to: nat)
    requires MayFollow(s, c) && to < |s.conns| && s.conns[c].good && s.conns[to].good
    ensures var id := s.conns[c].sent[0].id;
            var (a, m) := (Next(s, Answer(c, Ask(Some(to)))), Next(s, Answer(c, Moved(Some(to)))));
            && OnlyGrows(s, a, to, [Asking, Query(id)]) && NobodyIsTold(s, a)
            && OnlyGrows(s, m, to, [Query(id)]) && NobodyIsTold(s, m)
            && a.reqs == m.reqs == s.reqs[id := Request(s.reqs[id].count + 1, true)]
  {
  }

  /** A redirection to a connection that is not good loses the request. */
  lemma {:induction false} RedirectionIsLost(s: State, c: nat, r: Reply)
    requires MayFollow(s, c) && Enabled(s, Answer(c, r)) && !r.Plain? && r.target.Some? && !s.conns[r.target.value].good
    ensures var t := Next(s, Answer(c, r));
            && t.lost == s.lost + [s.conns[c].sent[0].id] && t.given == s.given && t.refused == s.refused
            && NoneGrows(s, t)
  {
  }

  /** Any other reply is given to the client of the request, and to nobody if that is gone. */
  lemma {:induction false} ReplyIsGiven(s: State, c: nat, r: Reply)
    requires Enabled(s, Answer(c, r)) && s.conns[c].sent[0].Query?
    requires !(MayFollow(s, c) && !r.Plain? && r.target.Some?)
    ensures var (t, id) := (Next(s, Answer(c, r)), s.conns[c].sent[0].id);
            && NoneGrows(s, t) && t.refused == s.refused
            && if id in s.reqs && s.reqs[id].alive
               then t.given == s.given + [Given(id, c, s.conns[c].answered)] && t.lost == s.lost
               else t.given == s.given && t.lost == s.lost + [id]
  {
  }

  /** The reply to an ASKING, or to a request that sets up a connection, is for nobody. */
  lemma {:induction false} OtherReplyIsDropped(s: State, c: nat, r: Reply)
    requires Enabled(s, Answer(c, r)) && !s.conns[c].sent[0].Query?
    ensures var t := Next(s, Answer(c, r)); NobodyIsTold(s, t) && NoneGrows(s, t) && t.reqs == s.reqs
  {
  }

  /** A new request goes to its connection, or is refused. */
  lemma {:induction false} NewIsSent(s: State, to: Option<nat>, id: nat)
    requires Enabled(s, Send(to, id))
    ensures var t := Next(s, Send(to, id));
            && t.given == s.given && t.lost == s.lost && t.reqs == s.reqs[id := Request(0, true)]
            && if to.Some? && s.conns[to.value].good
               then OnlyGrows(s, t, to.value, [Query(id)]) && t.refused == s.refused
               else NoneGrows(s, t) && t.refused == s.refused + [id]
  {
  }

  /** When a connection is closed, the request at its front goes back to its client, if that is there, and no request
      is sent. */
  lemma {:induction false} FrontIsGivenBack(s: State, c: nat)
    requires Enabled(s, CloseFront(c))
    ensures var (t, e) := (Next(s, CloseFront(c)), s.conns[c].Queue()[0]);
            && NoneGrows(s, t) && t.refused == s.refused && t.reqs == s.reqs
            && t.conns[c].Queue() == s.conns[c].Queue()[1..]
            && if !e.Query? then NobodyIsTold(s, t)
               else if e.id in s.reqs && s.reqs[e.id].alive
               then t.given == s.given + [Given(e.id, c, s.conns[c].answered)] && t.lost == s.lost
               else t.given == s.given && t.lost == s.lost + [e.id]
  {
    var x := s.conns[c];
    if x.sent == [] { assert x.Queue() == x.send; } else { assert x.Queue()[1..] == x.sent[1..] + x.send; }
  }

  /** A connection that sends, fails or is opened, and a client that goes, move no request. */
  lemma {:induction false} NobodyIsMoved(s: State, step: Step)
    requires Enabled(s, step) && (step.Open? || step.WriteOut? || step.Fail? || step.Gone?)
    ensures var t := Next(s, step);
            && NobodyIsTold(s, t) && |s.conns| <= |t.conns|
            && forall i :: 0 <= i < |s.conns| ==>
                 t.conns[i].Queue() == s.conns[i].Queue() && t.conns[i].order == s.conns[i].order
  {
    if step.WriteOut? {
      var x := s.conns[step.c];
      assert x.send == [x.send[0]] + x.send[1..];
    }
  }

  /** What a step does to whether connections are good. */
  lemma {:induction false} StepFails(s: State, step: Step, c: nat)
    requires Enabled(s, step)
    ensures var t := Next(s, step);
            c < |t.conns| ==> (t.conns[c].good <==> step != Fail(c) && (c < |s.conns| ==> s.conns[c].good))
  {
  }

  /** What a step does to whether clients are there. */
  lemma {:induction false} StepLeaves(s: State, step: Step, id: nat)
    requires Enabled(s, step)
    ensures var t := Next(s, step);
            && (id in t.reqs <==> id in s.reqs || (step.Send? && step.id == id))
            && (id in t.reqs ==> (t.reqs[id].alive <==> step != Gone(id) && (id in s.reqs ==> s.reqs[id].alive)))
  {
  }

  /** In every run a connection is good until it fails, and a client there until it goes. */
  lemma {:induction false} GoodUntilItFails(steps: seq<Step>, c: nat, id: nat)
    requires Possible(INITIAL, steps)
    ensures var s := Run(INITIAL, steps);
            && (c < |s.conns| ==> (s.conns[c].good <==> Fail(c) !in steps))
            && (id in s.reqs <==> exists i :: 0 <= i < |steps| && steps[i].Send? && steps[i].id == id)
            && (id in s.reqs ==> (s.reqs[id].alive <==> Gone(id) !in steps))
    ensures c >= |Run(INITIAL, steps).conns| ==> Fail(c) !in steps
    ensures id !in Run(INITIAL, steps).reqs ==> Gone(id) !in steps
    decreases |steps|
  {
    hide Next, Possible;
    if steps == [] {
      NothingRun(c);
    } else {
      var n := |steps| - 1;
      RunFront(INITIAL, steps, n);
      assert steps[..n + 1] == steps && steps == steps[..n] + [steps[n]];
      GoodUntilItFails(steps[..n], c, id);
      StepFails(Run(INITIAL, steps[..n]), steps[n], c);
      StepLeaves(Run(INITIAL, steps[..n]), steps[n], id);
      ConnsStay(Run(INITIAL, steps[..n]), steps[n]);
    }
  }

  /** What a connection is sent in a run, step by step: a new request, what sets it up, and on an ASK or a MOVED that
      is followed to it the request in question, on the former behind an ASKING. */
  ghost function History(steps: seq<Step>, to: nat): seq<Entry>
    requires Possible(INITIAL, steps)
    decreases |steps|
  {
    if steps == [] then [] else
    var n := |steps| - 1;
    RunFront(INITIAL, steps, n);
    History(steps[..n], to) + Sends(Run(INITIAL, steps[..n]), steps[n], to)
  }

  predicate FollowedTo(s: State, step: Step, to: nat) {
    && step.Answer? && !step.reply.Plain? && step.reply.target == Some(to)
    && MayFollow(s, step.c) && to < |s.conns| && s.conns[to].good
  }

  function Sends(s: State, step: Step, to: nat): seq<Entry> {
    if to >= |s.conns| then []
    else if step.Send? && step.to == Some(to) && s.conns[to].good then [Query(step.id)]
    else if step.SendInner? && step.c == to then [Inner]
    else if FollowedTo(s, step, to) then
      var q := s.conns[step.c].sent[0];
      if step.reply.Ask? then [Asking, q] else [q]
    else []
  }

  lemma {:induction false} RunFront(s: State, steps: seq<Step>, n: nat)
    requires Possible(s, steps) && n < |steps|
    ensures Possible(s, steps[..n]) && Enabled(Run(s, steps[..n]), steps[n])
    ensures Possible(s, steps[..n + 1]) && Run(s, steps[..n + 1]) == Next(Run(s, steps[..n]), steps[n])
    decreases n
  {
    hide Next, Enabled;
    if n == 0 {
      assert steps[..0] == [] && steps[..1] == [steps[0]] && [steps[0]][1..] == [];
    } else {
      RunFront(Next(s, steps[0]), steps[1..], n - 1);
      assert steps[..n][1..] == steps[1..][..n - 1] && steps[..n + 1][1..] == steps[1..][..n];
    }
  }

  lemma {:induction false} StepSends(s: State, step: Step, to: nat)
    requires Enabled(s, step) && to < |Next(s, step).conns|
    ensures |s.conns| <= |Next(s, step).conns|
    ensures Next(s, step).conns[to].order == (if to < |s.conns| then s.conns[to].order else []) + Sends(s, step, to)
  {
    if step.Answer? {
      AnswerSends(s, step.c, step.reply, to);
    }
  }

  lemma {:induction false} AnswerSends(s: State, c: nat, r: Reply, to: nat)
    requires Enabled(s, Answer(c, r)) && to < |s.conns|
    ensures |Next(s, Answer(c, r)).conns| == |s.conns|
    ensures Next(s, Answer(c, r)).conns[to].order == s.conns[to].order + Sends(s, Answer(c, r), to)
  {
    hide Next;
    if !s.conns[c].sent[0].Query? {
      OtherReplyIsDropped(s, c, r);
    } else if MayFollow(s, c) && !r.Plain? && r.target.Some? {
      if s.conns[r.target.value].good {
        RedirectionIsFollowed(s, c, r.target.value);
      } else {
        RedirectionIsLost(s, c, r);
      }
    } else {
      ReplyIsGiven(s, c, r);
    }
  }

  /** In every run the order of each connection is what the steps have sent to it. */
  lemma {:induction false} OrderIsHistory(steps: seq<Step>, to: nat)
    requires Possible(INITIAL, steps)
    ensures to < |Run(INITIAL, steps).conns| ==> Run(INITIAL, steps).conns[to].order == History(steps, to)
    ensures to >= |Run(INITIAL, steps).conns| ==> History(steps, to) == []
    decreases |steps|
  {
    hide Next, Enabled, Sends, Possible;
    if steps == [] {
      NothingRun(to);
    } else {
      var n := |steps| - 1;
      RunFront(INITIAL, steps, n);
      assert steps[..n + 1] == steps;
      OrderIsHistory(steps[..n], to);
      var s := Run(INITIAL, steps[..n]);
      if to >= |s.conns| { NoConnNoSends(s, steps[n], to); }
      if to < |Next(s, steps[n]).conns| { StepSends(s, steps[n], to); }
      ConnsStay(s, steps[n]);
      HistorySnoc(steps, to);
    }
  }

  lemma {:induction false} NothingRun(to: nat)
    ensures Possible(INITIAL, []) && Run(INITIAL, []) == INITIAL && History([], to) == []
  {
  }

  lemma {:induction false} HistorySnoc(steps: seq<Step>, to: nat)
    requires steps != [] && Possible(INITIAL, steps) && Possible(INITIAL, steps[..|steps| - 1])
    ensures var n := |steps| - 1;
            History(steps, to) == History(steps[..n], to) + Sends(Run(INITIAL, steps[..n]), steps[n], to)
  {
    hide Possible, Sends, Next, Run;
  }

  lemma {:induction false} NoConnNoSends(s: State, step: Step, to: nat)
    requires to >= |s.conns|
    ensures Sends(s, step, to) == []
  {
  }

  lemma {:induction false} ConnsStay(s: State, step: Step)
    requires Enabled(s, step)
    ensures |s.conns| <= |Next(s, step).conns|
  {
  }

  /** Step `j` of the run is an ASK that is followed to `to`, and up to it that was sent `i` requests. */
  ghost predicate AskedAt(steps: seq<Step>, j: nat, to: nat, i: nat)
    requires Possible(INITIAL, steps) && j < |steps|
  {
    RunFront(INITIAL, steps, j);
    && FollowedTo(Run(INITIAL, steps[..j]), steps[j], to) && steps[j].reply.Ask?
    && |History(steps[..j], to)| == i
  }

  /** The request that step `j`, a reply, answers. */
  ghost function Answers(steps: seq<Step>, j: nat): Entry
    requires Possible(INITIAL, steps) && j < |steps| && steps[j].Answer?
  {
    RunFront(INITIAL, steps, j);
    Run(INITIAL, steps[..j]).conns[steps[j].c].sent[0]
  }

  /** In every run ASKING stands in the order of a connection exactly where an ASK was followed to it, and behind it
      the request that the ASK was the reply to. */
  lemma {:induction false} AskingInFront(steps: seq<Step>, to: nat, i: nat)
    requires Possible(INITIAL, steps) && to < |Run(INITIAL, steps).conns| && i < |Run(INITIAL, steps).conns[to].order|
    ensures var order := Run(INITIAL, steps).conns[to].order;
            && (order[i] == Asking <==> exists j :: 0 <= j < |steps| && AskedAt(steps, j, to, i))
            && forall j :: 0 <= j < |steps| && AskedAt(steps, j, to, i) ==>
                 i + 1 < |order| && order[i + 1] == Answers(steps, j) && Answers(steps, j).Query?
  {
    OrderIsHistory(steps, to);
    AskingInHistory(steps, to, i);
  }

  lemma {:induction false} AskingInHistory(steps: seq<Step>, to: nat, i: nat)
    requires Possible(INITIAL, steps) && i < |History(steps, to)|
    ensures History(steps, to)[i] == Asking <==> exists j :: 0 <= j < |steps| && AskedAt(steps, j, to, i)
    ensures forall j :: 0 <= j < |steps| && AskedAt(steps, j, to, i) ==>
              && i + 1 < |History(steps, to)| && History(steps, to)[i + 1] == Answers(steps, j)
              && Answers(steps, j).Query?
    decreases |steps|
  {
    hide Next, Enabled, Possible, History, Run, Sends, AskedAt, Answers;
    if steps == [] {
      NothingRun(to);
    } else {
      var n := |steps| - 1;
      RunFront(INITIAL, steps, n);
      HistorySnoc(steps, to);
      forall j | 0 <= j < n
        ensures AskedAt(steps, j, to, i) <==> AskedAt(steps[..n], j, to, i)
        ensures AskedAt(steps, j, to, i) ==> steps[j].Answer? && Answers(steps, j) == Answers(steps[..n], j)
        ensures AskedAt(steps, j, to, i) ==> i + 1 < |History(steps[..n], to)|
      {
        AskedBefore(steps, n, j, to, i);
      }
      LastAsked(steps, to, i);
      if i < |History(steps[..n], to)| { AskingInHistory(steps[..n], to, i); }
    }
  }

  /** The last step is an ASK that is followed exactly if it sends ASKING and the request. */
  lemma {:induction false} LastAsked(steps: seq<Step>, to: nat, i: nat)
    requires steps != [] && Possible(INITIAL, steps) && Possible(INITIAL, steps[..|steps| - 1])
    ensures var n := |steps| - 1;
            var (front, es) := (History(steps[..n], to), Sends(Run(INITIAL, steps[..n]), steps[n], to));
            && (AskedAt(steps, n, to, i) <==> i == |front| && es != [] && es[0] == Asking)
            && (i > |front| && i - |front| < |es| ==> es[i - |front|] != Asking)
            && (AskedAt(steps, n, to, i) ==>
                  |es| == 2 && steps[n].Answer? && es[1] == Answers(steps, n) && Answers(steps, n).Query?)
  {
    hide Next, Possible, History, Run;
    var n := |steps| - 1;
    RunFront(INITIAL, steps, n);
  }

  lemma {:induction false} HistoryGrows(steps: seq<Step>, a: nat, b: nat, to: nat)
    requires Possible(INITIAL, steps) && a <= b <= |steps|
    ensures Possible(INITIAL, steps[..a]) && Possible(INITIAL, steps[..b])
    ensures History(steps[..a], to) <= History(steps[..b], to)
    decreases b - a
  {
    hide Next, Enabled, Possible, History, Run, Sends;
    if b < |steps| { RunFront(INITIAL, steps, b); } else { assert steps[..b] == steps; }
    if a < b {
      HistoryGrows(steps, a, b - 1, to);
      assert steps[..b][..b - 1] == steps[..b - 1];
      HistorySnoc(steps[..b], to);
    }
  }

  /** An ASK before the last steps, and where it was. */
  lemma {:induction false} AskedBefore(steps: seq<Step>, n: nat, j: nat, to: nat, i: nat)
    requires Possible(INITIAL, steps) && j < n < |steps| && Possible(INITIAL, steps[..n])
    ensures AskedAt(steps, j, to, i) <==> AskedAt(steps[..n], j, to, i)
    ensures AskedAt(steps, j, to, i) ==>
              steps[j].Answer? && Answers(steps, j) == Answers(steps[..n], j) && i + 1 < |History(steps[..n], to)|
  {
    hide Next, Enabled, Possible, History, Run, Sends;
    assert steps[..n][..j] == steps[..j] && steps[..n][j] == steps[j];
    if AskedAt(steps, j, to, i) {
      RunFront(INITIAL, steps, j);
      assert steps[..j + 1][..j] == steps[..j] && steps[..j + 1][j] == steps[j];
      HistorySnoc(steps[..j + 1], to);
      LastAsked(steps[..j + 1], to, i);
      HistoryGrows(steps, j + 1, n, to);
    }
  }

  /** No request is in two queues, twice in one, answered twice, or answered while it is still queued; and none
      is sent more than four times, however often servers redirect it. */
  lemma {:induction false} OnePlaceFewTimes(steps: seq<Step>, id: nat)
    requires Possible(INITIAL, steps)
    ensures var s := Run(INITIAL, steps);
            && Held(s, id) + Ended(s, id) == (if id in s.reqs then 1 else 0)
            && Times(s, id) <= 4
  {
    InitialIsValid();
    RunKeepsValid(INITIAL, steps);
    assert RequestOk(Run(INITIAL, steps), id);
  }
}
