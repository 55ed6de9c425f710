/** The client's stream when commands are cut into parts: the queue of `AcceptConnections` over the groups of
    `Merging`. A request is done when its group says so, and what it sends is what its group holds for it
    (src/AcceptConnection.cpp, src/Request.cpp `setResponse`, `isDone`). */
module ClientStream {
  import opened Bytes
  import opened Merging
  import opened MergeOutcome
  import A = AcceptConnections
  import G = Gather

  predicate Distinct(arrivals: seq<Arrival>) {
    forall p, q :: 0 <= p < q < |arrivals| ==> arrivals[p].part != arrivals[q].part
  }

  function PartsOf(arrivals: seq<Arrival>): set<nat> {
    set p | 0 <= p < |arrivals| :: arrivals[p].part
  }

  /** A command of the client: one request, or `n` parts of which the parser has handed over `here` so far. */
  datatype Command =
    | Whole(answer: Option<Message>)
    | Parts(cmd: CutCommand, n: nat, here: nat, arrivals: seq<Arrival>)
  {
    predicate Valid() {
      Parts? ==> 0 < here <= n && InRange(arrivals, here) && InRange(arrivals, n) && Distinct(arrivals)
    }

    function Size(): nat { if Whole? then 1 else here }

    function Group(): (g: Group)
      requires Parts? && Valid()
      ensures g.Valid() && |g.res| == n
    {
      DeliverAll(Begin(cmd, n), arrivals)
    }

    /** `isDone` of request `i` of the command. */
    predicate Done(i: nat)
      requires Valid() && i < Size()
    {
      if Whole? then answer.Some? else Group().IsDone(i)
    }

    /** `getResponse` of request `i`. */
    function Reply(i: nat): Option<Message>
      requires Valid() && i < Size()
    {
      if Whole? then answer else Group().res[i]
    }

    function Final(i: nat): Option<string>
      requires Valid() && i < Size()
    {
      if Done(i) then Some(WireOf(Reply(i))) else None
    }

    /** What each request that is here sends, as soon as it is done. */
    function Sends(): seq<Option<string>>
      requires Valid()
    {
      seq(Size(), i requires 0 <= i < Size() => Final(i))
    }

    predicate AllHere() { Parts? ==> here == n }

    /** Every request is here and has been answered. */
    predicate Complete() { if Whole? then answer.Some? else here == n == |arrivals| }

    /** The bytes of the whole answer, or of its first `i` parts. */
    function Bytes(): string
      requires Valid()
    {
      if Whole? then WireOf(answer) else ClientBytes(Group().res)
    }

    function FirstBytes(i: nat): string
      requires Valid() && i < Size()
    {
      if Whole? then [] else ClientBytes(Group().res[..i])
    }

    /** `d` is this command at a later time. */
    predicate GrowsInto(d: Command) {
      if Whole? then d.Whole? && (answer.Some? ==> d == this)
      else d.Parts? && d.cmd == cmd && d.n == n && here <= d.here && arrivals <= d.arrivals
    }
  }

  function WireOf(m: Option<Message>): string {
    if m.Some? then m.value.Wire() else []
  }

  predicate AllValid(cs: seq<Command>) {
    forall c :: 0 <= c < |cs| ==> cs[c].Valid()
  }

  /** What the requests in the client's queue send, in their order. */
  ghost function Queue(cs: seq<Command>): seq<Option<string>>
    requires AllValid(cs)
  {
    if cs == [] then [] else cs[0].Sends() + Queue(cs[1..])
  }

  /** The answers to the commands, in their order. */
  ghost function Stream(cs: seq<Command>): string
    requires AllValid(cs)
  {
    if cs == [] then [] else cs[0].Bytes() + Stream(cs[1..])
  }

  lemma {:induction false} StreamSnoc(cs: seq<Command>, x: Command)
    requires AllValid(cs) && x.Valid()
    ensures AllValid(cs + [x]) && Stream(cs + [x]) == Stream(cs) + x.Bytes()
  {
    hide Command.Bytes;
    if cs == [] {
      assert [] + [x] == [x] && [x][1..] == [] && x.Bytes() + [] == x.Bytes();
    } else {
      StreamSnoc(cs[1..], x);
      assert (cs + [x])[1..] == cs[1..] + [x];
      Assoc(cs[0].Bytes(), Stream(cs[1..]), x.Bytes());
    }
  }

  /** Only the last command can still be on its way in. */
  predicate InTurn(cs: seq<Command>) {
    forall c :: 0 <= c < |cs| - 1 ==> cs[c].AllHere()
  }

  /** The commands at a later time: more of them, and more of each. */
  predicate Grows(cs: seq<Command>, full: seq<Command>) {
    |cs| <= |full| && forall c :: 0 <= c < |cs| ==> cs[c].GrowsInto(full[c])
  }

  predicate Later(cs: seq<Command>, full: seq<Command>) {
    AllValid(cs) && AllValid(full) && InTurn(cs) && Grows(cs, full)
  }

  predicate AllSome(fs: seq<Option<string>>) {
    forall i :: 0 <= i < |fs| ==> fs[i].Some?
  }

  // ----- what is final stays -----

  lemma {:induction false} FinalsStop(a: seq<Option<string>>, b: seq<Option<string>>)
    requires !AllSome(a)
    ensures A.Finals(a + b) == A.Finals(a)
  {
    assert (a + b)[1..] == a[1..] + b;
    if a[0].Some? {
      assert !AllSome(a[1..]) by {
        var i :| 0 <= i < |a| && a[i].None?;
        assert a[1..][i - 1] == a[i];
      }
      FinalsStop(a[1..], b);
    }
  }

  lemma {:induction false} FinalsOfParts(fs: seq<Option<string>>, res: seq<Option<Message>>)
    requires |fs| <= |res| && forall i :: 0 <= i < |fs| && fs[i].Some? ==> fs[i].value == WireOf(res[i])
    ensures A.Finals(fs) <= ClientBytes(res)
    ensures AllSome(fs) && |fs| == |res| ==> A.Finals(fs) == ClientBytes(res)
  {
    if fs != [] && fs[0].Some? {
      FinalsOfParts(fs[1..], res[1..]);
      assert ClientBytes(res) == WireOf(res[0]) + ClientBytes(res[1..]);
    }
  }

  lemma {:induction false} PartsCount(arrivals: seq<Arrival>, n: nat)
    requires InRange(arrivals, n) && Distinct(arrivals)
    ensures |PartsOf(arrivals)| == |arrivals| && PartsOf(arrivals) <= Below(n)
  {
    if arrivals == [] {
      assert PartsOf([]) == {};
    } else {
      var k := |arrivals| - 1;
      PartsCount(arrivals[..k], n);
      PartsSnoc(arrivals);
      MorePartsOf(arrivals);
    }
  }

  lemma {:induction false} PartsSnoc(arrivals: seq<Arrival>)
    requires arrivals != [] && Distinct(arrivals)
    ensures var k := |arrivals| - 1; arrivals[k].part !in PartsOf(arrivals[..k])
  {
  }

  function Below(n: nat): (s: set<nat>)
    ensures |s| == n && forall i: nat :: i in s <==> i < n
  {
    if n == 0 then {} else Below(n - 1) + {n - 1}
  }

  lemma {:induction false} Fewer(a: set<nat>, b: set<nat>)
    requires a <= b
    ensures |a| <= |b|
  {
    if x :| x in a { Fewer(a - {x}, b - {x}); }
  }

  lemma {:induction false} NoMoreThanParts(arrivals: seq<Arrival>, n: nat)
    requires InRange(arrivals, n) && Distinct(arrivals)
    ensures |arrivals| <= n
    ensures forall i: nat :: i < n && i !in PartsOf(arrivals) ==> |arrivals| < n
  {
    PartsCount(arrivals, n);
    Fewer(PartsOf(arrivals), Below(n));
    forall i: nat | i < n && i !in PartsOf(arrivals) ensures |arrivals| < n {
      Fewer(PartsOf(arrivals) + {i}, Below(n));
    }
  }

  /** A request that is done sends the same at any later time. */
  lemma {:induction false} FinalStays(c: Command, d: Command, i: nat)
    requires c.Valid() && d.Valid() && c.GrowsInto(d) && i < c.Size() && c.Done(i)
    ensures d.Done(i) && d.Reply(i) == c.Reply(i)
  {
    hide DeliverAll;
    if c.Parts? {
      NoMoreThanParts(d.arrivals, d.n);
      assert d.arrivals[..|c.arrivals|] == c.arrivals;
      DoneIsFinal(d.cmd, d.n, d.arrivals, |c.arrivals|, i);
    }
  }

  /** What a command sends is the beginning of its answer. */
  lemma {:induction false} SendsAnswer(c: Command, d: Command)
    requires c.Valid() && d.Valid() && c.GrowsInto(d)
    ensures A.Finals(c.Sends()) <= d.Bytes()
    ensures AllSome(c.Sends()) && c.AllHere() ==> A.Finals(c.Sends()) == d.Bytes()
  {
    hide DeliverAll, ClientBytes;
    var fs := c.Sends();
    if c.Whole? {
      assert fs == [c.Final(0)] && fs[1..] == [];
      if c.Done(0) { assert c.Final(0).value + [] == c.Final(0).value; }
    } else {
      SendsParts(c, d);
      FinalsOfParts(fs, d.Group().res);
    }
  }

  lemma {:induction false} SendsParts(c: Command, d: Command)
    requires c.Valid() && d.Valid() && c.GrowsInto(d) && c.Parts?
    ensures |c.Sends()| == c.here <= |d.Group().res|
    ensures forall i :: 0 <= i < c.here && c.Sends()[i].Some? ==> c.Sends()[i].value == WireOf(d.Group().res[i])
  {
    hide DeliverAll;
    forall i | 0 <= i < c.here && c.Sends()[i].Some? ensures c.Sends()[i].value == WireOf(d.Group().res[i]) {
      FinalStays(c, d, i);
    }
  }

  // ----- the stream is the answers in order -----

  /** Whatever has been answered in whatever order: what can be sent is the beginning of the answers to the
      commands in their order, as they will be. */
  lemma {:induction false} QueueIsPrefix(cs: seq<Command>, full: seq<Command>)
    requires Later(cs, full)
    ensures A.Finals(Queue(cs)) <= Stream(full)
    ensures AllSome(Queue(cs)) && (forall c :: 0 <= c < |cs| ==> cs[c].AllHere()) ==>
              A.Finals(Queue(cs)) == Stream(full[..|cs|])
  {
    hide Command.Sends, Command.Bytes, Command.GrowsInto, Command.AllHere, A.Finals;
    if cs == [] {
      NothingQueued();
      assert full[..0] == [];
    } else {
      var c, d := cs[0], full[0];
      SendsAnswer(c, d);
      QueueIsPrefix(cs[1..], full[1..]);
      assert full[..|cs|][1..] == full[1..][..|cs| - 1];
      var rest := Queue(cs[1..]);
      if AllSome(c.Sends()) {
        A.FinalsConcat(c.Sends(), rest);
        if |cs| == 1 {
          NothingQueued();
        } else {
          assert c.AllHere();
        }
        RestIsSome(c.Sends(), rest);
      } else {
        FinalsStop(c.Sends(), rest);
        if AllSome(Queue(cs)) { FirstIsSome(c.Sends(), rest); }
      }
    }
  }

  lemma {:induction false} NothingQueued()
    ensures Queue([]) == [] && A.Finals([]) == [] && Stream([]) == []
  {
  }

  lemma {:induction false} FirstIsSome(a: seq<Option<string>>, b: seq<Option<string>>)
    requires AllSome(a + b)
    ensures AllSome(a)
  {
    forall i | 0 <= i < |a| ensures a[i].Some? { assert (a + b)[i] == a[i]; }
  }

  lemma {:induction false} RestIsSome(a: seq<Option<string>>, b: seq<Option<string>>)
    ensures AllSome(a + b) ==> AllSome(b)
  {
    if AllSome(a + b) {
      forall i | 0 <= i < |b| ensures b[i].Some? { assert (a + b)[|a| + i] == b[i]; }
    }
  }

  lemma {:induction false} QueueConcat(a: seq<Command>, b: seq<Command>)
    requires AllValid(a) && AllValid(b)
    ensures AllValid(a + b) && Queue(a + b) == Queue(a) + Queue(b)
  {
    if a == [] {
      assert a + b == b;
    } else {
      QueueConcat(a[1..], b);
      QueueCons(a);
      QueueCons(a + b);
      hide Queue, Command.Sends, Command.Valid;
      assert (a + b)[1..] == a[1..] + b && (a + b)[0] == a[0];
      Assoc(a[0].Sends(), Queue(a[1..]), Queue(b));
    }
  }

  lemma {:induction false} QueueCons(cs: seq<Command>)
    requires AllValid(cs) && cs != []
    ensures Queue(cs) == cs[0].Sends() + Queue(cs[1..])
  {
  }

  lemma {:induction false} QueueAt(cs: seq<Command>, c: nat)
    requires AllValid(cs) && c < |cs|
    ensures Queue(cs) == Queue(cs[..c]) + cs[c].Sends() + Queue(cs[c + 1..])
  {
    hide Command.Sends;
    assert cs == cs[..c] + cs[c..] && cs[c..][1..] == cs[c + 1..];
    QueueConcat(cs[..c], cs[c..]);
  }

  /** A request that is not done holds back all bytes from its own on. */
  lemma {:induction false} HeldBack(cs: seq<Command>, full: seq<Command>, c: nat, i: nat)
    requires Later(cs, full) && c < |cs| && i < cs[c].Size() && !cs[c].Done(i)
    requires i < full[c].Size()
    ensures A.Finals(Queue(cs)) <= Stream(full[..c]) + full[c].FirstBytes(i)
  {
    hide A.Finals, Command.Bytes, Queue, Stream;
    var front, sends := Queue(cs[..c]), cs[c].Sends();
    QueueAt(cs, c);
    var s, rest := sends[..i], sends[i..] + Queue(cs[c + 1..]);
    assert Queue(cs) == (front + s) + rest;
    assert rest[0] == None;
    NoneFirst(rest);
    FinalsUpTo(front + s, rest);
    QueueIsPrefix(cs[..c], full[..c]);
    assert full[..c][..c] == full[..c];
    FirstSends(cs[c], full[c], i);
    if AllSome(front) {
      A.FinalsConcat(front, s);
    } else {
      FinalsStop(front, s);
    }
  }

  lemma {:induction false} NoneFirst(fs: seq<Option<string>>)
    requires fs != [] && fs[0] == None
    ensures A.Finals(fs) == []
  {
  }

  lemma {:induction false} FinalsUpTo(a: seq<Option<string>>, b: seq<Option<string>>)
    requires A.Finals(b) == []
    ensures A.Finals(a + b) == A.Finals(a)
  {
    hide A.Finals;
    if AllSome(a) {
      A.FinalsConcat(a, b);
    } else {
      FinalsStop(a, b);
    }
  }

  lemma {:induction false} FirstSends(c: Command, d: Command, i: nat)
    requires c.Valid() && d.Valid() && c.GrowsInto(d) && i < c.Size() && i < d.Size()
    ensures A.Finals(c.Sends()[..i]) <= d.FirstBytes(i)
  {
    hide DeliverAll, ClientBytes;
    if c.Parts? {
      SendsParts(c, d);
      FinalsOfParts(c.Sends()[..i], d.Group().res[..i]);
    }
  }

  // ----- a reply arrives -----

  /** Request `i` of the command waits for its reply. */
  predicate Waits(c: Command, i: nat) {
    i < c.Size() && if c.Whole? then c.answer.None? else i !in PartsOf(c.arrivals)
  }

  /** The command once the reply `m` to its request `i` has been delivered. */
  function Answered(c: Command, i: nat, m: Message): Command {
    if c.Whole? then Whole(Some(m)) else c.(arrivals := c.arrivals + [Arrival(i, m)])
  }

  /** The request that sends what the reply to request `i` becomes part of. */
  function Sender(c: Command, i: nat): nat {
    if c.Whole? || c.cmd == Mget then i else 0
  }

  lemma {:induction false} AnsweredIsValid(c: Command, i: nat, m: Message)
    requires c.Valid() && Waits(c, i)
    ensures Answered(c, i, m).Valid() && c.GrowsInto(Answered(c, i, m))
  {
    if c.Parts? {
      forall p | 0 <= p < |c.arrivals| ensures c.arrivals[p].part != i {
        assert c.arrivals[p].part in PartsOf(c.arrivals);
      }
    }
  }

  /** `Deliver` is the step from one group to the next. */
  lemma {:induction false} GroupAfter(c: Command, i: nat, m: Message)
    requires c.Valid() && c.Parts? && Waits(c, i)
    ensures Answered(c, i, m).Valid() && Answered(c, i, m).Group() == Deliver(c.Group(), i, m)
  {
    AnsweredIsValid(c, i, m);
    assert Answered(c, i, m).arrivals[..|c.arrivals|] == c.arrivals;
  }

  lemma {:induction false} DoneParts(cmd: CutCommand, n: nat, arrivals: seq<Arrival>, i: nat)
    requires i < n && InRange(arrivals, n)
    ensures DeliverAll(Begin(cmd, n), arrivals).done[i] <==> i in PartsOf(arrivals)
  {
    if arrivals != [] {
      var k := |arrivals| - 1;
      DoneParts(cmd, n, arrivals[..k], i);
      MorePartsOf(arrivals);
      DeliverMarks(DeliverAll(Begin(cmd, n), arrivals[..k]), arrivals[k].part, arrivals[k].m, i);
      hide PartsOf, Deliver;
    }
  }

  lemma {:induction false} DeliverMarks(g: Group, i: nat, m: Message, k: nat)
    requires g.Valid() && i < |g.res| && k < |g.res|
    ensures Deliver(g, i, m).done[k] <==> k == i || g.done[k]
  {
  }

  lemma {:induction false} MorePartsOf(arrivals: seq<Arrival>)
    requires arrivals != []
    ensures var k := |arrivals| - 1; PartsOf(arrivals) == PartsOf(arrivals[..k]) + {arrivals[k].part}
  {
    var k := |arrivals| - 1;
    forall x | x in PartsOf(arrivals[..k]) ensures x in PartsOf(arrivals) {
      var p :| 0 <= p < k && arrivals[..k][p].part == x;
      assert arrivals[p].part == x;
    }
    forall x | x in PartsOf(arrivals) ensures x in PartsOf(arrivals[..k]) + {arrivals[k].part} {
      var p :| 0 <= p < |arrivals| && arrivals[p].part == x;
      if p < k { assert arrivals[..k][p].part == x; }
    }
  }

  /** A request that waits is not done; nor is the one that will send what its reply becomes part of. */
  lemma {:induction false} WaitsNotDone(c: Command, i: nat)
    requires c.Valid() && Waits(c, i)
    ensures !c.Done(i) && !c.Done(Sender(c, i))
  {
    if c.Parts? {
      DoneParts(c.cmd, c.n, c.arrivals, i);
      NoMoreThanParts(c.arrivals, c.n);
      if c.cmd != Mget { LeaderHoldsAll(c.cmd, c.n, c.arrivals); }
    }
  }

  /** What a reply changes: the request it answers is done, and so may be the one that sends. */
  lemma {:induction false} SendsAfter(c: Command, i: nat, m: Message)
    requires c.Valid() && Waits(c, i)
    ensures var d, s := Answered(c, i, m), Sender(c, i);
            && d.Valid() && d.Size() == c.Size()
            && d.Sends() == (if s == i then c.Sends() else c.Sends()[i := Some([])])[s := d.Final(s)]
  {
    hide DeliverAll, Deliver;
    AnsweredIsValid(c, i, m);
    var d, s := Answered(c, i, m), Sender(c, i);
    forall k: nat | k < c.Size() && k != s ensures d.Final(k) == if k == i then Some([]) else c.Final(k) {
      OtherFinal(c, i, m, k);
    }
    assert |d.Sends()| == |c.Sends()| == c.Size();
  }

  lemma {:induction false} OtherFinal(c: Command, i: nat, m: Message, k: nat)
    requires c.Valid() && Waits(c, i) && k < c.Size() && k != Sender(c, i) && Answered(c, i, m).Valid()
    ensures Answered(c, i, m).Final(k) == if k == i then Some([]) else c.Final(k)
  {
    var d := Answered(c, i, m);
    GroupAfter(c, i, m);
    if c.cmd != Mget {
      hide DeliverAll;
      LeaderHoldsAll(c.cmd, c.n, c.arrivals);
      LeaderHoldsAll(c.cmd, c.n, d.arrivals);
    }
  }

  // ----- the connection -----

  /** The reply that becomes final, if any, lies in these buffers. */
  predicate Laid(c: Command, i: nat, head: G.Pieces, body: G.Pieces)
    requires c.Valid() && i < c.Size()
  {
    c.Done(i) ==> WireOf(c.Reply(i)) == G.Flat(head) + G.Flat(body) && G.EndsFull(head) && G.EndsFull(body)
  }

  lemma {:induction false} QueueUpdated(cs: seq<Command>, c: nat, x: Command)
    requires AllValid(cs) && c < |cs| && x.Valid()
    ensures AllValid(cs[c := x]) && Queue(cs[c := x]) == Queue(cs[..c]) + x.Sends() + Queue(cs[c + 1..])
  {
    hide Command.Sends, Queue;
    QueueAt(cs[c := x], c);
    assert cs[c := x][..c] == cs[..c] && cs[c := x][c + 1..] == cs[c + 1..];
  }

  /** Only the last command is updated, so none starts elsewhere. */
  lemma {:induction false} LastUpdated(cs: seq<Command>, x: Command)
    requires cs != [] && InTurn(cs)
    ensures InTurn(cs[|cs| - 1 := x]) && forall d :: 0 <= d < |cs| ==> cs[|cs| - 1 := x][..d] == cs[..d]
  {
    forall d | 0 <= d < |cs| ensures cs[|cs| - 1 := x][..d] == cs[..d] {}
  }

  lemma {:induction false} UpdateInside<T>(a: seq<T>, s: seq<T>, b: seq<T>, i: nat, v: T)
    requires i < |s|
    ensures (a + s + b)[|a| + i := v] == a + s[i := v] + b
  {
  }

  lemma {:induction false} QueueSnoc(cs: seq<Command>, x: Command)
    requires AllValid(cs) && x.Valid()
    ensures AllValid(cs + [x]) && Queue(cs + [x]) == Queue(cs) + x.Sends()
  {
    hide Command.Sends;
    QueueConcat(cs, [x]);
    assert [x][1..] == [] && x.Sends() + [] == x.Sends();
  }

  /** A command of which nothing has been answered, with its first request. */
  predicate New(x: Command) {
    if x.Parts? then x.here == 1 && x.arrivals == [] else x.answer == None
  }

  lemma {:induction false} NewIsNotDone(x: Command)
    requires x.Valid() && New(x)
    ensures x.Sends() == [None]
  {
    assert x.Final(0) == None;
  }

  lemma {:induction false} OneMoreHere(x: Command, y: Command)
    requires x.Valid() && x.Parts? && x.here < x.n && y == x.(here := x.here + 1)
    ensures y.Valid() && y.Sends() == x.Sends() + [None] && x.GrowsInto(y)
  {
    hide DeliverAll;
    DoneParts(x.cmd, x.n, x.arrivals, x.here);
    assert y.Final(x.here) == None;
  }

  lemma {:induction false} SendsAt(x: Command, i: nat)
    requires x.Valid() && i < x.Size()
    ensures |x.Sends()| == x.Size() && x.Sends()[i] == x.Final(i)
  {
  }

  lemma {:induction false} SameStarts(cs: seq<Command>, c: nat, y: Command, d: nat)
    requires AllValid(cs) && c < |cs| && y.Valid() && y.Size() == cs[c].Size() && d <= |cs|
    ensures AllValid(cs[c := y]) && |Queue(cs[c := y][..d])| == |Queue(cs[..d])|
  {
    if d <= c {
      assert cs[c := y][..d] == cs[..d];
    } else {
      assert cs[c := y][..d] == cs[..d][c := y];
      QueueAt(cs[..d], c);
      QueueUpdated(cs[..d], c, y);
    }
  }

  // ----- what can happen -----

  datatype Event =
    | Begins(x: Command)
    | Goes
    | Replied(c: nat, i: nat, m: Message, head: G.Pieces, body: G.Pieces)
    | Writes(len: nat, num: nat)

  predicate Enabled(cs: seq<Command>, e: Event)
    requires AllValid(cs)
  {
    match e
    case Begins(x) => x.Valid() && New(x) && InTurn(cs + [x])
    case Goes => cs != [] && !cs[|cs| - 1].AllHere()
    case Replied(c, i, m, head, body) =>
      c < |cs| && Waits(cs[c], i) && ReplyLaid(cs[c], i, m, head, body)
    case Writes(len, num) => len > 0
  }

  predicate ReplyLaid(x: Command, i: nat, m: Message, head: G.Pieces, body: G.Pieces)
    requires x.Valid() && Waits(x, i)
  {
    AnsweredIsValid(x, i, m);
    Laid(Answered(x, i, m), Sender(x, i), head, body)
  }

  function Next(cs: seq<Command>, e: Event): (r: seq<Command>)
    requires AllValid(cs)
    ensures AllValid(r)
  {
    if !Enabled(cs, e) then cs else
    match e
    case Begins(x) => cs + [x]
    case Goes =>
      var c := |cs| - 1;
      OneMoreHere(cs[c], cs[c].(here := cs[c].here + 1));
      cs[c := cs[c].(here := cs[c].here + 1)]
    case Replied(c, i, m, _, _) =>
      AnsweredIsValid(cs[c], i, m);
      cs[c := Answered(cs[c], i, m)]
    case Writes(_, _) => cs
  }

  /** The commands after a run of events. */
  function Happened(cs: seq<Command>, events: seq<Event>): (r: seq<Command>)
    requires AllValid(cs)
    ensures AllValid(r)
    decreases |events|
  {
    if events == [] then cs else Next(Happened(cs, events[..|events| - 1]), events[|events| - 1])
  }

  /** Commands are only added to. */
  lemma {:induction false} NextGrows(cs: seq<Command>, e: Event)
    requires AllValid(cs) && InTurn(cs)
    ensures InTurn(Next(cs, e)) && Later(cs, Next(cs, e))
  {
    if Enabled(cs, e) && e.Replied? { AnsweredIsValid(cs[e.c], e.i, e.m); }
  }

  lemma {:induction false} RunGrows(cs: seq<Command>, events: seq<Event>)
    requires AllValid(cs) && InTurn(cs)
    ensures InTurn(Happened(cs, events)) && Later(cs, Happened(cs, events))
    decreases |events|
  {
    hide Next, Command.Valid;
    if events != [] {
      var n := |events| - 1;
      var b := Happened(cs, events[..n]);
      RunGrows(cs, events[..n]);
      NextGrows(b, events[n]);
      forall c | 0 <= c < |cs| ensures cs[c].GrowsInto(Next(b, events[n])[c]) {
        assert cs[c].GrowsInto(b[c]) && b[c].GrowsInto(Next(b, events[n])[c]);
      }
    }
  }

  /** Where the requests of command `c` are in the queue, and what the reply changes there. */
  lemma {:induction false} QueueAnswered(cs: seq<Command>, c: nat, i: nat, m: Message)
    requires AllValid(cs) && c < |cs| && Waits(cs[c], i)
    ensures var x, q, at := cs[c], Queue(cs), |Queue(cs[..c])|;
            var y, s := Answered(x, i, m), Sender(x, i);
            && s < x.Size() && y.Valid() && y.Size() == x.Size() && AllValid(cs[c := y])
            && at + i < |q| && at + s < |q| && q[at + i] == q[at + s] == None
            && Queue(cs[c := y]) == (if s == i then q else q[at + i := Some([])])[at + s := y.Final(s)]
  {
    hide Command.Sends, Queue, Command.Final, Command.Done, Command.Valid;
    var x, q := cs[c], Queue(cs);
    var y, s := Answered(x, i, m), Sender(x, i);
    var front, rest := Queue(cs[..c]), Queue(cs[c + 1..]);
    QueueAt(cs, c);
    SendsAfter(x, i, m);
    QueueUpdated(cs, c, y);
    WaitsNotDone(x, i);
    SendsAt(x, i);
    SendsAt(x, s);
    NotDoneNone(x, i);
    NotDoneNone(x, s);
    var sends := if s == i then x.Sends() else x.Sends()[i := Some([])];
    UpdateInside(front, x.Sends(), rest, i, Some([]));
    UpdateInside(front, sends, rest, s, y.Final(s));
    assert q[|front| + i] == x.Sends()[i] && q[|front| + s] == x.Sends()[s];
  }

  lemma {:induction false} NotDoneNone(x: Command, i: nat)
    requires x.Valid() && i < x.Size() && !x.Done(i)
    ensures x.Final(i) == None
  {
  }

  lemma {:induction false} KeepsTurn(cs: seq<Command>, c: nat, i: nat, m: Message)
    requires InTurn(cs) && c < |cs|
    ensures InTurn(cs[c := Answered(cs[c], i, m)])
  {
  }

  lemma {:induction false} StartsStay(cs: seq<Command>, c: nat, y: Command, starts: seq<nat>)
    requires AllValid(cs) && c < |cs| && y.Valid() && y.Size() == cs[c].Size() && |starts| == |cs|
    requires forall d :: 0 <= d < |cs| ==> starts[d] == |Queue(cs[..d])|
    ensures AllValid(cs[c := y]) && forall d :: 0 <= d < |cs| ==> starts[d] == |Queue(cs[c := y][..d])|
  {
    hide Command.Valid, Queue;
    forall d | 0 <= d < |cs| ensures starts[d] == |Queue(cs[c := y][..d])| {
      SameStarts(cs, c, y, d);
    }
  }

  class Client {
    const conn: A.AcceptConnection
    var commands: seq<Command>
    /** The number of the first request of each command. */
    var starts: seq<nat>

    ghost predicate Valid()
      reads this, conn
    {
      && conn.Valid() && AllValid(commands) && InTurn(commands) && conn.finals == Queue(commands)
      && |starts| == |commands| && forall c :: 0 <= c < |commands| ==> starts[c] == |Queue(commands[..c])|
    }

    /** All that can be sent has been. */
    ghost predicate NothingLeft()
      reads this, conn
    {
      A.Left(A.DonePart(conn.requests)) == []
    }

    constructor ()
      ensures Valid() && fresh(conn) && commands == [] && conn.wire == []
    {
      commands, starts := [], [];
      conn := new A.AcceptConnection();
    }

    /** A command begins, in one request or with its first part. */
    method Arrive(x: Command)
      requires Valid() && InTurn(commands + [x])
      requires x.Valid() && New(x)
      modifies this`commands, this`starts, conn
      ensures Valid() && commands == old(commands) + [x] && conn.wire == old(conn.wire)
    {
      hide Command.Sends, Queue, A.AcceptConnection.Valid;
      QueueSnoc(commands, x);
      NewIsNotDone(x);
      var id := conn.Append();
      assert commands[..|commands|] == commands;
      forall c | 0 <= c < |commands| ensures (commands + [x])[..c] == commands[..c] {}
      commands, starts := commands + [x], starts + [id];
      assert commands[..|commands| - 1] == old(commands);
    }

    /** The next part of the last command. */
    method NextPart()
      requires Valid() && commands != [] && !commands[|commands| - 1].AllHere()
      modifies this`commands, conn
      ensures var c := |old(commands)| - 1; var x := old(commands)[c];
              commands == old(commands)[c := x.(here := x.here + 1)]
      ensures Valid() && conn.wire == old(conn.wire)
    {
      hide Command.Sends, Queue, A.AcceptConnection.Valid;
      var c := |commands| - 1;
      var x := commands[c];
      var y := x.(here := x.here + 1);
      OneMoreHere(x, y);
      QueueAt(commands, c);
      QueueUpdated(commands, c, y);
      assert commands[c + 1..] == [];
      NothingQueued();
      var id := conn.Append();
      hide AllValid, InTurn;
      LastUpdated(commands, y);
      commands := commands[c := y];
    }

    /** Request `id` is done, and if `done` so is request `other`, which may be the same, with its reply. */
    method FinishBoth(id: nat, other: nat, done: bool, head: G.Pieces, body: G.Pieces) returns (wake: bool)
      requires conn.Valid() && id < |conn.finals| && other < |conn.finals|
      requires conn.finals[id] == None && conn.finals[other] == None
      requires done ==> G.EndsFull(head) && G.EndsFull(body)
      modifies conn`requests, conn`finals
      ensures conn.Valid() && (wake <==> A.DonePart(conn.requests) != [])
      ensures conn.finals == (if id == other then old(conn.finals) else old(conn.finals)[id := Some([])])
                             [other := if done then Some(G.Flat(head) + G.Flat(body)) else None]
    {
      hide A.AcceptConnection.Valid;
      assert G.Flat([]) + G.Flat([]) == [];
      A.NotFinalYet(conn, id);
      if id != other { conn.Finish(id, None); }
      if done {
        A.NotFinalYet(conn, other);
        conn.Finish(other, Some(G.Message(other, head, body)));
      }
      wake := conn.Send();
    }

    /** The reply to request `i` of command `c`: the group takes it in, and the requests that are done by it are
        final. The writer is woken exactly if there is something it can take out of the queue. */
    method Deliver(c: nat, i: nat, m: Message, head: G.Pieces, body: G.Pieces) returns (wake: bool)
      requires Valid() && c < |commands| && Waits(commands[c], i)
      requires Answered(commands[c], i, m).Valid()
      requires Laid(Answered(commands[c], i, m), Sender(commands[c], i), head, body)
      modifies this`commands, conn`requests, conn`finals
      ensures Valid() && commands == old(commands)[c := Answered(old(commands)[c], i, m)]
      ensures wake <==> A.DonePart(conn.requests) != []
    {
      hide Command.Sends, Queue, A.AcceptConnection.Valid, Command.Valid, Command.Done, Command.Reply;
      hide InTurn, AllValid, Waits;
      var x := commands[c];
      var y, s := Answered(x, i, m), Sender(x, i);
      QueueAnswered(commands, c, i, m);
      KeepsTurn(commands, c, i, m);
      wake := FinishBoth(starts[c] + i, starts[c] + s, y.Done(s), head, body);
      StartsStay(commands, c, y, starts);
      commands := commands[c := y];
    }

    /** One round of `writeEvent`: `fill`, and `write` of which the socket takes up to `num` bytes. */
    method WriteEvent(len: nat, num: nat)
      requires Valid() && len > 0
      modifies conn`requests, conn`touched, conn`wire
      ensures Valid() && old(conn.wire) <= conn.wire && conn.finals == old(conn.finals)
    {
      hide Command.Sends, Queue, A.AcceptConnection.Valid, A.Listed, A.KeptBut;
      var vecs := conn.Fill(len);
      var all := G.VecBytes(vecs);
      ghost var k, h;
      var finished;
      finished, k, h := conn.Write(vecs, if num < |all| then num else |all|, len);
    }

    /** Any interleaving of all of these; what cannot happen when it is its turn does not. */
    method Serve(events: seq<Event>)
      requires Valid()
      modifies this`commands, this`starts, conn
      ensures Valid() && commands == Happened(old(commands), events) && old(conn.wire) <= conn.wire
    {
      hide A.AcceptConnection.Valid, Queue, Command.Valid, Laid, Waits;
      for k := 0 to |events|
        invariant Valid() && commands == Happened(old(commands), events[..k]) && old(conn.wire) <= conn.wire
      {
        assert events[..k + 1][..k] == events[..k];
        if Enabled(commands, events[k]) {
          match events[k] {
            case Begins(x) => Arrive(x);
            case Goes => NextPart();
            case Replied(c, i, m, head, body) =>
              AnsweredIsValid(commands[c], i, m);
              var wake := Deliver(c, i, m, head, body);
            case Writes(len, num) => WriteEvent(len, num);
          }
        }
      }
      assert events[..|events|] == events;
    }
  }

  // ----- what the client has got -----

  /** The requests in the queue are the last ones: each is done exactly if its group says so, and while nothing
      of it has been written it holds what the group holds for it. */
  lemma {:induction false} ItemIsPart(cl: Client, c: nat, i: nat)
    requires cl.Valid() && c < |cl.commands| && i < cl.commands[c].Size()
    requires cl.starts[c] + i >= |cl.conn.finals| - |cl.conn.requests|
    ensures var j := cl.starts[c] + i - (|cl.conn.finals| - |cl.conn.requests|);
            && 0 <= j < |cl.conn.requests| && cl.conn.requests[j].id == cl.starts[c] + i
            && (cl.conn.requests[j].done <==> cl.commands[c].Done(i))
            && (j >= cl.conn.touched && cl.commands[c].Done(i) ==>
                  cl.conn.requests[j].Left() == WireOf(cl.commands[c].Reply(i)))
  {
    hide A.AcceptConnection.Valid, Command.Sends, Queue;
    var at := cl.starts[c];
    QueueAt(cl.commands, c);
    SendsAt(cl.commands[c], i);
    assert cl.conn.finals[at + i] == cl.commands[c].Sends()[i];
    A.DoneIsFinal(cl.conn, at + i);
  }

  lemma {:induction false} ClientIsInTurn(cl: Client)
    requires cl.Valid()
    ensures AllValid(cl.commands) && InTurn(cl.commands)
  {
  }

  /** Whatever has happened in whatever order, and whatever happens later: the client has got the beginning of
      the answers to its commands in their order. */
  lemma {:induction false} ClientGetsAnswers(cl: Client, later: seq<Command>)
    requires cl.Valid() && Later(cl.commands, later)
    ensures cl.conn.wire <= Stream(later)
  {
    A.ClientGetsRepliesInOrder(cl.conn);
    QueueIsPrefix(cl.commands, later);
  }

  /** Nothing behind a request that is not done has been sent. */
  lemma {:induction false} NothingBehind(cl: Client, later: seq<Command>, c: nat, i: nat)
    requires cl.Valid() && Later(cl.commands, later) && c < |cl.commands| && i < cl.commands[c].Size()
    requires !cl.commands[c].Done(i)
    ensures i < later[c].Size() && cl.conn.wire <= Stream(later[..c]) + later[c].FirstBytes(i)
  {
    A.ClientGetsRepliesInOrder(cl.conn);
    assert cl.commands[c].GrowsInto(later[c]);
    HeldBack(cl.commands, later, c, i);
  }

  /** But for MGET, no byte of a command, nor of any behind it, is sent before all its parts are answered. */
  lemma {:induction false} NoByteBeforeLastPart(cl: Client, later: seq<Command>, c: nat)
    requires cl.Valid() && Later(cl.commands, later) && c < |cl.commands|
    requires var x := cl.commands[c]; x.Parts? && x.cmd != Mget && |x.arrivals| < x.n
    ensures cl.conn.wire <= Stream(later[..c])
  {
    var x := cl.commands[c];
    LeaderHoldsAll(x.cmd, x.n, x.arrivals);
    NothingBehind(cl, later, c, 0);
    NoFirstBytes(later[c]);
  }

  lemma {:induction false} NoFirstBytes(x: Command)
    requires x.Valid()
    ensures x.FirstBytes(0) == []
  {
  }

  lemma {:induction false} CompleteIsDone(x: Command)
    requires x.Valid() && x.Complete()
    ensures AllSome(x.Sends()) && x.AllHere()
  {
    hide DeliverAll;
    if x.Parts? {
      PartsCount(x.arrivals, x.n);
      SameSize(PartsOf(x.arrivals), Below(x.n));
      if x.cmd != Mget { LeaderHoldsAll(x.cmd, x.n, x.arrivals); }
      forall i | 0 <= i < x.n ensures x.Final(i).Some? { DoneParts(x.cmd, x.n, x.arrivals, i); }
    }
  }

  lemma {:induction false} SameSize(a: set<nat>, b: set<nat>)
    requires a <= b && |a| == |b|
    ensures a == b
  {
    if x :| x in b && x !in a { Fewer(a, b - {x}); }
  }

  lemma {:induction false} AllAreDone(cs: seq<Command>)
    requires AllValid(cs) && forall c :: 0 <= c < |cs| ==> cs[c].Complete()
    ensures AllSome(Queue(cs)) && forall c :: 0 <= c < |cs| ==> cs[c].AllHere()
  {
    hide Command.Sends, Command.Complete, Command.AllHere;
    if cs != [] {
      CompleteIsDone(cs[0]);
      AllAreDone(cs[1..]);
      forall c | 0 <= c < |cs| ensures cs[c].AllHere() { CompleteIsDone(cs[c]); }
    }
  }

  /** When all has been answered and nothing is left to write, the client has got the answers in full. */
  lemma {:induction false} AllIsSent(cl: Client)
    requires cl.Valid() && forall c :: 0 <= c < |cl.commands| ==> cl.commands[c].Complete()
    requires cl.NothingLeft()
    ensures cl.conn.wire == Stream(cl.commands)
  {
    A.ClientGetsRepliesInOrder(cl.conn);
    AllAreDone(cl.commands);
    QueueIsPrefix(cl.commands, cl.commands);
    assert cl.commands[..|cl.commands|] == cl.commands;
  }
}
