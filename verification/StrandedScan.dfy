/** A SCAN without options whose cursor the proxy has replaced: all of it is in its head, and when that is the last
    vector that fits, it is sent but does not leave the queue (src/Request.cpp `adjustScanCursor`, `fill`,
    src/ConnectConnection.cpp `write`). */
module StrandedScans {
  import opened Bytes
  import opened Resp
  import opened Scanning
  import opened Gather
  import opened Writing
  import opened ConnectConnections

  /** The request that `adjustScanCursor` leaves, with its head in these pieces. */
  predicate IsScan(m: Message, name: string, text: string, cursor: int, at: Place) {
    && EndsFull(m.head)
    && (Flat(m.head), Flat(m.body)) == AdjustRequest(EncodeCommand([name, text]), |text|, cursor, at)
    && EndsFull(m.body)
  }

  /** Its bytes are the request for the server, and all of them are in the head. */
  lemma {:induction false} ScanEndsInHead(m: Message, name: string, text: string, cursor: int, at: Place)
    requires IsScan(m, name, text, cursor, at) && '$' !in name
    requires at.Across? ==> |Front([name, text])| + 1 + |Decimal(|text|)| < 64
    ensures m.Sound() && m.EndsInHead() && m.Bytes() == EncodeCommand([name, Signed(cursor)])
  {
    hide AdjustRequest, EncodeCommand, Front, Decimal, EncodeBulk, Flat;
    RequestOnlyChangesCursor([name, text], cursor, at);
    assert [name, text][2..] == [] && [name, text][1 := Signed(cursor)] == [name, Signed(cursor)];
    NothingInBody(m);
    HeadHasBytes([name, text], cursor);
  }

  lemma {:induction false} NothingInBody(m: Message)
    requires EndsFull(m.body) && Flat(m.body) == EncodeBulks([])
    ensures m.body == [] && Flat(m.head) + Flat(m.body) == Flat(m.head) && (Flat(m.head) != [] ==> m.head != [])
  {
    if m.body != [] { FlatHasBytes(m.body); }
  }

  lemma {:induction false} HeadHasBytes(args: seq<string>, cursor: int)
    requires |args| >= 2
    ensures Front(args) + EncodeBulk(Signed(cursor)) != []
  {
  }

  /** Behind any requests whose pieces leave just enough room for its own: the scan goes out to its last byte, and
      whatever number of requests leave the queue, it is not among them. */
  lemma {:induction false} ScanIsStranded(front: Queue, m: Message, len: nat, k: nat)
    requires AllSound(front) && m.Sound() && m.EndsInHead() && len == Pieced(front) + m.Size()
    requires LeavesAt(front + [m], k, |QueueBytes(front + [m])|, len)
    ensures VecBytes(FillQueue(front + [m], len)) == QueueBytes(front + [m])
    ensures Strands(front + [m], |front|, |QueueBytes(front + [m])|, len) && k <= |front|
  {
    var q, j := front + [m], |front|;
    assert q[..j + 1] == q;
    QueueAppend(front, m);
    AllCovered(q, len);
  }

  /** From then on no `fill` lists it, whatever stands in front of it and behind. */
  lemma {:induction false} ListedNoMore(front: Queue, m: Message, rest: Queue, len: nat)
    requires m.Spent()
    ensures FillQueue(front + [m] + rest, len) == FillQueue(front + rest, len)
  {
    hide FillQueue, AllVecs, Fit;
    var q, r := front + [m] + rest, front + rest;
    QueueSplit(q, |front|);
    QueueSplit(r, |front|);
    assert q[..|front|] == r[..|front|] == front && q[|front|..] == [m] + rest && r[|front|..] == rest;
    SpentFront([m] + rest, 1);
    assert ([m] + rest)[1..] == rest;
    FillQueueFits(q, len);
    FillQueueFits(r, len);
  }

  /** One more request, and all that is queued goes out in one write of up to `len` vectors. */
  method SendAll(c: ConnectConnection, m: Message, len: nat) returns (empty: seq<nat>, ghost k: nat, ghost h: nat)
    requires c.Valid() && m.Sound() && m.id !in Ids(c.sendRequests) && 0 < len
    requires Pieced(c.sendRequests) + m.Size() <= len
    modifies c`sendRequests, c`sentRequests, c`order, c`texts, c`fates, c`wire
    ensures k + |c.sendRequests| == |old(c.sendRequests)| + 1 && c.Valid() && c.order == old(c.order) + [m.id]
    ensures var q := old(c.sendRequests) + [m];
            && c.wire == old(c.wire) + QueueBytes(q) && LeavesAt(q, k, |QueueBytes(q)|, len)
            && Written(q, k, c.sendRequests, h)
            && c.sentRequests == old(c.sentRequests) + Taken(q, k, true) && empty == Taken(q, k, false)
    ensures AllSound(c.sendRequests) && QueueBytes(c.sendRequests) == []
  {
    hide ConnectConnection.Valid, ConnectConnection.Stranded, Taken, Written, LeavesAt, QueueBytes, FillQueue, VecBytes;
    ghost var q := c.sendRequests + [m];
    QueueAppend(c.sendRequests, m);
    AllCovered(q, len);
    TextIsWire(c);
    c.Send(m);
    TextIsWire(c);
    var vecs := c.Fill(len);
    var finished;
    finished, empty, k, h := c.Write(vecs, |VecBytes(vecs)|, len);
    assert QueueBytes(q)[..|QueueBytes(q)|] == QueueBytes(q);
    TextIsWire(c);
    NoMoreLeave(q, k, c.sendRequests, h);
  }

  lemma {:induction false} NoMoreLeave(was: Queue, k: nat, now: Queue, h: nat)
    requires Written(was, k, now, h)
    ensures k + |now| == |was|
  {
  }

  lemma {:induction false} TextIsWire(c: ConnectConnection)
    requires c.Valid()
    ensures AllSound(c.sendRequests) && Flat(c.texts) == c.wire + QueueBytes(c.sendRequests)
  {
  }

  /** Alone in the queue the scan stays there, with nothing left. */
  lemma {:induction false} AloneItStays(m: Message, k: nat, now: Queue, h: nat)
    requires m.Sound() && m.EndsInHead() && LeavesAt([m], k, |QueueBytes([m])|, m.Size())
    requires Written([m], k, now, h) && AllSound(now) && QueueBytes(now) == []
    ensures k == 0 && now == [Message(m.id, [], [])]
    ensures Taken([m], k, true) == Taken([m], k, false) == []
  {
    hide QueueBytes, Taken, Message.Bytes;
    assert [] + [m] == [m];
    ScanIsStranded([], m, m.Size(), k);
    NothingTaken([m]);
    QueueCons(now);
    if !now[0].Spent() { HasBytes(now[0]); }
  }

  /** Behind it another request leaves, and takes it along. */
  lemma {:induction false} TakesItAlong(id: nat, m: Message, k: nat)
    requires m.Sound() && m.body != []
    requires var q := [Message(id, [], []), m]; LeavesAt(q, k, |QueueBytes(q)|, m.Size() + 1)
    ensures k == 2
    ensures var q := [Message(id, [], []), m]; Taken(q, 2, true) == [m.id] && Taken(q, 2, false) == [id]
  {
    hide QueueBytes, Taken;
    var q := [Message(id, [], []), m];
    assert q[..2] == q && !q[1].Spent();
    assert IsOut(q, 1, |QueueBytes(q)|) && !EndsAt(q, 1, m.Size() + 1);
    NothingTaken(q);
    TakenMore(q, 0, 1);
    assert Ids(q[0..1]) == [id];
  }

  /** A connection on which a scan takes the last vector. */
  method SendScan(scan: Message) returns (c: ConnectConnection)
    requires scan.Sound() && scan.EndsInHead()
    ensures fresh(c) && c.Valid() && c.order == [scan.id] && c.wire == scan.Bytes()
    ensures c.sendRequests == [Message(scan.id, [], [])] && c.sentRequests == [] && c.matched == []
  {
    hide ConnectConnection.Valid, Taken, Written, LeavesAt, QueueBytes, Pieced, Message.Bytes;
    c := new ConnectConnection();
    NoBytes();
    QueueAppend([], scan);
    assert [] + [scan] == [scan];
    ghost var k, h;
    var empty;
    empty, k, h := SendAll(c, scan, scan.Size());
    AloneItStays(scan, k, c.sendRequests, h);
  }

  /** Then another request is sent: all bytes of both go out, but only the other one waits for a reply, and the scan is
      handed back without one. */
  method LoseAScan(scan: Message, other: Message, name: string, text: string, cursor: int, at: Place)
    returns (c: ConnectConnection, empty: seq<nat>)
    requires IsScan(scan, name, text, cursor, at) && '$' !in name
    requires at.Across? ==> |Front([name, text])| + 1 + |Decimal(|text|)| < 64
    requires other.Sound() && other.body != [] && other.id != scan.id
    ensures c.Valid() && c.order == [scan.id, other.id] && c.matched == []
    ensures c.wire == EncodeCommand([name, Signed(cursor)]) + other.Bytes()
    ensures c.sentRequests == [other.id] && c.sendRequests == [] && empty == [scan.id]
  {
    hide ConnectConnection.Valid, Taken, Written, LeavesAt, QueueBytes, IsScan, EncodeCommand, Pieced, Message.Bytes;
    hide Front, Decimal, Signed, EndsFull, Flat;
    ScanEndsInHead(scan, name, text, cursor, at);
    c := SendScan(scan);
    ghost var spent, k, h := Message(scan.id, [], []), 0, 0;
    SpentSaysNothing([spent]);
    QueueAppend([spent], other);
    assert [spent] + [other] == [spent, other];
    empty, k, h := SendAll(c, other, other.Size() + 1);
    TakesItAlong(scan.id, other, k);
  }
}
