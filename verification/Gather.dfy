/** Scatter-gather output. A message is what is left of its segments, buffer by buffer; filling lists the
    pieces of the queued messages, and writing takes bytes off them (src/Request.cpp and src/Response.cpp
    `fill`, src/ConnectConnection.cpp and src/AcceptConnection.cpp `fill`, `write`). */
module Gather {
  import opened Bytes

  /** What is left of a segment: the bytes of one buffer each. There are none of a buffer that the segment only
      begins at the end of; the last piece has bytes. */
  type Pieces = seq<string>

  predicate EndsFull(ps: Pieces) {
    ps == [] || ps[|ps| - 1] != []
  }

  function Flat(ps: Pieces): string {
    if ps == [] then [] else ps[0] + Flat(ps[1..])
  }

  /** `Segment::use` on what is left. */
  function Drop(ps: Pieces, n: nat): Pieces
    decreases |ps|
  {
    if ps == [] || n == 0 then ps
    else if n < |ps[0]| then [ps[0][n..]] + ps[1..]
    else Drop(ps[1..], n - |ps[0]|)
  }

  lemma {:induction false} FlatCons(x: string, ps: Pieces)
    ensures Flat([x] + ps) == x + Flat(ps)
  {
    assert ([x] + ps)[1..] == ps;
  }

  lemma {:induction false} DropPiece(ps: Pieces)
    requires ps != []
    ensures Drop(ps, |ps[0]|) == if ps[0] == [] then ps else ps[1..]
  {
    var rest := ps[1..];
    assert Drop(rest, 0) == rest;
  }

  lemma {:induction false} FlatHasBytes(ps: Pieces)
    requires ps != [] && EndsFull(ps)
    ensures Flat(ps) != []
  {
    if |ps| > 1 { FlatHasBytes(ps[1..]); }
  }

  /** A request or reply in a queue: what is left of its head and of its body. */
  datatype Message = Message(id: nat, head: Pieces, body: Pieces) {
    predicate Sound() { EndsFull(head) && EndsFull(body) }

    /** Nothing is left, or there never was anything. */
    predicate Spent() { head == [] && body == [] }

    /** The last byte is in the head. */
    predicate EndsInHead() { head != [] && body == [] }

    function Bytes(): string { Flat(head) + Flat(body) }

    function Size(): nat { |head| + |body| }
  }

  type Queue = seq<Message>

  predicate AllSound(q: Queue) {
    forall i :: 0 <= i < |q| ==> q[i].Sound()
  }

  function QueueBytes(q: Queue): string {
    if q == [] then [] else q[0].Bytes() + QueueBytes(q[1..])
  }

  /** How many pieces there are. */
  function Pieced(q: Queue): nat {
    if q == [] then 0 else q[0].Size() + Pieced(q[1..])
  }

  datatype Which = Head | Body

  /** An `IOVec`: the first of the pieces `at`, of the given segment of message `id`. `last` is set when it
      ends the message. */
  datatype Vec = Vec(id: nat, seg: Which, at: Pieces, last: bool)

  /** `Segment::fill` */
  function FillSegment(id: nat, seg: Which, ps: Pieces, len: nat): (vs: seq<Vec>)
    ensures |vs| == if |ps| < len then |ps| else len
  {
    if ps == [] || len == 0 then [] else [Vec(id, seg, ps, false)] + FillSegment(id, seg, ps[1..], len - 1)
  }

  /** Whether `Segment::fill` got to the end of the segment. */
  predicate FilledAll(ps: Pieces, len: nat) {
    0 < len && |ps| <= len
  }

  /** `Request::fill` and `Response::fill` */
  function FillMessage(m: Message, len: nat): (vs: seq<Vec>)
    ensures |vs| <= len
  {
    var hs := FillSegment(m.id, Head, m.head, len);
    if !FilledAll(m.head, len) then hs else
    var vs := hs + FillSegment(m.id, Body, m.body, len - |hs|);
    if vs != [] && FilledAll(m.body, len - |hs|) then vs[|vs| - 1 := vs[|vs| - 1].(last := true)] else vs
  }

  lemma {:induction false} SegmentMarksNothing(id: nat, seg: Which, ps: Pieces, len: nat)
    ensures forall v :: v in FillSegment(id, seg, ps, len) ==> !v.last
  {
    if ps != [] && len > 0 { SegmentMarksNothing(id, seg, ps[1..], len - 1); }
  }

  /** The end of a message is marked exactly if all its pieces are listed; but if it ends in its head, there has to
      be room for one more vector. */
  lemma {:induction false} EndIsMarked(m: Message, len: nat)
    ensures var vs := FillMessage(m, len);
            vs != [] && vs[|vs| - 1].last
            <==> if m.body != [] then |m.head| + |m.body| <= len else 0 < |m.head| < len
  {
    var hs := FillSegment(m.id, Head, m.head, len);
    SegmentMarksNothing(m.id, Head, m.head, len);
    SegmentMarksNothing(m.id, Body, m.body, len - |hs|);
    var bs := FillSegment(m.id, Body, m.body, len - |hs|);
    assert hs != [] ==> hs[|hs| - 1] in hs;
    assert bs != [] ==> bs[|bs| - 1] in bs;
  }

  /** The pieces of the whole queue, up to `len` of them. */
  function FillQueue(q: Queue, len: nat): (vs: seq<Vec>)
    ensures |vs| <= len
  {
    if q == [] || len == 0 then [] else
    var vs := FillMessage(q[0], len);
    vs + FillQueue(q[1..], len - |vs|)
  }

  /** The bytes the vectors cover. */
  function VecBytes(vs: seq<Vec>): string {
    if vs == [] then [] else (if vs[0].at == [] then [] else vs[0].at[0]) + VecBytes(vs[1..])
  }

  /** `vec->seg->seek(vec->buf, vec->pos, n)` */
  function Seek(m: Message, v: Vec, n: nat): Message {
    if v.seg == Head then m.(head := Drop(v.at, n)) else m.(body := Drop(v.at, n))
  }

  // ----- filling lists a prefix of all pieces -----

  /** All pieces of a segment; the last is marked if the message ends with it. */
  function SegmentVecs(id: nat, seg: Which, ps: Pieces, ends: bool): (vs: seq<Vec>)
    ensures |vs| == |ps|
  {
    if ps == [] then [] else [Vec(id, seg, ps, ends && |ps| == 1)] + SegmentVecs(id, seg, ps[1..], ends)
  }

  function MessageVecs(m: Message): (vs: seq<Vec>)
    ensures |vs| == m.Size()
  {
    SegmentVecs(m.id, Head, m.head, m.body == []) + SegmentVecs(m.id, Body, m.body, true)
  }

  /** All pieces of a queue. */
  function AllVecs(q: Queue): (vs: seq<Vec>)
    ensures |vs| == Pieced(q)
  {
    if q == [] then [] else MessageVecs(q[0]) + AllVecs(q[1..])
  }

  /** A message that ends in its head is not marked when its last piece is vector `len`. */
  function Marked(v: Vec, len: nat): Vec {
    if len == 1 && v.seg == Head then v.(last := false) else v
  }

  /** The first `len` vectors, the last of them as it is marked when there is no room for another. */
  function Fit(vs: seq<Vec>, len: nat): (r: seq<Vec>)
    ensures |r| == if |vs| < len then |vs| else len
  {
    if vs == [] || len == 0 then [] else [Marked(vs[0], len)] + Fit(vs[1..], len - 1)
  }

  lemma {:induction false} FitAt(vs: seq<Vec>, len: nat, i: nat)
    requires i < |vs| && i < len
    ensures Fit(vs, len)[i] == Marked(vs[i], len - i)
  {
    if i > 0 { FitAt(vs[1..], len - 1, i - 1); }
  }

  lemma {:induction false} FitCons(v: Vec, vs: seq<Vec>, len: nat)
    requires len > 0
    ensures Fit([v] + vs, len) == [Marked(v, len)] + Fit(vs, len - 1)
  {
    assert ([v] + vs)[1..] == vs;
  }

  lemma {:induction false} FitNothing(vs: seq<Vec>, len: nat)
    requires vs == [] || len == 0
    ensures Fit(vs, len) == []
  {
  }

  lemma {:induction false} FitConcat(a: seq<Vec>, b: seq<Vec>, len: nat)
    ensures |a| < len ==> Fit(a + b, len) == a + Fit(b, len - |a|)
    ensures |a| >= len ==> Fit(a + b, len) == Fit(a, len)
  {
    hide Fit, Marked;
    if len == 0 {
      FitNothing(a + b, 0);
      FitNothing(a, 0);
    } else if a == [] {
      assert a + b == b && [] + Fit(b, len) == Fit(b, len);
    } else {
      FitConcat(a[1..], b, len - 1);
      FitConcatStep(a, b, len);
    }
  }

  lemma {:induction false} FitConcatStep(a: seq<Vec>, b: seq<Vec>, len: nat)
    requires a != [] && len > 0
    requires |a| < len ==> Fit(a[1..] + b, len - 1) == a[1..] + Fit(b, len - |a|)
    requires |a| >= len ==> Fit(a[1..] + b, len - 1) == Fit(a[1..], len - 1)
    ensures |a| < len ==> Fit(a + b, len) == a + Fit(b, len - |a|)
    ensures |a| >= len ==> Fit(a + b, len) == Fit(a, len)
  {
    hide Fit;
    var v, rest := a[0], a[1..];
    assert a + b == [v] + (rest + b) && a == [v] + rest;
    FitCons(v, rest + b, len);
    FitCons(v, rest, len);
    if |a| < len { Assoc([v], rest, Fit(b, len - |a|)); }
  }

  lemma {:induction false} FitAll(vs: seq<Vec>, len: nat)
    requires |vs| < len
    ensures Fit(vs, len) == vs
  {
    hide Fit;
    FitConcat(vs, [], len);
    FitNothing([], len - |vs|);
    assert vs + [] == vs;
  }

  lemma {:induction false} FillHead(id: nat, ps: Pieces, ends: bool, len: nat)
    requires ends ==> |ps| >= len
    ensures FillSegment(id, Head, ps, len) == Fit(SegmentVecs(id, Head, ps, ends), len)
    decreases |ps|
  {
    if ps != [] && len > 0 {
      FillHead(id, ps[1..], ends, len - 1);
      FitCons(Vec(id, Head, ps, ends && |ps| == 1), SegmentVecs(id, Head, ps[1..], ends), len);
      hide Fit;
    } else {
      FitNothing(SegmentVecs(id, Head, ps, ends), len);
    }
  }

  /** The vectors of a segment; the last is marked when all fit. */
  function FillToEnd(id: nat, seg: Which, ps: Pieces, len: nat): seq<Vec> {
    var vs := FillSegment(id, seg, ps, len);
    if vs != [] && FilledAll(ps, len) then vs[|vs| - 1 := vs[|vs| - 1].(last := true)] else vs
  }

  lemma {:induction false} FillToEndCons(id: nat, seg: Which, ps: Pieces, len: nat)
    requires ps != [] && len > 0
    ensures FillToEnd(id, seg, ps, len) == [Vec(id, seg, ps, |ps| == 1)] + FillToEnd(id, seg, ps[1..], len - 1)
  {
    var rest := FillSegment(id, seg, ps[1..], len - 1);
    assert FillSegment(id, seg, ps, len) == [Vec(id, seg, ps, false)] + rest;
  }

  lemma {:induction false} FillToEndFits(id: nat, seg: Which, ps: Pieces, len: nat)
    requires seg == Head ==> |ps| < len
    ensures FillToEnd(id, seg, ps, len) == Fit(SegmentVecs(id, seg, ps, true), len)
    decreases |ps|
  {
    hide Fit, FillToEnd, FillSegment;
    if ps != [] && len > 0 {
      FillToEndCons(id, seg, ps, len);
      FillToEndFits(id, seg, ps[1..], len - 1);
      FitCons(Vec(id, seg, ps, |ps| == 1), SegmentVecs(id, seg, ps[1..], true), len);
    } else {
      NothingToFill(id, seg, ps, len);
    }
  }

  lemma {:induction false} NothingToFill(id: nat, seg: Which, ps: Pieces, len: nat)
    requires ps == [] || len == 0
    ensures FillToEnd(id, seg, ps, len) == Fit(SegmentVecs(id, seg, ps, true), len)
  {
  }

  lemma {:induction false} FillMessageFits(m: Message, len: nat)
    ensures FillMessage(m, len) == Fit(MessageVecs(m), len)
  {
    hide Fit;
    var h, b := SegmentVecs(m.id, Head, m.head, m.body == []), SegmentVecs(m.id, Body, m.body, true);
    FitConcat(h, b, len);
    if |m.head| >= len {
      FillHead(m.id, m.head, m.body == [], len);
      HeadOnly(m, len);
    } else if m.body == [] {
      FillToEndFits(m.id, Head, m.head, len);
      FitNothing(b, len - |m.head|);
      NoBody(m, len);
      FitAll(h, len);
      assert h + [] == h;
    } else {
      FillHead(m.id, m.head, false, len);
      FitAll(h, len);
      FillToEndFits(m.id, Body, m.body, len - |m.head|);
      HeadAndBody(m, len);
    }
  }

  lemma {:induction false} HeadOnly(m: Message, len: nat)
    requires |m.head| >= len
    ensures FillMessage(m, len) == FillSegment(m.id, Head, m.head, len)
  {
    var hs := FillSegment(m.id, Head, m.head, len);
    assert hs + [] == hs;
  }

  lemma {:induction false} NoBody(m: Message, len: nat)
    requires |m.head| < len && m.body == []
    ensures FillMessage(m, len) == FillToEnd(m.id, Head, m.head, len)
  {
    var hs := FillSegment(m.id, Head, m.head, len);
    assert hs + [] == hs;
  }

  lemma {:induction false} HeadAndBody(m: Message, len: nat)
    requires |m.head| < len && m.body != []
    ensures FillMessage(m, len)
         == FillSegment(m.id, Head, m.head, len) + FillToEnd(m.id, Body, m.body, len - |m.head|)
  {
  }

  /** Filling lists the first `len` of all pieces of the queue, in order. */
  lemma {:induction false} FillQueueFits(q: Queue, len: nat)
    ensures FillQueue(q, len) == Fit(AllVecs(q), len)
    decreases |q|
  {
    hide FillMessage, Fit, MessageVecs;
    if q == [] || len == 0 {
      FitNothing(AllVecs(q), len);
    } else {
      FillMessageFits(q[0], len);
      FitConcat(MessageVecs(q[0]), AllVecs(q[1..]), len);
      FillQueueFits(q[1..], len - |FillMessage(q[0], len)|);
      if q[0].Size() >= len {
        FitNothing(AllVecs(q[1..]), 0);
        assert FillMessage(q[0], len) + [] == FillMessage(q[0], len);
      } else {
        FitAll(MessageVecs(q[0]), len);
      }
    }
  }

  lemma {:induction false} FillQueueIsPrefix(q: Queue, len: nat)
    ensures |FillQueue(q, len)| == if Pieced(q) < len then Pieced(q) else len
    ensures forall i :: 0 <= i < |FillQueue(q, len)| ==> FillQueue(q, len)[i] == Marked(AllVecs(q)[i], len - i)
  {
    hide FillQueue, AllVecs, Fit;
    FillQueueFits(q, len);
    forall i | 0 <= i < |FillQueue(q, len)| ensures FillQueue(q, len)[i] == Marked(AllVecs(q)[i], len - i) {
      FitAt(AllVecs(q), len, i);
    }
  }

  // ----- queues in two -----

  lemma {:induction false} NoBytes()
    ensures QueueBytes([]) == [] && AllVecs([]) == [] && Pieced([]) == 0
  {
  }

  lemma {:induction false} QueueCons(q: Queue)
    requires q != []
    ensures QueueBytes(q) == q[0].Bytes() + QueueBytes(q[1..])
    ensures AllVecs(q) == MessageVecs(q[0]) + AllVecs(q[1..])
    ensures Pieced(q) == q[0].Size() + Pieced(q[1..])
  {
  }

  lemma {:induction false} QueueSplit(q: Queue, k: nat)
    requires k <= |q|
    ensures QueueBytes(q) == QueueBytes(q[..k]) + QueueBytes(q[k..])
    ensures AllVecs(q) == AllVecs(q[..k]) + AllVecs(q[k..])
    ensures Pieced(q) == Pieced(q[..k]) + Pieced(q[k..])
  {
    hide QueueBytes, AllVecs, Pieced, MessageVecs, Message.Bytes, Message.Size;
    NoBytes();
    if k == 0 {
      assert q[..0] == [] && q[0..] == q;
    } else {
      QueueSplit(q[1..], k - 1);
      assert q[1..][..k - 1] == q[..k][1..] && q[1..][k - 1..] == q[k..] && q[..k][0] == q[0];
      QueueCons(q);
      QueueCons(q[..k]);
      Assoc(q[0].Bytes(), QueueBytes(q[1..][..k - 1]), QueueBytes(q[k..]));
      Assoc(MessageVecs(q[0]), AllVecs(q[1..][..k - 1]), AllVecs(q[k..]));
    }
  }

  lemma {:induction false} QueueAppend(q: Queue, m: Message)
    ensures QueueBytes(q + [m]) == QueueBytes(q) + m.Bytes()
    ensures Pieced(q + [m]) == Pieced(q) + m.Size()
  {
    hide Message.Bytes, Message.Size, MessageVecs;
    QueueSplit(q + [m], |q|);
    assert (q + [m])[..|q|] == q && (q + [m])[|q|..] == [m];
    QueueCons([m]);
    NoBytes();
  }

  predicate AllSpent(q: Queue) {
    forall i :: 0 <= i < |q| ==> q[i].Spent()
  }

  lemma {:induction false} SpentSaysNothing(q: Queue)
    requires AllSpent(q)
    ensures QueueBytes(q) == [] && AllVecs(q) == [] && Pieced(q) == 0
  {
    if q != [] { SpentSaysNothing(q[1..]); }
  }

  /** Message `f` is the first of which something is left. */
  predicate IsFront(q: Queue, f: nat) {
    f < |q| && AllSpent(q[..f]) && !q[f].Spent()
  }

  lemma {:induction false} FrontOf(q: Queue) returns (f: nat)
    requires AllVecs(q) != []
    ensures IsFront(q, f)
  {
    hide AllVecs, AllSpent, Message.Spent;
    assert AllSpent(q[..0]) by { NoneSpent(); }
    f := FrontFrom(q, 0);
    if f == |q| {
      assert q[..f] == q;
      SpentSaysNothing(q);
    }
  }

  lemma {:induction false} NoneSpent()
    ensures AllSpent([])
  {
  }

  lemma {:induction false} FrontFrom(q: Queue, k: nat) returns (f: nat)
    requires k <= |q| && AllSpent(q[..k])
    ensures k <= f <= |q| && AllSpent(q[..f]) && (f < |q| ==> !q[f].Spent())
    decreases |q| - k
  {
    hide AllSpent, Message.Spent;
    if k < |q| && q[k].Spent() {
      SpentSnoc(q, k);
      f := FrontFrom(q, k + 1);
    } else {
      f := k;
    }
  }

  lemma {:induction false} SpentSnoc(q: Queue, k: nat)
    requires k < |q| && AllSpent(q[..k]) && q[k].Spent()
    ensures AllSpent(q[..k + 1])
  {
    hide Message.Spent;
    var p := q[..k + 1];
    forall i | 0 <= i < |p| ensures p[i].Spent() {
      if i < k { assert q[..k][i] == q[i]; }
    }
  }

  lemma {:induction false} SpentAt(q: Queue, i: nat, k: nat)
    requires i < k <= |q| && AllSpent(q[..k])
    ensures q[i].Spent()
  {
    assert q[..k][i] == q[i];
  }

  lemma {:induction false} FrontSplit(q: Queue, f: nat)
    requires f < |q| && AllSpent(q[..f])
    ensures QueueBytes(q) == q[f].Bytes() + QueueBytes(q[f + 1..])
    ensures AllVecs(q) == MessageVecs(q[f]) + AllVecs(q[f + 1..])
    ensures Pieced(q) == q[f].Size() + Pieced(q[f + 1..])
  {
    hide QueueBytes, AllVecs, Pieced, MessageVecs, Message.Bytes, Message.Size;
    QueueSplit(q, f);
    SpentSaysNothing(q[..f]);
    QueueCons(q[f..]);
    assert q[f..][1..] == q[f + 1..];
    assert [] + QueueBytes(q[f..]) == QueueBytes(q[f..]) && [] + AllVecs(q[f..]) == AllVecs(q[f..]);
  }

  /** What is spent at the front can as well be gone. */
  lemma {:induction false} SpentFront(q: Queue, k: nat)
    requires k <= |q| && AllSpent(q[..k])
    ensures QueueBytes(q) == QueueBytes(q[k..]) && AllVecs(q) == AllVecs(q[k..]) && Pieced(q) == Pieced(q[k..])
  {
    hide QueueBytes, AllVecs, Pieced;
    QueueSplit(q, k);
    SpentSaysNothing(q[..k]);
    assert [] + QueueBytes(q[k..]) == QueueBytes(q[k..]) && [] + AllVecs(q[k..]) == AllVecs(q[k..]);
  }

  // ----- one vector at a time -----

  function FirstVec(m: Message): Vec
    requires !m.Spent()
  {
    if m.head != [] then Vec(m.id, Head, m.head, |m.head| == 1 && m.body == [])
    else Vec(m.id, Body, m.body, |m.body| == 1)
  }

  /** The message without its first piece. */
  function Next(m: Message): Message
    requires !m.Spent()
  {
    if m.head != [] then m.(head := m.head[1..]) else m.(body := m.body[1..])
  }

  lemma {:induction false} VecsOfMessage(m: Message)
    requires !m.Spent()
    ensures MessageVecs(m) == [FirstVec(m)] + MessageVecs(Next(m)) && m.Size() == 1 + Next(m).Size()
  {
    if m.head != [] {
      Assoc([FirstVec(m)], SegmentVecs(m.id, Head, m.head[1..], m.body == []), SegmentVecs(m.id, Body, m.body, true));
    } else {
      var bs := SegmentVecs(m.id, Body, m.body[1..], true);
      assert [] + ([FirstVec(m)] + bs) == [FirstVec(m)] + bs && [] + bs == bs;
    }
  }

  /** The message ends with a vector exactly if it is marked, and that has bytes. */
  lemma {:induction false} NextIs(m: Message)
    requires m.Sound() && !m.Spent()
    ensures FirstVec(m).id == Next(m).id == m.id && FirstVec(m).at != [] && Next(m).Sound()
    ensures m.Bytes() == FirstVec(m).at[0] + Next(m).Bytes()
    ensures FirstVec(m).last <==> Next(m).Spent()
    ensures FirstVec(m).last ==> FirstVec(m).at[0] != [] && (FirstVec(m).seg == Head <==> m.EndsInHead())
  {
    if m.head != [] {
      Assoc(m.head[0], Flat(m.head[1..]), Flat(m.body));
    } else {
      assert [] + Flat(m.body) == Flat(m.body) && [] + Flat(m.body[1..]) == Flat(m.body[1..]);
    }
  }

  /** Writing the first vector in full leaves a queue whose filling is the other vectors. */
  lemma {:induction false} VecByVec(q: Queue, f: nat, len: nat)
    requires AllSound(q) && IsFront(q, f) && len > 0
    ensures var (vs, r) := (FillQueue(q, len), q[f := Next(q[f])]);
            && vs != [] && vs[0] == Marked(FirstVec(q[f]), len) && vs[0].at != [] && AllSound(r)
            && vs[1..] == FillQueue(r, len - 1)
            && QueueBytes(q) == vs[0].at[0] + QueueBytes(r) && Pieced(q) == 1 + Pieced(r)
  {
    hide FillQueue, AllVecs, MessageVecs, FirstVec, Next, QueueBytes, Pieced, Fit, Message.Spent, Message.Bytes;
    hide Message.Sound, Message.Size, AllSpent;
    var m := q[f];
    var r := q[f := Next(m)];
    NextIs(m);
    VecsOfMessage(m);
    FrontSplit(q, f);
    assert r[..f] == q[..f] && r[f + 1..] == q[f + 1..];
    FrontSplit(r, f);
    Assoc([FirstVec(m)], MessageVecs(Next(m)), AllVecs(q[f + 1..]));
    Assoc(FirstVec(m).at[0], Next(m).Bytes(), QueueBytes(q[f + 1..]));
    FillQueueFits(q, len);
    FillQueueFits(r, len - 1);
    FitCons(FirstVec(m), AllVecs(r), len);
  }

  /** Writing only `n` bytes of the first vector. */
  lemma {:induction false} PartOfVec(q: Queue, f: nat, n: nat)
    requires AllSound(q) && IsFront(q, f) && FirstVec(q[f]).at != [] && n < |FirstVec(q[f]).at[0]|
    ensures var r := q[f := Seek(q[f], FirstVec(q[f]), n)];
            && AllSound(r) && IsFront(r, f)
            && QueueBytes(q) == FirstVec(q[f]).at[0][..n] + QueueBytes(r)
  {
    hide AllVecs, MessageVecs, FirstVec, QueueBytes, Pieced, Message.Spent, Message.Bytes, Seek;
    hide Message.Sound, Message.Size, AllSpent;
    var m := q[f];
    var s := Seek(m, FirstVec(m), n);
    var r := q[f := s];
    PartOfMessage(m, n);
    FrontSplit(q, f);
    assert r[..f] == q[..f] && r[f + 1..] == q[f + 1..];
    FrontSplit(r, f);
    Assoc(FirstVec(m).at[0][..n], s.Bytes(), QueueBytes(q[f + 1..]));
  }

  lemma {:induction false} PartOfMessage(m: Message, n: nat)
    requires m.Sound() && !m.Spent() && FirstVec(m).at != [] && n < |FirstVec(m).at[0]|
    ensures var s := Seek(m, FirstVec(m), n);
            && s.Sound() && !s.Spent() && s.id == m.id
            && (s.head != [] <==> m.head != []) && (s.body != [] <==> m.body != [])
            && m.Bytes() == FirstVec(m).at[0][..n] + s.Bytes()
  {
    var ps := FirstVec(m).at;
    DropPart(ps, n);
    hide Drop;
    if m.head != [] {
      Assoc(ps[0][..n], Flat(Drop(ps, n)), Flat(m.body));
    } else {
      assert [] + Flat(m.body) == Flat(m.body) && [] + Flat(Drop(ps, n)) == Flat(Drop(ps, n));
    }
  }

  lemma {:induction false} DropPart(ps: Pieces, n: nat)
    requires EndsFull(ps) && ps != [] && n < |ps[0]|
    ensures EndsFull(Drop(ps, n)) && Drop(ps, n) != [] && Flat(ps) == ps[0][..n] + Flat(Drop(ps, n))
  {
    if n == 0 {
      assert [] + Flat(ps) == Flat(ps) && ps[0][..0] == [];
    } else {
      FlatCons(ps[0][n..], ps[1..]);
      assert ps[0] == ps[0][..n] + ps[0][n..];
      Assoc(ps[0][..n], ps[0][n..], Flat(ps[1..]));
    }
  }

  /** Writing all of the first vector. */
  lemma {:induction false} SeekIsNext(m: Message)
    requires !m.Spent() && FirstVec(m).at != []
    ensures Seek(m, FirstVec(m), |FirstVec(m).at[0]|) == if FirstVec(m).at[0] == [] then m else Next(m)
  {
    DropPiece(FirstVec(m).at);
  }

  // ----- pieces without bytes -----

  function Trim(ps: Pieces): Pieces {
    if ps != [] && ps[0] == [] then Trim(ps[1..]) else ps
  }

  /** `a` is `b`, but the segment that is next to be written may begin with more pieces without bytes: seeking past
      such a piece leaves the cursor in front of it. */
  predicate Close(a: Message, b: Message) {
    && a.id == b.id && a.Sound()
    && if b.head != [] then a.head != [] && Trim(a.head) == Trim(b.head) && a.body == b.body
       else a.head == [] && Trim(a.body) == Trim(b.body)
  }

  /** The same but for message `h`, which is close. */
  predicate Loose(q: Queue, to: Queue, h: nat) {
    && |q| == |to| && (forall i :: 0 <= i < |q| && i != h ==> q[i] == to[i])
    && (h < |q| ==> Close(q[h], to[h]))
  }

  lemma {:induction false} TrimIsFlat(ps: Pieces)
    ensures Flat(Trim(ps)) == Flat(ps)
  {
    if ps != [] && ps[0] == [] { TrimIsFlat(ps[1..]); }
  }

  lemma {:induction false} TrimNothing(ps: Pieces)
    requires EndsFull(ps) && Trim(ps) == []
    ensures ps == []
  {
    if ps != [] && ps[0] == [] { TrimNothing(ps[1..]); }
  }

  lemma {:induction false} CloseIs(a: Message, b: Message)
    requires Close(a, b) && b.Sound()
    ensures a.Bytes() == b.Bytes() && a.id == b.id && (a.Spent() <==> b.Spent()) && (b.Spent() ==> a == b)
    ensures (a.head != [] <==> b.head != []) && (a.body != [] <==> b.body != [])
  {
    hide Trim, Flat;
    NothingToTrim();
    TrimIsFlat(a.head);
    TrimIsFlat(b.head);
    TrimIsFlat(a.body);
    TrimIsFlat(b.body);
    if b.head == [] && Trim(a.body) == [] {
      TrimNothing(a.body);
      TrimNothing(b.body);
    }
  }

  lemma {:induction false} NothingToTrim()
    ensures Trim([]) == []
  {
  }

  lemma {:induction false} SameIsClose(m: Message)
    requires m.Sound()
    ensures Close(m, m)
  {
    hide Trim;
  }

  /** A vector says where to seek in its segment, whatever the cursor was. */
  lemma {:induction false} CloseSeek(a: Message, b: Message, n: nat)
    requires Close(a, b) && !b.Spent()
    ensures Seek(a, FirstVec(b), n) == Seek(b, FirstVec(b), n)
  {
    hide Trim, Drop;
  }

  /** Seeking past the whole of the first vector leads to a message close to what is left. */
  lemma {:induction false} SeekIsClose(m: Message)
    requires m.Sound() && !m.Spent() && FirstVec(m).at != []
    ensures Close(Seek(m, FirstVec(m), |FirstVec(m).at[0]|), Next(m))
  {
    SeekIsNext(m);
    NextIs(m);
    SameIsClose(Next(m));
    if FirstVec(m).at[0] == [] { EmptyFirst(m); }
  }

  lemma {:induction false} EmptyFirst(m: Message)
    requires m.Sound() && !m.Spent() && FirstVec(m).at != [] && FirstVec(m).at[0] == []
    ensures Close(m, Next(m))
  {
    if m.head != [] {
      assert Trim(m.head) == Trim(m.head[1..]) && m.head[1..] != [];
    } else {
      assert Trim(m.body) == Trim(m.body[1..]);
    }
  }

  // ----- what is covered -----

  lemma {:induction false} NoVecBytes()
    ensures VecBytes([]) == []
  {
  }

  lemma {:induction false} VecBytesCons(vs: seq<Vec>)
    requires vs != [] && vs[0].at != []
    ensures VecBytes(vs) == vs[0].at[0] + VecBytes(vs[1..])
  {
  }

  /** The last of the vectors has bytes. */
  predicate EndsWithBytes(vs: seq<Vec>) {
    vs == [] || (vs[|vs| - 1].at != [] && vs[|vs| - 1].at[0] != [])
  }

  lemma {:induction false} SomethingCovered(vs: seq<Vec>, i: nat)
    requires i < |vs| && EndsWithBytes(vs)
    ensures VecBytes(vs[i..]) != []
    decreases |vs| - i
  {
    if i + 1 < |vs| {
      SomethingCovered(vs, i + 1);
      assert vs[i..][1..] == vs[i + 1..];
    }
  }

  lemma {:induction false} VecBytesConcat(a: seq<Vec>, b: seq<Vec>)
    requires forall i :: 0 <= i < |a| ==> a[i].at != []
    ensures VecBytes(a + b) == VecBytes(a) + VecBytes(b)
  {
    if a == [] {
      assert a + b == b && [] + VecBytes(b) == VecBytes(b);
    } else {
      VecBytesConcat(a[1..], b);
      assert (a + b)[1..] == a[1..] + b;
      Assoc(a[0].at[0], VecBytes(a[1..]), VecBytes(b));
    }
  }

  lemma {:induction false} SegmentCovers(id: nat, seg: Which, ps: Pieces, ends: bool)
    ensures var vs := SegmentVecs(id, seg, ps, ends);
            (forall i :: 0 <= i < |vs| ==> vs[i].at != []) && VecBytes(vs) == Flat(ps)
  {
    if ps != [] { SegmentCovers(id, seg, ps[1..], ends); }
  }

  lemma {:induction false} VecsCover(q: Queue)
    ensures VecBytes(AllVecs(q)) == QueueBytes(q)
  {
    if q != [] {
      var m := q[0];
      var h, b := SegmentVecs(m.id, Head, m.head, m.body == []), SegmentVecs(m.id, Body, m.body, true);
      SegmentCovers(m.id, Head, m.head, m.body == []);
      SegmentCovers(m.id, Body, m.body, true);
      hide SegmentVecs, Flat;
      VecBytesConcat(h, b);
      VecBytesConcat(h + b, AllVecs(q[1..]));
      VecsCover(q[1..]);
    }
  }

  lemma {:induction false} FitCovers(vs: seq<Vec>, len: nat)
    requires |vs| <= len
    ensures VecBytes(Fit(vs, len)) == VecBytes(vs)
  {
    if vs != [] { FitCovers(vs[1..], len - 1); }
  }

  /** With room for all pieces filling covers all bytes. */
  lemma {:induction false} AllCovered(q: Queue, len: nat)
    requires Pieced(q) <= len
    ensures VecBytes(FillQueue(q, len)) == QueueBytes(q)
  {
    hide FillQueue, Fit, AllVecs, QueueBytes, VecBytes;
    FillQueueFits(q, len);
    FitCovers(AllVecs(q), len);
    VecsCover(q);
  }
}
