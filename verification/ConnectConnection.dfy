/** A connection to a server: requests are written in the order they are sent, and the replies are matched to
    them first in, first out (src/ConnectConnection.cpp). */
module ConnectConnections {
  import opened Bytes
  import opened ResponseMachine
  import opened ResponseParsing
  import opened ReplyStream
  import opened Gather
  import opened Writing

  /** A request and the reply that was given to it. */
  datatype Matched = Matched(id: nat, span: Span)

  function Ids(q: Queue): seq<nat> {
    seq(|q|, i requires 0 <= i < |q| => q[i].id)
  }

  function IdsOf(ms: seq<Matched>): seq<nat> {
    seq(|ms|, i requires 0 <= i < |ms| => ms[i].id)
  }

  function SpansIn(ms: seq<Matched>): seq<Span> {
    seq(|ms|, i requires 0 <= i < |ms| => ms[i].span)
  }

  /** No request is in the queue twice. */
  predicate Distinct(q: Queue) {
    forall i, j :: 0 <= i < j < |q| ==> q[i].id != q[j].id
  }

  lemma {:induction false} DistinctUpdate(q: Queue, f: nat, m: Message)
    requires Distinct(q) && f < |q| && m.id == q[f].id
    ensures Distinct(q[f := m])
  {
  }

  lemma {:induction false} DistinctSnoc(q: Queue, m: Message)
    requires Distinct(q) && m.id !in Ids(q)
    ensures Distinct(q + [m])
  {
    forall i | 0 <= i < |q| ensures q[i].id != m.id { assert Ids(q)[i] == q[i].id; }
  }

  lemma {:induction false} DistinctTail(q: Queue, k: nat)
    requires Distinct(q) && k <= |q|
    ensures Distinct(q[k..])
  {
  }

  lemma {:induction false} PlaceIs(q: Queue, f: nat)
    requires Distinct(q) && f < |q|
    ensures PlaceOf(q, q[f].id) == f
  {
  }

  lemma {:induction false} SeekKeepsId(m: Message, v: Vec, n: nat)
    ensures Seek(m, v, n).id == m.id
  {
  }

  /** The requests that left have had their turn in the order. */
  ghost predicate Placed(order: seq<nat>, texts: seq<string>, fates: seq<bool>, q: Queue) {
    && |order| == |texts| == |fates| + |q| && order[|fates|..] == Ids(q)
    && (forall i :: 0 <= i < |fates| && fates[i] ==> texts[i] != [])
    && forall j :: 0 <= j < |q| && !q[j].Spent() ==> texts[|fates| + j] != []
  }

  ghost predicate IsStranded(texts: seq<string>, fates: seq<bool>, q: Queue, p: nat) {
    && p < |texts| && texts[p] != []
    && (if p < |fates| then !fates[p] else p - |fates| < |q| && q[p - |fates|].Spent())
  }

  lemma {:induction false} FlatSnoc(ts: seq<string>, t: string)
    ensures Flat(ts + [t]) == Flat(ts) + t
  {
    if ts == [] {
      assert Flat([t]) == t + Flat([t][1..]) == t + [];
      assert [] + [t] == [t];
    } else {
      FlatSnoc(ts[1..], t);
      assert (ts + [t])[1..] == ts[1..] + [t];
      Assoc(ts[0], Flat(ts[1..]), t);
    }
  }

  lemma {:induction false} SentOne(order: seq<nat>, texts: seq<string>, fates: seq<bool>, q: Queue, m: Message)
    requires Placed(order, texts, fates, q) && m.Sound()
    ensures Placed(order + [m.id], texts + [m.Bytes()], fates, q + [m])
    ensures (order + [m.id])[..|fates|] == order[..|fates|]
  {
    hide Message.Bytes, Message.Spent;
    if !m.Spent() { HasBytes(m); }
    assert (order + [m.id])[|fates|..] == order[|fates|..] + [m.id];
    assert Ids(q + [m]) == Ids(q) + [m.id];
  }

  /** Where the message is that a vector is a piece of. */
  function PlaceOf(q: Queue, id: nat): (i: nat)
    ensures i <= |q| && (i < |q| ==> q[i].id == id) && forall j :: 0 <= j < i ==> q[j].id != id
  {
    if q == [] || q[0].id == id then 0 else 1 + PlaceOf(q[1..], id)
  }

  /** Those of which something is left. */
  function Somes(q: Queue): (bs: seq<bool>) {
    seq(|q|, i requires 0 <= i < |q| => !q[i].Spent())
  }

  /** The elements of `xs` for which `bs` is `b`. */
  function Chosen<T>(xs: seq<T>, bs: seq<bool>, b: bool): seq<T>
    requires |xs| == |bs|
  {
    if xs == [] then [] else (if bs[0] == b then [xs[0]] else []) + Chosen(xs[1..], bs[1..], b)
  }

  lemma {:induction false} ChosenConcat<T>(xs: seq<T>, bs: seq<bool>, ys: seq<T>, cs: seq<bool>, b: bool)
    requires |xs| == |bs| && |ys| == |cs|
    ensures Chosen(xs + ys, bs + cs, b) == Chosen(xs, bs, b) + Chosen(ys, cs, b)
  {
    if xs == [] {
      assert xs + ys == ys && bs + cs == cs;
    } else {
      ChosenConcat(xs[1..], bs[1..], ys, cs, b);
      assert (xs + ys)[1..] == xs[1..] + ys && (bs + cs)[1..] == bs[1..] + cs;
      Assoc(if bs[0] == b then [xs[0]] else [], Chosen(xs[1..], bs[1..], b), Chosen(ys, cs, b));
    }
  }

  lemma {:induction false} ChosenAll<T>(xs: seq<T>, bs: seq<bool>, b: bool)
    requires |xs| == |bs| && forall i :: 0 <= i < |bs| ==> bs[i] == b
    ensures Chosen(xs, bs, b) == xs && Chosen(xs, bs, !b) == []
  {
    if xs != [] { ChosenAll(xs[1..], bs[1..], b); }
  }

  /** Of the first `k` messages those of which something, or nothing, is left. */
  function Taken(q: Queue, k: nat, some: bool): seq<nat>
    requires k <= |q|
  {
    Chosen(Ids(q[..k]), Somes(q[..k]), some)
  }

  /** The messages from `k` on up to `k + f`: nothing is left of those in front, and something of the last. */
  lemma {:induction false} TakenMore(q: Queue, k: nat, f: nat)
    requires k + f < |q| && !q[k + f].Spent() && forall i :: k <= i < k + f ==> q[i].Spent()
    ensures Taken(q, k + f + 1, true) == Taken(q, k, true) + [q[k + f].id]
    ensures Taken(q, k + f + 1, false) == Taken(q, k, false) + Ids(q[k..k + f])
  {
    var a, s, m := q[..k], q[k..k + f], [q[k + f]];
    assert q[..k + f + 1] == (a + s) + m;
    IdsConcat(a + s, m);
    IdsConcat(a, s);
    ChosenAll(Ids(s), Somes(s), false);
    ChosenAll(Ids(m), Somes(m), true);
    assert Ids(m) == [q[k + f].id];
    hide Chosen, Ids, Somes;
    forall b: bool
      ensures Taken(q, k + f + 1, b) == (Taken(q, k, b) + Chosen(Ids(s), Somes(s), b)) + Chosen(Ids(m), Somes(m), b)
    {
      ChosenConcat(Ids(a) + Ids(s), Somes(a) + Somes(s), Ids(m), Somes(m), b);
      ChosenConcat(Ids(a), Somes(a), Ids(s), Somes(s), b);
    }
  }

  lemma {:induction false} NothingTaken(q: Queue)
    ensures Taken(q, 0, true) == Taken(q, 0, false) == []
  {
    assert q[..0] == [];
  }

  lemma {:induction false} PlacedAfter(order: seq<nat>, texts: seq<string>, fates: seq<bool>, was: Queue, k: nat,
                                      now: Queue, h: nat, len: nat)
    requires Placed(order, texts, fates, was) && Ended(was, k, now, h, len)
    ensures k <= |was| && Placed(order, texts, fates + Somes(was[..k]), now)
  {
    hide Popped, Stuck, Message.Spent, AllSound;
    var fs := fates + Somes(was[..k]);
    forall i | 0 <= i < |fs| && fs[i] ensures texts[i] != [] {
      if i >= |fates| { assert !was[i - |fates|].Spent(); }
    }
    forall j | 0 <= j < |now| && !now[j].Spent() ensures texts[|fs| + j] != [] {
      assert !was[k + j].Spent() by { StillHasSome(was, k, now, h, j); }
    }
    forall j | 0 <= j < |now| ensures order[|fs|..][j] == Ids(now)[j] {
      assert order[|fs| + j] == order[|fates|..][k + j] == Ids(was)[k + j];
      SameId(was, k, now, h, j);
    }
  }

  lemma {:induction false} SameId(was: Queue, k: nat, now: Queue, h: nat, j: nat)
    requires Written(was, k, now, h) && j < |now|
    ensures now[j].id == was[k + j].id
  {
    hide Message.Spent;
  }

  lemma {:induction false} StillHasSome(was: Queue, k: nat, now: Queue, h: nat, j: nat)
    requires Written(was, k, now, h) && j < |now| && !now[j].Spent()
    ensures !was[k + j].Spent()
  {
    hide Message.Spent;
  }

  /** Message `j` of the queue is stranded by a write. */
  predicate Strands(q: Queue, j: int, num: nat, len: nat) {
    0 <= j < |q| && !q[j].Spent() && IsOut(q, j, num) && EndsAt(q, j, len)
  }

  lemma {:induction false} StrandedAfter(order: seq<nat>, texts: seq<string>, fates: seq<bool>, was: Queue, k: nat,
                                        now: Queue, h: nat, num: nat, len: nat, p: nat)
    requires Placed(order, texts, fates, was) && Ended(was, k, now, h, len) && k <= |was|
    requires LeavesAt(was, k, num, len) && |QueueBytes(was)| == num + |QueueBytes(now)|
    ensures IsStranded(texts, fates + Somes(was[..k]), now, p)
            <==> IsStranded(texts, fates, was, p) || Strands(was, p - |fates|, num, len)
  {
    hide Popped, Stuck, Message.Spent, AllSound, QueueBytes, IsOut, EndsAt, Written;
    EndedIs(was, k, now, h, len);
    var j := p - |fates|;
    if k <= j < |was| {
      if was[j].Spent() {
        StaysSpent(was, k, now, h, j);
      } else {
        StaysIf(was, k, now, h, num, len, j);
      }
    }
  }

  lemma {:induction false} StaysSpent(was: Queue, k: nat, now: Queue, h: nat, i: nat)
    requires Written(was, k, now, h) && k <= i < |was| && was[i].Spent()
    ensures now[i - k].Spent()
  {
    hide Message.Spent;
  }

  lemma {:induction false} TakenIsChosen(order: seq<nat>, texts: seq<string>, fates: seq<bool>, was: Queue, k: nat)
    requires Placed(order, texts, fates, was) && k <= |was|
    ensures |Somes(was[..k])| == k
    ensures Chosen(order[..|fates| + k], fates + Somes(was[..k]), true)
         == Chosen(order[..|fates|], fates, true) + Taken(was, k, true)
  {
    hide Message.Spent, Chosen;
    assert order[..|fates| + k] == order[..|fates|] + order[|fates|..][..k];
    assert order[|fates|..][..k] == Ids(was[..k]);
    ChosenConcat(order[..|fates|], fates, Ids(was[..k]), Somes(was[..k]), true);
  }

  lemma {:induction false} IdsConcat(a: Queue, b: Queue)
    ensures Ids(a + b) == Ids(a) + Ids(b) && Somes(a + b) == Somes(a) + Somes(b)
  {
  }

  lemma {:induction false} FillNext(q: Queue, i: nat, left: nat)
    requires i < |q| && left > 0
    ensures FillQueue(q[i..], left)
         == FillMessage(q[i], left) + FillQueue(q[i + 1..], left - |FillMessage(q[i], left)|)
  {
    hide FillMessage;
    assert q[i..][1..] == q[i + 1..];
  }

  lemma {:induction false} FillNothing(q: Queue, left: nat)
    requires q == [] || left == 0
    ensures FillQueue(q, left) == []
  {
  }

  class ConnectConnection {
    /** `mSendRequests`, each with what is left of it, and `mSentRequests`. */
    var sendRequests: Queue
    var sentRequests: seq<nat>
    const parser: ResponseParser
    var received: nat
    var good: bool
    /** Everything ever sent, in order, with its bytes; of those that have left the queue, which became sent ones;
        everything written; and the replies given out. */
    ghost var order: seq<nat>
    ghost var texts: seq<string>
    ghost var fates: seq<bool>
    ghost var wire: string
    ghost var stream: string
    ghost var matched: seq<Matched>

    /** The queue holds what has not left it, in the order it was sent; the sent requests are those that have become
        one and are not answered; and nothing is lost or repeated on the wire. */
    ghost predicate Valid()
      reads `sendRequests, `sentRequests, `order, `texts, `fates, `wire, `matched
    {
      && AllSound(sendRequests) && Distinct(sendRequests)
      && Placed(order, texts, fates, sendRequests)
      && IdsOf(matched) + sentRequests == Chosen(order[..|fates|], fates, true)
      && Flat(texts) == wire + QueueBytes(sendRequests)
    }

    /** Request `p` of the order is out, and was not marked: it is still in the queue, or was taken for one without
        bytes. */
    ghost predicate Stranded(p: nat)
      reads `sendRequests, `texts, `fates
    {
      IsStranded(texts, fates, sendRequests, p)
    }

    /** The replies given out so far are those that `s` holds, and the parser is inside the next. */
    ghost predicate InStepAt(s: string)
      reads `matched, parser, parser.arrayNum, parser.elementCnt
    {
      && parser.Valid() && parser.state != Finished
      && var r := Read(NewReader, s);
      && r.p == parser.View() && r.begin <= r.at == |s| && r.got == SpansIn(matched)
      && (r.begin < |s| ==> parser.resBegin == r.begin)
      && (parser.state == Idle <==> r.begin == |s|)
    }

    ghost predicate InStep()
      reads this, parser, parser.arrayNum, parser.elementCnt
    {
      received == |stream| && InStepAt(stream)
    }

    constructor ()
      ensures Valid() && InStep() && good && order == [] && texts == [] && fates == [] && fresh(parser)
      ensures sendRequests == [] && sentRequests == [] && matched == [] && wire == []
      ensures fresh(parser.arrayNum) && fresh(parser.elementCnt)
    {
      sendRequests, sentRequests, received, good := [], [], 0, true;
      order, texts, fates, wire, stream, matched := [], [], [], [], [], [];
      parser := new ResponseParser();
    }

    /** `send` */
    method Send(m: Message)
      requires Valid() && m.Sound() && m.id !in Ids(sendRequests)
      modifies `sendRequests, `order, `texts
      ensures Valid() && sendRequests == old(sendRequests) + [m]
      ensures order == old(order) + [m.id] && texts == old(texts) + [m.Bytes()]
    {
      hide QueueBytes, Flat, Message.Bytes, Message.Spent, Chosen, Ids, IdsOf, Distinct;
      QueueAppend(sendRequests, m);
      DistinctSnoc(sendRequests, m);
      FlatSnoc(texts, m.Bytes());
      SentOne(order, texts, fates, sendRequests, m);
      Assoc(wire, QueueBytes(sendRequests), m.Bytes());
      sendRequests := sendRequests + [m];
      order := order + [m.id];
      texts := texts + [m.Bytes()];
    }

    /** `fill` */
    method Fill(len: nat) returns (vecs: seq<Vec>)
      requires len > 0
      ensures vecs == FillQueue(sendRequests, len)
    {
      hide FillMessage, FillQueue;
      vecs := [];
      var i: nat, left: nat := 0, len;
      assert sendRequests[0..] == sendRequests;
      while i < |sendRequests|
        invariant i <= |sendRequests| && left <= len && (i < |sendRequests| ==> left > 0)
        invariant FillQueue(sendRequests, len) == vecs + FillQueue(sendRequests[i..], left)
        decreases |sendRequests| - i
      {
        var vs := FillMessage(sendRequests[i], left);
        FillNext(sendRequests, i, left);
        assert vecs + (vs + FillQueue(sendRequests[i + 1..], left - |vs|))
            == (vecs + vs) + FillQueue(sendRequests[i + 1..], left - |vs|);
        vecs := vecs + vs;
        left := left - |vs|;
        i := i + 1;
        if left == 0 {
          FillNothing(sendRequests[i..], 0);
          return;
        }
      }
      FillNothing(sendRequests[i..], left);
    }

    /** One vector: as much of it as `left` bytes allow. `empty` are the requests that are handed back to the handler
        without a reply. */
    method WriteVec(v: Vec, left: nat, ghost was: Queue, ghost k: nat, ghost to: Queue, ghost h: nat, ghost i: nat,
                    ghost len: nat, ghost sent0: seq<nat>)
      returns (empty: seq<nat>, ghost k': nat, ghost to': Queue, ghost h': nat, ghost done: string)
      requires Progress(was, k, sendRequests, to, h, i, len) && i < len && Distinct(sendRequests) && left > 0
      requires FillQueue(to, len - i) != [] && v == FillQueue(to, len - i)[0]
      requires k <= |was| && sentRequests == sent0 + Taken(was, k, true)
      modifies `sendRequests, `sentRequests
      ensures v.at != [] && k <= k' <= |was| && Distinct(sendRequests)
      ensures old(QueueBytes(sendRequests)) == done + QueueBytes(sendRequests)
      ensures left < |v.at[0]| ==>
                done == v.at[0][..left] && k' == k && Ended(was, k, sendRequests, h', len)
      ensures left >= |v.at[0]| ==>
                done == v.at[0] && Progress(was, k', sendRequests, to', h', i + 1, len)
                && FillQueue(to', len - i - 1) == FillQueue(to, len - i)[1..]
      ensures sentRequests == sent0 + Taken(was, k', true) && Taken(was, k', false) == Taken(was, k, false) + empty
    {
      hide FillQueue, QueueBytes, Progress, Ended, Distinct, Seek, Taken, Message.Spent;
      ghost var q := sendRequests;
      ghost var f, q';
      f, q', to' := OneVec(was, k, sendRequests, to, h, i, len, left);
      PlaceIs(sendRequests, f);
      var at := PlaceOf(sendRequests, v.id);
      var n := |v.at[0]|;
      SeekKeepsId(q[f], v, if n <= left then n else left);
      DistinctUpdate(q, f, q'[f]);
      sendRequests := sendRequests[at := Seek(sendRequests[at], v, if n <= left then n else left)];
      empty, k', h', done := [], k, f, if left < n then v.at[0][..left] else v.at[0];
      if v.last && n <= left {
        TakenMore(was, k, f);
        DistinctTail(sendRequests, f + 1);
        k', h' := k + f + 1, 0;
        empty := PopThrough(v.id, f);
      }
    }

    /** Requests are popped up to the one the vector names; those in front of it are taken for empty, and handed back
        to the handler without a reply. */
    method PopThrough(id: nat, ghost f: nat) returns (empty: seq<nat>)
      requires Distinct(sendRequests) && f < |sendRequests| && sendRequests[f].id == id
      modifies `sendRequests, `sentRequests
      ensures sendRequests == old(sendRequests)[f + 1..] && sentRequests == old(sentRequests) + [id]
      ensures empty == Ids(old(sendRequests)[..f])
    {
      ghost var q, j := sendRequests, 0;
      empty := [];
      while sendRequests != []
        invariant j <= f && sendRequests == q[j..] && sentRequests == old(sentRequests) && empty == Ids(q[..j])
        decreases |sendRequests|
      {
        var req := sendRequests[0];
        sendRequests := sendRequests[1..];
        if req.id == id {
          sentRequests := sentRequests + [req.id];
          break;
        }
        empty := empty + [req.id];
        j := j + 1;
      }
    }

    /** The loop of `write`. */
    method WriteVecs(vecs: seq<Vec>, num: nat, ghost len: nat)
      returns (finished: bool, empty: seq<nat>, ghost k: nat, ghost h: nat, ghost done: string)
      requires AllSound(sendRequests) && Distinct(sendRequests)
      requires vecs == FillQueue(sendRequests, len) && num <= |VecBytes(vecs)|
      modifies `sendRequests, `sentRequests
      ensures Distinct(sendRequests) && finished == (num == |VecBytes(vecs)| && EndsWithBytes(vecs))
      ensures Ended(old(sendRequests), k, sendRequests, h, len)
      ensures |done| == num && old(QueueBytes(sendRequests)) == done + QueueBytes(sendRequests)
      ensures sentRequests == old(sentRequests) + Taken(old(sendRequests), k, true)
      ensures empty == Taken(old(sendRequests), k, false)
    {
      hide FillQueue, QueueBytes, VecBytes, Taken, Progress, Ended, Distinct, Message.Sound;
      ghost var was, sent0, to := sendRequests, sentRequests, sendRequests;
      var i, left, cut := 0, num, false;
      k, h, done, empty := 0, 0, [], [];
      Beginning(was, len);
      NothingTaken(was);
      while i < |vecs| && left > 0
        invariant !cut && left >= 0 && i <= |vecs| <= len && vecs[i..] == FillQueue(to, len - i)
        invariant Progress(was, k, sendRequests, to, h, i, len) && k <= |was| && Distinct(sendRequests)
        invariant QueueBytes(was) == done + QueueBytes(sendRequests) && |done| + left == num
        invariant sentRequests == sent0 + Taken(was, k, true) && empty == Taken(was, k, false)
        invariant |done| + |VecBytes(vecs[i..])| == |VecBytes(vecs)|
        invariant i > 0 && left == 0 ==> vecs[i - 1].at != [] && vecs[i - 1].at[0] != []
        decreases |vecs| - i
      {
        var v := vecs[i];
        assert vecs[i..][0] == v && vecs[i..][1..] == vecs[i + 1..];
        var more;
        ghost var k', to', h', out;
        more, k', to', h', out := WriteVec(v, left, was, k, to, h, i, len, sent0);
        VecBytesCons(vecs[i..]);
        Assoc(done, out, QueueBytes(sendRequests));
        done, k, h, empty := done + out, k', h', empty + more;
        if left < |v.at[0]| {
          cut := true;
          break;
        }
        to := to';
        left := left - |v.at[0]|;
        i := i + 1;
      }
      if !cut {
        ProgressEnds(was, k, sendRequests, to, h, i, len);
        if i < |vecs| {
          if EndsWithBytes(vecs) { SomethingCovered(vecs, i); }
        } else {
          NoVecBytes();
          assert vecs[i..] == [];
        }
      }
      finished := !cut && i == |vecs| && left == 0;
    }

    /** `write` once `writev` has taken `num` bytes of the vectors. Exactly those bytes go out. Of the requests with
        bytes exactly those leave the queue, and become sent ones, whose last byte is out, but for one that ends in its
        head with vector `len`: that one is stranded. It leaves with the next that does, as one of the `empty` that are
        handed back without a reply. */
    method Write(vecs: seq<Vec>, num: nat, ghost len: nat)
      returns (finished: bool, empty: seq<nat>, ghost k: nat, ghost h: nat)
      requires Valid() && vecs == FillQueue(sendRequests, len) && num <= |VecBytes(vecs)|
      modifies `sendRequests, `sentRequests, `fates, `wire
      ensures Valid() && finished == (num == |VecBytes(vecs)| && EndsWithBytes(vecs))
      ensures num <= |old(QueueBytes(sendRequests))| && wire == old(wire) + old(QueueBytes(sendRequests))[..num]
      ensures LeavesAt(old(sendRequests), k, num, len) && Written(old(sendRequests), k, sendRequests, h)
      ensures sentRequests == old(sentRequests) + Taken(old(sendRequests), k, true)
      ensures empty == Taken(old(sendRequests), k, false)
      ensures fates == old(fates) + Somes(old(sendRequests)[..k])
      ensures forall p: nat ::
                Stranded(p) <==> old(Stranded(p)) || Strands(old(sendRequests), p - |old(fates)|, num, len)
    {
      hide FillQueue, QueueBytes, LeavesAt, Written, Ids, IdsOf, Taken, Placed, IsStranded, Strands, Ended, Flat;
      ghost var was, f0 := sendRequests, fates;
      ghost var done;
      finished, empty, k, h, done := WriteVecs(vecs, num, len);
      EndedLeavesAt(was, k, sendRequests, h, num, len);
      EndedIs(was, k, sendRequests, h, len);
      PlacedAfter(order, texts, f0, was, k, sendRequests, h, len);
      forall p: nat
        ensures IsStranded(texts, f0 + Somes(was[..k]), sendRequests, p)
                <==> IsStranded(texts, f0, was, p) || Strands(was, p - |f0|, num, len)
      {
        StrandedAfter(order, texts, f0, was, k, sendRequests, h, num, len, p);
      }
      TakenIsChosen(order, texts, f0, was, k);
      Assoc(IdsOf(matched), old(sentRequests), Taken(was, k, true));
      Assoc(wire, done, QueueBytes(sendRequests));
      wire := wire + done;
      fates := fates + Somes(was[..k]);
    }

    /** `handleResponse`: the front of the sent requests gets the reply that the parser holds. A reply nobody
        waits for is dropped, and the parser is not reset. */
    method HandleResponse() returns (taken: bool)
      requires Valid() && parser.Valid()
      modifies `sentRequests, `matched, parser
      ensures Valid() && parser.Valid() && taken == (old(sentRequests) != [])
      ensures taken ==>
                sentRequests == old(sentRequests)[1..] && parser.View() == Start
                && matched == old(matched) + [Matched(old(sentRequests)[0],
                     Span(old(parser.resBegin), old(parser.resEnd), old(parser.kind), old(parser.integer)))]
      ensures !taken ==> sentRequests == [] && matched == old(matched)
    {
      if sentRequests == [] { return false; }
      var req := sentRequests[0];
      ghost var m := Matched(req, Span(parser.resBegin, parser.resEnd, parser.kind, parser.integer));
      parser.Reset();
      sentRequests := sentRequests[1..];
      assert IdsOf(matched + [m]) == IdsOf(matched) + [req];
      matched := matched + [m];
      taken := true;
    }

    /** One call of the parser inside a buffer, and what follows from it. `s` is the stream up to `pos`. */
    method ReadOne(buf: string, pos: nat, ghost s: string) returns (npos: nat, unmatched: bool)
      requires Valid() && InStepAt(s) && good && pos < |buf| && |s| == received + pos
      modifies `sentRequests, `matched, `good, parser, parser.arrayNum, parser.elementCnt
      ensures Valid() && old(matched) <= matched && (good ==> pos < npos)
      ensures good && !unmatched && npos <= |buf| ==> InStepAt(s + buf[pos..npos])
      ensures good && !unmatched && npos > |buf| ==> InStepAt(s + buf[pos..])
      ensures !good && !unmatched ==> Read(NewReader, s + buf[pos..]).p == Failed
      ensures unmatched ==> sentRequests == [] && |Read(NewReader, s + buf[pos..]).got| > |matched|
    {
      hide Read, Run, Step, AllSound, Distinct, Placed, Chosen, Flat, QueueBytes;
      ghost var r := Read(NewReader, s);
      ghost var wasIdle := parser.state == Idle;
      ghost var rest := buf[pos..];
      unmatched := false;
      var st;
      ghost var k;
      st, npos, k := parser.Parse(buf, pos, received);
      ReadConcat(NewReader, s, rest);
      match st {
        case ParseError =>
          assert rest[..k - pos] == buf[pos..k] && rest[..k - pos + 1] == buf[pos..k + 1];
          ReadFails(r, rest, k - pos);
          good := false;
        case Complete =>
          ghost var reply := buf[pos..npos];
          ReadComplete(r, reply);
          ReadConcat(NewReader, s, reply);
          ghost var span := Span(parser.resBegin, parser.resEnd, parser.kind, parser.integer);
          assert Read(NewReader, s + reply) == Reader(Start, npos + received, npos + received, r.got + [span]);
          var taken := HandleResponse();
          if taken {
            assert SpansIn(matched) == SpansIn(old(matched)) + [span];
            assert InStepAt(s + reply);
          } else {
            unmatched := true;
            assert rest == reply + buf[npos..];
            ReadConcat(NewReader, s + reply, buf[npos..]);
            assert s + rest == (s + reply) + buf[npos..];
            GotGrows(Read(NewReader, s + reply), buf[npos..]);
            assert |SpansIn(matched)| == |matched|;
          }
        case _ =>
          ReadPartial(r, rest);
          ResponseParser.NeverIdleAgain(r.p, rest);
          assert InStepAt(s + rest);
      }
    }

    /** `parse` over one more buffer. While every reply finds a request waiting, the k-th reply in the stream
        is given to the k-th request in the order they were sent, wherever the stream was cut. The bytes behind
        a reply that nobody waits for are a parse error. */
    method ReadBuffer(buf: string) returns (unmatched: bool)
      requires Valid() && InStep() && good
      modifies `sentRequests, `matched, `good, `received, `stream, parser, parser.arrayNum, parser.elementCnt
      ensures Valid()
      ensures stream == old(stream) + buf && old(matched) <= matched
      ensures good && !unmatched ==> InStep()
      ensures !good && !unmatched ==> Read(NewReader, stream).p == Failed
      ensures unmatched ==> sentRequests == [] && |Read(NewReader, stream).got| > |matched|
    {
      hide Read, Run, Step, ConnectConnection.Valid, ConnectConnection.InStepAt;
      unmatched := false;
      var pos := 0;
      ghost var was := stream;
      assert was + buf[..0] == was;
      while pos < |buf| && good && !unmatched
        invariant Valid()
        invariant old(matched) <= matched && stream == was && received == old(received)
        invariant good && !unmatched && pos <= |buf| ==> InStepAt(was + buf[..pos])
        invariant good && !unmatched && pos > |buf| ==> InStepAt(was + buf)
        invariant !good && !unmatched ==> Read(NewReader, was + buf).p == Failed
        invariant unmatched ==> sentRequests == [] && |Read(NewReader, was + buf).got| > |matched|
        decreases |buf| - pos, good
      {
        ghost var s := was + buf[..pos];
        assert s + buf[pos..] == was + buf;
        var npos;
        npos, unmatched := ReadOne(buf, pos, s);
        if good {
          assert npos <= |buf| ==> s + buf[pos..npos] == was + buf[..npos];
          pos := npos;
        }
      }
      assert was + buf[..|buf|] == was + buf;
      received := received + |buf|;
      stream := stream + buf;
    }
  }

  // ----- which request a reply is given to -----

  /** The index of the `k`-th that is true, or the length. */
  function Nth(bs: seq<bool>, k: nat): (n: nat)
    ensures n <= |bs|
  {
    if bs == [] then 0
    else if bs[0] then (if k == 0 then 0 else 1 + Nth(bs[1..], k - 1))
    else 1 + Nth(bs[1..], k)
  }

  lemma {:induction false} NthOfChosen<T>(xs: seq<T>, bs: seq<bool>, k: nat)
    requires |xs| == |bs| && k < |Chosen(xs, bs, true)|
    ensures Nth(bs, k) < |bs| && bs[Nth(bs, k)] && Chosen(xs, bs, true)[k] == xs[Nth(bs, k)]
  {
    if bs[0] {
      if k > 0 { NthOfChosen(xs[1..], bs[1..], k - 1); }
    } else {
      assert Chosen(xs, bs, true) == Chosen(xs[1..], bs[1..], true);
      NthOfChosen(xs[1..], bs[1..], k);
    }
  }

  /** Among fewer the `k`-th is the same one exactly if none in front of it is missing. */
  lemma {:induction false} NthAmongFewer(few: seq<bool>, all: seq<bool>, k: nat)
    requires |few| <= |all| && forall i :: 0 <= i < |few| && few[i] ==> all[i]
    requires Nth(few, k) < |few|
    ensures Nth(few, k) == Nth(all, k) <==> forall i :: 0 <= i < Nth(few, k) && all[i] ==> few[i]
  {
    var n := Nth(few, k);
    if few[0] {
      if k > 0 {
        NthAmongFewer(few[1..], all[1..], k - 1);
        SameFrom1(few, all, n - 1);
      }
    } else if !all[0] {
      NthAmongFewer(few[1..], all[1..], k);
      SameFrom1(few, all, n - 1);
    } else {
      NthIsLess(few[1..], all[1..], k);
    }
  }

  lemma {:induction false} SameFrom1(few: seq<bool>, all: seq<bool>, n: nat)
    requires n < |few| <= |all| && (all[0] ==> few[0])
    ensures (forall i :: 0 <= i < n + 1 && all[i] ==> few[i]) <==>
            (forall i :: 0 <= i < n && all[1..][i] ==> few[1..][i])
  {
    if forall i :: 0 <= i < n && all[1..][i] ==> few[1..][i] {
      forall i | 0 <= i < n + 1 && all[i] ensures few[i] {
        if i > 0 { assert all[1..][i - 1] && few[1..][i - 1]; }
      }
    }
  }

  lemma {:induction false} NthRises(bs: seq<bool>, k: nat)
    ensures Nth(bs, k) <= Nth(bs, k + 1)
  {
    if bs != [] {
      if !bs[0] { NthRises(bs[1..], k); } else if k > 0 { NthRises(bs[1..], k - 1); }
    }
  }

  /** With more to count the `k`-th comes no later, and the one before it earlier. */
  lemma {:induction false} NthIsLess(few: seq<bool>, all: seq<bool>, k: nat)
    requires |few| <= |all| && forall i :: 0 <= i < |few| && few[i] ==> all[i]
    requires Nth(few, k) < |few|
    ensures Nth(all, k) <= Nth(few, k) && (k > 0 ==> Nth(all, k - 1) < Nth(few, k))
  {
    if !few[0] {
      NthIsLess(few[1..], all[1..], k);
      if k > 1 { NthRises(all[1..], k - 2); }
    } else if k > 0 {
      NthIsLess(few[1..], all[1..], k - 1);
    }
  }

  /** Which of the requests have bytes. */
  function Texted(ts: seq<string>): seq<bool> {
    seq(|ts|, i requires 0 <= i < |ts| => ts[i] != [])
  }

  /** First in, first out: the k-th reply that the stream holds is given to the k-th request that became a sent one;
      and that is the k-th request with bytes, which the server replies to, exactly if none in front of it was
      stranded. */
  lemma {:induction false} KthReplyToKthRequest(c: ConnectConnection, k: nat)
    requires c.Valid() && c.InStep() && k < |c.matched|
    ensures |c.matched| == |Read(NewReader, c.stream).got| && Nth(c.fates, k) < |c.fates| <= |c.order|
    ensures c.matched[k] == Matched(c.order[Nth(c.fates, k)], Read(NewReader, c.stream).got[k])
    ensures Nth(c.fates, k) == Nth(Texted(c.texts), k) <==> forall p: nat :: p < Nth(c.fates, k) ==> !c.Stranded(p)
  {
    hide Read, Nth, Chosen, Ids, Flat, QueueBytes;
    var ids, n := c.order[..|c.fates|], Nth(c.fates, k);
    assert |SpansIn(c.matched)| == |c.matched| && SpansIn(c.matched)[k] == c.matched[k].span;
    assert Chosen(ids, c.fates, true)[k] == IdsOf(c.matched)[k] == c.matched[k].id;
    NthOfChosen(ids, c.fates, k);
    NthAmongFewer(c.fates, Texted(c.texts), k);
    forall p: nat | p < n ensures !c.Stranded(p) <==> (Texted(c.texts)[p] ==> c.fates[p]) {}
  }
}
