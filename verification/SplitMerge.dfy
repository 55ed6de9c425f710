/** Splitting a command and merging the replies preserves its meaning. */
module SplitMerge {
  import opened Bytes
  import opened Resp
  import opened ResponseMachine
  import opened Merging
  import opened MergeOutcome
  import opened ShardedStore
  import RequestMachine
  import RequestParts

  // ----- the command as a whole, on one store -----

  function Apply(u: Store, op: Op): Store {
    match op
    case Put(k, v) => u[k := v]
    case Remove(k) => u - {k}
    case Change(k, f) => (match f(Find(u, k)) case Some(v) => u[k := v] case None => u - {k})
    case _ => u
  }

  function StoreAfter(u: Store, ops: seq<Op>, i: nat): Store
    requires i <= |ops|
  {
    if i == 0 then u else Apply(StoreAfter(u, ops, i - 1), ops[i - 1])
  }

  /** How many of the first `i` keys exist when it is their turn. */
  function Hits(u: Store, ops: seq<Op>, i: nat): nat
    requires i <= |ops|
  {
    if i == 0 then 0
    else Hits(u, ops, i - 1) + if ops[i - 1].key in StoreAfter(u, ops, i - 1) then 1 else 0
  }

  /** What redis answers to the command that was not split. */
  function WholeReply(cmd: CutCommand, u: Store, ops: seq<Op>): Reply {
    if cmd == Mget then Array(seq(|ops|, i requires 0 <= i < |ops| => BulkOf(Find(u, ops[i].key))))
    else if cmd == Mset then Reply.Status("OK")
    else Reply.Integer(Hits(u, ops, |ops|))
  }

  /** The ops a command's parts stand for. */
  predicate OpsFor(cmd: CutCommand, ops: seq<Op>) {
    forall i :: 0 <= i < |ops| ==> OpFits(cmd, ops[i])
  }

  predicate OpFits(cmd: CutCommand, op: Op) {
    match cmd
    case Mget => op.Get?
    case Mset => op.Put?
    case Del => op.Remove?
    case Unlink => op.Remove?
    case Touch => op.Has?
    case Exists => op.Has?
    case Msetnx => false
  }

  lemma {:induction false} StoreInTurn(u: Store, ops: seq<Op>, i: nat, k: string)
    requires i <= |ops|
    ensures Find(StoreAfter(u, ops, i), k) == InTurn(ops, i, k, Find(u, k))
  {
    if i > 0 { StoreInTurn(u, ops, i - 1, k); }
  }

  lemma {:induction false} ReadsKeepStore(u: Store, ops: seq<Op>, i: nat)
    requires i <= |ops| && forall j :: 0 <= j < |ops| ==> ops[j].Get? || ops[j].Has?
    ensures StoreAfter(u, ops, i) == u
  {
    if i > 0 { ReadsKeepStore(u, ops, i - 1); }
  }

  // ----- the replies as the proxy parses them -----

  /** A server's reply as the reply parser hands it over. */
  function Parsed(r: Reply): Message
    requires WellFormed(r) && Accepted(r)
  {
    ReplyIsTaken(r);
    var q := Run(Start, Encode(r));
    Message(q.kind, q.integer, [], Encode(r))
  }

  lemma {:induction false} AnswerIsTaken(op: Op, v: Option<string>)
    ensures WellFormed(Answer(op, v)) && Accepted(Answer(op, v))
    ensures var m := Parsed(Answer(op, v));
            match op
            case Get(_) => m.kind == KArray
            case Put(_, _) => m.kind == KStatus && m.Wire() == Encode(Reply.Status("OK"))
            case _ => m.kind == KInteger && m.integer == (if v.Some? then 1 else 0)
  {
    ReplyIsTaken(Answer(op, v));
  }

  /** What part `i` is answered when the parts run in turn on one store. */
  function AnswerInTurn(u: Store, ops: seq<Op>, i: nat): Reply
    requires i < |ops|
  {
    Answer(ops[i], Find(StoreAfter(u, ops, i), ops[i].key))
  }

  /** These replies in the order of their arrival. */
  function ArrivalsInTurn(u: Store, ops: seq<Op>, arrive: Schedule): (a: seq<Arrival>)
    requires arrive.Valid(|ops|)
    ensures InRange(a, |ops|)
  {
    seq(|ops|, p requires 0 <= p < |ops| =>
      var i := arrive.order[p];
      AnswerIsTaken(ops[i], Find(StoreAfter(u, ops, i), ops[i].key));
      Arrival(i, Parsed(AnswerInTurn(u, ops, i))))
  }

  /** The replies of the shards in the order of their arrival. */
  function Arrivals(shard: string -> nat, stores: Stores, ops: seq<Op>, run: Schedule,
          arrive: Schedule): (a: seq<Arrival>)
    requires run.Valid(|ops|) && arrive.Valid(|ops|)
    ensures InRange(a, |ops|)
  {
    seq(|ops|, p requires 0 <= p < |ops| =>
      var i := arrive.order[p];
      AnswerIsTaken(ops[i], Lookup(shard, After(shard, stores, ops, run, run.when[i]), ops[i].key));
      Arrival(i, Parsed(AnswerAt(shard, stores, ops, run, i))))
  }

  // ----- counting -----

  /** The hits among the first `k` replies to arrive. */
  function HitsSeen(hit: seq<bool>, arrive: Schedule, k: nat): set<nat>
    requires arrive.Valid(|hit|)
  {
    set i: nat | i < |hit| && arrive.when[i] < k && hit[i]
  }

  lemma {:induction false} TotalIsHitsSeen(a: seq<Arrival>, hit: seq<bool>, arrive: Schedule, k: nat)
    requires arrive.Valid(|hit|) && 0 < k <= |a| == |hit|
    requires forall p :: 0 <= p < |a| ==>
               a[p].m.kind == KInteger && a[p].m.integer == if hit[arrive.order[p]] then 1 else 0
    ensures Total(a[..k]) == |HitsSeen(hit, arrive, k)|
    decreases k
  {
    var i := arrive.order[k - 1];
    var before := HitsSeen(hit, arrive, k - 1);
    assert i !in before;
    assert HitsSeen(hit, arrive, k) == if hit[i] then before + {i} else before by {
      forall j: nat | j < |hit| && arrive.when[j] == k - 1 ensures j == i {}
    }
    assert a[..k][..k - 1] == a[..k - 1];
    if k == 1 {
      assert before == {};
    } else {
      TotalIsHitsSeen(a, hit, arrive, k - 1);
    }
  }

  function HitsBelow(hit: seq<bool>, i: nat): set<nat>
    requires i <= |hit|
  {
    set j: nat | j < i && hit[j]
  }

  lemma {:induction false} HitsBelowNext(hit: seq<bool>, i: nat)
    requires 0 < i <= |hit|
    ensures |HitsBelow(hit, i)| == |HitsBelow(hit, i - 1)| + if hit[i - 1] then 1 else 0
  {
    var before := HitsBelow(hit, i - 1);
    assert HitsBelow(hit, i) == if hit[i - 1] then before + {i - 1} else before;
  }

  lemma {:induction false} HitsAreCounted(u: Store, ops: seq<Op>, hit: seq<bool>, i: nat)
    requires i <= |ops| == |hit|
    requires forall j :: 0 <= j < |ops| ==> (hit[j] <==> ops[j].key in StoreAfter(u, ops, j))
    ensures Hits(u, ops, i) == |HitsBelow(hit, i)|
  {
    hide HitsBelow, StoreAfter;
    if i == 0 {
      NoHitsBelow(hit);
    } else {
      HitsAreCounted(u, ops, hit, i - 1);
      HitsBelowNext(hit, i);
    }
  }

  lemma {:induction false} NoHitsBelow(hit: seq<bool>)
    ensures HitsBelow(hit, 0) == {}
  {
  }

  /** The value that op `i` finds, in terms of the one store. */
  lemma {:induction false} SeenOnUnion(shard: string -> nat, stores: Stores, u: Store, ops: seq<Op>,
          run: Schedule, i: nat)
    requires IsUnion(shard, stores, u) && run.Valid(|ops|) && run.KeepsShards(shard, ops) && i < |ops|
    ensures SeenAt(shard, stores, ops, run, i) == Find(StoreAfter(u, ops, i), ops[i].key)
  {
    hide SeenAt, InTurn, StoreAfter, Schedule.KeepsShards;
    SeenInTurn(shard, stores, ops, run, i);
    StoreInTurn(u, ops, i, ops[i].key);
  }

  /** What part `i` is answered, in terms of the one store. */
  lemma {:induction false} AnswerOnUnion(shard: string -> nat, stores: Stores, u: Store, ops: seq<Op>,
          run: Schedule, i: nat)
    requires IsUnion(shard, stores, u) && run.Valid(|ops|) && run.KeepsShards(shard, ops) && i < |ops|
    ensures AnswerAt(shard, stores, ops, run, i) == AnswerInTurn(u, ops, i)
  {
    hide SeenAt, Answer, StoreAfter, Schedule.KeepsShards, IsUnion, Schedule.Valid;
    SeenOnUnion(shard, stores, u, ops, run, i);
  }

  /** Whatever the run on the shards, the replies are those of the one store. */
  lemma {:induction false} ArrivalsAreInTurn(shard: string -> nat, stores: Stores, u: Store, ops: seq<Op>,
          run: Schedule, arrive: Schedule)
    requires IsUnion(shard, stores, u) && run.Valid(|ops|) && run.KeepsShards(shard, ops) && arrive.Valid(|ops|)
    ensures Arrivals(shard, stores, ops, run, arrive) == ArrivalsInTurn(u, ops, arrive)
  {
    hide AnswerAt, AnswerInTurn, Parsed, Schedule.KeepsShards, IsUnion;
    var a, b := Arrivals(shard, stores, ops, run, arrive), ArrivalsInTurn(u, ops, arrive);
    forall p | 0 <= p < |ops| ensures a[p] == b[p] {
      AnswerOnUnion(shard, stores, u, ops, run, arrive.order[p]);
    }
  }

  lemma {:induction false} CountsAreWhole(cmd: CutCommand, u: Store, ops: seq<Op>, arrive: Schedule)
    requires cmd.Counts() && OpsFor(cmd, ops) && |ops| > 0 && arrive.Valid(|ops|)
    ensures Total(ArrivalsInTurn(u, ops, arrive)) == Hits(u, ops, |ops|)
  {
    hide StoreAfter, Total, Parsed, Answer;
    var n := |ops|;
    var a := ArrivalsInTurn(u, ops, arrive);
    var hit := seq(n, j requires 0 <= j < n => ops[j].key in StoreAfter(u, ops, j));
    forall p | 0 <= p < n
      ensures a[p].m.kind == KInteger && a[p].m.integer == if hit[arrive.order[p]] then 1 else 0
    {
      var i := arrive.order[p];
      assert OpFits(cmd, ops[i]);
      AnswerIsTaken(ops[i], Find(StoreAfter(u, ops, i), ops[i].key));
    }
    assert |a| == |hit| == n;
    TotalIsHitsSeen(a, hit, arrive, n);
    HitsAreCounted(u, ops, hit, n);
    assert a[..n] == a;
    assert HitsSeen(hit, arrive, n) == HitsBelow(hit, n);
  }

  // ----- mget -----

  /** A reply to a part of mget: an array with one element, or no array at all, as an error is. */
  predicate FitsPart(r: Reply) {
    WellFormed(r) && Accepted(r) && !r.NullArray? && (r.Array? ==> |r.elems| == 1)
  }

  predicate AllFitParts(rs: seq<Reply>) {
    forall i :: 0 <= i < |rs| ==> FitsPart(rs[i])
  }

  /** What the client gets for it. */
  function Shown(r: Reply): Reply
    requires FitsPart(r)
  {
    if r.Array? then r.elems[0] else NullBulk
  }

  function AllShown(rs: seq<Reply>): seq<Reply>
    requires AllFitParts(rs)
  {
    seq(|rs|, i requires 0 <= i < |rs| => Shown(rs[i]))
  }

  /** Any replies to the parts, in the order of their arrival. */
  function ArrivalsOf(rs: seq<Reply>, arrive: Schedule): (a: seq<Arrival>)
    requires arrive.Valid(|rs|) && forall i :: 0 <= i < |rs| ==> WellFormed(rs[i]) && Accepted(rs[i])
    ensures InRange(a, |rs|)
  {
    seq(|rs|, p requires 0 <= p < |rs| => Arrival(arrive.order[p], Parsed(rs[arrive.order[p]])))
  }

  /** The bytes of an array with one element. */
  lemma {:induction false} OneElement(e: Reply)
    ensures Encode(Array([e])) == "*1\r\n" + Encode(e)
  {
    assert Decimal(1) == "1";
    assert "*" + Decimal(1) + CRLF == "*1\r\n";
    assert [e][1..] == [] && EncodeAll([e]) == Encode(e) + EncodeAll([]) == Encode(e) + [];
  }

  /** One reply as a part sends it: the first part also sends the array's header. */
  lemma {:induction false} PartWire(n: nat, first: bool, r: Reply)
    requires FitsPart(r)
    ensures AdjustReply(Mget, n, first, Parsed(r)).Wire()
         == (if first then CountLine(n) else []) + Encode(Shown(r))
  {
    ReplyIsTaken(r);
    hide CountLine;
    if r.Array? {
      var e := r.elems[0];
      assert r.elems == [e];
      OneElement(e);
      assert Behind("*1\r\n" + Encode(e), 4) == Encode(e);
    } else {
      assert CountLine(n) + NULL_ELEMENT == [] + (CountLine(n) + NULL_ELEMENT);
      assert [] + NULL_ELEMENT == NULL_ELEMENT == Encode(NullBulk);
    }
  }

  lemma {:induction false} ElementsAreSent(res: seq<Option<Message>>, rs: seq<Reply>)
    requires |res| == |rs| && forall i :: 0 <= i < |rs| ==> res[i].Some? && res[i].value.Wire() == Encode(rs[i])
    ensures ClientBytes(res) == EncodeAll(rs)
  {
    hide Encode;
    if res != [] { ElementsAreSent(res[1..], rs[1..]); }
  }

  /** For every order of arrival the client gets one array with an element for each part: the one in the reply to the
      part, and a null for a reply that is no array. */
  lemma {:induction false} MgetMerged(rs: seq<Reply>, arrive: Schedule)
    requires |rs| > 0 && AllFitParts(rs) && arrive.Valid(|rs|)
    ensures ClientBytes(DeliverAll(Begin(Mget, |rs|), ArrivalsOf(rs, arrive)).res) == Encode(Array(AllShown(rs)))
  {
    hide Encode, DeliverAll, CountLine, Parsed, FitsPart, WellFormed, Accepted;
    var n := |rs|;
    FitIsTaken(rs);
    var a := ArrivalsOf(rs, arrive);
    var res := DeliverAll(Begin(Mget, n), a).res;
    var es := AllShown(rs);
    forall i | 0 <= i < n
      ensures res[i].Some? && res[i].value.Wire() == (if i == 0 then CountLine(n) else []) + Encode(es[i])
    {
      PartIsShown(rs, arrive, i);
    }
    hide ArrivalsOf, ClientBytes;
    forall i | 0 <= i < n - 1 ensures res[1..][i].Some? && res[1..][i].value.Wire() == Encode(es[1..][i]) {
      assert [] + Encode(es[i + 1]) == Encode(es[i + 1]);
    }
    ElementsAreSent(res[1..], es[1..]);
    FirstThenRest(res, es, n);
  }

  lemma {:induction false} FitIsTaken(rs: seq<Reply>)
    requires AllFitParts(rs)
    ensures forall i :: 0 <= i < |rs| ==> WellFormed(rs[i]) && Accepted(rs[i])
  {
    hide WellFormed, Accepted;
  }

  lemma {:induction false} PartIsShown(rs: seq<Reply>, arrive: Schedule, i: nat)
    requires i < |rs| && AllFitParts(rs) && arrive.Valid(|rs|)
    requires forall i :: 0 <= i < |rs| ==> WellFormed(rs[i]) && Accepted(rs[i])
    ensures var r := DeliverAll(Begin(Mget, |rs|), ArrivalsOf(rs, arrive)).res[i];
            r.Some? && r.value.Wire() == (if i == 0 then CountLine(|rs|) else []) + Encode(Shown(rs[i]))
  {
    hide Encode, DeliverAll, AdjustReply, CountLine, Parsed, Shown, FitsPart, WellFormed, Accepted;
    var a := ArrivalsOf(rs, arrive);
    PartsAreDistinct(rs, arrive);
    MgetOutcome(|rs|, a, i);
    assert a[arrive.when[i]].part == i;
    PartWire(|rs|, i == 0, rs[i]);
  }

  lemma {:induction false} PartsAreDistinct(rs: seq<Reply>, arrive: Schedule)
    requires arrive.Valid(|rs|) && forall i :: 0 <= i < |rs| ==> WellFormed(rs[i]) && Accepted(rs[i])
    ensures var a := ArrivalsOf(rs, arrive);
            |a| == |rs| && forall p, q :: 0 <= p < q < |a| ==> a[p].part != a[q].part
  {
    hide WellFormed, Accepted, Parsed;
    var a := ArrivalsOf(rs, arrive);
    forall p, q | 0 <= p < q < |a| ensures a[p].part != a[q].part {
      assert arrive.when[arrive.order[p]] == p && arrive.when[arrive.order[q]] == q;
    }
  }

  lemma {:induction false} FoundFits(v: Option<string>)
    ensures FitsPart(Array([BulkOf(v)])) && Shown(Array([BulkOf(v)])) == BulkOf(v)
  {
  }

  lemma {:induction false} MgetIsWhole(u: Store, ops: seq<Op>, arrive: Schedule)
    requires OpsFor(Mget, ops) && |ops| > 0 && arrive.Valid(|ops|)
    ensures ClientBytes(DeliverAll(Begin(Mget, |ops|), ArrivalsInTurn(u, ops, arrive)).res)
         == Encode(WholeReply(Mget, u, ops))
  {
    hide Encode, DeliverAll, ClientBytes, Parsed, WellFormed, Accepted, Find, FitsPart;
    var n := |ops|;
    var rs := seq(n, i requires 0 <= i < n => AnswerInTurn(u, ops, i));
    forall i | 0 <= i < n
      ensures FitsPart(rs[i]) && Shown(rs[i]) == BulkOf(Find(u, ops[i].key))
    {
      assert OpFits(Mget, ops[i]);
      forall j | 0 <= j < n ensures ops[j].Get? || ops[j].Has? { assert OpFits(Mget, ops[j]); }
      ReadsKeepStore(u, ops, i);
      FoundFits(Find(u, ops[i].key));
    }
    FitIsTaken(rs);
    assert ArrivalsOf(rs, arrive) == ArrivalsInTurn(u, ops, arrive);
    MgetMerged(rs, arrive);
    assert WholeReply(Mget, u, ops) == Array(AllShown(rs));
  }

  lemma {:induction false} ArrivalsAreDistinct(u: Store, ops: seq<Op>, arrive: Schedule)
    requires arrive.Valid(|ops|)
    ensures var a := ArrivalsInTurn(u, ops, arrive);
            |a| == |ops| && forall p, q :: 0 <= p < q < |a| ==> a[p].part != a[q].part
  {
    var a := ArrivalsInTurn(u, ops, arrive);
    forall p, q | 0 <= p < q < |a| ensures a[p].part != a[q].part {
      assert arrive.when[arrive.order[p]] == p && arrive.when[arrive.order[q]] == q;
    }
  }

  lemma {:induction false} FirstThenRest(res: seq<Option<Message>>, rs: seq<Reply>, n: nat)
    requires |res| == |rs| == n > 0 && res[0].Some? && res[0].value.Wire() == CountLine(n) + Encode(rs[0])
    requires ClientBytes(res[1..]) == EncodeAll(rs[1..])
    ensures ClientBytes(res) == Encode(Array(rs))
  {
    assert EncodeAll(rs) == Encode(rs[0]) + EncodeAll(rs[1..]);
    var c, x, y := CountLine(n), Encode(rs[0]), EncodeAll(rs[1..]);
    assert (c + x) + y == c + (x + y);
  }

  // ----- all commands -----

  /** In any order of arrival the parts' replies are put together to the reply to the command as a whole. */
  lemma {:induction false} MergeIsWhole(cmd: CutCommand, u: Store, ops: seq<Op>, arrive: Schedule)
    requires cmd != Msetnx && OpsFor(cmd, ops) && |ops| > 0 && arrive.Valid(|ops|)
    ensures ClientBytes(DeliverAll(Begin(cmd, |ops|), ArrivalsInTurn(u, ops, arrive)).res)
         == Encode(WholeReply(cmd, u, ops))
  {
    hide DeliverAll, ArrivalsInTurn, Encode, ClientBytes, Total, Signed;
    if cmd == Mget {
      MgetIsWhole(u, ops, arrive);
    } else if cmd == Mset {
      MsetIsWhole(u, ops, arrive);
    } else {
      CountsAreWhole(cmd, u, ops, arrive);
      CountReplyIsWhole(cmd, u, ops, arrive);
    }
  }

  /** For every assignment of keys to shards, every order of execution that keeps the order of the parts on
      each shard, and every order of arrival: the client gets the bytes it would get from one server that
      holds all the data, and the data ends up the same. */
  lemma {:induction false} SplitThenMerge(cmd: CutCommand, shard: string -> nat, stores: Stores, u: Store,
          ops: seq<Op>, run: Schedule, arrive: Schedule)
    requires cmd != Msetnx && OpsFor(cmd, ops) && |ops| > 0
    requires IsUnion(shard, stores, u) && run.Valid(|ops|) && run.KeepsShards(shard, ops) && arrive.Valid(|ops|)
    ensures ClientBytes(DeliverAll(Begin(cmd, |ops|), Arrivals(shard, stores, ops, run, arrive)).res)
         == Encode(WholeReply(cmd, u, ops))
    ensures IsUnion(shard, After(shard, stores, ops, run, |ops|), StoreAfter(u, ops, |ops|))
  {
    hide DeliverAll, Arrivals, ArrivalsInTurn, Encode, IsUnion, Schedule.KeepsShards, ClientBytes;
    DataIsWhole(shard, stores, u, ops, run);
    ArrivalsAreInTurn(shard, stores, u, ops, run, arrive);
    MergeIsWhole(cmd, u, ops, arrive);
  }

  lemma {:induction false} DataIsWhole(shard: string -> nat, stores: Stores, u: Store, ops: seq<Op>, run: Schedule)
    requires IsUnion(shard, stores, u) && run.Valid(|ops|) && run.KeepsShards(shard, ops)
    ensures IsUnion(shard, After(shard, stores, ops, run, |ops|), StoreAfter(u, ops, |ops|))
  {
    hide Lookup, InTurn, StoreAfter, After, Schedule.KeepsShards;
    AnswersAreInTurn(shard, stores, ops, run);
    forall k ensures Lookup(shard, After(shard, stores, ops, run, |ops|), k) == Find(StoreAfter(u, ops, |ops|), k) {
      StoreInTurn(u, ops, |ops|, k);
    }
  }

  lemma {:induction false} CountReplyIsWhole(cmd: CutCommand, u: Store, ops: seq<Op>, arrive: Schedule)
    requires cmd.Counts() && |ops| > 0 && arrive.Valid(|ops|)
    requires Total(ArrivalsInTurn(u, ops, arrive)) == Hits(u, ops, |ops|)
    ensures ClientBytes(DeliverAll(Begin(cmd, |ops|), ArrivalsInTurn(u, ops, arrive)).res)
         == Encode(WholeReply(cmd, u, ops))
  {
    hide DeliverAll, ClientBytes, Total, Signed, Hits;
    CountIsSent(cmd, |ops|, ArrivalsInTurn(u, ops, arrive));
  }

  lemma {:induction false} MsetIsWhole(u: Store, ops: seq<Op>, arrive: Schedule)
    requires OpsFor(Mset, ops) && |ops| > 0 && arrive.Valid(|ops|)
    ensures ClientBytes(DeliverAll(Begin(Mset, |ops|), ArrivalsInTurn(u, ops, arrive)).res)
         == Encode(WholeReply(Mset, u, ops))
  {
    hide Answer, Parsed, DeliverAll, ClientBytes, Encode;
    var n := |ops|;
    var a := ArrivalsInTurn(u, ops, arrive);
    forall p | 0 <= p < n ensures a[p].m.kind == KStatus && a[p].m.Wire() == Encode(Reply.Status("OK")) {
      var i := arrive.order[p];
      assert OpFits(Mset, ops[i]);
      AnswerIsTaken(ops[i], Find(StoreAfter(u, ops, i), ops[i].key));
    }
    assert FirstError(a) == n;
    MsetOutcome(n, a);
    LeaderHoldsAll(Mset, n, a);
    OnlyLeaderSends(DeliverAll(Begin(Mset, n), a).res, a[0].m);
  }

  // ----- from the client's command to the ops -----

  function SplitName(cmd: CutCommand): RequestParts.SplitCommand {
    match cmd
    case Mget => RequestParts.Mget
    case Mset => RequestParts.Mset
    case Msetnx => RequestParts.Msetnx
    case Touch => RequestParts.Touch
    case Exists => RequestParts.Exists
    case Del => RequestParts.Del
    case Unlink => RequestParts.Unlink
  }

  /** The op that the arguments from `i` on stand for. */
  function OpAt(cmd: CutCommand, args: seq<string>, i: nat): Op
    requires i + RequestParts.Width(SplitName(cmd).Mode()) <= |args|
  {
    match cmd
    case Mget => Get(args[i])
    case Mset => Put(args[i], args[i + 1])
    case Msetnx => Put(args[i], args[i + 1])
    case Del => Remove(args[i])
    case Unlink => Remove(args[i])
    case Touch => Has(args[i])
    case Exists => Has(args[i])
  }

  /** What a server is sent for the op. */
  function RequestFor(cmd: CutCommand, op: Op): seq<string> {
    [SplitName(cmd).Name(), op.key] + if op.Put? then [op.val] else []
  }

  /** Each part the parser hands over, with its head in front, is exactly the request for one op. */
  lemma {:induction false} PartIsOp(cmd: CutCommand, o: nat, args: seq<string>,
          table: RequestMachine.CommandTable, split: bool, u: nat)
    requires RequestParts.ValidCommand(args, table)
    requires RequestParts.CommandOf(args, table).keys == SplitName(cmd).Mode()
    requires RequestParts.Splits(SplitName(cmd).Mode(), |args|, split)
    requires u < |RequestParts.PartsOf(o, args, table, split)|
    ensures var w := RequestParts.Width(SplitName(cmd).Mode());
            var i := 1 + u * w;
            var p := RequestParts.PartsOf(o, args, table, split)[u];
            && i + w <= |args| && o <= p.reqBegin <= p.reqEnd <= o + |EncodeCommand(args)|
            && SplitName(cmd).Head() + RequestParts.Slice(EncodeCommand(args), o, p.reqBegin, p.reqEnd)
               == EncodeCommand(RequestFor(cmd, OpAt(cmd, args, i)))
  {
    hide EncodeCommand, RequestParts.SplitCommand.Head, RequestParts.SplitCommand.Name;
    hide RequestParts.PartsOf, RequestParts.Slice, RequestParts.ValidCommand;
    RequestParts.SplitMeans(o, args, table, split, u);
    var w := RequestParts.Width(SplitName(cmd).Mode());
    var i := 1 + u * w;
    assert [SplitName(cmd).Name()] + args[i..i + w] == RequestFor(cmd, OpAt(cmd, args, i));
  }

  // ----- in one statement -----

  /** The command is one of those merged, valid, and cut. */
  predicate IsCut(cmd: CutCommand, args: seq<string>, table: RequestMachine.CommandTable, split: bool) {
    && RequestParts.ValidCommand(args, table)
    && RequestParts.CommandOf(args, table).keys == SplitName(cmd).Mode()
    && RequestParts.Splits(SplitName(cmd).Mode(), |args|, split)
  }

  /** One op for each key of the command. */
  function OpsOf(cmd: CutCommand, args: seq<string>): (ops: seq<Op>)
    requires args != []
  {
    var w := RequestParts.Width(SplitName(cmd).Mode());
    seq((|args| - 1) / w, u requires 0 <= u < (|args| - 1) / w => (OpFitsIn(w, u, |args|); OpAt(cmd, args, 1 + u * w)))
  }

  lemma {:induction false} OpFitsIn(w: nat, u: nat, n: nat)
    requires w in {1, 2} && n > 0 && u < (n - 1) / w
    ensures 1 + u * w + w <= n
  {
    if w == 2 { assert 2 * u + 2 <= n - 1; }
  }

  lemma {:induction false} OpsOfFit(cmd: CutCommand, args: seq<string>, table: RequestMachine.CommandTable,
          split: bool)
    requires IsCut(cmd, args, table, split) && cmd != Msetnx
    ensures OpsFor(cmd, OpsOf(cmd, args)) && |OpsOf(cmd, args)| > 0
  {
    hide RequestParts.ValidCommand;
  }

  /** From the bytes of a command that is cut to the bytes of its answer: the parser hands over one part for each
      key, each with its head the request for one op; and in whatever order the shards run these requests and
      their replies arrive, the client gets what one server with all the data answers to the whole command. */
  lemma {:induction false} CutCommandIsWhole(cmd: CutCommand, o: nat, out: seq<RequestMachine.Part>,
          args: seq<string>, table: RequestMachine.CommandTable, split: bool, shard: string -> nat, stores: Stores,
          u: Store, run: Schedule, arrive: Schedule)
    requires IsCut(cmd, args, table, split) && cmd != Msetnx
    requires var ops := OpsOf(cmd, args);
             && run.Valid(|ops|) && run.KeepsShards(shard, ops) && arrive.Valid(|ops|) && IsUnion(shard, stores, u)
    ensures var q := RequestMachine.Run(RequestMachine.Fresh(o, out), EncodeCommand(args), table, split);
            q.At? && q.state == RequestMachine.Finished && q.at == o + |EncodeCommand(args)|
            && q.out == out + RequestParts.PartsOf(o, args, table, split)
    ensures PartsAreOps(cmd, o, args, table, split)
    ensures var ops := OpsOf(cmd, args);
            && ClientBytes(DeliverAll(Begin(cmd, |ops|), Arrivals(shard, stores, ops, run, arrive)).res)
               == Encode(WholeReply(cmd, u, ops))
            && IsUnion(shard, After(shard, stores, ops, run, |ops|), StoreAfter(u, ops, |ops|))
  {
    hide OpsOf, EncodeCommand, RequestParts.ValidCommand, RequestParts.PartsOf, IsUnion, Schedule.KeepsShards;
    hide Schedule.Valid, OpsFor, Encode, ClientBytes, DeliverAll, After, Arrivals;
    RequestParts.CommandIsHandedOver(o, out, args, table, split);
    AllPartsAreOps(cmd, o, args, table, split);
    OpsOfFit(cmd, args, table, split);
    SplitThenMerge(cmd, shard, stores, u, OpsOf(cmd, args), run, arrive);
  }

  /** The parts and the ops are as many, and each part with its head is the request for its op. */
  ghost predicate PartsAreOps(cmd: CutCommand, o: nat, args: seq<string>, table: RequestMachine.CommandTable,
                              split: bool)
    requires IsCut(cmd, args, table, split)
  {
    var ps, ops := RequestParts.PartsOf(o, args, table, split), OpsOf(cmd, args);
    |ps| == |ops| && forall u :: 0 <= u < |ps| ==> PartIsFor(cmd, o, args, ps[u], ops[u])
  }

  predicate PartIsFor(cmd: CutCommand, o: nat, args: seq<string>, p: RequestMachine.Part, op: Op) {
    && o <= p.reqBegin <= p.reqEnd <= o + |EncodeCommand(args)|
    && SplitName(cmd).Head() + RequestParts.Slice(EncodeCommand(args), o, p.reqBegin, p.reqEnd)
       == EncodeCommand(RequestFor(cmd, op))
  }

  lemma {:induction false} AllPartsAreOps(cmd: CutCommand, o: nat, args: seq<string>,
          table: RequestMachine.CommandTable, split: bool)
    requires IsCut(cmd, args, table, split)
    ensures PartsAreOps(cmd, o, args, table, split)
  {
    hide EncodeCommand, RequestParts.Slice, RequestFor, OpAt, RequestParts.SplitCommand.Head;
    var ps, ops := RequestParts.PartsOf(o, args, table, split), OpsOf(cmd, args);
    PartsCount(cmd, o, args, table, split);
    forall u | 0 <= u < |ps| ensures PartIsFor(cmd, o, args, ps[u], ops[u]) {
      PartIsOp(cmd, o, args, table, split, u);
    }
  }

  lemma {:induction false} PartsCount(cmd: CutCommand, o: nat, args: seq<string>,
          table: RequestMachine.CommandTable, split: bool)
    requires IsCut(cmd, args, table, split)
    ensures |RequestParts.PartsOf(o, args, table, split)| == |OpsOf(cmd, args)|
  {
    hide RequestParts.ValidCommand, RequestParts.SplitPart;
  }
}
