/** A client that does not wait: its commands, cut or not, run on the shards, the replies arrive in any order, and what
    the client reads is what one server with all the data would have answered. */
module Pipeline {
  import opened Bytes
  import opened Resp
  import opened ResponseMachine
  import opened Merging
  import opened MergeOutcome
  import opened ShardedStore
  import opened SplitMerge
  import ClientStream

  /** A command that is cut, with its ops and the order in which the replies to its parts arrive; or one with one key
      that is not, with what a server answers it in view of the value. */
  datatype Job =
    | Cut(cmd: CutCommand, parts: seq<Op>, arrive: Schedule)
    | One(op: Op, reply: Option<string> -> Reply)
  {
    ghost predicate Valid() {
      match this
      case Cut(_, _, _) => cmd != Msetnx && OpsFor(cmd, parts) && |parts| > 0 && arrive.Valid(|parts|)
      case One(_, _) => forall v :: WellFormed(reply(v)) && Accepted(reply(v))
    }

    function Ops(): seq<Op> { if Cut? then parts else [op] }

    /** What the one server answers when `u` is its data. */
    function Answer(u: Store): Reply {
      match this
      case Cut(_, _, _) => WholeReply(cmd, u, parts)
      case One(_, _) => reply(Find(u, op.key))
    }
  }

  ghost predicate AllJobs(jobs: seq<Job>) {
    forall c :: 0 <= c < |jobs| ==> jobs[c].Valid()
  }

  /** The parts of all commands, in the order in which they are sent. */
  function AllOps(jobs: seq<Job>): seq<Op> {
    if jobs == [] then [] else AllOps(jobs[..|jobs| - 1]) + jobs[|jobs| - 1].Ops()
  }

  /** The data once all commands have run, one by one, on one server. */
  function DataAfter(u: Store, jobs: seq<Job>): Store {
    StoreAfter(u, AllOps(jobs), |AllOps(jobs)|)
  }

  /** What the one server answers to the commands, one after the other. */
  function Unsplit(u: Store, jobs: seq<Job>): string {
    if jobs == [] then [] else
    var front, job := jobs[..|jobs| - 1], jobs[|jobs| - 1];
    Unsplit(u, front) + Encode(job.Answer(DataAfter(u, front)))
  }

  /** The replies to the parts of command `c` when all runs on the shards by the schedule. */
  ghost function JobArrivals(shard: string -> nat, stores: Stores, jobs: seq<Job>, run: Schedule, c: nat)
    : (a: seq<Arrival>)
    requires AllJobs(jobs) && run.Valid(|AllOps(jobs)|) && c < |jobs| && jobs[c].Cut?
    ensures InRange(a, |jobs[c].parts|)
  {
    var all, job, at := AllOps(jobs), jobs[c], |AllOps(jobs[..c])|;
    OpsInside(jobs, c);
    seq(|job.parts|, p requires 0 <= p < |job.parts| =>
      var i := job.arrive.order[p];
      AnswerIsTaken(all[at + i], SeenAt(shard, stores, all, run, at + i));
      Arrival(i, Parsed(AnswerAt(shard, stores, all, run, at + i))))
  }

  /** Command `c` once all replies to it have arrived. */
  ghost function ServedJob(shard: string -> nat, stores: Stores, jobs: seq<Job>, run: Schedule, c: nat)
    : ClientStream.Command
    requires AllJobs(jobs) && run.Valid(|AllOps(jobs)|) && c < |jobs|
  {
    var job := jobs[c];
    OpsInside(jobs, c);
    match job
    case Cut(cmd, parts, _) => ClientStream.Parts(cmd, |parts|, |parts|, JobArrivals(shard, stores, jobs, run, c))
    case One(_, reply) =>
      ClientStream.Whole(Some(Parsed(reply(SeenAt(shard, stores, AllOps(jobs), run, |AllOps(jobs[..c])|)))))
  }

  /** The commands once all replies have arrived. */
  ghost function Served(shard: string -> nat, stores: Stores, jobs: seq<Job>, run: Schedule)
    : (cs: seq<ClientStream.Command>)
    requires AllJobs(jobs) && run.Valid(|AllOps(jobs)|)
  {
    seq(|jobs|, c requires 0 <= c < |jobs| => ServedJob(shard, stores, jobs, run, c))
  }

  lemma {:induction false} OpsInside(jobs: seq<Job>, c: nat)
    requires c < |jobs|
    ensures AllOps(jobs[..c + 1]) == AllOps(jobs[..c]) + jobs[c].Ops()
    ensures AllOps(jobs[..c + 1]) <= AllOps(jobs)
    decreases |jobs|
  {
    var n := |jobs| - 1;
    assert jobs[..c + 1][..c] == jobs[..c];
    if c < n {
      OpsInside(jobs[..n], c);
      assert jobs[..n][..c + 1] == jobs[..c + 1] && jobs[..n][..c] == jobs[..c];
    } else {
      assert jobs[..c + 1] == jobs;
    }
  }

  lemma {:induction false} StoreOfPrefix(u: Store, ops: seq<Op>, all: seq<Op>, i: nat)
    requires i <= |ops| && ops <= all
    ensures StoreAfter(u, all, i) == StoreAfter(u, ops, i)
  {
    if i > 0 { StoreOfPrefix(u, ops, all, i - 1); }
  }

  lemma {:induction false} StoreGoesOn(u: Store, a: seq<Op>, b: seq<Op>, i: nat)
    requires i <= |b|
    ensures StoreAfter(u, a + b, |a| + i) == StoreAfter(StoreAfter(u, a, |a|), b, i)
  {
    if i == 0 {
      StoreOfPrefix(u, a, a + b, |a|);
    } else {
      StoreGoesOn(u, a, b, i - 1);
      assert (a + b)[|a| + i - 1] == b[i - 1];
    }
  }

  /** An op finds the value that it would if its command ran alone on the data that the commands in front of it have
      left. */
  lemma {:induction false} SeenInJob(shard: string -> nat, stores: Stores, u: Store, jobs: seq<Job>, run: Schedule,
          c: nat, i: nat)
    requires AllJobs(jobs) && run.Valid(|AllOps(jobs)|) && run.KeepsShards(shard, AllOps(jobs))
    requires IsUnion(shard, stores, u) && c < |jobs| && i < |jobs[c].Ops()|
    ensures var (at, op) := (|AllOps(jobs[..c])|, jobs[c].Ops()[i]);
            && at + i < |AllOps(jobs)| && AllOps(jobs)[at + i] == op
            && SeenAt(shard, stores, AllOps(jobs), run, at + i)
               == Find(StoreAfter(DataAfter(u, jobs[..c]), jobs[c].Ops(), i), op.key)
  {
    hide SeenAt, StoreAfter, Schedule.KeepsShards, IsUnion, AllOps, Schedule.Valid, Job.Valid, Job.Ops, Find;
    var all, front, ops := AllOps(jobs), AllOps(jobs[..c]), jobs[c].Ops();
    OpsInside(jobs, c);
    assert (front + ops)[|front| + i] == ops[i];
    SeenOnUnion(shard, stores, u, all, run, |front| + i);
    StoreOfPrefix(u, front + ops, all, |front| + i);
    StoreGoesOn(u, front, ops, i);
  }

  lemma {:induction false} JobInTurn(shard: string -> nat, stores: Stores, u: Store, jobs: seq<Job>, run: Schedule,
          c: nat)
    requires AllJobs(jobs) && run.Valid(|AllOps(jobs)|) && run.KeepsShards(shard, AllOps(jobs))
    requires IsUnion(shard, stores, u) && c < |jobs| && jobs[c].Cut?
    ensures JobArrivals(shard, stores, jobs, run, c)
         == ArrivalsInTurn(DataAfter(u, jobs[..c]), jobs[c].parts, jobs[c].arrive)
  {
    hide SeenAt, Answer, Parsed, Schedule.KeepsShards, IsUnion, DataAfter, AllOps, OpsFor, StoreAfter;
    var job := jobs[c];
    var a, b := JobArrivals(shard, stores, jobs, run, c), ArrivalsInTurn(DataAfter(u, jobs[..c]), job.parts, job.arrive);
    forall p | 0 <= p < |job.parts| ensures a[p] == b[p] {
      SeenInJob(shard, stores, u, jobs, run, c, job.arrive.order[p]);
    }
  }

  /** Each command's answer is that of the one server. */
  lemma {:induction false} JobIsWhole(shard: string -> nat, stores: Stores, u: Store, jobs: seq<Job>, run: Schedule,
          c: nat)
    requires AllJobs(jobs) && run.Valid(|AllOps(jobs)|) && run.KeepsShards(shard, AllOps(jobs))
    requires IsUnion(shard, stores, u) && c < |jobs|
    ensures var x := Served(shard, stores, jobs, run)[c];
            && x.Valid() && x.Complete() && x.Bytes() == Encode(jobs[c].Answer(DataAfter(u, jobs[..c])))
  {
    hide JobArrivals, ArrivalsInTurn, Schedule.KeepsShards, IsUnion, DataAfter, AllOps, Encode, DeliverAll, OpsFor;
    hide Schedule.Valid, SeenAt, Find;
    var before, job := DataAfter(u, jobs[..c]), jobs[c];
    match job {
      case Cut(cmd, parts, arrive) =>
        JobInTurn(shard, stores, u, jobs, run, c);
        ArrivalsAreDistinct(before, parts, arrive);
        MergeIsWhole(cmd, before, parts, arrive);
      case One(op, reply) =>
        SeenInJob(shard, stores, u, jobs, run, c, 0);
        ParsedWire(reply(Find(before, op.key)));
    }
  }

  lemma {:induction false} ParsedWire(r: Reply)
    requires WellFormed(r) && Accepted(r)
    ensures Parsed(r).Wire() == Encode(r)
  {
    hide Encode;
  }

  /** The answers in order are those of the one server. */
  lemma {:induction false} StreamIsUnsplit(shard: string -> nat, stores: Stores, u: Store, jobs: seq<Job>,
          run: Schedule, k: nat)
    requires AllJobs(jobs) && run.Valid(|AllOps(jobs)|) && run.KeepsShards(shard, AllOps(jobs))
    requires IsUnion(shard, stores, u) && k <= |jobs|
    ensures var cs := Served(shard, stores, jobs, run)[..k];
            ClientStream.AllValid(cs) && ClientStream.Stream(cs) == Unsplit(u, jobs[..k])
    decreases k
  {
    hide Served, Schedule.KeepsShards, IsUnion, DataAfter, AllOps, Encode, Job.Answer, Schedule.Valid, Job.Valid;
    hide ClientStream.Command.Bytes, ClientStream.Command.Valid, ClientStream.Command.Complete;
    ServedLength(shard, stores, jobs, run);
    var cs := Served(shard, stores, jobs, run);
    if k == 0 {
      NothingAsked(u);
      assert cs[..0] == [] && jobs[..0] == [];
    } else {
      StreamIsUnsplit(shard, stores, u, jobs, run, k - 1);
      JobIsWhole(shard, stores, u, jobs, run, k - 1);
      assert cs[..k] == cs[..k - 1] + [cs[k - 1]];
      assert jobs[..k][..k - 1] == jobs[..k - 1];
      ClientStream.StreamSnoc(cs[..k - 1], cs[k - 1]);
    }
  }

  lemma {:induction false} ServedLength(shard: string -> nat, stores: Stores, jobs: seq<Job>, run: Schedule)
    requires AllJobs(jobs) && run.Valid(|AllOps(jobs)|)
    ensures |Served(shard, stores, jobs, run)| == |jobs|
  {
  }

  lemma {:induction false} NothingAsked(u: Store)
    ensures ClientStream.Stream([]) == [] && Unsplit(u, []) == []
  {
  }

  /** For every assignment of keys to shards, every run of all parts of all commands that keeps their order on
      each shard, every order of arrival and every interleaving of arrivals and writes: what the client has got is
      the beginning of what one server with all the data answers to the commands one after the other, and all of
      it once nothing is left to answer and to write. */
  lemma {:induction false} PipelineLooksUnsplit(cl: ClientStream.Client, shard: string -> nat, stores: Stores,
          u: Store, jobs: seq<Job>, run: Schedule)
    requires AllJobs(jobs) && run.Valid(|AllOps(jobs)|) && run.KeepsShards(shard, AllOps(jobs))
    requires IsUnion(shard, stores, u)
    requires cl.Valid() && ClientStream.Grows(cl.commands, Served(shard, stores, jobs, run))
    ensures cl.conn.wire <= Unsplit(u, jobs)
    ensures cl.commands == Served(shard, stores, jobs, run) && cl.NothingLeft() ==> cl.conn.wire == Unsplit(u, jobs)
    ensures IsUnion(shard, After(shard, stores, AllOps(jobs), run, |AllOps(jobs)|), DataAfter(u, jobs))
  {
    hide Served, Schedule.KeepsShards, IsUnion, AllOps, Encode, Job.Answer, Schedule.Valid, Job.Valid, Unsplit;
    hide ClientStream.Stream, ClientStream.Client.Valid, ClientStream.Client.NothingLeft;
    hide ClientStream.Command.GrowsInto, ClientStream.Command.Valid, ClientStream.Command.Complete;
    var cs := Served(shard, stores, jobs, run);
    ServedLength(shard, stores, jobs, run);
    StreamIsUnsplit(shard, stores, u, jobs, run, |jobs|);
    assert cs[..|jobs|] == cs && jobs[..|jobs|] == jobs;
    ClientStream.ClientIsInTurn(cl);
    ClientStream.ClientGetsAnswers(cl, cs);
    if cl.commands == cs && cl.NothingLeft() {
      forall c | 0 <= c < |cs| ensures cs[c].Complete() { JobIsWhole(shard, stores, u, jobs, run, c); }
      ClientStream.AllIsSent(cl);
    }
    DataIsWhole(shard, stores, u, AllOps(jobs), run);
  }
}
