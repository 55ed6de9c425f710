/** The data behind the proxy: one store per shard, each key on the shard it hashes to. The parts of a
    command run in any order that keeps the order of the parts for one shard. */
module ShardedStore {
  import opened Bytes
  import opened Resp

  type Store = map<string, string>
  type Stores = map<nat, Store>

  /** What a server does for the part of a command with one key, or for any other command with one key, which
      may change the value in any way. */
  datatype Op =
    | Get(key: string) | Put(key: string, val: string) | Remove(key: string) | Has(key: string)
    | Change(key: string, f: Option<string> -> Option<string>)

  function Lookup(shard: string -> nat, stores: Stores, k: string): Option<string> {
    if shard(k) in stores && k in stores[shard(k)] then Some(stores[shard(k)][k]) else None
  }

  /** The value of the op's key after the op. */
  function Effect(op: Op, v: Option<string>): Option<string> {
    match op
    case Put(_, val) => Some(val)
    case Remove(_) => None
    case Change(_, f) => f(v)
    case _ => v
  }

  function BulkOf(v: Option<string>): Reply {
    if v.Some? then Bulk(v.value) else NullBulk
  }

  /** What the server answers: mget, mset, del or unlink, and exists or touch, of one key. */
  function Answer(op: Op, v: Option<string>): Reply {
    match op
    case Get(_) => Array([BulkOf(v)])
    case Put(_, _) => Status("OK")
    case _ => Integer(if v.Some? then 1 else 0)
  }

  function Exec(shard: string -> nat, stores: Stores, op: Op): Stores {
    var s := shard(op.key);
    var store := if s in stores then stores[s] else map[];
    match Effect(op, Lookup(shard, stores, op.key))
    case Some(v) => stores[s := store[op.key := v]]
    case None => stores[s := store - {op.key}]
  }

  lemma {:induction false} ExecLookup(shard: string -> nat, stores: Stores, op: Op, k: string)
    ensures Lookup(shard, Exec(shard, stores, op), k)
         == if k == op.key then Effect(op, Lookup(shard, stores, k)) else Lookup(shard, stores, k)
  {
  }

  /** An order in which `n` things happen, and when each of them happens. */
  datatype Schedule = Schedule(order: seq<nat>, when: seq<nat>) {
    predicate Valid(n: nat) {
      && |order| == |when| == n
      && (forall i :: 0 <= i < n ==> when[i] < n && order[when[i]] == i)
      && (forall p :: 0 <= p < n ==> order[p] < n && when[order[p]] == p)
    }

    /** Ops on one shard run in the order of the parts. */
    predicate KeepsShards(shard: string -> nat, ops: seq<Op>) {
      Valid(|ops|) && forall i, j :: 0 <= i < j < |ops| && shard(ops[i].key) == shard(ops[j].key) ==> when[i] < when[j]
    }
  }

  /** The stores after the first `t` ops of the schedule. */
  function After(shard: string -> nat, stores: Stores, ops: seq<Op>, s: Schedule, t: nat): Stores
    requires s.Valid(|ops|) && t <= |ops|
  {
    if t == 0 then stores else Exec(shard, After(shard, stores, ops, s, t - 1), ops[s.order[t - 1]])
  }

  /** The value that op `i` finds, and what it is answered. */
  function SeenAt(shard: string -> nat, stores: Stores, ops: seq<Op>, s: Schedule, i: nat): Option<string>
    requires s.Valid(|ops|) && i < |ops|
  {
    Lookup(shard, After(shard, stores, ops, s, s.when[i]), ops[i].key)
  }

  function AnswerAt(shard: string -> nat, stores: Stores, ops: seq<Op>, s: Schedule, i: nat): Reply
    requires s.Valid(|ops|) && i < |ops|
  {
    Answer(ops[i], SeenAt(shard, stores, ops, s, i))
  }

  /** The value of `k` in front of op `i` when the ops simply run one after the other on one store. */
  function InTurn(ops: seq<Op>, i: nat, k: string, v: Option<string>): Option<string>
    requires i <= |ops|
  {
    if i == 0 then v
    else if ops[i - 1].key == k then Effect(ops[i - 1], InTurn(ops, i - 1, k, v))
    else InTurn(ops, i - 1, k, v)
  }

  lemma {:induction false} Untouched(shard: string -> nat, stores: Stores, ops: seq<Op>, s: Schedule, a: nat,
          b: nat, k: string)
    requires s.Valid(|ops|) && a <= b <= |ops|
    requires forall p :: a <= p < b ==> ops[s.order[p]].key != k
    ensures Lookup(shard, After(shard, stores, ops, s, b), k) == Lookup(shard, After(shard, stores, ops, s, a), k)
    decreases b - a
  {
    if a < b {
      Untouched(shard, stores, ops, s, a, b - 1, k);
      ExecLookup(shard, After(shard, stores, ops, s, b - 1), ops[s.order[b - 1]], k);
    }
  }

  /** At time `t` exactly the ops on `k` below `i` have run. */
  predicate RunBelow(ops: seq<Op>, s: Schedule, t: nat, i: nat, k: string)
    requires s.Valid(|ops|) && t <= |ops| && i <= |ops|
  {
    && (forall p :: 0 <= p < t && ops[s.order[p]].key == k ==> s.order[p] < i)
    && (forall m :: 0 <= m < i && ops[m].key == k ==> s.when[m] < t)
  }

  /** Whatever the schedule, a key's value is what the ops on it, in the order of the parts, have made of it. */
  lemma {:induction false} ValueIsInTurn(shard: string -> nat, stores: Stores, ops: seq<Op>, s: Schedule, t: nat,
          i: nat, k: string)
    requires s.Valid(|ops|) && s.KeepsShards(shard, ops) && t <= |ops| && i <= |ops| && RunBelow(ops, s, t, i, k)
    ensures Lookup(shard, After(shard, stores, ops, s, t), k) == InTurn(ops, i, k, Lookup(shard, stores, k))
    decreases i
  {
    hide Lookup, Exec, RunBelow, Schedule.KeepsShards;
    RunBelowSteps(ops, s, t, i, k);
    if i == 0 {
      Untouched(shard, stores, ops, s, 0, t, k);
    } else if ops[i - 1].key != k {
      ValueIsInTurn(shard, stores, ops, s, t, i - 1, k);
    } else {
      var j := i - 1;
      var w := s.when[j];
      OnlyOneBetween(shard, ops, s, t, j, k);
      Untouched(shard, stores, ops, s, w + 1, t, k);
      ExecLookup(shard, After(shard, stores, ops, s, w), ops[j], k);
      ValueIsInTurn(shard, stores, ops, s, w, j, k);
    }
  }

  lemma {:induction false} RunBelowSteps(ops: seq<Op>, s: Schedule, t: nat, i: nat, k: string)
    requires s.Valid(|ops|) && t <= |ops| && i <= |ops| && RunBelow(ops, s, t, i, k)
    ensures i == 0 ==> forall p :: 0 <= p < t ==> ops[s.order[p]].key != k
    ensures i > 0 && ops[i - 1].key != k ==> RunBelow(ops, s, t, i - 1, k)
  {
  }

  /** Between op `j` and time `t` no op on its key runs, and in front of op `j` exactly those below it have. */
  lemma {:induction false} OnlyOneBetween(shard: string -> nat, ops: seq<Op>, s: Schedule, t: nat, j: nat, k: string)
    requires s.KeepsShards(shard, ops) && t <= |ops| && j < |ops| && ops[j].key == k && RunBelow(ops, s, t, j + 1, k)
    ensures s.when[j] < t && RunBelow(ops, s, s.when[j], j, k)
    ensures forall p :: s.when[j] < p < t ==> ops[s.order[p]].key != k
  {
    forall p | s.when[j] < p < t ensures ops[s.order[p]].key != k {
      var m := s.order[p];
      assert s.when[m] == p;
    }
    forall p | 0 <= p < s.when[j] && ops[s.order[p]].key == k ensures s.order[p] < j {
      var m := s.order[p];
      assert s.when[m] == p;
    }
  }

  /** Every op finds the value that it would if the ops ran in turn on one store. */
  lemma {:induction false} SeenInTurn(shard: string -> nat, stores: Stores, ops: seq<Op>, s: Schedule, i: nat)
    requires s.Valid(|ops|) && s.KeepsShards(shard, ops) && i < |ops|
    ensures SeenAt(shard, stores, ops, s, i) == InTurn(ops, i, ops[i].key, Lookup(shard, stores, ops[i].key))
  {
    forall p | 0 <= p < s.when[i] && ops[s.order[p]].key == ops[i].key ensures s.order[p] < i {
      assert s.when[s.order[p]] == p;
    }
    ValueIsInTurn(shard, stores, ops, s, s.when[i], i, ops[i].key);
  }

  /** Every part is answered as if the parts ran in turn on one store, and the stores end up the same. */
  lemma {:induction false} AnswersAreInTurn(shard: string -> nat, stores: Stores, ops: seq<Op>, s: Schedule)
    requires s.KeepsShards(shard, ops)
    ensures forall i :: 0 <= i < |ops| ==>
              AnswerAt(shard, stores, ops, s, i)
              == Answer(ops[i], InTurn(ops, i, ops[i].key, Lookup(shard, stores, ops[i].key)))
    ensures forall k :: Lookup(shard, After(shard, stores, ops, s, |ops|), k)
                     == InTurn(ops, |ops|, k, Lookup(shard, stores, k))
  {
    forall i | 0 <= i < |ops|
      ensures AnswerAt(shard, stores, ops, s, i)
           == Answer(ops[i], InTurn(ops, i, ops[i].key, Lookup(shard, stores, ops[i].key)))
    {
      SeenInTurn(shard, stores, ops, s, i);
    }
    forall k ensures Lookup(shard, After(shard, stores, ops, s, |ops|), k) == InTurn(ops, |ops|, k, Lookup(shard, stores, k)) {
      ValueIsInTurn(shard, stores, ops, s, |ops|, |ops|, k);
    }
  }

  /** `u` is all shards together. */
  ghost predicate IsUnion(shard: string -> nat, stores: Stores, u: Store) {
    forall k :: Lookup(shard, stores, k) == Find(u, k)
  }

  function Find(u: Store, k: string): Option<string> {
    if k in u then Some(u[k]) else None
  }
}
