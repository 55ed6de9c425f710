/** The memory limit that all threads share, and the free lists each thread keeps for each type, as a state machine
    over the single reads and writes of `create` and `destroy` (src/Alloc.h). */
module Allocation {
  import opened Bytes

  /** A type `T` with `sizeof(T)` and its `CacheSize`. */
  datatype Kind = Kind(name: nat, size: nat, cache: nat)

  datatype Block = Block(addr: nat, kind: Kind)

  /** `Free` and `Size` of one type in one thread. */
  datatype List = List(kind: Kind, blocks: seq<Block>)

  /** Where a call of `create` or `destroy` is; `l` is the free list of its thread and type. */
  datatype Call =
    | Done
    | Reserved(l: nat, kind: Kind)
    | Allowed(l: nat, kind: Kind)
    | Refused(kind: Kind)
    | Building(l: nat, b: Block, reused: bool)
    | Doomed(b: Block)
    | Deleting(b: Block)

  /** `used` and `limit` are `UsedMemory` and `MaxMemory`; `physical` is what the system has given and not got
      back. */
  datatype State = State(used: int, limit: nat, live: seq<Block>, lists: seq<List>, calls: seq<Call>,
                         physical: seq<Block>)

  predicate HasAddress(bs: seq<Block>, addr: nat) {
    exists i :: 0 <= i < |bs| && bs[i].addr == addr
  }

  /** The system takes back what is at an address. */
  function GivenBack(bs: seq<Block>, addr: nat): seq<Block> {
    if bs == [] then [] else if bs[0].addr == addr then bs[1..] else [bs[0]] + GivenBack(bs[1..], addr)
  }

  datatype Step =
    | NewList(kind: Kind)
    | Create(l: nat)
    | Check(c: nat)
    | New(c: nat, addr: Option<nat>)
    | GiveUp(c: nat)
    | Built(c: nat, ok: bool)
    | Destroy(i: nat, l: nat)
    | Subtract(c: nat)
    | Delete(c: nat)

  function Initial(limit: nat): State { State(0, limit, [], [], [], []) }

  predicate Enabled(s: State, step: Step) {
    match step
    case NewList(_) => true
    case Create(l) => l < |s.lists|
    case Check(c) => c < |s.calls| && s.calls[c].Reserved?
    case New(c, a) => c < |s.calls| && s.calls[c].Allowed? && (a.Some? ==> !HasAddress(s.physical, a.value))
    case GiveUp(c) => c < |s.calls| && s.calls[c].Refused?
    case Built(c, _) => c < |s.calls| && s.calls[c].Building? && s.calls[c].l < |s.lists|
    case Destroy(i, l) => i < |s.live| && l < |s.lists| && s.lists[l].kind == s.live[i].kind
    case Subtract(c) => c < |s.calls| && s.calls[c].Doomed?
    case Delete(c) => c < |s.calls| && s.calls[c].Deleting?
  }

  function WithCall(s: State, c: nat, call: Call): State
    requires c < |s.calls|
  {
    s.(calls := s.calls[c := call])
  }

  /** `Free[Size++] = obj` */
  function Cached(s: State, l: nat, b: Block): State
    requires l < |s.lists|
  {
    s.(lists := s.lists[l := s.lists[l].(blocks := s.lists[l].blocks + [b])])
  }

  function Next(s: State, step: Step): State
    requires Enabled(s, step)
  {
    match step
    case NewList(k) => s.(lists := s.lists + [List(k, [])])
    case Create(l) =>
      var bs := s.lists[l].blocks;
      if bs != [] then
        s.(lists := s.lists[l := s.lists[l].(blocks := bs[..|bs| - 1])],
           calls := s.calls + [Building(l, bs[|bs| - 1], true)])
      else
        s.(used := s.used + s.lists[l].kind.size, calls := s.calls + [Reserved(l, s.lists[l].kind)])
    case Check(c) =>
      var x := s.calls[c];
      WithCall(s, c, if s.limit == 0 || s.used <= s.limit then Allowed(x.l, x.kind) else Refused(x.kind))
    case New(c, addr) =>
      var x := s.calls[c];
      if addr.Some?
      then
        var b := Block(addr.value, x.kind);
        WithCall(s, c, Building(x.l, b, false)).(physical := s.physical + [b])
      else WithCall(s, c, Refused(x.kind))
    case GiveUp(c) => WithCall(s, c, Done).(used := s.used - s.calls[c].kind.size)
    case Built(c, ok) =>
      var x := s.calls[c];
      if ok then WithCall(s, c, Done).(live := s.live + [x.b])
      else if x.reused && |s.lists[x.l].blocks| < s.lists[x.l].kind.cache
      then Cached(WithCall(s, c, Done), x.l, x.b)
      else WithCall(s, c, Doomed(x.b))
    case Destroy(i, l) =>
      var b := s.live[i];
      var s1 := s.(live := s.live[..i] + s.live[i + 1..]);
      if |s.lists[l].blocks| < s.lists[l].kind.cache
      then Cached(s1, l, b)
      else s1.(calls := s.calls + [Doomed(b)])
    case Subtract(c) => WithCall(s, c, Deleting(s.calls[c].b)).(used := s.used - s.calls[c].b.kind.size)
    case Delete(c) => WithCall(s, c, Done).(physical := GivenBack(s.physical, s.calls[c].b.addr))
  }

  // ----- sums over blocks, lists and calls -----

  /** What is summed: bytes, or the occurrences of an address or of a block. */
  datatype Weight = InBytes | Of(addr: nat) | Same(block: Block) {
    function One(b: Block): nat {
      match this
      case InBytes => b.kind.size
      case Of(addr) => if b.addr == addr then 1 else 0
      case Same(block) => if b == block then 1 else 0
    }
  }

  function Sum(bs: seq<Block>, w: Weight): nat {
    if bs == [] then 0 else w.One(bs[0]) + Sum(bs[1..], w)
  }

  function SumLists(ls: seq<List>, w: Weight): nat {
    if ls == [] then 0 else Sum(ls[0].blocks, w) + SumLists(ls[1..], w)
  }

  /** Which calls count: those that still account for a block, those about to delete one, those that have
      reserved memory for one, and of these the ones that may go on to allocate. */
  datatype Role = Accounting | Disposing | Reserving | Allocating

  function Share(c: Call, r: Role, w: Weight): nat {
    match r
    case Accounting => if c.Building? || c.Doomed? then w.One(c.b) else 0
    case Disposing => if c.Deleting? then w.One(c.b) else 0
    case Reserving => if c.Reserved? || c.Allowed? || c.Refused? then c.kind.size else 0
    case Allocating => if c.Allowed? then c.kind.size else 0
  }

  function SumCalls(cs: seq<Call>, r: Role, w: Weight): nat {
    if cs == [] then 0 else Share(cs[0], r, w) + SumCalls(cs[1..], r, w)
  }

  lemma {:induction false} SumConcat(a: seq<Block>, b: seq<Block>, w: Weight)
    ensures Sum(a + b, w) == Sum(a, w) + Sum(b, w)
  {
    if a == [] {
      assert a + b == b;
    } else {
      SumConcat(a[1..], b, w);
      assert (a + b)[1..] == a[1..] + b;
    }
  }

  lemma {:induction false} SumOne(b: Block, w: Weight)
    ensures Sum([b], w) == w.One(b)
  {
    assert Sum([b][1..], w) == 0;
  }

  lemma {:induction false} SumTakeOut(bs: seq<Block>, i: nat, w: Weight)
    requires i < |bs|
    ensures Sum(bs, w) == Sum(bs[..i] + bs[i + 1..], w) + w.One(bs[i])
  {
    hide Sum, Weight.One;
    assert bs == bs[..i] + ([bs[i]] + bs[i + 1..]);
    SumConcat(bs[..i], [bs[i]] + bs[i + 1..], w);
    SumConcat([bs[i]], bs[i + 1..], w);
    SumConcat(bs[..i], bs[i + 1..], w);
    SumOne(bs[i], w);
  }

  lemma {:induction false} SumListsUpdate(ls: seq<List>, i: nat, x: List, w: Weight)
    requires i < |ls|
    ensures SumLists(ls[i := x], w) + Sum(ls[i].blocks, w) == SumLists(ls, w) + Sum(x.blocks, w)
  {
    hide Sum;
    if i == 0 {
      assert ls[0 := x][1..] == ls[1..];
    } else {
      SumListsUpdate(ls[1..], i - 1, x, w);
      assert ls[i := x][1..] == ls[1..][i - 1 := x];
    }
  }

  lemma {:induction false} SumListsAdd(ls: seq<List>, x: List, w: Weight)
    ensures SumLists(ls + [x], w) == SumLists(ls, w) + Sum(x.blocks, w)
  {
    hide Sum;
    if ls == [] {
      assert SumLists([x][1..], w) == 0;
    } else {
      SumListsAdd(ls[1..], x, w);
      assert (ls + [x])[1..] == ls[1..] + [x];
    }
  }

  lemma {:induction false} SumCallsUpdate(cs: seq<Call>, i: nat, x: Call, r: Role, w: Weight)
    requires i < |cs|
    ensures SumCalls(cs[i := x], r, w) + Share(cs[i], r, w) == SumCalls(cs, r, w) + Share(x, r, w)
  {
    hide Share;
    if i == 0 {
      assert cs[0 := x][1..] == cs[1..];
    } else {
      SumCallsUpdate(cs[1..], i - 1, x, r, w);
      assert cs[i := x][1..] == cs[1..][i - 1 := x];
    }
  }

  lemma {:induction false} SumCallsAdd(cs: seq<Call>, x: Call, r: Role, w: Weight)
    ensures SumCalls(cs + [x], r, w) == SumCalls(cs, r, w) + Share(x, r, w)
  {
    hide Share;
    if cs == [] {
      assert SumCalls([x][1..], r, w) == 0;
    } else {
      SumCallsAdd(cs[1..], x, r, w);
      assert (cs + [x])[1..] == cs[1..] + [x];
    }
  }

  // ----- the invariant -----

  /** Blocks in use, cached, or held by a call that still accounts for them. */
  function Held(s: State, w: Weight): nat {
    Sum(s.live, w) + SumLists(s.lists, w) + SumCalls(s.calls, Accounting, w)
  }

  function Disposed(s: State, w: Weight): nat { SumCalls(s.calls, Disposing, w) }

  function ReservedBytes(s: State): nat { SumCalls(s.calls, Reserving, InBytes) }

  function AllowedBytes(s: State): nat { SumCalls(s.calls, Allocating, InBytes) }

  predicate ListOk(x: List) {
    && |x.blocks| <= x.kind.cache
    && forall i :: 0 <= i < |x.blocks| ==> x.blocks[i].kind == x.kind
  }

  predicate CallOk(ls: seq<List>, c: Call) {
    && (c.Building? ==> c.l < |ls| && ls[c.l].kind == c.b.kind)
    && (c.Reserved? || c.Allowed? ==> c.l < |ls| && ls[c.l].kind == c.kind)
  }

  predicate Kinds(s: State) {
    && (forall i :: 0 <= i < |s.lists| ==> ListOk(s.lists[i]))
    && (forall i :: 0 <= i < |s.calls| ==> CallOk(s.lists, s.calls[i]))
  }

  /** What the system has given is what is in use, cached, or held by a call, whatever is counted. */
  predicate Placed(s: State, w: Weight) {
    Held(s, w) + Disposed(s, w) == Sum(s.physical, w)
  }

  /** The system has given each address once at most. */
  predicate GivenOnce(s: State, addr: nat) {
    Sum(s.physical, Of(addr)) <= 1
  }

  predicate Counted(s: State) {
    && s.used == Held(s, InBytes) + ReservedBytes(s)
    && (s.limit > 0 ==> Held(s, InBytes) + AllowedBytes(s) <= s.limit)
  }

  ghost predicate Valid(s: State) {
    Kinds(s) && Counted(s) && (forall w :: Placed(s, w)) && (forall a :: GivenOnce(s, a))
  }

  // ----- what a step changes -----

  lemma {:induction false} CallMoves(s: State, c: nat, x: Call, w: Weight)
    requires c < |s.calls|
    ensures var t := WithCall(s, c, x);
            && Held(t, w) + Share(s.calls[c], Accounting, w) == Held(s, w) + Share(x, Accounting, w)
            && Disposed(t, w) + Share(s.calls[c], Disposing, w) == Disposed(s, w) + Share(x, Disposing, w)
            && ReservedBytes(t) + Share(s.calls[c], Reserving, InBytes)
               == ReservedBytes(s) + Share(x, Reserving, InBytes)
            && AllowedBytes(t) + Share(s.calls[c], Allocating, InBytes)
               == AllowedBytes(s) + Share(x, Allocating, InBytes)
  {
    hide Share, Sum, SumLists, SumCalls;
    SumCallsUpdate(s.calls, c, x, Accounting, w);
    SumCallsUpdate(s.calls, c, x, Disposing, w);
    SumCallsUpdate(s.calls, c, x, Reserving, InBytes);
    SumCallsUpdate(s.calls, c, x, Allocating, InBytes);
  }

  lemma {:induction false} CallStarts(s: State, x: Call, w: Weight)
    ensures var t := s.(calls := s.calls + [x]);
            && Held(t, w) == Held(s, w) + Share(x, Accounting, w)
            && Disposed(t, w) == Disposed(s, w) + Share(x, Disposing, w)
            && ReservedBytes(t) == ReservedBytes(s) + Share(x, Reserving, InBytes)
            && AllowedBytes(t) == AllowedBytes(s) + Share(x, Allocating, InBytes)
  {
    hide Share, Sum, SumLists, SumCalls;
    SumCallsAdd(s.calls, x, Accounting, w);
    SumCallsAdd(s.calls, x, Disposing, w);
    SumCallsAdd(s.calls, x, Reserving, InBytes);
    SumCallsAdd(s.calls, x, Allocating, InBytes);
  }

  lemma {:induction false} CachedMoves(s: State, l: nat, b: Block, w: Weight)
    requires l < |s.lists|
    ensures Held(Cached(s, l, b), w) == Held(s, w) + w.One(b)
  {
    hide Share, Sum, SumLists, SumCalls, Weight.One;
    SumListsUpdate(s.lists, l, s.lists[l].(blocks := s.lists[l].blocks + [b]), w);
    SumConcat(s.lists[l].blocks, [b], w);
    SumOne(b, w);
  }

  /** A block is taken off a free list. */
  function Uncached(s: State, l: nat): State
    requires l < |s.lists| && s.lists[l].blocks != []
  {
    var bs := s.lists[l].blocks;
    s.(lists := s.lists[l := s.lists[l].(blocks := bs[..|bs| - 1])])
  }

  lemma {:induction false} UncachedMoves(s: State, l: nat, w: Weight)
    requires l < |s.lists| && s.lists[l].blocks != []
    ensures var bs := s.lists[l].blocks; Held(Uncached(s, l), w) + w.One(bs[|bs| - 1]) == Held(s, w)
  {
    hide Share, Sum, SumLists, SumCalls, Weight.One;
    var bs := s.lists[l].blocks;
    assert bs == bs[..|bs| - 1] + [bs[|bs| - 1]];
    SumListsUpdate(s.lists, l, s.lists[l].(blocks := bs[..|bs| - 1]), w);
    SumConcat(bs[..|bs| - 1], [bs[|bs| - 1]], w);
    SumOne(bs[|bs| - 1], w);
  }

  datatype Effect = Effect(held: int, disposed: int, reserved: int, allowed: int)

  function EffectOf(s: State, step: Step, w: Weight): Effect
    requires Enabled(s, step)
  {
    match step
    case NewList(_) => Effect(0, 0, 0, 0)
    case Create(l) => Effect(0, 0, if s.lists[l].blocks != [] then 0 else s.lists[l].kind.size, 0)
    case Check(c) =>
      Effect(0, 0, 0, if s.limit == 0 || s.used <= s.limit then s.calls[c].kind.size else 0)
    case New(c, addr) =>
      var size: int := s.calls[c].kind.size;
      if addr.Some? then Effect(w.One(Block(addr.value, s.calls[c].kind)), 0, -size, -size)
      else Effect(0, 0, 0, -size)
    case GiveUp(c) => Effect(0, 0, -(s.calls[c].kind.size as int), 0)
    case Built(_, _) => Effect(0, 0, 0, 0)
    case Destroy(_, _) => Effect(0, 0, 0, 0)
    case Subtract(c) => Effect(-(w.One(s.calls[c].b) as int), w.One(s.calls[c].b), 0, 0)
    case Delete(c) => Effect(0, -(w.One(s.calls[c].b) as int), 0, 0)
  }

  predicate HasEffect(s: State, t: State, w: Weight, e: Effect) {
    && Held(t, w) == Held(s, w) + e.held && Disposed(t, w) == Disposed(s, w) + e.disposed
    && ReservedBytes(t) == ReservedBytes(s) + e.reserved && AllowedBytes(t) == AllowedBytes(s) + e.allowed
  }

  lemma {:induction false} SameSums(s: State, t: State, w: Weight)
    requires s.live == t.live && s.lists == t.lists && s.calls == t.calls
    ensures HasEffect(s, t, w, Effect(0, 0, 0, 0))
  {
  }

  lemma {:induction false} EffectOfCreate(s: State, l: nat, w: Weight)
    requires Enabled(s, Create(l))
    ensures HasEffect(s, Next(s, Create(l)), w, EffectOf(s, Create(l), w))
  {
    hide Held, Disposed, ReservedBytes, AllowedBytes, Weight.One;
    var bs, t := s.lists[l].blocks, Next(s, Create(l));
    if bs != [] {
      var s1 := Uncached(s, l);
      UncachedMoves(s, l, w);
      SameCalls(s, s1, w);
      CallStarts(s1, Building(l, bs[|bs| - 1], true), w);
      SameSums(s1.(calls := s1.calls + [Building(l, bs[|bs| - 1], true)]), t, w);
    } else {
      var x := Reserved(l, s.lists[l].kind);
      CallStarts(s, x, w);
      SameSums(s.(calls := s.calls + [x]), t, w);
    }
  }

  lemma {:induction false} SameCalls(s: State, t: State, w: Weight)
    requires s.calls == t.calls
    ensures Disposed(s, w) == Disposed(t, w) && ReservedBytes(s) == ReservedBytes(t)
    ensures AllowedBytes(s) == AllowedBytes(t)
  {
  }

  lemma {:induction false} EffectOfBuilt(s: State, c: nat, ok: bool, w: Weight)
    requires Enabled(s, Built(c, ok))
    ensures HasEffect(s, Next(s, Built(c, ok)), w, Effect(0, 0, 0, 0))
  {
    hide Held, Disposed, ReservedBytes, AllowedBytes, Weight.One;
    var x, t := s.calls[c], Next(s, Built(c, ok));
    CallMoves(s, c, Done, w);
    CallMoves(s, c, Doomed(x.b), w);
    var s1 := WithCall(s, c, Done);
    if ok {
      LiveMoves(s1, x.b, w);
      SameCalls(s1, t, w);
    } else if x.reused && |s.lists[x.l].blocks| < s.lists[x.l].kind.cache {
      CachedMoves(s1, x.l, x.b, w);
      SameCalls(s1, t, w);
    }
  }

  lemma {:induction false} LiveMoves(s: State, b: Block, w: Weight)
    ensures Held(s.(live := s.live + [b]), w) == Held(s, w) + w.One(b)
  {
    hide Sum, SumLists, SumCalls, Weight.One;
    SumConcat(s.live, [b], w);
    SumOne(b, w);
  }

  lemma {:induction false} EffectOfDestroy(s: State, i: nat, l: nat, w: Weight)
    requires Enabled(s, Destroy(i, l))
    ensures HasEffect(s, Next(s, Destroy(i, l)), w, Effect(0, 0, 0, 0))
  {
    hide Disposed, ReservedBytes, AllowedBytes, Weight.One, Sum, SumLists, SumCalls;
    var b, t := s.live[i], Next(s, Destroy(i, l));
    var s1 := s.(live := s.live[..i] + s.live[i + 1..]);
    SumTakeOut(s.live, i, w);
    assert Held(s1, w) + w.One(b) == Held(s, w);
    SameCalls(s, s1, w);
    if |s.lists[l].blocks| < s.lists[l].kind.cache {
      CachedMoves(s1, l, b, w);
      SameCalls(s1, t, w);
    } else {
      CallStarts(s1, Doomed(b), w);
    }
  }

  lemma {:induction false} EffectOfNewList(s: State, k: Kind, w: Weight)
    ensures HasEffect(s, Next(s, NewList(k)), w, Effect(0, 0, 0, 0))
  {
    hide SumLists, SumCalls;
    SumListsAdd(s.lists, List(k, []), w);
    SameCalls(s, Next(s, NewList(k)), w);
  }

  /** Steps that change a call and nothing else that is summed. */
  lemma {:induction false} EffectOfCall(s: State, step: Step, c: nat, x: Call, w: Weight)
    requires Enabled(s, step) && c < |s.calls|
    requires step.Check? || step.New? || step.GiveUp? || step.Subtract? || step.Delete?
    requires c == step.c && x == Next(s, step).calls[c]
    ensures HasEffect(s, Next(s, step), w, EffectOf(s, step, w))
  {
    hide Held, Disposed, ReservedBytes, AllowedBytes, Weight.One;
    CallMoves(s, c, x, w);
    SameSums(WithCall(s, c, x), Next(s, step), w);
  }

  lemma {:induction false} StepHasEffect(s: State, step: Step, w: Weight)
    requires Enabled(s, step)
    ensures HasEffect(s, Next(s, step), w, EffectOf(s, step, w))
  {
    hide HasEffect;
    match step
    case NewList(k) => EffectOfNewList(s, k, w);
    case Create(l) => EffectOfCreate(s, l, w);
    case Built(c, ok) => EffectOfBuilt(s, c, ok, w);
    case Destroy(i, l) => EffectOfDestroy(s, i, l, w);
    case Check(c) => EffectOfCall(s, step, c, Next(s, step).calls[c], w);
    case New(c, _) => EffectOfCall(s, step, c, Next(s, step).calls[c], w);
    case GiveUp(c) => EffectOfCall(s, step, c, Next(s, step).calls[c], w);
    case Subtract(c) => EffectOfCall(s, step, c, Next(s, step).calls[c], w);
    case Delete(c) => EffectOfCall(s, step, c, Next(s, step).calls[c], w);
  }

  // ----- every step keeps the invariant -----

  /** What may be allocated has been reserved, and what call `c` is about to check is not among it yet. */
  lemma {:induction false} AllowedIsReserved(cs: seq<Call>, c: nat)
    ensures SumCalls(cs, Allocating, InBytes) <= SumCalls(cs, Reserving, InBytes)
    ensures c < |cs| && cs[c].Reserved? ==>
              SumCalls(cs, Allocating, InBytes) + cs[c].kind.size <= SumCalls(cs, Reserving, InBytes)
  {
    if cs != [] {
      AllowedIsReserved(cs[1..], if c == 0 then 0 else c - 1);
    }
  }

  lemma {:induction false} NextCounted(s: State, step: Step)
    requires Counted(s) && Enabled(s, step)
    ensures Counted(Next(s, step))
  {
    hide Held, Disposed;
    StepHasEffect(s, step, InBytes);
    if step.Check? { AllowedIsReserved(s.calls, step.c); }
  }

  lemma {:induction false} InSum(bs: seq<Block>, i: nat)
    requires i < |bs|
    ensures Sum(bs, Of(bs[i].addr)) >= 1
  {
    SumTakeOut(bs, i, Of(bs[i].addr));
  }

  lemma {:induction false} NoAddressNoSum(bs: seq<Block>, addr: nat)
    requires !HasAddress(bs, addr)
    ensures Sum(bs, Of(addr)) == 0
  {
    if bs != [] {
      assert bs[0].addr != addr;
      forall i | 0 <= i < |bs| - 1 ensures bs[1..][i].addr != addr { assert bs[1..][i] == bs[i + 1]; }
      NoAddressNoSum(bs[1..], addr);
    }
  }

  /** Where a block is counted it is. */
  lemma {:induction false} SomeSame(bs: seq<Block>, b: Block)
    requires Sum(bs, Same(b)) >= 1
    ensures b in bs
  {
    if bs[0] != b { SomeSame(bs[1..], b); }
  }

  /** What is at the address of a block that the system has given is the block. */
  lemma {:induction false} GivenBackIsIt(bs: seq<Block>, b: Block, w: Weight)
    requires b in bs && Sum(bs, Of(b.addr)) <= 1
    ensures Sum(GivenBack(bs, b.addr), w) + w.One(b) == Sum(bs, w)
  {
    if bs[0].addr == b.addr {
      if bs[0] != b {
        var i :| 0 <= i < |bs| && bs[i] == b;
        assert bs[1..][i - 1] == b;
        InSum(bs[1..], i - 1);
      }
    } else {
      GivenBackIsIt(bs[1..], b, w);
    }
  }

  lemma {:induction false} DisposedIsGiven(s: State, c: nat)
    requires c < |s.calls| && s.calls[c].Deleting? && Placed(s, Same(s.calls[c].b))
    ensures s.calls[c].b in s.physical
  {
    hide Held, Sum;
    var b := s.calls[c].b;
    SumCallsAt(s.calls, c, Disposing, Same(b));
    SomeSame(s.physical, b);
  }

  lemma {:induction false} SumCallsAt(cs: seq<Call>, c: nat, r: Role, w: Weight)
    requires c < |cs|
    ensures SumCalls(cs, r, w) >= Share(cs[c], r, w)
  {
    hide Share;
    if c > 0 { SumCallsAt(cs[1..], c - 1, r, w); }
  }

  /** What the system has given changes by what a step asks of it. */
  lemma {:induction false} NextPhysical(s: State, step: Step, w: Weight)
    requires Valid(s) && Enabled(s, step)
    ensures var e := EffectOf(s, step, w);
            Sum(Next(s, step).physical, w) == Sum(s.physical, w) + e.held + e.disposed
  {
    hide Held, Disposed, Sum, Weight.One, Kinds, Counted;
    match step
    case New(c, addr) =>
      if addr.Some? {
        var b := Block(addr.value, s.calls[c].kind);
        SumConcat(s.physical, [b], w);
        SumOne(b, w);
      }
    case Delete(c) =>
      var b := s.calls[c].b;
      assert Placed(s, Same(b)) && GivenOnce(s, b.addr);
      DisposedIsGiven(s, c);
      GivenBackIsIt(s.physical, b, w);
    case _ =>
  }

  lemma {:induction false} NextPlaced(s: State, step: Step, w: Weight)
    requires Valid(s) && Enabled(s, step)
    ensures Placed(Next(s, step), w)
  {
    hide Held, Disposed, ReservedBytes, AllowedBytes, Sum, Next, EffectOf, Kinds, Counted;
    assert Placed(s, w);
    StepHasEffect(s, step, w);
    NextPhysical(s, step, w);
  }

  lemma {:induction false} NextGivenOnce(s: State, step: Step, addr: nat)
    requires Valid(s) && Enabled(s, step)
    ensures GivenOnce(Next(s, step), addr)
  {
    hide Held, Disposed, Sum, Placed, Kinds, Counted;
    assert GivenOnce(s, addr);
    NextPhysical(s, step, Of(addr));
    if step.New? && step.addr == Some(addr) { NoAddressNoSum(s.physical, addr); }
  }

  lemma {:induction false} NextKinds(s: State, step: Step)
    requires Kinds(s) && Enabled(s, step)
    ensures Kinds(Next(s, step))
  {
    NextLists(s, step);
    NextCalls(s, step);
  }

  lemma {:induction false} NextLists(s: State, step: Step)
    requires Kinds(s) && Enabled(s, step)
    ensures var ls := Next(s, step).lists;
            |s.lists| <= |ls| && forall i :: 0 <= i < |s.lists| ==> ls[i].kind == s.lists[i].kind
    ensures forall i :: 0 <= i < |Next(s, step).lists| ==> ListOk(Next(s, step).lists[i])
  {
    var t := Next(s, step);
    forall i | 0 <= i < |t.lists| ensures ListOk(t.lists[i]) {
      if i < |s.lists| { assert ListOk(s.lists[i]); }
    }
  }

  lemma {:induction false} NextCalls(s: State, step: Step)
    requires Kinds(s) && Enabled(s, step)
    ensures forall i :: 0 <= i < |Next(s, step).calls| ==> CallOk(Next(s, step).lists, Next(s, step).calls[i])
  {
    NextLists(s, step);
    hide ListOk;
    var t := Next(s, step);
    forall i | 0 <= i < |t.calls| ensures CallOk(t.lists, t.calls[i]) {
      if i < |s.calls| { assert CallOk(s.lists, s.calls[i]); }
    }
  }

  lemma {:induction false} NextKeepsValid(s: State, step: Step)
    requires Valid(s) && Enabled(s, step)
    ensures Valid(Next(s, step))
  {
    hide Kinds, Counted, Placed, GivenOnce, Next;
    NextKinds(s, step);
    NextCounted(s, step);
    forall w: Weight ensures Placed(Next(s, step), w) { NextPlaced(s, step, w); }
    forall a: nat ensures GivenOnce(Next(s, step), a) { NextGivenOnce(s, step, a); }
  }

  // ----- runs -----

  predicate Possible(s: State, steps: seq<Step>)
    decreases |steps|
  {
    steps == [] || (Enabled(s, steps[0]) && Possible(Next(s, steps[0]), steps[1..]))
  }

  function Run(s: State, steps: seq<Step>): State
    requires Possible(s, steps)
    decreases |steps|
  {
    if steps == [] then s else Run(Next(s, steps[0]), steps[1..])
  }

  lemma {:induction false} RunKeepsValid(s: State, steps: seq<Step>)
    requires Valid(s) && Possible(s, steps)
    ensures Valid(Run(s, steps)) && Run(s, steps).limit == s.limit
    decreases |steps|
  {
    hide Valid, Enabled;
    if steps != [] {
      NextKeepsValid(s, steps[0]);
      SameLimit(s, steps[0]);
      RunKeepsValid(Next(s, steps[0]), steps[1..]);
    }
  }

  lemma {:induction false} SameLimit(s: State, step: Step)
    requires Enabled(s, step)
    ensures Next(s, step).limit == s.limit
  {
  }

  lemma {:induction false} InitialIsValid(limit: nat)
    ensures Valid(Initial(limit))
  {
    forall w: Weight ensures Placed(Initial(limit), w) {}
    forall a: nat ensures GivenOnce(Initial(limit), a) {}
  }

  /** However many threads there are and however their steps mix: the counter is what blocks in use, cached or in
      a call take, and what is reserved; with a limit the blocks never take more than it. */
  lemma {:induction false} HeldWithinLimit(limit: nat, steps: seq<Step>)
    requires Possible(Initial(limit), steps)
    ensures var s := Run(Initial(limit), steps);
            && s.used == Held(s, InBytes) + ReservedBytes(s)
            && (limit > 0 ==> Held(s, InBytes) <= limit)
  {
    InitialIsValid(limit);
    RunKeepsValid(Initial(limit), steps);
  }

  lemma {:induction false} InSumTwice(bs: seq<Block>, i: nat, j: nat)
    requires i < j < |bs| && bs[i].addr == bs[j].addr
    ensures Sum(bs, Of(bs[i].addr)) >= 2
  {
    SumTakeOut(bs, j, Of(bs[i].addr));
    InSum(bs[..j] + bs[j + 1..], i);
  }

  lemma {:induction false} InSumLists(ls: seq<List>, l: nat, i: nat)
    requires l < |ls| && i < |ls[l].blocks|
    ensures SumLists(ls, Of(ls[l].blocks[i].addr)) >= 1
  {
    if l == 0 { InSum(ls[0].blocks, i); } else { InSumLists(ls[1..], l - 1, i); }
  }

  lemma {:induction false} InSumListsTwice(ls: seq<List>, l: nat, i: nat, m: nat, j: nat)
    requires l < |ls| && i < |ls[l].blocks| && m < |ls| && j < |ls[m].blocks|
    requires (l != m || i < j) && ls[l].blocks[i].addr == ls[m].blocks[j].addr
    ensures SumLists(ls, Of(ls[l].blocks[i].addr)) >= 2
  {
    var w, bs := Of(ls[l].blocks[i].addr), ls[m].blocks;
    var x := ls[m].(blocks := bs[..j] + bs[j + 1..]);
    SumTakeOut(bs, j, w);
    SumListsUpdate(ls, m, x, w);
    InSumLists(ls[m := x], l, i);
  }

  /** Two different places on free lists. */
  predicate TwoCached(s: State, l: nat, k: nat, m: nat, n: nat) {
    l < |s.lists| && k < |s.lists[l].blocks| && m < |s.lists| && n < |s.lists[m].blocks| && (l != m || k < n)
  }

  /** No block is in use twice, or in use and on a free list, or on two free lists, and none is in use that was
      not got from the system, whatever the threads do. */
  lemma {:induction false} NeverLiveAndFree(limit: nat, steps: seq<Step>, i: nat, j: nat, l: nat, k: nat, m: nat,
          n: nat)
    requires Possible(Initial(limit), steps)
    ensures var s := Run(Initial(limit), steps);
            && (i < |s.live| ==> HasAddress(s.physical, s.live[i].addr))
            && (i < j < |s.live| ==> s.live[i].addr != s.live[j].addr)
            && (i < |s.live| && l < |s.lists| && k < |s.lists[l].blocks| ==>
                  s.live[i].addr != s.lists[l].blocks[k].addr)
            && (TwoCached(s, l, k, m, n) ==> s.lists[l].blocks[k].addr != s.lists[m].blocks[n].addr)
  {
    InitialIsValid(limit);
    RunKeepsValid(Initial(limit), steps);
    var s := Run(Initial(limit), steps);
    if i < |s.live| { LiveInOnePlace(s, i, j, l, k); }
    if TwoCached(s, l, k, m, n) {
      assert Placed(s, Of(s.lists[l].blocks[k].addr)) && GivenOnce(s, s.lists[l].blocks[k].addr);
      if s.lists[l].blocks[k].addr == s.lists[m].blocks[n].addr { InSumListsTwice(s.lists, l, k, m, n); }
    }
  }

  lemma {:induction false} LiveInOnePlace(s: State, i: nat, j: nat, l: nat, k: nat)
    requires Valid(s) && i < |s.live|
    ensures HasAddress(s.physical, s.live[i].addr)
    ensures i < j < |s.live| ==> s.live[i].addr != s.live[j].addr
    ensures l < |s.lists| && k < |s.lists[l].blocks| ==> s.live[i].addr != s.lists[l].blocks[k].addr
  {
    assert Placed(s, Of(s.live[i].addr)) && GivenOnce(s, s.live[i].addr);
    InSum(s.live, i);
    if !HasAddress(s.physical, s.live[i].addr) { NoAddressNoSum(s.physical, s.live[i].addr); }
    if i < j < |s.live| && s.live[i].addr == s.live[j].addr { InSumTwice(s.live, i, j); }
    if l < |s.lists| && k < |s.lists[l].blocks| { InSumLists(s.lists, l, k); }
  }

  /** The memory got from the system, in bytes. */
  function Taken(s: State): nat { Sum(s.physical, InBytes) }

  predicate NoneDeleting(cs: seq<Call>) {
    forall c :: 0 <= c < |cs| ==> !cs[c].Deleting?
  }

  lemma {:induction false} NothingDisposed(cs: seq<Call>)
    requires NoneDeleting(cs)
    ensures SumCalls(cs, Disposing, InBytes) == 0
  {
    if cs != [] { NothingDisposed(cs[1..]); }
  }

  /** In every run the memory got from the system is the blocks accounted for and those about to be given back. It
      exceeds the limit exactly if the latter are more than what the former leave of it: never while no call is
      between its subtraction and its delete. */
  lemma {:induction false} TakenExactly(limit: nat, steps: seq<Step>)
    requires Possible(Initial(limit), steps) && limit > 0
    ensures var s := Run(Initial(limit), steps);
            && Taken(s) == Held(s, InBytes) + Disposed(s, InBytes) && Held(s, InBytes) <= limit
            && (Taken(s) > limit <==> Disposed(s, InBytes) > limit - Held(s, InBytes))
            && (NoneDeleting(s.calls) ==> Taken(s) <= limit)
  {
    hide Held, Sum;
    HeldWithinLimit(limit, steps);
    InitialIsValid(limit);
    RunKeepsValid(Initial(limit), steps);
    var s := Run(Initial(limit), steps);
    assert Placed(s, InBytes);
    if NoneDeleting(s.calls) { NothingDisposed(s.calls); }
  }

  /** Of all steps only an allocation can take it over the limit, and it does exactly if the block does not fit
      beside what has not been given back. */
  lemma {:induction false} OnlyNewTakes(limit: nat, steps: seq<Step>, step: Step)
    requires Possible(Initial(limit), steps) && Enabled(Run(Initial(limit), steps), step)
    ensures var (s, t) := (Run(Initial(limit), steps), Next(Run(Initial(limit), steps), step));
            && (step.New? && step.addr.Some? ==> Taken(t) == Taken(s) + s.calls[step.c].kind.size)
            && (!(step.New? && step.addr.Some?) ==> Taken(t) <= Taken(s))
  {
    hide Held, Disposed, Sum, Next, Valid, Taken;
    InitialIsValid(limit);
    RunKeepsValid(Initial(limit), steps);
    StepTakes(Run(Initial(limit), steps), step);
  }

  lemma {:induction false} StepTakes(s: State, step: Step)
    requires Valid(s) && Enabled(s, step)
    ensures step.New? && step.addr.Some? ==> Taken(Next(s, step)) == Taken(s) + s.calls[step.c].kind.size
    ensures !(step.New? && step.addr.Some?) ==> Taken(Next(s, step)) <= Taken(s)
  {
    hide Held, Disposed, Sum, Next;
    NextPhysical(s, step, InBytes);
  }

  // ----- where blocks go -----

  /** A block that is built is in use from then on; one that is not goes back to its list if it came from there and
      there is room, and else to the system. */
  lemma {:induction false} BuiltIsInUse(s: State, c: nat, ok: bool)
    requires Enabled(s, Built(c, ok))
    ensures var t := Next(s, Built(c, ok)); var (l, b) := (s.calls[c].l, s.calls[c].b);
            && t.live == s.live + (if ok then [b] else [])
            && (ok ==> t.lists == s.lists && t.calls == s.calls[c := Done])
            && (!ok && s.calls[c].reused && |s.lists[l].blocks| < s.lists[l].kind.cache ==>
                  t.lists == s.lists[l := s.lists[l].(blocks := s.lists[l].blocks + [b])] && t.calls == s.calls[c := Done])
            && (!ok && !(s.calls[c].reused && |s.lists[l].blocks| < s.lists[l].kind.cache) ==>
                  t.lists == s.lists && t.calls == s.calls[c := Doomed(b)])
  {
  }

  /** A block that is destroyed is not in use any more; it is kept in its list if there is room, and else goes to the
      system. */
  lemma {:induction false} DestroyedIsFree(s: State, i: nat, l: nat)
    requires Enabled(s, Destroy(i, l))
    ensures var t, b := Next(s, Destroy(i, l)), s.live[i];
            && t.live == s.live[..i] + s.live[i + 1..]
            && if |s.lists[l].blocks| < s.lists[l].kind.cache
               then t.lists == s.lists[l := s.lists[l].(blocks := s.lists[l].blocks + [b])] && t.calls == s.calls
               else t.lists == s.lists && t.calls == s.calls + [Doomed(b)]
  {
  }

  // ----- exactly when a call is refused -----

  /** The bytes that the calls but `c` have reserved. */
  function OthersReserved(s: State, c: nat): nat
    requires c < |s.calls|
  {
    SumCalls(s.calls[..c], Reserving, InBytes) + SumCalls(s.calls[c + 1..], Reserving, InBytes)
  }

  lemma {:induction false} SumCallsConcat(a: seq<Call>, b: seq<Call>, r: Role, w: Weight)
    ensures SumCalls(a + b, r, w) == SumCalls(a, r, w) + SumCalls(b, r, w)
  {
    hide Share;
    if a == [] {
      assert a + b == b;
    } else {
      SumCallsConcat(a[1..], b, r, w);
      assert (a + b)[1..] == a[1..] + b;
    }
  }

  lemma {:induction false} ReservedByOthers(s: State, c: nat)
    requires c < |s.calls|
    ensures ReservedBytes(s) == OthersReserved(s, c) + Share(s.calls[c], Reserving, InBytes)
  {
    hide Share;
    assert s.calls == s.calls[..c] + s.calls[c..] && s.calls[c..][1..] == s.calls[c + 1..];
    SumCallsConcat(s.calls[..c], s.calls[c..], Reserving, InBytes);
  }

  /** In every run a call is refused exactly if there is a limit and the blocks with all that is reserved exceed it;
      so a block that fits beside all blocks is refused exactly if the reservations of other calls fill the room,
      and never if there are none. */
  lemma {:induction false} RefusedExactly(limit: nat, steps: seq<Step>, c: nat)
    requires Possible(Initial(limit), steps) && Enabled(Run(Initial(limit), steps), Check(c))
    ensures var s := Run(Initial(limit), steps);
            var (size, held, others) := (s.calls[c].kind.size, Held(s, InBytes), OthersReserved(s, c));
            var refused := Next(s, Check(c)).calls[c].Refused?;
            && (refused <==> limit > 0 && held + ReservedBytes(s) > limit)
            && (limit > 0 && held + size <= limit ==> (refused <==> others > limit - (held + size)))
            && (limit > 0 && held + size > limit ==> refused)
  {
    hide Held, ReservedBytes, OthersReserved, Possible, Run, Next, Valid, Enabled;
    HeldWithinLimit(limit, steps);
    InitialIsValid(limit);
    RunKeepsValid(Initial(limit), steps);
    CheckRefuses(Run(Initial(limit), steps), c);
    ReservedByOthers(Run(Initial(limit), steps), c);
  }

  lemma {:induction false} CheckRefuses(s: State, c: nat)
    requires Enabled(s, Check(c))
    ensures c < |s.calls| && |Next(s, Check(c)).calls| == |s.calls| && s.calls[c].Reserved?
    ensures Next(s, Check(c)).calls[c].Refused? <==> s.limit > 0 && s.used > s.limit
  {
  }

  lemma {:induction false} RunSnoc(s: State, steps: seq<Step>, step: Step)
    requires Possible(s, steps) && Enabled(Run(s, steps), step)
    ensures Possible(s, steps + [step]) && Run(s, steps + [step]) == Next(Run(s, steps), step)
    decreases |steps|
  {
    if steps == [] {
      assert Possible(Next(s, step), []);
    } else {
      RunSnoc(Next(s, steps[0]), steps[1..], step);
      assert (steps + [step])[1..] == steps[1..] + [step];
    }
  }

  lemma {:induction false} Extend(s: State, steps: seq<Step>, step: Step, t: State) returns (more: seq<Step>)
    requires Possible(Initial(1), steps) && Run(Initial(1), steps) == s && Enabled(s, step) && Next(s, step) == t
    ensures Possible(Initial(1), more) && Run(Initial(1), more) == t
  {
    RunSnoc(Initial(1), steps, step);
    more := steps + [step];
  }

  lemma {:induction false} SumOfTwo(x: Call, y: Call, r: Role, w: Weight)
    ensures SumCalls([x, y], r, w) == Share(x, r, w) + Share(y, r, w)
  {
    hide Share;
    SumCallsAdd([], x, r, w);
    SumCallsAdd([x], y, r, w);
    assert [] + [x] == [x] && [x] + [y] == [x, y] && SumCalls([], r, w) == 0;
  }

  /** A thread has reserved one byte of a limit of one. */
  lemma {:induction false} OneReserved(k: Kind) returns (steps: seq<Step>)
    requires k.size == 1
    ensures Possible(Initial(1), steps)
    ensures Run(Initial(1), steps) == State(1, 1, [], [List(k, [])], [Reserved(0, k)], [])
  {
    hide Possible, Run;
    var s := State(0, 1, [], [List(k, [])], [], []);
    assert Possible(Initial(1), []) && Run(Initial(1), []) == Initial(1) by { NoSteps(); }
    steps := Extend(Initial(1), [], NewList(k), s);
    steps := Extend(s, steps, Create(0), State(1, 1, [], [List(k, [])], [Reserved(0, k)], []));
  }

  lemma {:induction false} NoSteps()
    ensures Possible(Initial(1), []) && Run(Initial(1), []) == Initial(1)
  {
  }

  /** The limit is not one on the memory got from the system: a call that gives a block back lowers the counter
      first, and another can use the room before the block is gone. */
  lemma {:induction false} TakenOverLimit() returns (steps: seq<Step>)
    ensures Possible(Initial(1), steps) && Taken(Run(Initial(1), steps)) == 2
  {
    hide Possible, Run;
    var k := Kind(0, 1, 0);
    var ls := [List(k, [])];
    var b, d := Block(7, k), Block(8, k);
    steps := OneReserved(k);
    var s1, s2 := State(1, 1, [], ls, [Reserved(0, k)], []), State(1, 1, [], ls, [Allowed(0, k)], []);
    steps := Extend(s1, steps, Check(0), s2);
    var s3 := State(1, 1, [], ls, [Building(0, b, false)], [b]);
    steps := Extend(s2, steps, New(0, Some(7)), s3);
    var s4 := State(1, 1, [], ls, [Doomed(b)], [b]);
    steps := Extend(s3, steps, Built(0, false), s4);
    var s5 := State(0, 1, [], ls, [Deleting(b)], [b]);
    steps := Extend(s4, steps, Subtract(0), s5);
    var s6 := State(1, 1, [], ls, [Deleting(b), Reserved(0, k)], [b]);
    steps := Extend(s5, steps, Create(0), s6);
    var s7 := State(1, 1, [], ls, [Deleting(b), Allowed(0, k)], [b]);
    steps := Extend(s6, steps, Check(1), s7);
    var s8 := State(1, 1, [], ls, [Deleting(b), Building(0, d, false)], [b, d]);
    steps := Extend(s7, steps, New(1, Some(8)), s8);
    SumConcat([b], [d], InBytes);
    SumOne(b, InBytes);
    SumOne(d, InBytes);
    assert [b] + [d] == [b, d];
  }

  lemma {:induction false} NothingCached(k: Kind)
    ensures SumLists([List(k, [])], InBytes) == 0 && Sum([], InBytes) == 0
  {
    assert [List(k, [])][1..] == [];
  }

  /** Two calls that reserve at the same time can both be refused, though there is room for either. */
  lemma {:induction false} BothRefused() returns (steps: seq<Step>)
    ensures Possible(Initial(1), steps)
    ensures var s := Run(Initial(1), steps);
            Held(s, InBytes) == 0 && s.calls == [Refused(Kind(0, 1, 0)), Refused(Kind(0, 1, 0))]
  {
    hide Possible, Run;
    var k := Kind(0, 1, 0);
    var ls := [List(k, [])];
    steps := OneReserved(k);
    var s1 := State(1, 1, [], ls, [Reserved(0, k)], []);
    var s2 := State(2, 1, [], ls, [Reserved(0, k), Reserved(0, k)], []);
    steps := Extend(s1, steps, Create(0), s2);
    var s3 := State(2, 1, [], ls, [Refused(k), Reserved(0, k)], []);
    steps := Extend(s2, steps, Check(0), s3);
    var s4 := State(2, 1, [], ls, [Refused(k), Refused(k)], []);
    steps := Extend(s3, steps, Check(1), s4);
    SumOfTwo(Refused(k), Refused(k), Accounting, InBytes);
    NothingCached(k);
  }
}
