/** The write side of a client connection: replies go out in the order of the requests, whatever order the
    servers answer in (src/AcceptConnection.cpp `fill`, `write`). */
module AcceptConnections {
  import opened Bytes
  import opened Gather
  import opened Writing

  /** A queued request. `res` is what is left of its reply; a follower of a merged command is done without one. */
  datatype Item = Item(id: nat, done: bool, res: Option<Message>) {
    predicate Valid() {
      && (res.Some? ==> done && res.value.id == id && res.value.Sound())
    }

    /** What output sees of it; nothing, if there is no reply. */
    function Msg(): Message { if res.Some? then res.value else Message(id, [], []) }

    function Left(): string { Msg().Bytes() }

    /** Done, with nothing left to send. */
    predicate Silent() { done && Msg().Spent() }
  }

  predicate AllValid(q: seq<Item>) {
    forall i :: 0 <= i < |q| ==> q[i].Valid()
  }

  /** Up to the first request that is not done. */
  function DonePart(q: seq<Item>): (r: seq<Item>)
    ensures r <= q && forall i :: 0 <= i < |r| ==> r[i].done
    ensures |r| < |q| ==> !q[|r|].done
  {
    if q == [] || !q[0].done then [] else [q[0]] + DonePart(q[1..])
  }

  function Msgs(q: seq<Item>): (r: Queue)
    ensures |r| == |q|
  {
    seq(|q|, i requires 0 <= i < |q| => q[i].Msg())
  }

  function Left(q: seq<Item>): string {
    if q == [] then [] else q[0].Left() + Left(q[1..])
  }

  /** The replies in full, for each request from the first on up to one that has none yet. */
  function Finals(fs: seq<Option<string>>): string {
    if fs == [] || fs[0] == None then [] else fs[0].value + Finals(fs[1..])
  }

  lemma {:induction false} LeftConcat(a: seq<Item>, b: seq<Item>)
    ensures Left(a + b) == Left(a) + Left(b)
  {
    hide Left, Item.Left;
    if a == [] {
      LeftOfNone();
      assert a + b == b && [] + Left(b) == Left(b);
    } else {
      LeftConcat(a[1..], b);
      LeftCons(a);
      LeftCons(a + b);
      assert (a + b)[1..] == a[1..] + b && (a + b)[0] == a[0];
      Assoc(a[0].Left(), Left(a[1..]), Left(b));
    }
  }

  lemma {:induction false} LeftOfNone()
    ensures Left([]) == []
  {
  }

  lemma {:induction false} LeftCons(q: seq<Item>)
    requires q != []
    ensures Left(q) == q[0].Left() + Left(q[1..])
  {
  }

  lemma {:induction false} MsgsOf(q: seq<Item>)
    requires AllValid(q)
    ensures AllSound(Msgs(q)) && QueueBytes(Msgs(q)) == Left(q)
    ensures forall i :: 0 <= i < |q| ==> Msgs(q)[i].id == q[i].id
  {
    forall i | 0 <= i < |q| ensures Msgs(q)[i].Sound() && Msgs(q)[i].id == q[i].id { assert q[i].Valid(); }
    BytesOfMsgs(q);
  }

  lemma {:induction false} BytesOfMsgs(q: seq<Item>)
    ensures QueueBytes(Msgs(q)) == Left(q)
  {
    hide Message.Bytes, Item.Msg;
    if q != [] {
      BytesOfMsgs(q[1..]);
      assert Msgs(q)[1..] == Msgs(q[1..]);
    }
  }

  lemma {:induction false} DonePartConcat(a: seq<Item>, b: seq<Item>)
    requires forall i :: 0 <= i < |a| ==> a[i].done
    ensures DonePart(a + b) == a + DonePart(b)
  {
    if a == [] {
      assert a + b == b;
    } else {
      DonePartConcat(a[1..], b);
      assert (a + b)[1..] == a[1..] + b;
    }
  }

  lemma {:induction false} FinalsConcat(a: seq<Option<string>>, b: seq<Option<string>>)
    requires forall i :: 0 <= i < |a| ==> a[i].Some?
    ensures Finals(a + b) == Finals(a) + Finals(b)
  {
    if a == [] {
      assert a + b == b;
    } else {
      FinalsConcat(a[1..], b);
      assert (a + b)[1..] == a[1..] + b;
      var x, y, z := a[0].value, Finals(a[1..]), Finals(b);
      assert (x + y) + z == x + (y + z);
    }
  }

  /** Requests nobody has written anything of yet: what is left is all of it. */
  predicate Untouched(q: seq<Item>, fs: seq<Option<string>>) {
    && |q| == |fs|
    && forall i :: 0 <= i < |q| ==> fs[i] == if q[i].done then Some(q[i].Left()) else None
  }

  lemma {:induction false} UntouchedLeft(q: seq<Item>, fs: seq<Option<string>>)
    requires Untouched(q, fs)
    ensures Left(DonePart(q)) == Finals(fs)
  {
    if q != [] {
      assert Untouched(q[1..], fs[1..]);
      UntouchedLeft(q[1..], fs[1..]);
      if q[0].done { assert DonePart(q)[1..] == DonePart(q[1..]); }
    }
  }

  /** The done part of what is left when some of it has left, or is replaced. */
  lemma {:induction false} DonePartOfRest(q: seq<Item>, k: nat)
    requires k <= |DonePart(q)|
    ensures DonePart(q[k..]) == DonePart(q)[k..]
  {
    if k > 0 {
      DonePartOfRest(q[1..], k - 1);
      assert q[1..][k - 1..] == q[k..] && DonePart(q)[1..] == DonePart(q[1..]);
      assert DonePart(q[1..])[k - 1..] == DonePart(q)[k..];
    } else {
      assert q[0..] == q;
    }
  }

  lemma {:induction false} DonePartUpdate(q: seq<Item>, i: nat, x: Item)
    requires i < |DonePart(q)| && x.done
    ensures DonePart(q[i := x]) == DonePart(q)[i := x]
  {
    var d := DonePart(q);
    assert q == d + q[|d|..] && q[i := x] == d[i := x] + q[|d|..];
    DonePartOfRest(q, |d|);
    DonePartConcat(d[i := x], q[|d|..]);
    assert d[|d|..] == [];
  }

  lemma {:induction false} DonePartCons(x: Item, q: seq<Item>)
    requires x.done
    ensures DonePart([x] + q) == [x] + DonePart(q)
    ensures Left(DonePart([x] + q)) == x.Left() + Left(DonePart(q))
  {
    assert ([x] + q)[1..] == q;
    assert ([x] + DonePart(q))[1..] == DonePart(q);
  }

  /** The replies in full of the first requests, and the requests behind them untouched. */
  ghost predicate Balanced(q: seq<Item>, touched: nat, fs: seq<Option<string>>, wire: string) {
    && touched <= |q| <= |fs| && (forall i :: 0 <= i < touched ==> q[i].done)
    && (forall i :: 0 <= i < |fs| - (|q| - touched) ==> fs[i].Some?)
    && wire + Left(q[..touched]) == Finals(fs[..|fs| - (|q| - touched)])
    && Untouched(q[touched..], fs[|fs| - (|q| - touched)..])
  }

  /** What has been sent and what can be sent are together the final replies in order. */
  lemma {:induction false} SentAndLeft(q: seq<Item>, touched: nat, fs: seq<Option<string>>, wire: string)
    requires Balanced(q, touched, fs, wire)
    ensures wire + Left(DonePart(q)) == Finals(fs)
  {
    hide Left, Finals, DonePart;
    var t := |fs| - (|q| - touched);
    assert q == q[..touched] + q[touched..] && fs == fs[..t] + fs[t..];
    DonePartConcat(q[..touched], q[touched..]);
    LeftConcat(q[..touched], DonePart(q[touched..]));
    FinalsConcat(fs[..t], fs[t..]);
    UntouchedLeft(q[touched..], fs[t..]);
    var x, y := Left(q[..touched]), Left(DonePart(q[touched..]));
    assert wire + (x + y) == (wire + x) + y;
  }

  /** Everything up to the first request that is not done may be touched. */
  lemma {:induction false} TouchDone(q: seq<Item>, touched: nat, fs: seq<Option<string>>, wire: string)
    requires Balanced(q, touched, fs, wire)
    ensures Balanced(q, |DonePart(q)|, fs, wire)
  {
    hide Left, Finals, DonePart, Untouched;
    var b := q[touched..];
    assert q == q[..touched] + b;
    DonePartConcat(q[..touched], b);
    TouchMore(q, touched, fs, wire, |DonePart(b)|);
  }

  lemma {:induction false} TouchMore(q: seq<Item>, touched: nat, fs: seq<Option<string>>, wire: string, n: nat)
    requires Balanced(q, touched, fs, wire) && touched + n <= |q|
    requires forall i :: touched <= i < touched + n ==> q[i].done
    ensures Balanced(q, touched + n, fs, wire)
  {
    hide Finals, Left, DonePart, Item.Left;
    var t := |fs| - (|q| - touched);
    var b, f := q[touched..touched + n], fs[t..t + n];
    assert Untouched(b, f);
    assert q[..touched + n] == q[..touched] + b && fs[..t + n] == fs[..t] + f;
    LeftConcat(q[..touched], b);
    FinalsConcat(fs[..t], f);
    AllDone(b);
    UntouchedLeft(b, f);
    assert wire + (Left(q[..touched]) + Left(b)) == (wire + Left(q[..touched])) + Left(b);
  }

  lemma {:induction false} AllDone(q: seq<Item>)
    requires forall i :: 0 <= i < |q| ==> q[i].done
    ensures DonePart(q) == q
  {
    if q != [] { AllDone(q[1..]); }
  }

  lemma {:induction false} PopSilent(q: seq<Item>, touched: nat, fs: seq<Option<string>>, wire: string)
    requires Balanced(q, touched, fs, wire) && q != [] && q[0].Silent() && touched > 0
    ensures Balanced(q[1..], touched - 1, fs, wire)
  {
    hide DonePart, Finals;
    var r := q[1..];
    assert q == [q[0]] + r && q[touched..] == r[touched - 1..];
    assert q[..touched] == [q[0]] + r[..touched - 1];
    SilentLeft(q[0]);
    LeftCons(q[..touched]);
    assert [] + Left(r[..touched - 1]) == Left(r[..touched - 1]);
  }

  lemma {:induction false} SilentLeft(x: Item)
    requires x.Silent()
    ensures x.Left() == []
  {
  }

  /** A request behind all that has been written to becomes done. */
  lemma {:induction false} FinishOne(q: seq<Item>, touched: nat, fs: seq<Option<string>>, wire: string, j: nat, x: Item)
    requires Balanced(q, touched, fs, wire) && j < |q| && !q[j].done && x.done
    ensures Balanced(q[j := x], touched, fs[|fs| - |q| + j := Some(x.Left())], wire)
  {
    hide Left, Finals, Item.Left;
    var t := |fs| - (|q| - touched);
    var fs' := fs[|fs| - |q| + j := Some(x.Left())];
    assert q[j := x][..touched] == q[..touched] && fs'[..t] == fs[..t];
    assert q[j := x][touched..] == q[touched..][j - touched := x];
    assert fs'[t..] == fs[t..][j - touched := Some(x.Left())];
  }

  // ----- listing -----

  /** How many requests `fill` drops: those without a reply in front of all that has something left. */
  function Dropped(q: seq<Item>): (n: nat)
    ensures n <= |q|
  {
    if q == [] || !q[0].Silent() then 0 else (if q[0].res == None then 1 else 0) + Dropped(q[1..])
  }

  predicate AllSilent(q: seq<Item>) {
    forall i :: 0 <= i < |q| ==> q[i].Silent()
  }

  lemma {:induction false} SilentSnoc(q: seq<Item>, i: nat)
    requires i < |q| && AllSilent(q[..i]) && q[i].Silent()
    ensures AllSilent(q[..i + 1]) && AllSilent(q[1..][..i]) && q[0].Silent() && q[1..][i..] == q[i + 1..]
  {
    hide Item.Silent;
    var p := q[..i + 1];
    forall j | 0 <= j < |p| ensures p[j].Silent() {
      if j < i { assert q[..i][j] == q[j]; }
    }
    assert q[0] == p[0] && q[1..][..i] == p[1..];
  }

  lemma {:induction false} NoneSilent()
    ensures AllSilent([]) && Dropped([]) == 0
  {
  }

  lemma {:induction false} SilentIs(x: Item)
    ensures x.Silent() <==> x.done && x.Msg().Spent()
    ensures x.res == None ==> x.Msg().Spent()
    ensures x.res.Some? ==> x.Msg() == x.res.value
  {
  }

  lemma {:induction false} DroppedNext(q: seq<Item>, i: nat)
    requires i < |q|
    ensures Dropped(q[i..])
         == if !q[i].Silent() then 0 else (if q[i].res == None then 1 else 0) + Dropped(q[i + 1..])
  {
    assert q[i..][1..] == q[i + 1..];
  }

  /** What can be listed of the requests. */
  function Listed(q: seq<Item>, len: nat): seq<Vec> { FillQueue(Msgs(DonePart(q)), len) }

  /** Listing the pieces of the reply to item `i`, if it has one. */
  lemma {:induction false} ListItem(q: seq<Item>, i: nat, left: nat)
    requires i < |q| && q[i].done && left > 0
    ensures Listed(q[i..], left)
         == FillMessage(q[i].Msg(), left) + Listed(q[i + 1..], left - |FillMessage(q[i].Msg(), left)|)
  {
    hide DonePart, FillMessage, Item.Msg;
    assert q[i..] == [q[i]] + q[i + 1..];
    DonePartCons(q[i], q[i + 1..]);
    assert Msgs([q[i]] + DonePart(q[i + 1..]))[1..] == Msgs(DonePart(q[i + 1..]));
  }

  lemma {:induction false} ListsNothing(m: Message, len: nat)
    requires len > 0
    ensures FillMessage(m, len) == [] <==> m.Spent()
  {
  }

  lemma {:induction false} ListStops(q: seq<Item>, left: nat)
    requires q == [] || left == 0 || !q[0].done
    ensures Listed(q, left) == []
  {
  }

  lemma {:induction false} SilentFront(q: seq<Item>, len: nat)
    requires q != [] && q[0].Silent()
    ensures Listed(q[1..], len) == Listed(q, len) && |DonePart(q)| == 1 + |DonePart(q[1..])|
    ensures Left(DonePart(q[1..])) == Left(DonePart(q))
  {
    hide FillMessage;
    assert q == [q[0]] + q[1..];
    DonePartCons(q[0], q[1..]);
    SilentLeft(q[0]);
    if len > 0 {
      assert q[0..] == q;
      ListItem(q, 0, len);
      ListsNothing(q[0].Msg(), len);
      assert [] + Listed(q[1..], len) == Listed(q[1..], len);
    } else {
      ListStops(q, 0);
      ListStops(q[1..], 0);
    }
  }

  /** `fill` has come to request `i` of `q`, and has dropped `c` of the requests `q0`. */
  ghost predicate Filling(q0: seq<Item>, c: nat, q: seq<Item>, i: nat, vecs: seq<Vec>, len: nat) {
    && c <= |q0| && q == q0[c..] && i <= |q| && |vecs| <= len
    && (if vecs == [] then AllSilent(q[..i]) && Dropped(q0) == c + Dropped(q[i..]) else Dropped(q0) == c)
    && Listed(q, len) == Listed(q0, len) && Left(DonePart(q)) == Left(DonePart(q0))
    && Listed(q0, len) == vecs + Listed(q[i..], len - |vecs|)
  }

  lemma {:induction false} FillStarts(q: seq<Item>, len: nat)
    ensures Filling(q, 0, q, 0, [], len)
  {
    hide Listed, Dropped, Left, DonePart;
    NoneSilent();
    assert q[0..] == q && q[..0] == [] && [] + Listed(q, len) == Listed(q, len);
  }

  /** A request with a reply. */
  lemma {:induction false} FillLists(q0: seq<Item>, c: nat, q: seq<Item>, i: nat, vecs: seq<Vec>, len: nat)
    requires Filling(q0, c, q, i, vecs, len) && i < |q| && q[i].done && |vecs| < len && q[i].res.Some?
    ensures Filling(q0, c, q, i + 1, vecs + FillMessage(q[i].Msg(), len - |vecs|), len)
  {
    hide Listed, Dropped, Left, DonePart, FillMessage, Item.Msg, Item.Silent, AllSilent;
    var left := len - |vecs|;
    var vs := FillMessage(q[i].Msg(), left);
    SilentIs(q[i]);
    DroppedNext(q, i);
    ListItem(q, i, left);
    ListsNothing(q[i].Msg(), left);
    if vecs == [] && vs == [] { SilentSnoc(q, i); }
    Assoc(vecs, vs, Listed(q[i + 1..], left - |vs|));
  }

  /** A request without a reply, behind something that has been listed. */
  lemma {:induction false} FillSkips(q0: seq<Item>, c: nat, q: seq<Item>, i: nat, vecs: seq<Vec>, len: nat)
    requires Filling(q0, c, q, i, vecs, len) && i < |q| && q[i].done && q[i].res == None && vecs != [] && |vecs| < len
    ensures Filling(q0, c, q, i + 1, vecs, len)
  {
    hide Listed, Dropped, Left, DonePart, FillMessage, Item.Msg, Item.Silent, AllSilent;
    var left := len - |vecs|;
    SilentIs(q[i]);
    ListItem(q, i, left);
    ListsNothing(q[i].Msg(), left);
    assert [] + Listed(q[i + 1..], left) == Listed(q[i + 1..], left);
  }

  /** A request without a reply, and nothing has been listed: the front is dropped. */
  lemma {:induction false} FillDrops(q0: seq<Item>, c: nat, q: seq<Item>, i: nat, len: nat)
    requires Filling(q0, c, q, i, [], len) && i < |q| && q[i].done && q[i].res == None && len > 0
    ensures q[0].Silent() && |DonePart(q)| == 1 + |DonePart(q[1..])| && Filling(q0, c + 1, q[1..], i, [], len)
  {
    hide Listed, Dropped, Left, DonePart, FillMessage, Item.Msg, Item.Silent, AllSilent;
    SilentIs(q[i]);
    DroppedNext(q, i);
    ListItem(q, i, len);
    ListsNothing(q[i].Msg(), len);
    SilentSnoc(q, i);
    SilentFront(q, len);
    assert [] + Listed(q[i + 1..], len) == Listed(q[i + 1..], len);
  }

  lemma {:induction false} FillEnds(q0: seq<Item>, c: nat, q: seq<Item>, i: nat, vecs: seq<Vec>, len: nat)
    requires Filling(q0, c, q, i, vecs, len) && len > 0 && (i == |q| || |vecs| == len || !q[i].done)
    ensures vecs == Listed(q0, len) == Listed(q, len) && Left(DonePart(q)) == Left(DonePart(q0))
    ensures q == q0[Dropped(q0)..]
  {
    hide Listed, Dropped, Left, DonePart, Item.Silent, AllSilent;
    ListStops(q[i..], len - |vecs|);
    NoneSilent();
    if i == |q| {
      assert q[i..] == [];
    } else {
      SilentIs(q[i]);
      DroppedNext(q, i);
    }
    assert vecs + [] == vecs;
  }

  // ----- writing -----

  /** Of the requests `was`, `k` have left the queue; of the others only `h` may have been written to. */
  predicate KeptBut(was: seq<Item>, k: nat, now: seq<Item>, h: nat) {
    && k + |now| == |was| && (forall i :: 0 <= i < |now| && i != h ==> now[i] == was[k + i])
    && (h < |now| && (was[k + h].Silent() || h >= |DonePart(now)|) ==> now[h] == was[k + h])
    && (h < |now| ==> now[h].done == was[k + h].done)
  }

  lemma {:induction false} NoneWritten(q: seq<Item>)
    ensures KeptBut(q, 0, q, 0)
  {
    hide Item.Silent;
  }

  lemma {:induction false} MsgsUpdate(q: seq<Item>, f: nat, x: Item)
    requires f < |DonePart(q)| && x.done
    ensures Msgs(DonePart(q[f := x])) == Msgs(DonePart(q))[f := x.Msg()]
  {
    hide Item.Msg;
    DonePartUpdate(q, f, x);
  }

  lemma {:induction false} MsgsRest(q: seq<Item>, k: nat)
    requires k <= |DonePart(q)|
    ensures Msgs(DonePart(q[k..])) == Msgs(DonePart(q))[k..]
  {
    hide Item.Msg;
    DonePartOfRest(q, k);
  }

  lemma {:induction false} KeptUpdate(was: seq<Item>, k: nat, now: seq<Item>, h: nat, f: nat, x: Item)
    requires KeptBut(was, k, now, h) && f < |DonePart(now)| && x.done && !was[k + f].Silent()
    requires h != f ==> h < f && was[k + h].Silent()
    ensures KeptBut(was, k, now[f := x], f)
  {
    hide Item.Silent;
    DonePartUpdate(now, f, x);
    assert now[f] == DonePart(now)[f];
  }

  lemma {:induction false} KeptRest(was: seq<Item>, k: nat, now: seq<Item>, f: nat)
    requires KeptBut(was, k, now, f) && f < |now|
    ensures KeptBut(was, k + f + 1, now[f + 1..], 0)
  {
    hide Item.Silent;
  }

  lemma {:induction false} ValidUpdate(q: seq<Item>, f: nat, x: Item)
    requires AllValid(q) && f < |q| && x.Valid()
    ensures AllValid(q[f := x])
  {
    hide Item.Valid;
  }

  lemma {:induction false} ValidRest(q: seq<Item>, i: nat)
    requires AllValid(q) && i <= |q|
    ensures AllValid(q[i..])
  {
    hide Item.Valid;
  }

  lemma {:induction false} SeekIsSound(x: Item, v: Vec, n: nat)
    requires x.Valid() && !x.Msg().Spent() && Seek(x.Msg(), v, n).Sound()
    ensures x.res.Some? && var y := Item(x.id, true, Some(Seek(x.res.value, v, n)));
            y.Valid() && y.Msg() == Seek(x.Msg(), v, n)
  {
  }

  lemma {:induction false} LeftIs(q: seq<Item>)
    requires AllValid(q)
    ensures QueueBytes(Msgs(DonePart(q))) == Left(DonePart(q)) && AllSound(Msgs(DonePart(q)))
  {
    ValidFront(q, |DonePart(q)|);
    assert DonePart(q) == q[..|DonePart(q)|];
    MsgsOf(DonePart(q));
  }

  lemma {:induction false} ValidFront(q: seq<Item>, i: nat)
    requires AllValid(q) && i <= |q|
    ensures AllValid(q[..i])
  {
    hide Item.Valid;
  }

  /** What a message is part of is as it is in the queue. */
  lemma {:induction false} DoneItem(q: seq<Item>, f: nat)
    requires AllValid(q) && f < |Msgs(DonePart(q))|
    ensures f < |DonePart(q)| <= |q| && q[f].done && q[f].Valid()
    ensures Msgs(DonePart(q))[f] == q[f].Msg() && q[f].Msg().id == q[f].id
    ensures q[f].Silent() <==> Msgs(DonePart(q))[f].Spent()
  {
  }

  /** All that a call of `write` amounts to. */
  lemma {:induction false} Concluded(was: seq<Item>, k: nat, now: seq<Item>, h: nat, done: string,
                                    fs: seq<Option<string>>, wire: string)
    requires KeptBut(was, k, now, h) && |DonePart(was)| == k + |DonePart(now)|
    requires Left(DonePart(was)) == done + Left(DonePart(now))
    requires Balanced(was, |DonePart(was)|, fs, wire)
    ensures Balanced(now, |DonePart(now)|, fs, wire + done)
  {
    hide Finals, Left, Balanced, DonePart, Item.Silent;
    var d := |DonePart(now)|;
    assert DonePart(now) == now[..d] && DonePart(was) == was[..k + d];
    assert now[d..] == was[k + d..];
    BalancedGoesOn(was, k, now, done, fs, wire, d);
  }

  lemma {:induction false} BalancedGoesOn(was: seq<Item>, k: nat, now: seq<Item>, done: string,
                                         fs: seq<Option<string>>, wire: string, d: nat)
    requires k + |now| == |was| && d <= |now| && now[d..] == was[k + d..]
    requires Left(was[..k + d]) == done + Left(now[..d]) && forall i :: 0 <= i < d ==> now[i].done
    requires Balanced(was, k + d, fs, wire)
    ensures Balanced(now, d, fs, wire + done)
  {
    hide Finals, Left, Untouched;
    assert (wire + done) + Left(now[..d]) == wire + (done + Left(now[..d]));
  }

  class AcceptConnection {
    /** `mRequests`, and the counter that numbers requests. */
    var requests: seq<Item>
    var nextId: nat
    /** The final replies of all requests so far, what the client got, and how many requests in front may have
        been written in part. */
    ghost var finals: seq<Option<string>>
    ghost var wire: string
    ghost var touched: nat

    ghost predicate Valid()
      reads this
    {
      && AllValid(requests) && nextId == |finals| && InOrder(requests, nextId)
      && Balanced(requests, touched, finals, wire)
    }

    /** The queue holds the last requests, in the order they came. */
    static predicate InOrder(q: seq<Item>, next: nat) {
      |q| <= next && forall j :: 0 <= j < |q| ==> q[j].id == next - |q| + j
    }

    constructor ()
      ensures Valid() && requests == [] && finals == [] && wire == []
    {
      requests, nextId, finals, wire, touched := [], 0, [], [], 0;
    }

    /** A request arrives. */
    method Append() returns (id: nat)
      requires Valid()
      modifies this
      ensures Valid() && id == |old(finals)| && finals == old(finals) + [None] && wire == old(wire)
      ensures requests == old(requests) + [Item(id, false, None)]
    {
      hide Left, Finals, Message.Bytes, Message.Sound;
      ghost var t := |finals| - (|requests| - touched);
      id := nextId;
      requests := requests + [Item(id, false, None)];
      nextId := nextId + 1;
      finals := finals + [None];
      assert requests[..touched] == old(requests)[..touched] && finals[..t] == old(finals)[..t];
      assert requests[touched..] == old(requests)[touched..] + [Item(id, false, None)];
      assert finals[t..] == old(finals)[t..] + [None];
    }

    /** The reply to request `id` is final, in whatever order the servers answer. */
    method Finish(id: nat, res: Option<Message>)
      requires Valid() && nextId - |requests| <= id < nextId && !requests[id - (nextId - |requests|)].done
      requires res.Some? ==> res.value.id == id && res.value.Sound()
      modifies `requests, `finals
      ensures Valid() && requests == old(requests)[id - (nextId - |old(requests)|) := Item(id, true, res)]
      ensures finals == old(finals)[id := Some(if res.Some? then res.value.Bytes() else [])]
    {
      hide Finals, Message.Bytes, Balanced;
      var j := id - (nextId - |requests|);
      ghost var x := Item(id, true, res);
      if res == None { SilentLeft(x); }
      FinishOne(requests, touched, finals, wire, j, x);
      requests := requests[j := Item(id, true, res)];
      finals := finals[id := Some(x.Left())];
    }

    /** `send`: the writer is woken exactly if there is something it can take out of the queue. */
    method Send() returns (wake: bool)
      requires Valid() && requests != []
      ensures wake <==> DonePart(requests) != []
    {
      wake := requests[0].done;
    }

    /** `fill`: lists the pieces of the replies of all requests that are done, up to the first that is not, and drops
        as many requests from the front as it meets without a reply before it has listed anything. */
    method Fill(len: nat) returns (vecs: seq<Vec>)
      requires Valid() && len > 0
      modifies `requests, `touched
      ensures Valid() && vecs == Listed(requests, len) == old(Listed(requests, len))
      ensures requests == old(requests)[Dropped(old(requests))..]
      ensures Left(DonePart(requests)) == old(Left(DonePart(requests)))
    {
      hide DonePart, Balanced, Item.Valid, Item.Msg, Item.Silent, Filling, FillMessage, Left, AllValid, Listed, Dropped;
      ghost var q0 := requests;
      TouchDone(requests, touched, finals, wire);
      touched := |DonePart(requests)|;
      vecs := [];
      ghost var c := 0;
      var i: nat, left: nat := 0, len;
      FillStarts(requests, len);
      while i < |requests| && left > 0
        invariant i <= |requests| && left == len - |vecs| && Filling(q0, c, requests, i, vecs, len)
        invariant Valid() && touched == |DonePart(requests)|
        decreases |requests| - i
      {
        var req := requests[i];
        if !req.done { break; }
        SilentIs(req);
        if req.res.Some? {
          FillLists(q0, c, requests, i, vecs, len);
          vecs := vecs + FillMessage(req.res.value, left);
          left := len - |vecs|;
          i := i + 1;
        } else if vecs == [] {
          FillDrops(q0, c, requests, i, len);
          PopSilent(requests, touched, finals, wire);
          ValidRest(requests, 1);
          requests := requests[1..];
          touched := touched - 1;
          c := c + 1;
        } else {
          FillSkips(q0, c, requests, i, vecs, len);
          i := i + 1;
        }
      }
      FillEnds(q0, c, requests, i, vecs, len);
    }

    /** The pieces of one vector, of which `left` bytes have been taken. */
    method WriteVec(v: Vec, left: nat, ghost was: seq<Item>, ghost k: nat, ghost to: Queue, ghost h: nat, ghost i: nat,
                    ghost len: nat)
      returns (ghost k': nat, ghost to': Queue, ghost h': nat, ghost done: string)
      requires AllValid(was) && AllValid(requests) && InOrder(requests, nextId) && left > 0 && i < len
      requires Progress(Msgs(DonePart(was)), k, Msgs(DonePart(requests)), to, h, i, len)
      requires KeptBut(was, k, requests, h) && FillQueue(to, len - i) != [] && v == FillQueue(to, len - i)[0]
      modifies `requests
      ensures AllValid(requests) && InOrder(requests, nextId) && KeptBut(was, k', requests, h') && v.at != []
      ensures old(QueueBytes(Msgs(DonePart(requests)))) == done + QueueBytes(Msgs(DonePart(requests)))
      ensures left < |v.at[0]| ==>
                done == v.at[0][..left] && Ended(Msgs(DonePart(was)), k', Msgs(DonePart(requests)), h', len)
      ensures left >= |v.at[0]| ==>
                done == v.at[0] && Progress(Msgs(DonePart(was)), k', Msgs(DonePart(requests)), to', h', i + 1, len)
                && FillQueue(to', len - i - 1) == FillQueue(to, len - i)[1..]
    {
      hide FillQueue, QueueBytes, Progress, Ended, Seek, Message.Spent, Message.Sound, DonePart, Msgs, Item.Msg;
      hide Item.Valid, Item.Silent, AllValid, KeptBut;
      ghost var q, w, d := requests, Msgs(DonePart(was)), Msgs(DonePart(requests));
      ghost var f, d';
      f, d', to' := OneVec(w, k, d, to, h, i, len, left);
      DoneItem(q, f);
      DoneItem(was, k + f);
      if h != f { DoneItem(was, k + h); }
      var at := v.id - requests[0].id;
      assert at == f;
      var n := |v.at[0]|;
      SeekIsSound(q[f], v, if n <= left then n else left);
      var x := Item(v.id, true, Some(Seek(requests[at].res.value, v, if n <= left then n else left)));
      MsgsUpdate(q, f, x);
      ValidUpdate(q, f, x);
      KeptUpdate(was, k, q, h, f, x);
      requests := requests[at := x];
      k', h', done := k, f, if left < n then v.at[0][..left] else v.at[0];
      if v.last && n <= left {
        MsgsRest(requests, f + 1);
        ValidRest(requests, f + 1);
        KeptRest(was, k, requests, f);
        k', h' := k + f + 1, 0;
        PopThrough(v.id, f);
      }
    }

    /** Requests are popped up to the one whose reply is out; those in front of it had nothing left. */
    method PopThrough(id: nat, ghost f: nat)
      requires InOrder(requests, nextId) && f < |requests| && requests[f].id == id
      modifies `requests
      ensures requests == old(requests)[f + 1..]
    {
      ghost var q := requests;
      while requests != []
        invariant |requests| >= |q| - f && requests == q[|q| - |requests|..]
        decreases |requests|
      {
        var req := requests[0];
        requests := requests[1..];
        if req.id == id { break; }
      }
    }

    /** The loop of `write`. */
    method WriteVecs(vecs: seq<Vec>, num: nat, ghost len: nat)
      returns (finished: bool, ghost k: nat, ghost h: nat, ghost done: string)
      requires AllValid(requests) && InOrder(requests, nextId)
      requires vecs == Listed(requests, len) && num <= |VecBytes(vecs)|
      modifies `requests
      ensures AllValid(requests) && InOrder(requests, nextId) && KeptBut(old(requests), k, requests, h)
      ensures finished == (num == |VecBytes(vecs)| && EndsWithBytes(vecs))
      ensures Ended(old(Msgs(DonePart(requests))), k, Msgs(DonePart(requests)), h, len) && |done| == num
      ensures old(QueueBytes(Msgs(DonePart(requests)))) == done + QueueBytes(Msgs(DonePart(requests)))
    {
      hide FillQueue, QueueBytes, VecBytes, Progress, Ended, Message.Sound, DonePart, Msgs, AllValid, KeptBut;
      ghost var was, w, to := requests, Msgs(DonePart(requests)), Msgs(DonePart(requests));
      var i, left, cut := 0, num, false;
      k, h, done := 0, 0, [];
      LeftIs(requests);
      Beginning(w, len);
      NoneWritten(was);
      while i < |vecs| && left > 0
        invariant !cut && left >= 0 && i <= |vecs| <= len && vecs[i..] == FillQueue(to, len - i)
        invariant Progress(w, k, Msgs(DonePart(requests)), to, h, i, len)
        invariant AllValid(requests) && InOrder(requests, nextId) && KeptBut(was, k, requests, h)
        invariant QueueBytes(w) == done + QueueBytes(Msgs(DonePart(requests))) && |done| + left == num
        invariant |done| + |VecBytes(vecs[i..])| == |VecBytes(vecs)|
        invariant i > 0 && left == 0 ==> vecs[i - 1].at != [] && vecs[i - 1].at[0] != []
        decreases |vecs| - i
      {
        var v := vecs[i];
        assert vecs[i..][0] == v && vecs[i..][1..] == vecs[i + 1..];
        ghost var k', to', h', out := WriteVec(v, left, was, k, to, h, i, len);
        VecBytesCons(vecs[i..]);
        Assoc(done, out, QueueBytes(Msgs(DonePart(requests))));
        done, k, h := done + out, k', h';
        if left < |v.at[0]| {
          cut := true;
          break;
        }
        to := to';
        left := left - |v.at[0]|;
        i := i + 1;
      }
      if !cut {
        ProgressEnds(w, k, Msgs(DonePart(requests)), to, h, i, len);
        if i < |vecs| {
          if EndsWithBytes(vecs) { SomethingCovered(vecs, i); }
        } else {
          NoVecBytes();
          assert vecs[i..] == [];
        }
      }
      finished := !cut && i == |vecs| && left == 0;
    }

    /** `write` once `writev` has taken `num` bytes of the vectors: exactly those bytes of the replies go out, in
        order. Of the requests with something to send exactly those leave whose last byte is out, but for one whose
        reply ends in its head with vector `len`; those in front of one that leaves, leave with it. Of the requests
        left only `h` may have been written to. */
    method Write(vecs: seq<Vec>, num: nat, ghost len: nat) returns (finished: bool, ghost k: nat, ghost h: nat)
      requires Valid() && vecs == Listed(requests, len) && num <= |VecBytes(vecs)|
      modifies `requests, `touched, `wire
      ensures Valid() && finished == (num == |VecBytes(vecs)| && EndsWithBytes(vecs))
      ensures num <= |Left(old(DonePart(requests)))| && wire == old(wire) + Left(old(DonePart(requests)))[..num]
      ensures KeptBut(old(requests), k, requests, h) && LeavesAt(Msgs(old(DonePart(requests))), k, num, len)
      ensures Written(Msgs(old(DonePart(requests))), k, Msgs(DonePart(requests)), h)
    {
      hide FillQueue, DonePart, Msgs, Left, AllValid, Balanced, Written, LeavesAt, Ended, QueueBytes, KeptBut;
      ghost var was, done := requests, [];
      LeftIs(was);
      TouchDone(was, touched, finals, wire);
      finished, k, h, done := WriteVecs(vecs, num, len);
      LeftIs(requests);
      EndedLeavesAt(Msgs(DonePart(was)), k, Msgs(DonePart(requests)), h, num, len);
      EndedIs(Msgs(DonePart(was)), k, Msgs(DonePart(requests)), h, len);
      Concluded(was, k, requests, h, done, finals, wire);
      wire := wire + done;
      touched := |DonePart(requests)|;
    }
  }

  /** A request without a final reply is in the queue, and not done. */
  lemma {:induction false} NotFinalYet(c: AcceptConnection, id: nat)
    requires c.Valid() && id < |c.finals| && c.finals[id] == None
    ensures c.nextId == |c.finals| && |c.requests| <= c.nextId
    ensures c.nextId - |c.requests| <= id && !c.requests[id - (c.nextId - |c.requests|)].done
  {
    hide Left, Finals, AllValid;
    var t := |c.finals| - (|c.requests| - c.touched);
    if id >= t { assert c.finals[t..][id - t] == None; }
  }

  /** A request in the queue is done exactly if its reply is final, and holds all of it until it is written to. */
  lemma {:induction false} DoneIsFinal(c: AcceptConnection, id: nat)
    requires c.Valid() && |c.finals| - |c.requests| <= id < |c.finals|
    ensures var j := id - (|c.finals| - |c.requests|);
            && c.requests[j].id == id && (c.requests[j].done <==> c.finals[id].Some?)
            && (j >= c.touched && c.requests[j].done ==> c.finals[id] == Some(c.requests[j].Left()))
  {
    hide Left, Finals, AllValid;
    var j, t := id - (|c.finals| - |c.requests|), |c.finals| - (|c.requests| - c.touched);
    if j >= c.touched {
      assert c.finals[t..][id - t] == c.finals[id] && c.requests[c.touched..][j - c.touched] == c.requests[j];
    }
  }

  /** Whatever the order in which the servers answer, the client has always got a prefix of the final replies
      in the order of the requests; the rest of what is ready is what is left in the queue. */
  lemma {:induction false} ClientGetsRepliesInOrder(c: AcceptConnection)
    requires c.Valid()
    ensures c.wire <= Finals(c.finals)
    ensures Finals(c.finals) == c.wire + Left(DonePart(c.requests))
  {
    SentAndLeft(c.requests, c.touched, c.finals, c.wire);
  }
}
