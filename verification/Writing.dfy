/** What writing some of the vectors of a queue amounts to: which messages leave it, and what is left of the others
    (src/ConnectConnection.cpp and src/AcceptConnection.cpp `write`). */
module Writing {
  import opened Bytes
  import opened Gather

  /** Message `j` ends in its head, and its last piece is vector `len`: `fill` has no room left to mark it. */
  predicate EndsAt(q: Queue, j: nat, len: nat)
    requires j < |q|
  {
    q[j].EndsInHead() && Pieced(q[..j + 1]) == len
  }

  /** Once `num` bytes of the first `len` vectors are out, the first `k` messages of `was` leave the queue: the last of
      them had something left, and of those that had the ones that leave are exactly those whose last byte is out, but
      for one that ends in its head with vector `len`. */
  ghost predicate LeavesAt(was: Queue, k: nat, num: nat, len: nat) {
    && k <= |was| && (k > 0 ==> !was[k - 1].Spent())
    && forall i :: 0 <= i < |was| && !was[i].Spent() ==> (i < k <==> IsOut(was, i, num) && !EndsAt(was, i, len))
  }

  /** The last byte of message `i` is among the first `num`. */
  predicate IsOut(q: Queue, i: nat, num: nat)
    requires i < |q|
  {
    |QueueBytes(q[..i + 1])| <= num
  }

  /** There is one such number of messages. */
  lemma {:induction false} LeavesOnce(was: Queue, k: nat, l: nat, num: nat, len: nat)
    requires LeavesAt(was, k, num, len) && LeavesAt(was, l, num, len)
    ensures k == l
  {
    hide IsOut, EndsAt;
  }

  // ----- what is left -----

  /** `n` is what is left of `w`, or all of it. */
  predicate Rest(w: Message, n: Message) {
    && n.id == w.id && |n.Bytes()| <= |w.Bytes()| && (w.Spent() ==> n.Spent())
    && (n.body != [] ==> w.body != []) && (n.head != [] ==> w.head != [] && (w.body != [] ==> n.body != []))
  }

  /** Of the queue `was`, `k` messages have left, and of the others all is left but for message `h`, up to which
      nothing is. */
  ghost predicate Written(was: Queue, k: nat, now: Queue, h: nat) {
    && k + |now| == |was|
    && (forall i :: 0 <= i < |now| && i != h ==> now[i] == was[k + i])
    && (forall i :: 0 <= i < |now| && i < h ==> now[i].Spent())
    && (h < |now| ==> Rest(was[k + h], now[h]))
  }

  /** The last of the messages that have left had something left and was marked. */
  ghost predicate Popped(was: Queue, k: nat, len: nat) {
    && k <= |was|
    && (k > 0 ==> !was[k - 1].Spent() && Pieced(was[..k]) <= len && !EndsAt(was, k - 1, len))
  }

  /** Message `h` has nothing left and is still here. */
  ghost predicate Stuck(was: Queue, k: nat, now: Queue, h: nat)
    requires k + |now| == |was|
  {
    h < |now| && now[h].Spent() && !was[k + h].Spent()
  }

  /** `i` of the `len` vectors are out. `to` is the queue without the pieces that have no bytes and have been passed. */
  ghost predicate Progress(was: Queue, k: nat, now: Queue, to: Queue, h: nat, i: nat, len: nat) {
    && AllSound(was) && AllSound(to) && Loose(now, to, h)
    && Written(was, k, to, h) && Popped(was, k, len) && Pieced(was) == i + Pieced(to)
    && (Stuck(was, k, to, h) ==> i == len && EndsAt(was, k + h, len))
  }

  /** Output has come to an end. */
  ghost predicate Ended(was: Queue, k: nat, now: Queue, h: nat, len: nat) {
    && AllSound(was) && AllSound(now) && Written(was, k, now, h) && Popped(was, k, len)
    && (Stuck(was, k, now, h) ==> EndsAt(was, k + h, len))
  }

  lemma {:induction false} SameIsRest(m: Message)
    ensures Rest(m, m)
  {
    hide Message.Bytes;
  }

  lemma {:induction false} Beginning(q: Queue, len: nat)
    requires AllSound(q)
    ensures Progress(q, 0, q, q, 0, 0, len)
  {
    hide Message.Bytes, Message.Spent, Message.Sound, Pieced, Rest, Close;
    if q != [] {
      SameIsRest(q[0]);
      SameIsClose(q[0]);
    }
  }

  /** What is loosely left is left. */
  lemma {:induction false} LooseWritten(was: Queue, k: nat, now: Queue, to: Queue, h: nat)
    requires AllSound(to) && Loose(now, to, h) && Written(was, k, to, h)
    ensures AllSound(now) && Written(was, k, now, h) && QueueBytes(now) == QueueBytes(to)
    ensures Stuck(was, k, now, h) <==> Stuck(was, k, to, h)
  {
    if h < |now| {
      CloseIs(now[h], to[h]);
      LooseBytes(now, to, h);
    } else {
      assert now == to;
    }
  }

  lemma {:induction false} LooseBytes(now: Queue, to: Queue, h: nat)
    requires AllSound(to) && Loose(now, to, h) && h < |now|
    ensures QueueBytes(now) == QueueBytes(to)
  {
    hide Message.Bytes, Message.Sound, Close, QueueBytes;
    CloseIs(now[h], to[h]);
    QueueSplit(now, h);
    QueueSplit(to, h);
    QueueCons(now[h..]);
    QueueCons(to[h..]);
    assert now[..h] == to[..h] && now[h..][1..] == to[h..][1..];
  }

  lemma {:induction false} ProgressEnds(was: Queue, k: nat, now: Queue, to: Queue, h: nat, i: nat, len: nat)
    requires Progress(was, k, now, to, h, i, len)
    ensures Ended(was, k, now, h, len) && QueueBytes(now) == QueueBytes(to)
  {
    hide QueueBytes, Written, Loose, AllSound, Popped, Stuck, EndsAt;
    LooseWritten(was, k, now, to, h);
  }

  // ----- one vector -----

  /** While there are vectors, nothing is stuck, so what is next is the first message of which something is left. */
  lemma {:induction false} FrontIsNext(was: Queue, k: nat, now: Queue, to: Queue, h: nat, i: nat, len: nat, f: nat)
    requires Progress(was, k, now, to, h, i, len) && i < len && IsFront(to, f)
    ensures Progress(was, k, now, to, f, i, len) && IsFront(now, f)
    ensures !was[k + f].Spent() && Close(now[f], to[f]) && (h != f ==> h < f && was[k + h].Spent())
  {
    hide Pieced, EndsAt, Popped, Message.Bytes, Message.Sound, Message.Spent, Close, Rest, AllSpent;
    SpentBefore(to, f);
    if h < f {
      SpentIsSame(was[k + h], to[h]);
      CloseIs(now[h], to[h]);
      SameIsRest(to[f]);
      SameIsClose(to[f]);
    }
    CloseIs(now[f], to[f]);
    RestHasSome(was[k + f], to[f]);
    assert now[..f] == to[..f];
  }

  lemma {:induction false} SpentBefore(q: Queue, f: nat)
    requires f <= |q| && AllSpent(q[..f])
    ensures forall j :: 0 <= j < f ==> q[j].Spent()
  {
    forall j | 0 <= j < f ensures q[j].Spent() { SpentAt(q, j, f); }
  }

  lemma {:induction false} SpentIsSame(w: Message, n: Message)
    requires Rest(w, n) && w.Spent()
    ensures w == n
  {
  }

  lemma {:induction false} RestHasSome(w: Message, n: Message)
    requires Rest(w, n) && !n.Spent()
    ensures !w.Spent() && (n.EndsInHead() ==> w.EndsInHead())
  {
  }

  /** What is left after one more piece is left. */
  lemma {:induction false} RestNext(w: Message, n: Message)
    requires Rest(w, n) && n.Sound() && !n.Spent()
    ensures Rest(w, Next(n))
  {
    hide Flat;
    NextIs(n);
  }

  lemma {:induction false} RestPart(w: Message, n: Message, k: nat)
    requires Rest(w, n) && n.Sound() && !n.Spent() && FirstVec(n).at != [] && k < |FirstVec(n).at[0]|
    ensures Rest(w, Seek(n, FirstVec(n), k))
  {
    hide Flat;
    PartOfMessage(n, k);
  }

  /** What is in front of the next message has been spent from the start. */
  lemma {:induction false} FrontPlaces(was: Queue, k: nat, now: Queue, to: Queue, f: nat, i: nat, len: nat)
    requires Progress(was, k, now, to, f, i, len) && IsFront(to, f) && !was[k + f].Spent()
    ensures k + f < |was| && f < |now| == |to|
    ensures !to[f].Spent() && to[f].Sound() && !now[f].Spent() && now[f].id == was[k + f].id && now[..f] == was[k..k + f]
    ensures forall j :: k <= j < k + f ==> was[j].Spent()
  {
    hide Message.Spent, AllSpent, Popped, Pieced, Stuck;
    SpentBefore(to, f);
    forall j | k <= j < k + f ensures was[j].Spent() { assert was[j] == to[j - k]; }
    CloseIs(now[f], to[f]);
  }

  lemma {:induction false} SomethingToFill(q: Queue, len: nat)
    requires FillQueue(q, len) != []
    ensures AllVecs(q) != []
  {
    hide FillQueue, AllVecs;
    FillQueueFits(q, len);
    if AllVecs(q) == [] { FitNothing([], len); }
  }

  lemma {:induction false} SeekSound(m: Message, to: Message, n: nat, len: nat)
    requires Close(m, to) && to.Sound() && !to.Spent() && FirstVec(to).at != [] && n <= |FirstVec(to).at[0]|
    ensures Seek(m, Marked(FirstVec(to), len), n).Sound()
  {
    hide FirstVec, Drop, Trim;
    CloseSeek(m, to, n);
    if n < |FirstVec(to).at[0]| { PartOfMessage(to, n); } else { SeekIsClose(to); }
  }

  /** The state when vector `i` has been taken in full, before anything is popped. */
  lemma {:induction false} VecOut(was: Queue, k: nat, now: Queue, to: Queue, f: nat, i: nat, len: nat)
    requires Progress(was, k, now, to, f, i, len) && i < len && IsFront(to, f) && IsFront(now, f)
    requires !was[k + f].Spent() && Close(now[f], to[f])
    ensures var v := Marked(FirstVec(to[f]), len - i);
            && v.id == now[f].id && v.at != []
            && var (now', to') := (now[f := Seek(now[f], v, |v.at[0]|)], to[f := Next(to[f])]);
            && AllSound(to') && Loose(now', to', f) && Written(was, k, to', f) && Pieced(was) == i + 1 + Pieced(to')
            && QueueBytes(now) == v.at[0] + QueueBytes(now')
            && FillQueue(to, len - i) != [] && FillQueue(to, len - i)[0] == v
            && FillQueue(to, len - i)[1..] == FillQueue(to', len - i - 1)
  {
    hide Pieced, EndsAt, Popped, Message.Bytes, Message.Sound, Message.Spent, Close, Rest, AllSpent, QueueBytes;
    hide FirstVec, Next, FillQueue, Stuck;
    VecByVec(to, f, len - i);
    NextIs(to[f]);
    CloseIs(now[f], to[f]);
    CloseSeek(now[f], to[f], |FirstVec(to[f]).at[0]|);
    SeekIsClose(to[f]);
    RestNext(was[k + f], to[f]);
    LooseWritten(was, k, now, to, f);
    var now', to' := now[f := Seek(now[f], FirstVec(to[f]), |FirstVec(to[f]).at[0]|)], to[f := Next(to[f])];
    LooseWritten(was, k, now', to', f);
  }

  /** When message `f` has nothing left, the pieces up to its last are those that are out. */
  lemma {:induction false} PiecesOut(was: Queue, k: nat, to: Queue, f: nat, n: nat)
    requires Written(was, k, to, f) && Pieced(was) == n + Pieced(to) && f < |to| && to[f].Spent()
    ensures k + |to| == |was| && AllSpent(to[..f + 1]) && to[f + 1..] == was[k + f + 1..] && Pieced(was[..k + f + 1]) == n
  {
    hide Pieced, Message.Spent, Rest, Written, AllSpent, AllVecs, QueueBytes;
    Lengths(was, k, to, f);
    SpentUpTo(was, k, to, f);
    TailIsSame(was, k, to, f, f);
    SpentFront(to, f + 1);
    QueueSplit(was, k + f + 1);
  }

  lemma {:induction false} Lengths(was: Queue, k: nat, now: Queue, h: nat)
    requires Written(was, k, now, h)
    ensures k + |now| == |was| && forall j :: 0 <= j < |now| && !now[j].Spent() ==> h <= j
  {
    hide Message.Spent;
  }

  /** A vector that ends no message, or is not marked to. */
  lemma {:induction false} VecStays(was: Queue, k: nat, now: Queue, to: Queue, f: nat, i: nat, len: nat)
    requires Progress(was, k, now, to, f, i, len) && i < len && IsFront(to, f) && IsFront(now, f)
    requires !was[k + f].Spent() && Close(now[f], to[f]) && !Marked(FirstVec(to[f]), len - i).last
    ensures var v := Marked(FirstVec(to[f]), len - i);
            v.at != [] && Progress(was, k, now[f := Seek(now[f], v, |v.at[0]|)], to[f := Next(to[f])], f, i + 1, len)
  {
    hide Pieced, Popped, Message.Bytes, Message.Sound, Close, AllSpent, QueueBytes, Loose;
    hide FirstVec, Next, FillQueue;
    VecOut(was, k, now, to, f, i, len);
    var to' := to[f := Next(to[f])];
    NextIs(to[f]);
    if to'[f].Spent() {
      PiecesOut(was, k, to', f, i + 1);
      RestHasSome(was[k + f], to[f]);
    }
  }

  /** A vector that is marked: its message leaves, with those in front that have nothing left. */
  lemma {:induction false} VecLeaves(was: Queue, k: nat, now: Queue, to: Queue, f: nat, i: nat, len: nat)
    requires Progress(was, k, now, to, f, i, len) && i < len && IsFront(to, f) && IsFront(now, f)
    requires !was[k + f].Spent() && Close(now[f], to[f]) && Marked(FirstVec(to[f]), len - i).last
    ensures var v := Marked(FirstVec(to[f]), len - i);
            && v.at != [] && v.at[0] != []
            && var (now', to') := (now[f := Seek(now[f], v, |v.at[0]|)], to[f := Next(to[f])]);
            && Progress(was, k + f + 1, now'[f + 1..], to'[f + 1..], 0, i + 1, len)
            && QueueBytes(now'[f + 1..]) == QueueBytes(now')
            && FillQueue(to'[f + 1..], len - i - 1) == FillQueue(to', len - i - 1)
  {
    hide Pieced, Popped, Message.Bytes, Message.Sound, Close, AllSpent, QueueBytes, FirstVec, Next, FillQueue, Rest;
    var v := Marked(FirstVec(to[f]), len - i);
    VecOut(was, k, now, to, f, i, len);
    var now', to' := now[f := Seek(now[f], v, |v.at[0]|)], to[f := Next(to[f])];
    NextIs(to[f]);
    PiecesOut(was, k, to', f, i + 1);
    PoppedNext(was, k + f, to[f], i, len);
    CloseIs(now'[f], to'[f]);
    assert now' == to';
    RestGoesOn(was, k, to', f, i + 1, len);
  }

  lemma {:induction false} PoppedNext(was: Queue, j: nat, m: Message, i: nat, len: nat)
    requires j < |was| && Rest(was[j], m) && m.Sound() && !m.Spent() && !was[j].Spent()
    requires i < len && Marked(FirstVec(m), len - i).last && Pieced(was[..j + 1]) == i + 1
    ensures Popped(was, j + 1, len)
  {
    hide Pieced;
  }

  /** The queue without what has nothing left at its front. */
  lemma {:induction false} RestGoesOn(was: Queue, k: nat, q: Queue, f: nat, i: nat, len: nat)
    requires AllSound(was) && AllSound(q) && Written(was, k, q, f) && Pieced(was) == i + Pieced(q)
    requires f < |q| && AllSpent(q[..f + 1]) && q[f + 1..] == was[k + f + 1..] && Popped(was, k + f + 1, len)
    ensures Progress(was, k + f + 1, q[f + 1..], q[f + 1..], 0, i, len)
    ensures QueueBytes(q[f + 1..]) == QueueBytes(q)
    ensures i <= len ==> FillQueue(q[f + 1..], len - i) == FillQueue(q, len - i)
  {
    hide Pieced, Popped, Message.Bytes, Message.Sound, Close, AllSpent, QueueBytes, FillQueue, Rest;
    SpentFront(q, f + 1);
    if i <= len {
      FillQueueFits(q, len - i);
      FillQueueFits(q[f + 1..], len - i);
    }
    if f + 1 < |q| {
      SameIsRest(q[f + 1]);
      SameIsClose(q[f + 1]);
    }
  }

  /** Only `n` bytes of a vector: output has come to an end. */
  lemma {:induction false} VecInPart(was: Queue, k: nat, now: Queue, to: Queue, f: nat, i: nat, len: nat, n: nat)
    requires Progress(was, k, now, to, f, i, len) && i < len && IsFront(to, f) && IsFront(now, f)
    requires !was[k + f].Spent() && Close(now[f], to[f])
    requires FirstVec(to[f]).at != [] && n < |FirstVec(to[f]).at[0]|
    ensures var v := Marked(FirstVec(to[f]), len - i);
            var now' := now[f := Seek(now[f], v, n)];
            Ended(was, k, now', f, len) && QueueBytes(now) == v.at[0][..n] + QueueBytes(now')
  {
    hide Pieced, EndsAt, Popped, Message.Bytes, Message.Sound, Message.Spent, Close, Rest, AllSpent, QueueBytes;
    hide FirstVec, Next, FillQueue, Drop;
    PartOfVec(to, f, n);
    CloseSeek(now[f], to[f], n);
    RestPart(was[k + f], to[f], n);
    LooseWritten(was, k, now, to, f);
    var s := Seek(to[f], FirstVec(to[f]), n);
    assert now[f := s] == to[f := s];
  }

  /** The next vector is the first piece of message `f`, and all in front of that has had nothing left from the start. */
  ghost predicate NextIsOf(was: Queue, k: nat, now: Queue, h: nat, f: nat, v: Vec) {
    && f < |now| && k + f < |was| && !now[f].Spent() && !was[k + f].Spent()
    && v.id == now[f].id == was[k + f].id && v.at != [] && now[..f] == was[k..k + f]
    && (h != f ==> h < f && was[k + h].Spent()) && (forall j :: k <= j < k + f ==> was[j].Spent())
  }

  /** The state when `left` bytes are left for vector `i`: its message leaves if that is marked and goes out in full. */
  lemma {:induction false} OneVec(was: Queue, k: nat, now: Queue, to: Queue, h: nat, i: nat, len: nat, left: nat)
    returns (f: nat, q: Queue, to': Queue)
    requires Progress(was, k, now, to, h, i, len) && i < len && FillQueue(to, len - i) != []
    ensures NextIsOf(was, k, now, h, f, FillQueue(to, len - i)[0])
    ensures var v := FillQueue(to, len - i)[0];
            var n := if |v.at[0]| <= left then |v.at[0]| else left;
            && q == now[f := Seek(now[f], v, n)] && q[f].Sound()
            && (left < |v.at[0]| ==> Ended(was, k, q, f, len) && QueueBytes(now) == v.at[0][..left] + QueueBytes(q))
            && (left >= |v.at[0]| ==>
                  && FillQueue(to', len - i - 1) == FillQueue(to, len - i)[1..]
                  && QueueBytes(now) == v.at[0] + QueueBytes(if v.last then q[f + 1..] else q)
                  && if v.last then Progress(was, k + f + 1, q[f + 1..], to', 0, i + 1, len)
                     else Progress(was, k, q, to', f, i + 1, len))
  {
    hide FillQueue, AllVecs, QueueBytes, Progress, Ended, IsFront, FirstVec, Next, Seek, Close, Message.Spent;
    hide Message.Sound;
    SomethingToFill(to, len - i);
    f := FrontOf(to);
    FrontIsNext(was, k, now, to, h, i, len, f);
    FrontPlaces(was, k, now, to, f, i, len);
    VecOut(was, k, now, to, f, i, len);
    var v := FillQueue(to, len - i)[0];
    var n := if |v.at[0]| <= left then |v.at[0]| else left;
    SeekSound(now[f], to[f], n, len - i);
    q, to' := now[f := Seek(now[f], v, n)], to[f := Next(to[f])];
    if left < |v.at[0]| {
      VecInPart(was, k, now, to, f, i, len, left);
    } else if v.last {
      VecLeaves(was, k, now, to, f, i, len);
      to' := to'[f + 1..];
    } else {
      VecStays(was, k, now, to, f, i, len);
    }
  }

  // ----- what it comes to -----

  lemma {:induction false} EndedIs(was: Queue, k: nat, now: Queue, h: nat, len: nat)
    requires Ended(was, k, now, h, len)
    ensures AllSound(now) && Written(was, k, now, h) && k + |now| == |was|
  {
  }

  lemma {:induction false} BytesUpTo(q: Queue, i: nat, j: nat)
    requires i <= j <= |q|
    ensures |QueueBytes(q[..i])| <= |QueueBytes(q[..j])|
    ensures Pieced(q[..i]) <= Pieced(q[..j])
  {
    hide QueueBytes, Pieced;
    QueueSplit(q[..j], i);
    assert q[..j][..i] == q[..i];
  }

  lemma {:induction false} UpToNext(q: Queue, i: nat)
    requires i < |q|
    ensures |QueueBytes(q[..i + 1])| == |QueueBytes(q[..i])| + |q[i].Bytes()|
    ensures Pieced(q[..i + 1]) == Pieced(q[..i]) + q[i].Size()
  {
    hide QueueBytes, Pieced, Message.Bytes, Message.Size;
    assert q[..i + 1] == q[..i] + [q[i]];
    QueueAppend(q[..i], q[i]);
  }

  lemma {:induction false} HasBytes(m: Message)
    requires m.Sound() && !m.Spent()
    ensures m.Bytes() != [] && m.Size() > 0
  {
    if m.body != [] { FlatHasBytes(m.body); } else { FlatHasBytes(m.head); }
  }

  /** All that `num` bytes of output amount to. */
  lemma {:induction false} EndedLeavesAt(was: Queue, k: nat, now: Queue, h: nat, num: nat, len: nat)
    requires Ended(was, k, now, h, len) && |QueueBytes(was)| == num + |QueueBytes(now)|
    ensures LeavesAt(was, k, num, len)
  {
    hide QueueBytes, Pieced, Message.Bytes, Message.Size, Rest, Message.Spent, Message.Sound, EndsAt;
    forall i | 0 <= i < |was| && !was[i].Spent() ensures i < k <==> IsOut(was, i, num) && !EndsAt(was, i, len) {
      if i < k { LeftIsOut(was, k, now, h, num, len, i); } else { StaysIf(was, k, now, h, num, len, i); }
    }
  }

  lemma {:induction false} TailIsSame(was: Queue, k: nat, now: Queue, h: nat, j: nat)
    requires Written(was, k, now, h) && h <= j < |now|
    ensures now[j + 1..] == was[k + j + 1..]
  {
    hide Rest, Message.Spent;
  }

  /** What is left has no more bytes than there were. */
  lemma {:induction false} FewerLeft(was: Queue, k: nat, now: Queue, h: nat)
    requires Written(was, k, now, h)
    ensures |QueueBytes(now)| <= |QueueBytes(was[k..])|
  {
    hide QueueBytes, Message.Bytes, Message.Spent, Written;
    HeadIsSame(was, k, now, h);
    var w := was[k..];
    if h < |now| {
      TailIsSame(was, k, now, h, h);
      RestIsLess(was, k, now, h);
      QueueSplit(now, h);
      QueueSplit(w, h);
      QueueCons(now[h..]);
      QueueCons(w[h..]);
      assert now[h..][1..] == now[h + 1..] && w[h..][1..] == was[k + h + 1..];
    }
  }

  lemma {:induction false} HeadIsSame(was: Queue, k: nat, now: Queue, h: nat)
    requires Written(was, k, now, h)
    ensures k + |now| == |was|
    ensures if h < |now| then now[..h] == was[k..][..h] else now == was[k..]
  {
    hide Rest, Message.Spent;
  }

  lemma {:induction false} RestIsLess(was: Queue, k: nat, now: Queue, h: nat)
    requires Written(was, k, now, h) && h < |now|
    ensures |now[h].Bytes()| <= |was[k + h].Bytes()|
  {
    hide Message.Bytes;
  }

  lemma {:induction false} LeftIsOut(was: Queue, k: nat, now: Queue, h: nat, num: nat, len: nat, i: nat)
    requires Ended(was, k, now, h, len) && |QueueBytes(was)| == num + |QueueBytes(now)|
    requires i < k && !was[i].Spent()
    ensures IsOut(was, i, num) && !EndsAt(was, i, len)
  {
    hide QueueBytes, Pieced, Message.Bytes, Message.Size, Rest, Message.Spent, Message.Sound;
    FewerLeft(was, k, now, h);
    QueueSplit(was, k);
    BytesUpTo(was, i + 1, k);
    if i + 1 < k {
      BytesUpTo(was, i + 1, k - 1);
      UpToNext(was, k - 1);
      HasBytes(was[k - 1]);
    }
  }

  /** A message that is still here has something left, or is stuck. */
  lemma {:induction false} StaysIf(was: Queue, k: nat, now: Queue, h: nat, num: nat, len: nat, i: nat)
    requires Ended(was, k, now, h, len) && |QueueBytes(was)| == num + |QueueBytes(now)|
    requires k <= i < |was| && !was[i].Spent()
    ensures (now[i - k].Spent() <==> IsOut(was, i, num)) && (IsOut(was, i, num) ==> EndsAt(was, i, len))
  {
    hide QueueBytes, IsOut, EndsAt, Message.Spent, AllSound, Popped;
    if now[i - k].Spent() {
      StuckIsOut(was, k, now, h, num, i);
    } else {
      NotOutYet(was, k, now, h, num, i);
    }
  }

  lemma {:induction false} NotOutYet(was: Queue, k: nat, now: Queue, h: nat, num: nat, i: nat)
    requires Written(was, k, now, h) && AllSound(now) && |QueueBytes(was)| == num + |QueueBytes(now)|
    requires k <= i < |was| && i - k < |now| && !now[i - k].Spent()
    ensures !IsOut(was, i, num)
  {
    hide QueueBytes, Message.Bytes, Message.Size, Message.Spent, Message.Sound, Written, Pieced, AllVecs;
    var j := i - k;
    HasBytes(now[j]);
    Lengths(was, k, now, h);
    TailIsSame(was, k, now, h, j);
    QueueSplit(was, i + 1);
    QueueSplit(now, j + 1);
    UpToNext(now, j);
  }

  lemma {:induction false} StuckIsOut(was: Queue, k: nat, now: Queue, h: nat, num: nat, i: nat)
    requires Written(was, k, now, h) && |QueueBytes(was)| == num + |QueueBytes(now)|
    requires k <= i < |was| && !was[i].Spent() && now[i - k].Spent()
    ensures i == k + h && IsOut(was, i, num)
  {
    hide QueueBytes, Message.Spent, Rest;
    TailIsSame(was, k, now, h, h);
    SpentUpTo(was, k, now, h);
    SpentSaysNothing(now[..h + 1]);
    QueueSplit(was, i + 1);
    QueueSplit(now, h + 1);
  }

  lemma {:induction false} SpentUpTo(was: Queue, k: nat, now: Queue, h: nat)
    requires Written(was, k, now, h) && h < |now| && now[h].Spent()
    ensures AllSpent(now[..h + 1])
  {
    hide Rest, Message.Spent;
  }
}
