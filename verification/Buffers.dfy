/** Buffers linked one to the next, and segments: a begin, a cursor and an end in such a chain, which are together one
    run of bytes (src/Buffer.cpp, src/Buffer.h). */
module Buffers {
  import opened Bytes
  import opened Gather

  /** `mDat` up to `mLen`, and the link to the next buffer. */
  class Buffer {
    var dat: string
    var next: Buffer?

    constructor ()
      ensures dat == [] && next == null
    {
      dat, next := [], null;
    }

    /** The room there is when buffers hold `size` bytes (`Buffer::Size`). */
    function Room(size: nat): int
      reads `dat
    {
      size - |dat|
    }
  }

  /** The buffers are linked in this order. */
  ghost predicate Linked(bufs: seq<Buffer>)
    reads bufs`next
  {
    && (forall i :: 0 <= i < |bufs| - 1 ==> bufs[i].next == bufs[i + 1])
    && forall i, j :: 0 <= i < j < |bufs| ==> bufs[i] != bufs[j]
  }

  lemma {:induction false} NoneLinked()
    ensures Linked([])
  {
  }

  /** What buffer `i` holds; of the last only what is in front of `end`. */
  ghost function TextOf(bufs: seq<Buffer>, i: nat, end: nat): (t: string)
    requires i < |bufs| && (i == |bufs| - 1 ==> end <= |bufs[i].dat|)
    reads bufs
    ensures |t| == if i == |bufs| - 1 then end else |bufs[i].dat|
  {
    if i == |bufs| - 1 then bufs[i].dat[..end] else bufs[i].dat
  }

  /** What the buffers hold, from the `i`-th on. */
  ghost function Texts(bufs: seq<Buffer>, i: nat, end: nat): (ts: seq<string>)
    requires i <= |bufs| && (bufs != [] ==> end <= |bufs[|bufs| - 1].dat|)
    reads bufs
    ensures |ts| == |bufs| - i
    ensures forall k :: i <= k < |bufs| ==> ts[k - i] == TextOf(bufs, k, end)
    decreases |bufs| - i
  {
    if i == |bufs| then [] else [TextOf(bufs, i, end)] + Texts(bufs, i + 1, end)
  }

  // ----- positions in a chain of texts -----

  predicate Position(ts: seq<string>, i: nat, pos: nat) {
    i < |ts| && pos <= |ts[i]|
  }

  /** The bytes from a position on. */
  function From(ts: seq<string>, i: nat, pos: nat): string
    requires Position(ts, i, pos)
  {
    ts[i][pos..] + Flat(ts[i + 1..])
  }

  lemma {:induction false} FromNext(ts: seq<string>, i: nat, pos: nat)
    requires Position(ts, i, pos)
    ensures i + 1 < |ts| ==> From(ts, i, pos) == ts[i][pos..] + From(ts, i + 1, 0)
    ensures i + 1 == |ts| ==> From(ts, i, pos) == ts[i][pos..]
  {
    if i + 1 < |ts| {
      assert ts[i + 1..][0] == ts[i + 1] && ts[i + 1..][1..] == ts[i + 2..];
      assert ts[i + 1][0..] == ts[i + 1];
    } else {
      assert ts[i + 1..] == [];
    }
  }

  lemma {:induction false} FromLater(ts: seq<string>, i: nat, pos: nat, k: nat)
    requires Position(ts, i, pos) && pos + k <= |ts[i]|
    ensures Position(ts, i, pos + k)
    ensures From(ts, i, pos + k) == From(ts, i, pos)[k..] && |From(ts, i, pos)| >= k
  {
    var a, b := ts[i][pos..], Flat(ts[i + 1..]);
    assert (a + b)[k..] == a[k..] + b;
  }

  lemma {:induction false} BehindNone(s: string)
    ensures Behind(s, 0) == s && s[0..] == s
  {
  }

  lemma {:induction false} BehindIs(s: string, n: nat)
    requires n <= |s|
    ensures Behind(s, n) == s[n..]
  {
  }

  lemma {:induction false} BehindPast(s: string, n: nat)
    requires n >= |s|
    ensures Behind(s, n) == []
  {
  }

  lemma {:induction false} DropNone(ps: Pieces)
    ensures Drop(ps, 0) == ps
  {
  }

  lemma {:induction false} BehindMore(s: string, a: nat, n: nat)
    requires a <= |s|
    ensures Behind(s[a..], n) == Behind(s, a + n)
  {
  }

  lemma {:induction false} BehindTwice(s: string, a: nat, b: nat)
    requires a <= |s| && b <= |s[a..]|
    ensures s[a..][b..] == s[a + b..]
  {
  }

  lemma {:induction false} SliceOfSlice(s: string, pos: nat, num: nat, k: nat)
    requires pos + num <= |s| && k <= num
    ensures s[pos..pos + k] == s[pos..pos + num][..k]
  {
  }

  /** Of the first `cnt` bytes, as much as there is room for. */
  function Took(all: string, cnt: nat, room: int): string
    requires cnt <= |all|
  {
    if room <= 0 then [] else if room < cnt then all[..room] else all[..cnt]
  }

  lemma {:induction false} TookNone(all: string, room: int)
    ensures Took(all, 0, room) == []
  {
  }

  lemma {:induction false} TookMore(all: string, cnt: nat, num: nat, room: int)
    requires cnt + num <= |all|
    ensures var len := room - cnt;
            Took(all, cnt + num, room) == Took(all, cnt, room)
              + (if len > 0 then all[cnt..cnt + num][..if len > num then num else len] else [])
  {
  }

  /** A piece of a segment in one buffer, where it starts, and its bytes. */
  datatype IOVec = IOVec(buf: Buffer, pos: nat, dat: string)

  /** The pieces from a position on, one per buffer. An end at the front of a later buffer adds no piece. */
  function PiecesFrom(ts: seq<string>, i: nat, pos: nat): Pieces
    requires Position(ts, i, pos)
    decreases |ts| - i
  {
    if i + 1 == |ts| then (if pos == |ts[i]| then [] else [ts[i][pos..]])
    else [ts[i][pos..]] + PiecesFrom(ts, i + 1, 0)
  }

  function Prefix<T>(s: seq<T>, len: nat): seq<T> {
    if len < |s| then s[..len] else s
  }

  lemma {:induction false} PiecesEndFull(ts: seq<string>, i: nat, pos: nat)
    requires Position(ts, i, pos) && (i + 1 < |ts| ==> ts[|ts| - 1] != [])
    ensures EndsFull(PiecesFrom(ts, i, pos)) && (i + 1 < |ts| ==> PiecesFrom(ts, i, pos) != [])
    ensures i + 1 == |ts| && pos < |ts[i]| ==> PiecesFrom(ts, i, pos) != []
    decreases |ts| - i
  {
    if i + 1 < |ts| { PiecesEndFull(ts, i + 1, 0); }
  }

  lemma {:induction false} PiecesAreBytes(ts: seq<string>, i: nat, pos: nat)
    requires Position(ts, i, pos)
    ensures Flat(PiecesFrom(ts, i, pos)) == From(ts, i, pos)
    decreases |ts| - i
  {
    hide From;
    FromNext(ts, i, pos);
    if i + 1 < |ts| {
      PiecesAreBytes(ts, i + 1, 0);
      assert PiecesFrom(ts, i, pos)[1..] == PiecesFrom(ts, i + 1, 0);
    } else if pos < |ts[i]| {
      assert [ts[i][pos..]][1..] == [] && ts[i][pos..] + [] == ts[i][pos..];
    }
  }

  ghost function Dats(vs: seq<IOVec>): (r: seq<string>)
    ensures |r| == |vs| && forall i :: 0 <= i < |vs| ==> r[i] == vs[i].dat
  {
    seq(|vs|, i requires 0 <= i < |vs| => vs[i].dat)
  }

  lemma {:induction false} DropInside(ts: seq<string>, i: nat, pos: nat, k: nat)
    requires Position(ts, i, pos) && 0 < k && pos + k <= |ts[i]| && (i + 1 < |ts| ==> pos + k < |ts[i]|)
    ensures PiecesFrom(ts, i, pos + k) == Drop(PiecesFrom(ts, i, pos), k)
  {
    var ps := PiecesFrom(ts, i, pos);
    assert ts[i][pos..][k..] == ts[i][pos + k..];
    if i + 1 == |ts| {
      assert ps == [ts[i][pos..]] && ps[1..] == [];
    }
  }

  lemma {:induction false} DropBuffer(ts: seq<string>, i: nat, pos: nat, n: nat)
    requires Position(ts, i, pos) && i + 1 < |ts| && 0 < n && n >= |ts[i]| - pos
    ensures Drop(PiecesFrom(ts, i, pos), n) == Drop(PiecesFrom(ts, i + 1, 0), n - (|ts[i]| - pos))
  {
    assert PiecesFrom(ts, i, pos)[1..] == PiecesFrom(ts, i + 1, 0);
  }

  lemma {:induction false} DropLast(ts: seq<string>, i: nat, pos: nat, n: nat)
    requires Position(ts, i, pos) && i + 1 == |ts| && 0 < n && pos + n >= |ts[i]|
    ensures Drop(PiecesFrom(ts, i, pos), n) == [] == PiecesFrom(ts, i, |ts[i]|)
  {
    if pos < |ts[i]| { assert [ts[i][pos..]][1..] == []; }
  }

  lemma {:induction false} DatsMore(vs: seq<IOVec>, v: IOVec)
    ensures Dats(vs + [v]) == Dats(vs) + [v.dat]
  {
  }

  /** A later position has fewer bytes behind it. */
  lemma {:induction false} FewerBytes(ts: seq<string>, j: nat, q: nat, i: nat, pos: nat)
    requires Position(ts, j, q) && Position(ts, i, pos) && (j < i || (j == i && q <= pos))
    ensures |From(ts, i, pos)| <= |From(ts, j, q)|
    decreases i - j
  {
    if j < i {
      FewerBytes(ts, j + 1, 0, i, pos);
      FromNext(ts, j, q);
    }
  }

  lemma {:induction false} FromTail(ts: seq<string>, i: nat, pos: nat)
    requires ts != [] && Position(ts[1..], i, pos)
    ensures Position(ts, i + 1, pos) && From(ts[1..], i, pos) == From(ts, i + 1, pos)
  {
    assert ts[1..][i + 1..] == ts[i + 2..];
  }

  lemma {:induction false} KeptNothing(left: string)
    ensures Kept(left, []) == []
  {
  }

  lemma {:induction false} KeptAll(left: string, all: string)
    requires |left| <= |all|
    ensures Kept(left, all) == left
  {
  }

  lemma {:induction false} KeptTwice(left: string, a: string, b: string)
    requires |b| <= |a| && (|b| == |a| ==> b == a)
    ensures Kept(Kept(left, a), b) == Kept(left, b)
  {
  }

  /** The bytes behind the first buffer, when the segment starts at `begin` of it and the cursor is at `pos` of
      buffer `i`. */
  lemma {:induction false} FirstOff(ts: seq<string>, begin: nat, i: nat, pos: nat)
    requires |ts| > 1 && Position(ts, 0, begin) && Position(ts, i, pos) && (i == 0 ==> begin <= pos)
    ensures Position(ts[1..], 0, 0) && (i > 0 ==> Position(ts[1..], i - 1, pos))
    ensures var (k, all) := (|ts[0]| - begin, From(ts, 0, begin));
            && k <= |all| && From(ts[1..], 0, 0) == all[k..]
            && Kept(From(ts, i, pos), From(ts[1..], 0, 0))
               == if i == 0 then From(ts[1..], 0, 0) else From(ts[1..], i - 1, pos)
  {
    hide From, Kept;
    FromNext(ts, 0, begin);
    FromTail(ts, 0, 0);
    BehindFirst(ts[0][begin..], From(ts, 1, 0));
    if i == 0 {
      FromNext(ts, 0, pos);
      KeptLast(ts[0][pos..], From(ts, 1, 0));
    } else {
      FewerBytes(ts, 1, 0, i, pos);
      FromTail(ts, i - 1, pos);
      KeptAll(From(ts, i, pos), From(ts, 1, 0));
    }
  }

  lemma {:induction false} BehindFirst(a: string, b: string)
    ensures (a + b)[|a|..] == b
  {
  }

  lemma {:induction false} KeptLast(a: string, b: string)
    ensures Kept(a + b, b) == b
  {
    if a == [] { assert a + b == b; }
  }

  /** What is left of `left` when only `all` is left of the segment. */
  function Kept(left: string, all: string): string { if |left| <= |all| then left else all }

  class Segment {
    /** `mBegin`, `mCur`, `mEnd` */
    var beginBuf: Buffer?
    var beginPos: nat
    var curBuf: Buffer?
    var curPos: nat
    var endBuf: Buffer?
    var endPos: nat
    /** The buffers from begin to end, and which of them the cursor is in. */
    ghost var bufs: seq<Buffer>
    ghost var at: nat

    ghost predicate Valid()
      reads this, bufs
    {
      && Linked(bufs)
      && (bufs == [] ==> beginBuf == null && curBuf == null && endBuf == null
                         && beginPos == 0 && curPos == 0 && endPos == 0)
      && (bufs != [] ==>
            && beginBuf == bufs[0] && endBuf == bufs[|bufs| - 1] && endPos <= |bufs[|bufs| - 1].dat|
            && Position(Text(), 0, beginPos)
            && Position(Text(), at, curPos) && curBuf == bufs[at] && (at == 0 ==> beginPos <= curPos))
    }

    ghost function Text(): seq<string>
      requires bufs != [] ==> endPos <= |bufs[|bufs| - 1].dat|
      reads `bufs, `endPos, bufs
    {
      Texts(bufs, 0, endPos)
    }

    /** The bytes of the segment. */
    ghost function All(): string
      requires Valid()
      reads this, bufs
    {
      if bufs == [] then [] else From(Text(), 0, beginPos)
    }

    /** The bytes from the cursor on. */
    ghost function Left(): string
      requires Valid()
      reads this, bufs
    {
      if bufs == [] then [] else From(Text(), at, curPos)
    }

    /** What is left, piece by piece. */
    ghost function PiecesLeft(): Pieces
      requires Valid()
      reads this, bufs
    {
      if bufs == [] then [] else PiecesFrom(Text(), at, curPos)
    }

    constructor ()
      ensures Valid() && All() == []
    {
      beginBuf, curBuf, endBuf, beginPos, curPos, endPos := null, null, null, 0, 0, 0;
      bufs, at := [], 0;
    }

    /** What there is at a position, and where it goes on. */
    lemma {:induction false} Here(i: nat, pos: nat)
      requires Valid() && bufs != [] && Position(Text(), i, pos)
      ensures i < |bufs| && (bufs[i] == endBuf <==> i + 1 == |bufs|)
      ensures |Text()[i]| == if i + 1 == |bufs| then endPos else |bufs[i].dat|
      ensures i + 1 == |bufs| ==>
                pos <= endPos <= |bufs[i].dat| && From(Text(), i, pos) == bufs[i].dat[pos..endPos]
      ensures i + 1 < |bufs| ==>
                && pos <= |bufs[i].dat| && bufs[i].next == bufs[i + 1] && Position(Text(), i + 1, 0)
                && From(Text(), i, pos) == bufs[i].dat[pos..|bufs[i].dat|] + From(Text(), i + 1, 0)
    {
      var ts := Text();
      FromNext(ts, i, pos);
      assert ts[i] == TextOf(bufs, i, endPos);
      assert ts[i][pos..] == bufs[i].dat[pos..if i + 1 == |bufs| then endPos else |bufs[i].dat|];
    }

    lemma {:induction false} TextHere(i: nat, pos: nat)
      requires Valid() && i < |bufs| && Position(Text(), i, pos)
      ensures pos <= |Text()[i]| <= |bufs[i].dat| && Text()[i][pos..] == bufs[i].dat[pos..|Text()[i]|]
    {
      assert Text()[i] == TextOf(bufs, i, endPos);
    }

    lemma {:induction false} NoBuffers()
      requires Valid()
      ensures bufs == [] <==> beginBuf == null
      ensures bufs != [] ==> endPos <= |bufs[|bufs| - 1].dat|
      ensures bufs != [] ==> beginBuf == bufs[0] && Position(Text(), 0, beginPos)
      ensures bufs != [] ==> at < |bufs| && curBuf == bufs[at] && Position(Text(), at, curPos)
    {
    }

    method Length() returns (len: nat)
      requires Valid()
      ensures len == |All()|
    {
      hide Linked, Valid, Texts, From, Position;
      var buf, pos: nat := beginBuf, beginPos;
      len := 0;
      ghost var i: nat := 0;
      NoBuffers();
      while buf != null
        invariant bufs == [] ==> buf == null && len == 0
        invariant bufs != [] && buf == null ==> len == |All()|
        invariant bufs != [] && buf != null ==>
                    i < |bufs| && buf == bufs[i] && Position(Text(), i, pos)
                    && len + |From(Text(), i, pos)| == |All()|
        decreases if buf == null then 0 else 1 + |bufs| - i
      {
        Here(i, pos);
        if buf == endBuf {
          len := len + (endPos - pos);
          buf := null;
        } else {
          len := len + (|buf.dat| - pos);
          buf := buf.next;
          pos := 0;
          i := i + 1;
        }
      }
    }

    /** `get`: all bytes from the cursor on that lie in its buffer; nothing exactly at the end. */
    method Get() returns (ok: bool, dat: string)
      requires Valid()
      ensures ok ==> dat <= Left() && PiecesLeft() != [] && dat == PiecesLeft()[0]
      ensures !ok ==> Left() == [] && PiecesLeft() == []
      ensures ok <==> !(curBuf == endBuf && curPos >= endPos)
    {
      hide Linked, Texts, From;
      NoBuffers();
      if bufs != [] {
        PiecesHere();
        TextHere(at, curPos);
      }
      if curBuf == endBuf && curPos >= endPos {
        if bufs != [] { Here(at, curPos); }
        return false, [];
      }
      Here(at, curPos);
      ok, dat := true, curBuf.dat[curPos..if curBuf == endBuf then endPos else |curBuf.dat|];
    }

    /** The cursor moves on inside its buffer. */
    method Within(k: nat)
      requires Valid() && bufs != [] && curPos + k <= |Text()[at]|
      modifies `curPos
      ensures Valid() && All() == old(All()) && curPos == old(curPos) + k
      ensures k <= |old(Left())| && Left() == old(Left())[k..]
      ensures PiecesLeft() == PiecesFrom(Text(), at, curPos)
    {
      hide Linked, Texts, From, PiecesFrom;
      FromLater(Text(), at, curPos, k);
      curPos := curPos + k;
    }

    /** The cursor moves on to the next buffer. */
    method Beyond()
      requires Valid() && bufs != [] && curBuf != endBuf
      modifies `curBuf, `curPos, `at
      ensures Valid() && All() == old(All()) && at == old(at) + 1
      ensures var k := |old(curBuf.dat)| - old(curPos); 0 <= k <= |old(Left())| && Left() == old(Left())[k..]
      ensures PiecesLeft() == PiecesFrom(Text(), at, 0)
    {
      hide Linked, Texts, From, PiecesFrom;
      Here(at, curPos);
      curBuf := curBuf.next;
      curPos := 0;
      at := at + 1;
    }

    /** One round of the loop of `use`: `m` bytes are still to go. */
    method UseSome(n: nat) returns (m: int)
      requires Valid() && bufs != [] && n > 0
      modifies `curBuf, `curPos, `at
      ensures Valid() && All() == old(All()) && old(at) <= at < |bufs|
      ensures m <= 0 ==> Left() == Behind(old(Left()), n) && PiecesLeft() == Drop(old(PiecesLeft()), n)
      ensures m > 0 ==> m <= n && n - m <= |old(Left())| && Left() == old(Left())[n - m..] && at == old(at) + 1
      ensures m > 0 ==> Drop(PiecesLeft(), m) == Drop(old(PiecesLeft()), n)
    {
      hide Linked, Texts, From, Position, Valid, PiecesFrom, Drop, Behind, Left, All;
      NoBuffers();
      Here(at, curPos);
      ghost var ts, i, pos := Text(), at, curPos;
      PiecesHere();
      if curBuf == endBuf {
        if curPos + n > endPos {
          LeftAtEnd();
          BehindPast(Left(), n);
          DropLast(ts, i, pos, n);
          Within(endPos - curPos);
          NothingBehind(endPos);
        } else {
          LeftAtEnd();
          BehindIs(Left(), n);
          DropInside(ts, i, pos, n);
          Within(n);
        }
        m := 0;
      } else {
        var k := |curBuf.dat| - curPos;
        if k <= n {
          DropBuffer(ts, i, pos, n);
          ghost var left := Left();
          Beyond();
          if k == n { BehindIs(left, n); DropNone(PiecesLeft()); }
        } else {
          DropInside(ts, i, pos, n);
          ghost var left := Left();
          Within(n);
          BehindIs(left, n);
        }
        m := n - k;
      }
      NoBuffers();
    }

    lemma {:induction false} PiecesHere()
      requires Valid() && bufs != []
      ensures Position(Text(), at, curPos) && PiecesLeft() == PiecesFrom(Text(), at, curPos) && |Text()| == |bufs|
    {
    }

    /** The pieces are together the bytes that are left. */
    lemma {:induction false} PiecesAreLeft()
      requires Valid()
      ensures Flat(PiecesLeft()) == Left()
    {
      hide Linked, Texts, From, PiecesFrom;
      if bufs != [] { PiecesAreBytes(Text(), at, curPos); }
    }

    /** The last of them has bytes, unless the end is at the front of a buffer: the pieces that output takes. */
    lemma {:induction false} LastHasBytes()
      requires Valid() && !EndsInFront()
      ensures EndsFull(PiecesLeft())
    {
      hide Linked, From, PiecesFrom;
      if bufs != [] {
        assert Text()[|bufs| - 1] == TextOf(bufs, |bufs| - 1, endPos);
        PiecesEndFull(Text(), at, curPos);
      }
    }

    lemma {:induction false} LeftAtEnd()
      requires Valid() && bufs != [] && curBuf == endBuf
      ensures curPos <= endPos && |Left()| == endPos - curPos
    {
      hide Linked, Texts, From;
      Here(at, curPos);
    }

    lemma {:induction false} NothingBehind(pos: nat)
      requires Valid() && bufs != [] && curBuf == endBuf && curPos == endPos == pos
      ensures Left() == []
    {
      hide Linked, Texts, From;
      Here(at, curPos);
    }

    /** `use`: the cursor moves on by `cnt` bytes, but not behind the end; the pieces that are left lose them. */
    method Use(cnt: nat)
      requires Valid() && bufs != []
      modifies `curBuf, `curPos, `at
      ensures Valid() && All() == old(All()) && Left() == Behind(old(Left()), cnt)
      ensures PiecesLeft() == Drop(old(PiecesLeft()), cnt)
    {
      hide Linked, Texts, From, Position, Valid, All, Left, Behind, PiecesLeft, Drop;
      var n: int := cnt;
      ghost var was, pieces := Left(), PiecesLeft();
      NoBuffers();
      BehindNone(was);
      DropNone(pieces);
      while n > 0
        invariant Valid() && All() == old(All()) && at <= |bufs| && n <= cnt
        invariant n > 0 ==> cnt - n <= |was| && Left() == was[cnt - n..] && Drop(PiecesLeft(), n) == Drop(pieces, cnt)
        invariant n <= 0 ==> Left() == Behind(was, cnt) && PiecesLeft() == Drop(pieces, cnt)
        decreases |bufs| - at, n
      {
        ghost var done := cnt - n;
        BehindMore(was, done, n);
        n := UseSome(n);
        if n > 0 { BehindTwice(was, done, cnt - n - done); }
      }
    }

    /** `seek`: the cursor is put at a position of the segment, and moves on from there. */
    method Seek(buf: Buffer, pos: nat, cnt: nat, ghost i: nat)
      requires Valid() && i < |bufs| && buf == bufs[i] && Position(Text(), i, pos) && (i == 0 ==> beginPos <= pos)
      modifies `curBuf, `curPos, `at
      ensures Valid() && All() == old(All())
      ensures Left() == Behind(From(Text(), i, pos), cnt) && PiecesLeft() == Drop(PiecesFrom(Text(), i, pos), cnt)
    {
      hide Linked, Texts, From, Position;
      curBuf := buf;
      curPos := pos;
      at := i;
      Use(cnt);
    }

    method Rewind()
      requires Valid()
      modifies `curBuf, `curPos, `at
      ensures Valid() && All() == old(All()) && Left() == All()
    {
      hide Linked, Texts, From;
      curBuf, curPos, at := beginBuf, beginPos, 0;
    }

    /** `dump`: as much as fits is copied, and the length of all is told. */
    method Dump(room: int) returns (cnt: nat, dat: string)
      requires Valid()
      ensures cnt == |All()|
      ensures dat == Took(All(), |All()|, room)
    {
      hide Linked, Texts, From, Position, Took;
      dat, cnt := [], 0;
      TookNone(All(), room);
      var len := room;
      var buf, pos: nat, end := beginBuf, beginPos, false;
      ghost var i: nat, all := 0, All();
      NoBuffers();
      while buf != null && !end
        invariant cnt <= |all| && len == room - cnt
        invariant dat == Took(all, cnt, room)
        invariant bufs == [] ==> buf == null
        invariant bufs == [] || end ==> cnt == |all|
        invariant bufs != [] && !end ==>
                    i < |bufs| && buf == bufs[i] && Position(Text(), i, pos) && From(Text(), i, pos) == all[cnt..]
        decreases |bufs| - i, !end
      {
        Here(i, pos);
        var num: nat;
        if buf == endBuf {
          num := endPos - pos;
          end := true;
        } else {
          num := |buf.dat| - pos;
        }
        assert all[cnt..cnt + num] == all[cnt..][..num] == buf.dat[pos..pos + num];
        TookMore(all, cnt, num, room);
        if len > 0 {
          var k := if len > num then num else len;
          SliceOfSlice(buf.dat, pos, num, k);
          dat := dat + buf.dat[pos..pos + k];
        }
        len := len - num;
        cnt := cnt + num;
        if !end { assert all[cnt..] == From(Text(), i + 1, 0); }
        buf := buf.next;
        pos := 0;
        i := i + 1;
      }
    }

    /** `hasPrefix`, for a prefix without a zero byte */
    method HasPrefix(prefix: string) returns (r: bool)
      requires Valid()
      ensures r == (prefix <= All())
    {
      hide Linked, Texts, From, Position;
      var p := 0;
      var buf, pos: nat, end := beginBuf, beginPos, false;
      ghost var i: nat, all := 0, All();
      NoBuffers();
      while buf != null && !end
        invariant p <= |prefix| && p <= |all| && prefix[..p] == all[..p]
        invariant bufs == [] ==> buf == null
        invariant bufs == [] || end ==> p == |prefix| || p == |all|
        invariant bufs != [] && !end ==>
                    i < |bufs| && buf == bufs[i] && Position(Text(), i, pos)
                    && (p == |prefix| || From(Text(), i, pos) == all[p..])
        decreases |bufs| - i, !end
      {
        Here(i, pos);
        var last := |buf.dat|;
        if buf == endBuf {
          last := endPos;
          end := true;
        }
        ghost var start, p0 := pos, p;
        while pos < last && p < |prefix|
          invariant start <= pos <= last <= |buf.dat| && p0 <= p <= |prefix| && p <= |all| && prefix[..p] == all[..p]
          invariant p == p0 + (pos - start)
        {
          assert all[p] == all[p0..][p - p0] == buf.dat[pos];
          pos := pos + 1;
          p := p + 1;
          if buf.dat[pos - 1] != prefix[p - 1] { return false; }
        }
        buf := buf.next;
        pos := 0;
        i := i + 1;
      }
      r := p == |prefix|;
    }

    /** The end is at the front of a buffer that the cursor has not come to. */
    ghost predicate EndsInFront()
      reads this
    {
      at + 1 < |bufs| && endPos == 0
    }

    ghost predicate InPlace(vecs: seq<IOVec>)
      reads this
    {
      forall k :: 0 <= k < |vecs| ==>
        at + k < |bufs| && vecs[k].buf == bufs[at + k] && vecs[k].pos == if k == 0 then curPos else 0
    }

    /** `fill` has listed the pieces in front of a position. */
    ghost predicate Listed(vecs: seq<IOVec>, i: nat, pos: nat)
      requires Valid()
      reads this, bufs
    {
      && InPlace(vecs) && bufs != [] && i == at + |vecs| && Position(Text(), i, pos)
      && pos == (if vecs == [] then curPos else 0)
      && PiecesLeft() == Dats(vecs) + PiecesFrom(Text(), i, pos)
    }

    lemma {:induction false} ListMore(vecs: seq<IOVec>, i: nat, pos: nat, v: IOVec)
      requires Valid() && Listed(vecs, i, pos) && !(i + 1 == |bufs| && pos == endPos) && i < |bufs|
      requires v == IOVec(bufs[i], pos, Text()[i][pos..])
      ensures i + 1 < |bufs| ==> Listed(vecs + [v], i + 1, 0)
      ensures i + 1 == |bufs| ==> InPlace(vecs + [v]) && PiecesLeft() == Dats(vecs + [v])
    {
      hide Linked, Texts, From;
      Here(i, pos);
      DatsMore(vecs, v);
      OneMoreInPlace(vecs, v);
      hide Dats, InPlace;
      if i + 1 < |bufs| {
        var more := PiecesFrom(Text(), i + 1, 0);
        assert Dats(vecs) + ([v.dat] + more) == (Dats(vecs) + [v.dat]) + more;
      }
    }

    lemma {:induction false} OneMoreInPlace(vecs: seq<IOVec>, v: IOVec)
      requires InPlace(vecs) && at + |vecs| < |bufs| && v.buf == bufs[at + |vecs|]
      requires v.pos == if vecs == [] then curPos else 0
      ensures InPlace(vecs + [v])
    {
    }

    /** `fill`: the first `len` pieces that are left. `all` tells whether these are all, but never when the end is
        at the front of a later buffer. */
    method Fill(len: nat) returns (vecs: seq<IOVec>, all: bool)
      requires Valid()
      ensures Dats(vecs) == Prefix(PiecesLeft(), len) && InPlace(vecs)
      ensures all == (FilledAll(PiecesLeft(), len) && !EndsInFront())
    {
      hide Linked, Texts, From, InPlace, Listed;
      vecs, all := [], false;
      var buf, pos: nat := curBuf, curPos;
      ghost var i: nat := at;
      NoBuffers();
      ListNone();
      while |vecs| < len && !(buf == endBuf && pos == endPos)
        invariant |vecs| <= len && (bufs == [] ==> vecs == [] && buf == endBuf && pos == endPos)
        invariant bufs != [] ==> i == at + |vecs| < |bufs| && buf == bufs[i] && Position(Text(), i, pos)
        invariant bufs != [] ==> Listed(vecs, i, pos) && (vecs != [] ==> pos == 0)
        decreases |bufs| - i
      {
        Here(i, pos);
        TextHere(i, pos);
        var v := IOVec(buf, pos, buf.dat[pos..if buf == endBuf then endPos else |buf.dat|]);
        ListMore(vecs, i, pos, v);
        vecs := vecs + [v];
        if buf == endBuf {
          all := true;
          ListedAll(vecs, len);
          return;
        }
        buf := buf.next;
        pos := 0;
        i := i + 1;
      }
      if |vecs| < len && vecs == [] {
        all := true;
      }
      if bufs != [] { ListedSome(vecs, i, pos, len); }
    }

    lemma {:induction false} ListNone()
      requires Valid()
      ensures bufs != [] ==> Listed([], at, curPos)
      ensures bufs == [] ==> curBuf == endBuf && curPos == endPos && PiecesLeft() == [] && InPlace([])
    {
      hide Linked, Texts, From;
      if bufs != [] { assert Dats([]) + PiecesLeft() == PiecesLeft(); }
    }

    lemma {:induction false} ListedAll(vecs: seq<IOVec>, len: nat)
      requires Valid() && PiecesLeft() == Dats(vecs) && 0 < |vecs| <= len && at < |bufs|
      requires at + |vecs| == |bufs| && (|vecs| > 1 ==> endPos > 0)
      ensures Dats(vecs) == Prefix(PiecesLeft(), len) && FilledAll(PiecesLeft(), len) && !EndsInFront()
    {
      hide Linked, Texts, From;
    }

    lemma {:induction false} ListedSome(vecs: seq<IOVec>, i: nat, pos: nat, len: nat)
      requires Valid() && i < |bufs| && Listed(vecs, i, pos) && |vecs| <= len
      requires |vecs| == len || (bufs[i] == endBuf && pos == endPos)
      ensures Dats(vecs) == Prefix(PiecesLeft(), len) && InPlace(vecs)
      ensures (|vecs| < len && vecs == []) <==> (FilledAll(PiecesLeft(), len) && !EndsInFront())
    {
      hide Linked, Texts, From;
      Here(i, pos);
    }

    /** The whole of the first buffer, which is not the last, is cut off. */
    method CutBuffer() returns (k: nat)
      requires Valid() && bufs != [] && beginBuf != endBuf
      modifies this
      ensures Valid() && bufs == old(bufs)[1..] && k == |old(beginBuf.dat)| - old(beginPos)
      ensures k <= |old(All())| && All() == old(All())[k..] && Left() == Kept(old(Left()), All())
    {
      hide Linked, Texts, From, Kept;
      ghost var ts := Text();
      Here(0, beginPos);
      CutFirst();
      FirstOff(ts, beginPos, at, curPos);
      var buf := beginBuf;
      k := |buf.dat| - beginPos;
      beginBuf, beginPos := buf.next, 0;
      if curBuf == buf {
        curBuf, curPos := beginBuf, beginPos;
      }
      bufs := bufs[1..];
      at := if at == 0 then 0 else at - 1;
    }

    lemma {:induction false} CutFirst()
      requires Valid() && |bufs| > 1
      ensures Linked(bufs[1..]) && Texts(bufs[1..], 0, endPos) == Text()[1..]
      ensures curBuf == bufs[0] <==> at == 0
    {
      assert bufs[1..][|bufs| - 2] == bufs[|bufs| - 1];
      var us := Texts(bufs[1..], 0, endPos);
      forall k | 0 <= k < |bufs| - 1 ensures us[k] == Text()[1..][k] {
        assert us[k] == TextOf(bufs[1..], k, endPos) == TextOf(bufs, k + 1, endPos) == Text()[k + 1];
      }
      assert us == Text()[1..];
    }

    /** The first `n` bytes, which are not the whole of the first buffer, are cut off. */
    method CutInside(n: nat)
      requires Valid() && bufs != [] && beginPos + n <= |Text()[0]|
      modifies `beginPos, `curPos
      ensures Valid() && n <= |old(All())| && All() == old(All())[n..] && Left() == Kept(old(Left()), All())
    {
      hide Linked, Texts, From;
      ghost var ts := Text();
      FromLater(ts, 0, beginPos, n);
      if at == 0 && curPos < beginPos + n {
        FromLater(ts, 0, curPos, beginPos + n - curPos);
      } else {
        FewerBytes(ts, 0, beginPos + n, at, curPos);
      }
      CursorInFirst();
      beginPos := beginPos + n;
      if curBuf == beginBuf && curPos < beginPos {
        curPos := beginPos;
      }
    }

    lemma {:induction false} CursorInFirst()
      requires Valid() && bufs != []
      ensures curBuf == beginBuf <==> at == 0
    {
    }

    lemma {:induction false} LeftInAll()
      requires Valid()
      ensures |Left()| <= |All()|
    {
      hide Linked, Texts, From;
      if bufs != [] { FewerBytes(Text(), 0, beginPos, at, curPos); }
    }

    /** The last buffer is cut off, and nothing is left. */
    method CutAll(ghost n: nat)
      requires Valid() && |All()| <= n && 0 < n
      modifies this
      ensures Valid() && bufs == [] && All() == [] && Behind(All(), n) == Behind(old(All()), n)
      ensures Left() == Kept(old(Left()), All())
    {
      KeptNothing(Left());
      NoneLinked();
      beginBuf, beginPos, curBuf, curPos, endBuf, endPos := null, 0, null, 0, null, 0;
      bufs, at := [], 0;
    }

    /** One round of the loop of `cut`: `m` bytes are still to be cut off. */
    method CutSome(n: nat) returns (m: nat)
      requires Valid() && bufs != [] && n > 0
      modifies this
      ensures Valid() && m <= n && |bufs| <= |old(bufs)| && (m > 0 ==> |bufs| < |old(bufs)|)
      ensures Behind(All(), m) == Behind(old(All()), n) && Left() == Kept(old(Left()), All())
      ensures |All()| <= |old(All())| && (|All()| == |old(All())| ==> All() == old(All()))
    {
      hide Linked, Texts, From, Position, Kept, Behind;
      NoBuffers();
      Here(0, beginPos);
      var len := (if beginBuf == endBuf then endPos else |beginBuf.dat|) - beginPos;
      if len <= n {
        if beginBuf == endBuf {
          m := n;
          CutAll(n);
          return;
        }
        ghost var all := All();
        var k := CutBuffer();
        BehindMore(all, k, n - k);
        m := n - k;
      } else {
        CutInside(n);
        BehindNone(All());
        BehindIs(old(All()), n);
        m := 0;
      }
    }

    /** `cut`: the first `cnt` bytes are taken off the segment, and the cursor moves with its front; when nothing
        would be left, the segment is empty. */
    method Cut(cnt: nat)
      requires Valid()
      modifies this
      ensures Valid() && All() == Behind(old(All()), cnt) && Left() == Kept(old(Left()), All())
    {
      hide Linked, Texts, From, Position, Valid, All, Left, Behind, Kept;
      var n := cnt;
      ghost var all, left := All(), Left();
      NoBuffers();
      LeftInAll();
      KeptAll(left, all);
      while n > 0 && beginBuf != null
        invariant Valid() && (bufs == [] <==> beginBuf == null)
        invariant Behind(All(), n) == Behind(all, cnt) && Left() == Kept(left, All())
        decreases |bufs|, n
      {
        ghost var before := All();
        n := CutSome(n);
        NoBuffers();
        KeptTwice(left, before, All());
      }
      if n > 0 { NothingLeft(n); } else { BehindNone(All()); }
    }

    lemma {:induction false} NothingLeft(n: nat)
      requires Valid() && bufs == [] && n > 0
      ensures Behind(All(), n) == All()
    {
    }
  }

  // ----- writing -----

  lemma {:induction false} FlatAdd(ts: seq<string>, more: string)
    requires ts != []
    ensures Flat(ts[|ts| - 1 := ts[|ts| - 1] + more]) == Flat(ts) + more
    ensures Flat(ts + [[]]) == Flat(ts)
    decreases |ts|
  {
    if |ts| == 1 {
      assert ts[1..] == [] && ts[0 := ts[0] + more][1..] == [];
      var one: seq<string> := [[]];
      assert (ts + one)[1..] == one && one[1..] == [];
    } else {
      var rest := ts[1..];
      FlatAdd(rest, more);
      assert ts[|ts| - 1 := ts[|ts| - 1] + more][1..] == rest[|rest| - 1 := rest[|rest| - 1] + more];
      assert (ts + [[]])[1..] == rest + [[]];
      assert ts[0] + (Flat(rest) + more) == (ts[0] + Flat(rest)) + more;
    }
  }

  lemma {:induction false} FromIsBehind(ts: seq<string>, pos: nat)
    requires Position(ts, 0, pos)
    ensures pos <= |Flat(ts)| && From(ts, 0, pos) == Flat(ts)[pos..]
  {
    assert (ts[0] + Flat(ts[1..]))[pos..] == ts[0][pos..] + Flat(ts[1..]);
  }

  /** The buffers hold these texts, and all but the last are full. */
  ghost predicate Hold(bufs: seq<Buffer>, ts: seq<string>, size: nat)
    reads bufs`dat
  {
    && |ts| == |bufs| && (forall i :: 0 <= i < |bufs| ==> bufs[i].dat == ts[i] && |ts[i]| <= size)
    && forall i :: 0 <= i < |bufs| - 1 ==> |ts[i]| == size
  }

  method WriteTail(buf: Buffer, more: string, ghost size: nat, ghost chain: seq<Buffer>, ghost ts: seq<string>)
    returns (ghost us: seq<string>)
    requires Linked(chain) && chain != [] && buf == chain[|chain| - 1] && Hold(chain, ts, size)
    requires |buf.dat| + |more| <= size
    modifies buf`dat
    ensures Hold(chain, us, size) && Flat(us) == Flat(ts) + more && buf.dat == old(buf.dat) + more
    ensures us == ts[|ts| - 1 := ts[|ts| - 1] + more]
  {
    FlatAdd(ts, more);
    us := ts[|ts| - 1 := ts[|ts| - 1] + more];
    buf.dat := buf.dat + more;
  }

  method AddBuffer(buf: Buffer, ghost size: nat, ghost chain: seq<Buffer>, ghost ts: seq<string>)
    returns (nbuf: Buffer, ghost us: seq<string>)
    requires Linked(chain) && chain != [] && buf == chain[|chain| - 1] && Hold(chain, ts, size) && |buf.dat| == size
    modifies buf`next
    ensures fresh(nbuf) && nbuf.dat == [] && Linked(chain + [nbuf])
    ensures Hold(chain + [nbuf], us, size) && Flat(us) == Flat(ts) && us == ts + [[]]
  {
    FlatAdd(ts, []);
    nbuf := new Buffer();
    buf.next := nbuf;
    us := ts + [[]];
  }

  /** `Buffer::append`: what does not fit goes into new buffers behind this one; all but the last are full. */
  method Append(start: Buffer, dat: string, size: nat)
    returns (buf: Buffer, ghost chain: seq<Buffer>, ghost ts: seq<string>)
    requires |start.dat| <= size && size > 0
    modifies start
    ensures Linked(chain) && chain != [] && chain[0] == start && chain[|chain| - 1] == buf
    ensures forall i :: 0 < i < |chain| ==> fresh(chain[i])
    ensures Hold(chain, ts, size) && |ts| == |chain| && Flat(ts) == old(start.dat) + dat && old(start.dat) <= ts[0]
    ensures |chain| > 1 ==> buf.dat != []
  {
    hide Linked, Hold, Flat;
    buf, chain, ts := start, [start], [start.dat];
    StartHolds(start, size);
    var rest := dat;
    while rest != []
      invariant Linked(chain) && chain != [] && chain[0] == start && chain[|chain| - 1] == buf
      invariant forall i :: 0 < i < |chain| ==> fresh(chain[i])
      invariant Hold(chain, ts, size) && |ts| == |chain| && Flat(ts) + rest == old(start.dat) + dat && old(start.dat) <= ts[0]
      invariant |chain| > 1 && rest == [] ==> buf.dat != []
      invariant |chain| > 1 && rest != [] ==> buf.dat == []
      invariant |buf.dat| <= size
      decreases |rest|, |buf.dat|
    {
      var n := if |rest| <= buf.Room(size) then |rest| else buf.Room(size);
      assert rest == rest[..n] + rest[n..];
      assert (Flat(ts) + rest[..n]) + rest[n..] == Flat(ts) + rest;
      ts := WriteTail(buf, rest[..n], size, chain, ts);
      rest := rest[n..];
      if rest != [] {
        var nbuf;
        nbuf, ts := AddBuffer(buf, size, chain, ts);
        buf := nbuf;
        chain := chain + [nbuf];
      }
    }
    assert Flat(ts) + [] == Flat(ts);
  }

  lemma {:induction false} StartHolds(buf: Buffer, size: nat)
    requires |buf.dat| <= size
    ensures Linked([buf]) && Hold([buf], [buf.dat], size) && Flat([buf.dat]) == buf.dat
  {
    assert [buf.dat][1..] == [] && buf.dat + [] == buf.dat;
  }

  /** `Segment::set`: the bytes are written behind what the buffer holds, or into a new one, and are then the
      segment. */
  method Set(s: Segment, start: Buffer?, dat: string, size: nat) returns (last: Buffer)
    requires size > 0 && (start != null ==> |start.dat| <= size)
    modifies s, start
    ensures s.Valid() && s.All() == dat && s.Left() == dat && !s.EndsInFront()
  {
    hide Linked, Flat, Hold, Texts, From, Position, Segment.Valid, Segment.All, Segment.Left, Segment.EndsInFront;
    var buf: Buffer;
    if start == null { buf := new Buffer(); } else { buf := start; }
    var pos := |buf.dat|;
    ghost var before := buf.dat;
    ghost var chain, ts;
    last, chain, ts := Append(buf, dat, size);
    s.beginBuf, s.beginPos, s.curBuf, s.curPos, s.endBuf, s.endPos := buf, pos, buf, pos, last, |last.dat|;
    s.bufs, s.at := chain, 0;
    assert (before + dat)[pos..] == dat;
    IsWritten(s, ts, pos, dat, size);
  }

  lemma {:induction false} IsWritten(s: Segment, ts: seq<string>, pos: nat, dat: string, size: nat)
    requires s.bufs != [] && Linked(s.bufs) && Hold(s.bufs, ts, size) && ts != [] && pos <= |ts[0]|
    requires pos <= |Flat(ts)| && Flat(ts)[pos..] == dat
    requires s.beginBuf == s.curBuf == s.bufs[0] && s.beginPos == s.curPos == pos && s.at == 0
    requires s.endBuf == s.bufs[|s.bufs| - 1] && s.endPos == |s.bufs[|s.bufs| - 1].dat|
    requires |s.bufs| > 1 ==> s.endPos > 0
    ensures s.Valid() && s.All() == dat && s.Left() == dat && !s.EndsInFront()
  {
    hide Linked, Flat, Hold, Texts, From;
    HeldTexts(s.bufs, ts, size);
    FromIsBehind(ts, pos);
  }

  lemma {:induction false} HeldTexts(bufs: seq<Buffer>, ts: seq<string>, size: nat)
    requires Hold(bufs, ts, size) && bufs != []
    ensures |ts| == |bufs| && Texts(bufs, 0, |bufs[|bufs| - 1].dat|) == ts
  {
    var us := Texts(bufs, 0, |bufs[|bufs| - 1].dat|);
    forall i | 0 <= i < |bufs| ensures us[i] == ts[i] {
      assert us[i] == TextOf(bufs, i, |bufs[|bufs| - 1].dat|);
    }
    assert us == ts;
  }
}
