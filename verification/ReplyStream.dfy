/** The reply parser over a whole connection: one reply after the other (src/ConnectConnection.cpp, `parse`). */
module ReplyStream {
  import opened Bytes
  import opened Resp
  import opened ResponseMachine

  /** A complete reply: where its bytes are in the stream, its kind and its number. */
  datatype Span = Span(begin: nat, end: nat, kind: Kind, integer: int)

  /** Where a connection is in its stream: the replies it got, and the parser in the one that began at `begin`. */
  datatype Reader = Reader(p: Snapshot, begin: nat, at: nat, got: seq<Span>)

  const NewReader := Reader(Start, 0, 0, [])

  /** One byte. The parser is reset after each complete reply. */
  function ReadByte(r: Reader, c: char): Reader {
    var q := Step(r.p, c);
    if q.Done()
    then Reader(Start, r.at + 1, r.at + 1, r.got + [Span(r.begin, r.at + 1, q.kind, q.integer)])
    else Reader(q, r.begin, r.at + 1, r.got)
  }

  function Read(r: Reader, s: string): Reader
    decreases |s|
  {
    if s == [] then r else Read(ReadByte(r, s[0]), s[1..])
  }

  lemma {:induction false} ReadConcat(r: Reader, s: string, t: string)
    ensures Read(r, s + t) == Read(Read(r, s), t)
    decreases |s|
  {
    hide ReadByte;
    if s == [] {
      assert s + t == t;
    } else {
      ReadConcat(ReadByte(r, s[0]), s[1..], t);
      assert (s + t)[1..] == s[1..] + t;
    }
  }

  /** Bytes that do not complete the reply in hand. */
  lemma {:induction false} ReadInside(r: Reader, s: string)
    requires forall k :: 0 < k <= |s| ==> !Run(r.p, s[..k]).Done()
    ensures Read(r, s) == Reader(Run(r.p, s), r.begin, r.at + |s|, r.got)
    decreases |s|
  {
    if s != [] {
      assert s[..1] == [s[0]];
      assert Run(r.p, [s[0]]) == Step(r.p, s[0]);
      hide Step;
      forall k | 0 < k <= |s[1..]| ensures !Run(Step(r.p, s[0]), s[1..][..k]).Done() {
        assert s[..k + 1] == [s[0]] + s[1..][..k];
        RunCons(r.p, s[0], s[1..][..k]);
      }
      ReadInside(ReadByte(r, s[0]), s[1..]);
    }
  }

  /** The bytes up to the one that completes the reply in hand. */
  lemma {:induction false} ReadComplete(r: Reader, s: string)
    requires s != [] && Run(r.p, s).Done()
    ensures var q := Run(r.p, s);
            Read(r, s) == Reader(Start, r.at + |s|, r.at + |s|, r.got + [Span(r.begin, r.at + |s|, q.kind, q.integer)])
  {
    var n := |s| - 1;
    forall k | 0 < k <= n ensures !Run(r.p, s[..n][..k]).Done() {
      assert s[..n][..k] == s[..k] && s == s[..k] + s[k..];
      RunConcat(r.p, s[..k], s[k..]);
      if Run(r.p, s[..k]).Done() { NothingAfterDone(Run(r.p, s[..k]), s[k..]); }
    }
    ReadInside(r, s[..n]);
    assert s == s[..n] + [s[n]];
    ReadConcat(r, s[..n], [s[n]]);
    RunConcat(r.p, s[..n], [s[n]]);
    assert Run(Run(r.p, s[..n]), [s[n]]) == Step(Run(r.p, s[..n]), s[n]);
    assert Read(Read(r, s[..n]), [s[n]]) == ReadByte(Read(r, s[..n]), s[n]);
  }

  lemma {:induction false} NothingAfterDone(p: Snapshot, s: string)
    requires p.Done() && s != []
    ensures Run(p, s) == Failed
  {
    RunFailed(s[1..]);
  }

  lemma {:induction false} DoneStops(p: Snapshot, s: string)
    requires p.Done()
    ensures !Run(p, s).Running()
  {
    if s != [] { NothingAfterDone(p, s); }
  }

  // ----- a stream of replies -----

  predicate AllTaken(rs: seq<Reply>) {
    forall i :: 0 <= i < |rs| ==> WellFormed(rs[i]) && Accepted(rs[i])
  }

  /** Where the replies are when they start at `at`. */
  function SpansOf(at: nat, rs: seq<Reply>): seq<Span>
    requires AllTaken(rs)
    decreases |rs|
  {
    if rs == [] then [] else
    var end := at + |Encode(rs[0])|;
    var q := Run(Start, Encode(rs[0]));
    assert forall i :: 0 <= i < |rs| - 1 ==> rs[1..][i] == rs[i + 1];
    [Span(at, end, KindOf(rs[0]), if q.At? then q.integer else 0)] + SpansOf(end, rs[1..])
  }

  /** Exactly the replies sent are got, in order, wherever the stream is cut (`ReadConcat`). */
  lemma {:induction false} RepliesAreGot(r: Reader, rs: seq<Reply>)
    requires r.p == Start && r.begin == r.at && AllTaken(rs)
    ensures Read(r, EncodeAll(rs))
         == Reader(Start, r.at + |EncodeAll(rs)|, r.at + |EncodeAll(rs)|, r.got + SpansOf(r.at, rs))
    decreases |rs|
  {
    hide Run, Step, ReadByte, Encode, WellFormed, Accepted;
    if rs != [] {
      var s, rest := Encode(rs[0]), rs[1..];
      assert WellFormed(rs[0]) && Accepted(rs[0]);
      ReplyIsTaken(rs[0]);
      ReadComplete(r, s);
      ReadConcat(r, s, EncodeAll(rest));
      assert forall i :: 0 <= i < |rest| ==> rest[i] == rs[i + 1];
      var r1 := Read(r, s);
      RepliesAreGot(r1, rest);
      assert (r.got + [SpansOf(r.at, rs)[0]]) + SpansOf(r1.at, rest) == r.got + SpansOf(r.at, rs);
    }
  }

  lemma {:induction false} GotGrows(r: Reader, s: string)
    ensures r.got <= Read(r, s).got
    decreases |s|
  {
    if s != [] {
      assert r.got <= ReadByte(r, s[0]).got;
      hide ReadByte;
      GotGrows(ReadByte(r, s[0]), s[1..]);
    }
  }

  // ----- one parser call -----

  /** The call ends inside a reply. */
  lemma {:induction false} ReadPartial(r: Reader, s: string)
    requires Run(r.p, s).Running()
    ensures Read(r, s) == Reader(Run(r.p, s), r.begin, r.at + |s|, r.got)
  {
    forall k | 0 < k <= |s| ensures !Run(r.p, s[..k]).Done() {
      assert s == s[..k] + s[k..];
      RunConcat(r.p, s[..k], s[k..]);
      if Run(r.p, s[..k]).Done() { DoneStops(Run(r.p, s[..k]), s[k..]); }
    }
    ReadInside(r, s);
  }

  /** The call ends at a byte the parser rejects. */
  lemma {:induction false} ReadFails(r: Reader, s: string, k: nat)
    requires k < |s| && (k > 0 ==> Run(r.p, s[..k]).Running()) && Run(r.p, s[..k + 1]) == Failed
    ensures Read(r, s).p == Failed
  {
    var t := s[..k + 1];
    forall j | 0 < j <= |t| ensures !Run(r.p, t[..j]).Done() {
      assert t[..j] == s[..j];
      if j <= k {
        assert s[..k] == s[..j] + s[j..k];
        RunConcat(r.p, s[..j], s[j..k]);
        if Run(r.p, s[..j]).Done() { DoneStops(Run(r.p, s[..j]), s[j..k]); }
      }
    }
    ReadInside(r, t);
    assert s == t + s[k + 1..];
    ReadConcat(r, t, s[k + 1..]);
    ReadFailed(Read(r, t), s[k + 1..]);
  }

  lemma {:induction false} ReadFailed(r: Reader, s: string)
    requires r.p == Failed
    ensures Read(r, s).p == Failed
    decreases |s|
  {
    if s != [] { ReadFailed(ReadByte(r, s[0]), s[1..]); }
  }

  /** No prefix of a stream of acceptable replies makes the parser fail, and what it yields is a prefix of them. */
  lemma {:induction false} GoodStream(s: string, rs: seq<Reply>)
    requires AllTaken(rs) && s <= EncodeAll(rs)
    ensures Read(NewReader, s).p != Failed
    ensures Read(NewReader, s).got <= SpansOf(0, rs)
  {
    hide Read, ReadByte, EncodeAll, SpansOf;
    var all := EncodeAll(rs);
    assert all == s + all[|s|..];
    ReadConcat(NewReader, s, all[|s|..]);
    RepliesAreGot(NewReader, rs);
    assert [] + SpansOf(0, rs) == SpansOf(0, rs);
    GotGrows(Read(NewReader, s), all[|s|..]);
    if Read(NewReader, s).p == Failed { ReadFailed(Read(NewReader, s), all[|s|..]); }
  }
}
