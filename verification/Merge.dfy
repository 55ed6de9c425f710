/** Merging the replies to the parts of one command into the client's reply
    (src/Request.cpp `setResponse`, `isDone`; src/Response.cpp `adjustForLeader`, `set`). */
module Merging {
  import opened Bytes
  import opened ResponseMachine

  datatype MultiCommand = Mget | Mset | Msetnx | Touch | Exists | Del | Unlink | ScriptLoad {
    predicate Counts() { Touch? || Exists? || Del? || Unlink? }
  }

  /** SCRIPT LOAD is not cut: it goes to all masters as it is, and only the leader is in the queue of the client. */
  type CutCommand = c: MultiCommand | !c.ScriptLoad? witness Mget

  /** A reply as the proxy holds it: what is sent is `head`, then `body`. */
  datatype Message = Message(kind: Kind, integer: int, head: string, body: string) {
    function Wire(): string { head + body }
  }

  /** The parts of one command. `res[i]` is what part `i` will send to the client; part 0 is the leader. */
  datatype Group = Group(cmd: MultiCommand, followers: nat, done: seq<bool>, res: seq<Option<Message>>, followersDone: nat) {
    predicate Valid() { |done| == |res| && |done| > 0 }

    /** `isDone` */
    predicate IsDone(i: nat)
      requires Valid() && i < |done|
    {
      if i == 0 && cmd != Mget then followersDone == followers else done[i]
    }
  }

  function CountLine(n: nat): string {
    "*" + Decimal(n) + CRLF
  }

  const NULL_ELEMENT := "$-1\r\n"

  /** `adjustForLeader` on the reply itself; `mRes.cut(4)` drops the array header of a one-element reply. */
  function AdjustReply(cmd: MultiCommand, followers: nat, isLeader: bool, m: Message): Message {
    if cmd != Mget then m
    else if m.kind == KArray then
      m.(body := Behind(m.body, 4), head := if isLeader then CountLine(followers) else m.head)
    else
      m.(kind := KArray, body := if isLeader then CountLine(followers) + NULL_ELEMENT else NULL_ELEMENT)
  }

  /** `adjustForLeader` on the leader's reply: counts are added up there. */
  function AddToLeader(cmd: MultiCommand, leader: Option<Message>, m: Message): Option<Message> {
    if (cmd == Msetnx || cmd.Counts()) && leader.Some? && m.kind == KInteger && m.integer > 0
    then Some(leader.value.(integer := leader.value.integer + m.integer))
    else leader
  }

  /** `Response::set(num)` */
  function AsInteger(m: Message): Message {
    m.(kind := KInteger, integer := m.integer, body := ":" + Signed(m.integer) + CRLF)
  }

  /** The leader's reply after `setResponse`, for the commands that have one reply in all. */
  function MergeInto(cmd: MultiCommand, leader: Option<Message>, m: Message, last: bool): Option<Message>
    requires cmd != Mget
  {
    if cmd == Mset then
      if leader.Some? && !(m.kind == KError && leader.value.kind != KError) then leader else Some(m)
    else if cmd == Msetnx then
      if leader.Some? && !(leader.value.kind != KError && (m.kind == KError || m.integer == 0)) then leader else Some(m)
    else if cmd == ScriptLoad then
      if leader.Some? && !(leader.value.kind == KString && m.kind != KString) then leader else Some(m)
    else
      var r := if leader.Some? then leader.value else m;
      Some(if last then AsInteger(r) else r)
  }

  /** `adjustForLeader` on the group. */
  function Adjusted(g: Group, m: Message): Group
    requires g.Valid()
  {
    if g.cmd == Mget then g else g.(res := g.res[0 := AddToLeader(g.cmd, g.res[0], m)])
  }

  /** `setResponse` on the group. */
  function Stored(g: Group, i: nat, m: Message): Group
    requires g.Valid() && i < |g.res|
  {
    var n := g.followersDone + 1;
    g.(done := g.done[i := true], followersDone := n,
       res := if g.cmd == Mget then g.res[i := Some(m)]
              else g.res[0 := MergeInto(g.cmd, g.res[0], m, n == g.followers)])
  }

  /** The reply `m` to part `i` arrives. */
  function Deliver(g: Group, i: nat, m: Message): Group
    requires g.Valid() && i < |g.res|
  {
    Stored(Adjusted(g, m), i, AdjustReply(g.cmd, g.followers, i == 0, m))
  }

  // ----- the objects -----

  class Response {
    var kind: Kind
    var integer: int
    var head: string
    var body: string

    constructor (m: Message)
      ensures View() == m
    {
      kind, integer, head, body := m.kind, m.integer, m.head, m.body;
    }

    function View(): Message
      reads this
    {
      Message(kind, integer, head, body)
    }

    /** `Response::set(int64_t)` */
    method SetInteger(num: int)
      modifies this`kind, this`integer, this`body
      ensures View() == AsInteger(old(View()).(integer := num))
    {
      kind, integer := KInteger, num;
      body := ":" + Signed(num) + CRLF;
    }

    method AdjustForLeader(req: Request)
      requires req.leader != req && (req.HasLeader() ==> req.Leader().res != this)
      modifies this, if req.HasLeader() then req.Leader().res else null
      ensures !req.HasLeader() ==> View() == old(View())
      ensures req.HasLeader() ==>
                View() == AdjustReply(req.cmd, req.followers, req.followers > 0, old(View()))
      ensures req.HasLeader() && req.Leader().res != null ==>
                Some(req.Leader().res.View()) == AddToLeader(req.cmd, Some(old(req.Leader().res.View())), old(View()))
    {
      if req.HasLeader() {
        var leader := req.Leader();
        match req.cmd {
          case Mget =>
            if kind == KArray {
              body := Behind(body, 4);
              if leader == req { head := CountLine(req.followers); }
            } else {
              kind := KArray;
              body := if leader == req then CountLine(req.followers) + NULL_ELEMENT else NULL_ELEMENT;
            }
          case Mset =>
          case ScriptLoad =>
          case _ =>
            var r := leader.res;
            if r != null {
              if r != this && kind == KInteger && integer > 0 { r.integer := r.integer + integer; }
            }
        }
      }
    }
  }

  class Request {
    const cmd: MultiCommand
    var done: bool
    var res: Response?
    var leader: Request?
    var followers: nat
    var followersDone: nat

    constructor (cmd: MultiCommand, leader: Request?, followers: nat)
      ensures this.cmd == cmd && !done && res == null && this.leader == leader
      ensures this.followers == followers && followersDone == 0
    {
      this.cmd, done, res, this.leader, this.followers, followersDone := cmd, false, null, leader, followers, 0;
    }

    predicate HasLeader()
      reads this
    {
      followers > 0 || leader != null
    }

    /** `leader()` */
    function Leader(): Request
      requires HasLeader()
      reads this
    {
      if followers > 0 then this else leader
    }

    /** `isDone` */
    predicate IsDone()
      reads this
    {
      if followers > 0 && cmd != Mget then followers == followersDone else done
    }

    /** `setResponse`: the reply to a request that is no part of another is its own. */
    method SetResponse(r: Response)
      requires HasLeader() ==> Leader().cmd == cmd && Leader().followers > 0 && Leader().res != r
      modifies this, r, if HasLeader() then Leader() else null, if HasLeader() then Leader().res else null
      ensures done && HasLeader() == old(HasLeader()) && followers == old(followers) && leader == old(leader)
      ensures !HasLeader() ==> IsDone() && res == r && r.View() == old(r.View()) && followersDone == old(followersDone)
      ensures HasLeader() ==>
                && Leader().followers == old(Leader().followers) && Leader().leader == old(Leader().leader)
                && Leader().followersDone == old(Leader().followersDone) + 1
                && (this != Leader() ==> Leader().done == old(Leader().done) && followersDone == old(followersDone))
      ensures HasLeader() && cmd == Mget ==>
                res == r && r.View() == old(r.View()) && (this != Leader() ==> Leader().res == old(Leader().res))
                && (old(Leader().res) != null ==> old(Leader().res).View() == old(Leader().res.View()))
      ensures HasLeader() && cmd != Mget ==>
                Leader().res in {r, old(Leader().res)} && Leader().res != null
                && (this != Leader() ==> res == old(res))
                && ReplyOf(Leader().res)
                   == MergeInto(cmd, old(ReplyOf(Leader().res)), old(r.View()),
                                Leader().followersDone == Leader().followers)
    {
      done := true;
      if HasLeader() {
        var ld := Leader();
        ld.followersDone := ld.followersDone + 1;
        if cmd == Mget { res := r; } else { ld.Take(r); }
      } else {
        res := r;
      }
    }

    /** The switch of `setResponse`: what the leader does with the reply to a part. */
    method Take(r: Response)
      requires cmd != Mget && followers > 0 && res != r
      modifies this`res, r, res
      ensures res in {r, old(res)} && res != null
      ensures ReplyOf(res) == MergeInto(cmd, old(ReplyOf(res)), old(r.View()), followersDone == followers)
    {
      if cmd == Mset {
        if res == null || (r.kind == KError && res.kind != KError) { res := r; }
      } else if cmd == Msetnx {
        if res == null || (res.kind != KError && (r.kind == KError || r.integer == 0)) { res := r; }
      } else if cmd == ScriptLoad {
        if res == null || (res.kind == KString && r.kind != KString) { res := r; }
      } else {
        if res == null { res := r; }
        if IsDone() { res.SetInteger(res.integer); }
      }
    }
  }

  // ----- the parts of one command together -----

  function ReplyOf(r: Response?): Option<Message>
    reads r
  {
    if r == null then None else Some(r.View())
  }

  /** The objects `req` and its leader hold part `i` and part 0 of the state `g`. */
  ghost predicate Holds(req: Request, i: nat, g: Group)
    requires req.HasLeader()
    reads req, req.leader, req.res, req.Leader().res
  {
    var ld := req.Leader();
    && g.Valid() && i < |g.res| && g.cmd == req.cmd == ld.cmd
    && (if i == 0 then req.followers > 0 && req.leader == null else req.followers == 0 && req.leader != req) && ld.followers > 0
    && g.followers == ld.followers && g.followersDone == ld.followersDone
    && g.done[0] == ld.done && g.done[i] == req.done
    && g.res[0] == ReplyOf(ld.res) && g.res[i] == ReplyOf(req.res)
    && (i != 0 && req.res != null ==> req.res != ld.res)
  }

  /** The reply `r` to part `i`, as `Handler::handleResponse` passes it on. The two requests end in the state
      that `Deliver` describes; no other part is touched. */
  method HandleReply(req: Request, i: nat, r: Response, ghost g: Group)
    requires req.HasLeader() && Holds(req, i, g) && r != req.res && r != req.Leader().res
    modifies req, req.Leader(), r, req.Leader().res
    ensures req.HasLeader() && Holds(req, i, Deliver(g, i, old(r.View())))
    ensures req.res in {old(req.res), r} && req.Leader().res in {old(req.Leader().res), r}
    ensures req.IsDone() <==> Deliver(g, i, old(r.View())).IsDone(i)
    ensures req.Leader().IsDone() <==> Deliver(g, i, old(r.View())).IsDone(0)
  {
    hide MergeInto;
    r.AdjustForLeader(req);
    req.SetResponse(r);
  }
}
