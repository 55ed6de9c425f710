/** Timers that many threads race for with a compare-and-swap: only the thread that still finds the value it has
    loaded goes on (src/ServerPool.cpp `refresh`, src/Server.cpp `activate`). */
module CasTimers {

  /** `refresh` stores the time of the last refresh; `activate` the time from which on to activate again. */
  datatype Timer = Refresh(interval: int) | Activate(retryTimeout: int) {
    function Gap(): int { if Refresh? then interval else retryTimeout }

    predicate Due(stored: int, now: int) { if Refresh? then now - stored >= interval else now >= stored }

    function Stored(now: int): int { if Refresh? then now else now + retryTimeout }
  }

  /** Where a thread is in the call. `seen` is how many threads had won when it loaded the value. */
  datatype Local = Outside | Loaded(last: int, seen: nat) | Swapping(last: int, now: int, seen: nat)

  /** A successful call: the value it replaced and the time it read. */
  datatype Win = Win(thread: nat, last: int, now: int)

  datatype State = State(value: int, threads: map<nat, Local>, wins: seq<Win>) {
    function At(t: nat): Local { if t in threads then threads[t] else Outside }
  }

  /** The steps of one call, in the order the memory and the clock are read; the clock may show anything. */
  datatype Step = Load(t: nat) | ReadClock(t: nat, now: int) | Swap(t: nat)

  const INITIAL := State(0, map[], [])

  predicate Enabled(s: State, step: Step) {
    match step
    case Load(t) => s.At(t).Outside?
    case ReadClock(t, _) => s.At(t).Loaded?
    case Swap(t) => s.At(t).Swapping?
  }

  function Next(timer: Timer, s: State, step: Step): State
    requires Enabled(s, step)
  {
    match step
    case Load(t) => s.(threads := s.threads[t := Loaded(s.value, |s.wins|)])
    case ReadClock(t, now) =>
      var l := s.At(t);
      s.(threads := s.threads[t := if timer.Due(l.last, now) then Swapping(l.last, now, l.seen) else Outside])
    case Swap(t) =>
      var l := s.At(t);
      if s.value == l.last
      then State(timer.Stored(l.now), s.threads[t := Outside], s.wins + [Win(t, l.last, l.now)])
      else s.(threads := s.threads[t := Outside])
  }

  predicate Possible(timer: Timer, s: State, steps: seq<Step>)
    decreases |steps|
  {
    steps == [] || (Enabled(s, steps[0]) && Possible(timer, Next(timer, s, steps[0]), steps[1..]))
  }

  function Run(timer: Timer, s: State, steps: seq<Step>): State
    requires Possible(timer, s, steps)
    decreases |steps|
  {
    if steps == [] then s else Run(timer, Next(timer, s, steps[0]), steps[1..])
  }

  /** The value stored once the first `n` winners have won. */
  function ValueAfter(timer: Timer, wins: seq<Win>, n: nat): int
    requires n <= |wins|
  {
    if n == 0 then 0 else timer.Stored(wins[n - 1].now)
  }

  /** Each winner replaced what the one before it had stored, when that was due. */
  predicate WinsOk(timer: Timer, wins: seq<Win>) {
    forall i :: 0 <= i < |wins| ==>
      wins[i].last == ValueAfter(timer, wins, i) && timer.Due(wins[i].last, wins[i].now)
  }

  predicate LocalOk(timer: Timer, s: State, l: Local) {
    match l
    case Outside => true
    case Loaded(last, seen) => seen <= |s.wins| && last == ValueAfter(timer, s.wins, seen)
    case Swapping(last, now, seen) =>
      seen <= |s.wins| && last == ValueAfter(timer, s.wins, seen) && timer.Due(last, now)
  }

  ghost predicate Valid(timer: Timer, s: State) {
    && s.value == ValueAfter(timer, s.wins, |s.wins|) && WinsOk(timer, s.wins)
    && forall t :: LocalOk(timer, s, s.At(t))
  }

  lemma {:induction false} NextKeepsValid(timer: Timer, s: State, step: Step)
    requires Valid(timer, s) && Enabled(s, step)
    ensures Valid(timer, Next(timer, s, step))
  {
    var r := Next(timer, s, step);
    forall n: nat | n <= |s.wins| ensures ValueAfter(timer, r.wins, n) == ValueAfter(timer, s.wins, n) {}
    forall t: nat ensures LocalOk(timer, r, r.At(t)) {
      assert LocalOk(timer, s, s.At(t));
    }
  }

  lemma {:induction false} RunKeepsValid(timer: Timer, s: State, steps: seq<Step>)
    requires Valid(timer, s) && Possible(timer, s, steps)
    ensures Valid(timer, Run(timer, s, steps))
    decreases |steps|
  {
    hide Valid, Next, Enabled;
    if steps != [] {
      NextKeepsValid(timer, s, steps[0]);
      RunKeepsValid(timer, Next(timer, s, steps[0]), steps[1..]);
    }
  }

  /** However the threads take turns and whatever the clock shows, each winner is at least the gap after the one
      before it, and the first at least as late as the stored 0 allows. */
  lemma {:induction false} WinnersAreApart(timer: Timer, steps: seq<Step>, i: nat)
    requires Possible(timer, INITIAL, steps) && i < |Run(timer, INITIAL, steps).wins|
    ensures var w := Run(timer, INITIAL, steps).wins;
            if i == 0 then timer.Due(0, w[0].now) else w[i].now - w[i - 1].now >= timer.Gap()
  {
    RunKeepsValid(timer, INITIAL, steps);
    var w := Run(timer, INITIAL, steps).wins;
    assert w[i].last == ValueAfter(timer, w, i) && timer.Due(w[i].last, w[i].now);
  }

  /** With a positive gap the stored values only grow, so that no value comes back. */
  lemma {:induction false} ValuesGrow(timer: Timer, wins: seq<Win>, m: nat, n: nat)
    requires WinsOk(timer, wins) && timer.Gap() > 0 && m < n <= |wins|
    ensures ValueAfter(timer, wins, n) >= ValueAfter(timer, wins, m) + timer.Gap()
    decreases n
  {
    assert wins[n - 1].last == ValueAfter(timer, wins, n - 1) && timer.Due(wins[n - 1].last, wins[n - 1].now);
    if m < n - 1 { ValuesGrow(timer, wins, m, n - 1); }
  }

  /** With a positive gap every stored value is replaced by one winner at most. */
  lemma {:induction false} OneWinnerPerValue(timer: Timer, steps: seq<Step>, i: nat, j: nat)
    requires Possible(timer, INITIAL, steps) && timer.Gap() > 0
    requires i < j < |Run(timer, INITIAL, steps).wins|
    ensures var w := Run(timer, INITIAL, steps).wins; w[i].last < w[j].last
  {
    RunKeepsValid(timer, INITIAL, steps);
    var w := Run(timer, INITIAL, steps).wins;
    assert w[i].last == ValueAfter(timer, w, i) && w[j].last == ValueAfter(timer, w, j);
    ValuesGrow(timer, w, i, j);
  }

  /** With a positive gap a thread that gets as far as the swap wins exactly if nobody has won since it loaded
      the value: a call that fails there has lost to another thread. */
  lemma {:induction false} LosesOnlyToAWinner(timer: Timer, steps: seq<Step>, t: nat)
    requires Possible(timer, INITIAL, steps) && timer.Gap() > 0
    requires Run(timer, INITIAL, steps).At(t).Swapping?
    ensures var s := Run(timer, INITIAL, steps);
            |Next(timer, s, Swap(t)).wins| == |s.wins| + 1 <==> s.At(t).seen == |s.wins|
  {
    RunKeepsValid(timer, INITIAL, steps);
    var s := Run(timer, INITIAL, steps);
    assert LocalOk(timer, s, s.At(t));
    if s.At(t).seen < |s.wins| { ValuesGrow(timer, s.wins, s.At(t).seen, |s.wins|); }
  }

  /** Whether a call at this time goes on when the timer holds this value. */
  predicate GoesOn(timer: Timer, value: int, now: int) {
    (timer.Refresh? ==> value + timer.interval <= now) && (timer.Activate? ==> value <= now)
  }

  /** A call with nobody in between wins exactly if it is due, and then stores the time, or when the next is due; any
      other leaves everything as it was. */
  lemma {:induction false} AloneItWins(timer: Timer, s: State, t: nat, now: int)
    requires s.At(t).Outside?
    ensures var s1 := Next(timer, s, Load(t));
            && Enabled(s1, ReadClock(t, now))
            && var s2 := Next(timer, s1, ReadClock(t, now));
            && (Enabled(s2, Swap(t)) <==> GoesOn(timer, s.value, now))
            && (!GoesOn(timer, s.value, now) ==> s2.value == s.value && s2.wins == s.wins && s2.At(t).Outside?)
            && (GoesOn(timer, s.value, now) ==>
                  var s3 := Next(timer, s2, Swap(t));
                  && s3.wins == s.wins + [Win(t, s.value, now)] && s3.At(t).Outside?
                  && s3.value == if timer.Refresh? then now else now + timer.retryTimeout)
  {
  }
}
