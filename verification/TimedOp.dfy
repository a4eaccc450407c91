/** `timed_async_op`: an op raced against a timer, under a parent that may request a stop. */
module TimedOp {
  import opened Base

  /** Before `async_wait`; waiting; and the callback of the timer: it may set the error, then exchanges `_done`,
      then acts on what it found. `expired` is that it got no error code. */
  datatype TimerState =
    | NotWaiting
    | Waiting
    | Called(expired: bool)
    | ErrSet(expired: bool)
    | Exchanged(expired: bool, first: bool)
    | TimerDone(expired: bool, first: bool)

  datatype OpState = NotStarted | Running | OpExchanged(first: bool) | OpDone(first: bool)

  /** `cancelled` is that the wait was cancelled. `resumes` counts calls of the continuation and `read` is the
      error it found at the first one. */
  datatype Sys = Sys(
    timer: TimerState,
    op: OpState,
    err: Option<Errc>,
    done: bool,
    cancelled: bool,
    opStop: bool,
    parentStop: bool,
    resumes: nat,
    read: Option<Errc>)

  datatype Event =
    | TimerWaits
    | TimerCalls(expired: bool)
    | TimerSetsErr
    | TimerExchanges
    | TimerFinishes
    | OpStarts
    | OpExchanges
    | OpFinishes
    | ParentStops

  const START := Sys(NotWaiting, NotStarted, None, false, false, false, false, 0, None)

  /** The timer is called back with an error only after it was cancelled; without one it may be at any time,
      as expiry and cancellation race. The op is started after the timer. */
  predicate Enabled(s: Sys, ev: Event) {
    match ev
    case TimerWaits => s.timer.NotWaiting?
    case TimerCalls(expired) => s.timer.Waiting? && (!expired ==> s.cancelled)
    case TimerSetsErr => s.timer.Called?
    case TimerExchanges => s.timer.ErrSet?
    case TimerFinishes => s.timer.Exchanged?
    case OpStarts => s.op.NotStarted? && !s.timer.NotWaiting?
    case OpExchanges => s.op.Running?
    case OpFinishes => s.op.OpExchanged?
    case ParentStops => !s.parentStop
  }

  function Resume(s: Sys): Sys {
    s.(resumes := s.resumes + 1, read := if s.resumes == 0 then s.err else s.read)
  }

  function Step(s: Sys, ev: Event): Sys
    requires Enabled(s, ev)
  {
    match ev
    case TimerWaits => s.(timer := Waiting)
    case TimerCalls(expired) => s.(timer := Called(expired))
    case TimerSetsErr =>
      s.(timer := ErrSet(s.timer.expired), err := if s.timer.expired then Some(Timeout) else s.err)
    case TimerExchanges => s.(timer := Exchanged(s.timer.expired, !s.done), done := true)
    case TimerFinishes =>
      var t := s.(timer := TimerDone(s.timer.expired, s.timer.first));
      if s.timer.first then t.(opStop := t.opStop || s.timer.expired) else Resume(t.(err := None))
    case OpStarts => s.(op := Running)
    case OpExchanges => s.(op := OpExchanged(!s.done), done := true)
    case OpFinishes =>
      var t := s.(op := OpDone(s.op.first));
      if s.op.first then t.(cancelled := true) else Resume(t)
    case ParentStops =>
      s.(parentStop := true, cancelled := s.cancelled || !s.timer.NotWaiting?, opStop := true)
  }

  predicate TimerPast(s: Sys) { s.timer.Exchanged? || s.timer.TimerDone? }

  predicate OpPast(s: Sys) { s.op.OpExchanged? || s.op.OpDone? }

  /** The one whose exchange came second has run to its end. */
  predicate SecondDone(s: Sys) {
    (s.timer.TimerDone? && !s.timer.first) || (s.op.OpDone? && !s.op.first)
  }

  ghost predicate Inv(s: Sys) {
    && (s.done <==> TimerPast(s) || OpPast(s))
    && (TimerPast(s) && OpPast(s) ==> s.timer.first != s.op.first)
    && (TimerPast(s) && !OpPast(s) ==> s.timer.first)
    && (OpPast(s) && !TimerPast(s) ==> s.op.first)
    && s.resumes == (if SecondDone(s) then 1 else 0)
    && (s.timer.NotWaiting? || s.timer.Waiting? || s.timer.Called? ==> s.err == None)
    && (s.timer.ErrSet? || s.timer.Exchanged? || (s.timer.TimerDone? && s.timer.first) ==>
          s.err == if s.timer.expired then Some(Timeout) else None)
    && (s.timer.TimerDone? && !s.timer.first ==> s.err == None)
    && (s.resumes > 0 ==> s.read == s.err)
    && (s.opStop ==> s.parentStop || (s.timer.TimerDone? && s.timer.first && s.timer.expired))
    && (s.parentStop ==> s.opStop)
    && (s.timer.TimerDone? && s.timer.first && s.timer.expired ==> s.opStop)
    && (s.op.OpDone? && s.op.first ==> s.cancelled)
    && (!s.timer.NotWaiting? && !s.timer.Waiting? && !s.timer.expired ==> s.cancelled)
    && (s.timer.NotWaiting? ==> s.op.NotStarted?)
  }

  lemma {:induction false} TimerKeeps(s: Sys, ev: Event)
    requires Inv(s) && Enabled(s, ev)
    requires ev.TimerWaits? || ev.TimerCalls? || ev.TimerSetsErr? || ev.TimerExchanges? || ev.TimerFinishes?
    ensures Inv(Step(s, ev))
  {
  }

  lemma {:induction false} OpKeeps(s: Sys, ev: Event)
    requires Inv(s) && Enabled(s, ev) && (ev.OpStarts? || ev.OpExchanges? || ev.OpFinishes? || ev.ParentStops?)
    ensures Inv(Step(s, ev))
  {
  }

  lemma {:induction false} StepKeeps(s: Sys, ev: Event)
    requires Inv(s) && Enabled(s, ev)
    ensures Inv(Step(s, ev))
  {
    if ev.OpStarts? || ev.OpExchanges? || ev.OpFinishes? || ev.ParentStops? {
      OpKeeps(s, ev);
    } else {
      TimerKeeps(s, ev);
    }
  }

  ghost predicate Run(s: Sys, evs: seq<Event>, t: Sys)
    requires Inv(s)
    decreases |evs|
  {
    if evs == [] then t == s
    else Enabled(s, evs[0]) && (StepKeeps(s, evs[0]); Run(Step(s, evs[0]), evs[1..], t))
  }

  lemma {:induction false} RunKeeps(s: Sys, evs: seq<Event>, t: Sys)
    requires Inv(s) && Run(s, evs, t)
    ensures Inv(t)
    decreases |evs|
  {
    if evs != [] {
      StepKeeps(s, evs[0]);
      RunKeeps(Step(s, evs[0]), evs[1..], t);
    }
  }

  /** In every interleaving the continuation is called at most once, and that by whoever exchanged `_done`
      second, after the other one has exchanged it. */
  lemma {:induction false} ResumedBySecond(evs: seq<Event>, s: Sys)
    requires Run(START, evs, s)
    ensures s.resumes <= 1
    ensures s.resumes == 1 <==> (s.timer.TimerDone? && !s.timer.first) || (s.op.OpDone? && !s.op.first)
    ensures s.resumes == 1 ==> TimerPast(s) && OpPast(s) && s.timer.first != s.op.first
  {
    RunKeeps(START, evs, s);
  }

  /** The outcome is a timeout exactly if the timer expired and was first; otherwise it is the result of the
      op. What the continuation reads is final. */
  lemma {:induction false} TimeoutIff(evs: seq<Event>, s: Sys)
    requires Run(START, evs, s) && s.resumes == 1
    ensures TimerPast(s) && s.read == if s.timer.expired && s.timer.first then Some(Timeout) else None
    ensures s.err == s.read
  {
    RunKeeps(START, evs, s);
  }

  /** The error never changes again once the continuation was called. */
  lemma {:induction false} ReadIsFinal(s: Sys, evs: seq<Event>, t: Sys)
    requires Inv(s) && Run(s, evs, t) && s.resumes == 1
    ensures t.resumes == 1 && t.read == s.read && t.err == s.err
    decreases |evs|
  {
    if evs != [] {
      StepKeeps(s, evs[0]);
      ReadIsFinal(Step(s, evs[0]), evs[1..], t);
    }
  }

  /** Whether the parent requests its stop when the timer is waited on already; `waiting` is that it was so
      before `evs`. A parent requests a stop at most once. */
  predicate StopFindsWait(waiting: bool, evs: seq<Event>)
    decreases |evs|
  {
    if evs == [] then false
    else if evs[0].ParentStops? then waiting
    else StopFindsWait(waiting || evs[0].TimerWaits?, evs[1..])
  }

  /** Whoever is first asks the other to stop; so does the parent, but its request reaches the timer exactly if
      it comes after the wait has begun. Nothing else cancels the timer or stops the op. */
  lemma {:induction false} LoserAsked(evs: seq<Event>, s: Sys)
    requires Run(START, evs, s)
    ensures s.opStop <==> s.parentStop || (s.timer.TimerDone? && s.timer.first && s.timer.expired)
    ensures s.cancelled <==> StopFindsWait(false, evs) || (s.op.OpDone? && s.op.first)
    ensures s.timer.TimerDone? && !s.timer.expired ==> s.cancelled
  {
    RunKeeps(START, evs, s);
    CancelledIff(START, evs, s);
  }

  lemma {:induction false} CancelledIff(s: Sys, evs: seq<Event>, t: Sys)
    requires Inv(s) && Run(s, evs, t)
    ensures s.op.OpDone? ==> t.op == s.op
    ensures t.cancelled <==>
      || s.cancelled
      || (!s.parentStop && StopFindsWait(!s.timer.NotWaiting?, evs))
      || (t.op.OpDone? && t.op.first)
    decreases |evs|
  {
    if evs != [] {
      StepKeeps(s, evs[0]);
      CancelledIff(Step(s, evs[0]), evs[1..], t);
    }
  }

  /** A run in which the timer goes on although the parent has requested a stop. */
  lemma {:induction false} StopMissesTimer() returns (evs: seq<Event>, s: Sys)
    ensures Run(START, evs, s) && s.parentStop && !s.cancelled && s.timer.Waiting?
  {
    var s1 := Step(START, ParentStops);
    s := Step(s1, TimerWaits);
    assert Run(s1, [TimerWaits], s);
    evs := [ParentStops, TimerWaits];
  }

  function Remaining(s: Sys): nat {
    TimerSteps(s.timer) + OpSteps(s.op) + if s.parentStop then 0 else 1
  }

  function TimerSteps(t: TimerState): nat {
    match t
    case NotWaiting => 5
    case Waiting => 4
    case Called(_) => 3
    case ErrSet(_) => 2
    case Exchanged(_, _) => 1
    case TimerDone(_, _) => 0
  }

  function OpSteps(o: OpState): nat {
    match o case NotStarted => 3 case Running => 2 case OpExchanged(_) => 1 case OpDone(_) => 0
  }

  lemma {:induction false} OneLess(s: Sys, ev: Event)
    requires Enabled(s, ev)
    ensures Remaining(Step(s, ev)) == Remaining(s) - 1
  {
  }

  ghost predicate AtRest(s: Sys) { forall ev :: !Enabled(s, ev) }

  /** Every run ends within nine steps, and if it cannot go on the continuation has been called. */
  lemma {:induction false} AlwaysResumed(s: Sys, evs: seq<Event>, t: Sys)
    requires Inv(s) && Run(s, evs, t)
    ensures |evs| + Remaining(t) == Remaining(s)
    ensures AtRest(t) ==> t.resumes == 1
    decreases |evs|
  {
    if evs != [] {
      StepKeeps(s, evs[0]);
      OneLess(s, evs[0]);
      AlwaysResumed(Step(s, evs[0]), evs[1..], t);
    } else if AtRest(t) {
      Stuck(t);
    }
  }

  lemma {:induction false} Stuck(s: Sys)
    requires Inv(s) && AtRest(s)
    ensures s.resumes == 1
  {
    assert !Enabled(s, TimerWaits) && !Enabled(s, TimerCalls(true)) && !Enabled(s, TimerSetsErr);
    assert !Enabled(s, TimerExchanges) && !Enabled(s, TimerFinishes);
    assert !Enabled(s, OpStarts) && !Enabled(s, OpExchanges) && !Enabled(s, OpFinishes);
  }

  // ----- the op as an object

  class TimedAsyncOp {
    var err: Option<Errc>
    var done: bool
    var cont: bool
    var opStop: bool
    var timerCancelled: bool

    constructor ()
      ensures err == None && !done && !cont && !opStop && !timerCancelled
    {
      err, done, cont, opStop, timerCancelled := None, false, false, false, false;
    }

    /** What the fields are of a run state. */
    ghost predicate Shows(s: Sys)
      reads this
    {
      && err == s.err && done == s.done && opStop == s.opStop && timerCancelled == s.cancelled
      && cont == (s.resumes == 0)
    }

    /** `initiate`, up to the wait on the timer: with a stop requested already nothing is started. */
    method Initiate(stopRequested: bool) returns (pending: bool)
      requires err == None && !done && !opStop && !timerCancelled
      modifies this
      ensures pending == !stopRequested && (pending ==> Shows(START))
      ensures !pending ==> err == Some(Canceled) && !done && !opStop && !timerCancelled && unchanged(`cont)
    {
      if stopRequested {
        err := Some(Canceled);
        return false;
      }
      cont := true;
      return true;
    }

    /** `_done.exchange(true)`. */
    method Exchange() returns (was: bool)
      modifies `done
      ensures was == old(done) && done
    {
      was := done;
      done := true;
    }

    /** The callback of the timer when no step of the op comes between its own. */
    method OnTimer(expired: bool, ghost s: Sys)
      requires Inv(s) && Shows(s) && Enabled(s, TimerCalls(expired))
      modifies this
      ensures var s1 := Step(s, TimerCalls(expired)); var s2 := Step(s1, TimerSetsErr);
        var s3 := Step(s2, TimerExchanges); Shows(Step(s3, TimerFinishes))
    {
      if expired { err := Some(Timeout); }
      var was := Exchange();
      if !was {
        if expired { opStop := true; }
      } else {
        err := None;
        cont := false;
      }
    }

    /** The callback of the op, likewise. */
    method OnOp(ghost s: Sys)
      requires Inv(s) && Shows(s) && Enabled(s, OpExchanges)
      modifies this
      ensures Shows(Step(Step(s, OpExchanges), OpFinishes))
    {
      var was := Exchange();
      if !was {
        timerCancelled := true;
      } else {
        cont := false;
      }
    }

    /** The stop callback; `waiting` is that the timer is waited on already. */
    method OnParentStop(waiting: bool, ghost s: Sys)
      requires Inv(s) && Shows(s) && Enabled(s, ParentStops) && waiting == !s.timer.NotWaiting?
      modifies this
      ensures Shows(Step(s, ParentStops))
    {
      if waiting { timerCancelled := true; }
      opStop := true;
    }
  }
}
