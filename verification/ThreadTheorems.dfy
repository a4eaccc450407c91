/** What holds of every run of the thread pool. */
module ThreadTheorems {
  import opened Sequences
  import opened ThreadStates
  import opened ThreadRuns

  ghost predicate Run(s: Sys, evs: seq<Event>, t: Sys)
    requires Inv(s)
    decreases |evs|
  {
    if evs == [] then t == s
    else Enabled(s, evs[0]) && (StepKeeps(s, evs[0]); Run(Step(s, evs[0]), evs[1..], t))
  }

  lemma {:induction false} RunKeeps(s: Sys, evs: seq<Event>, t: Sys)
    requires Inv(s) && Run(s, evs, t)
    ensures Inv(t)
    decreases |evs|
  {
    if evs != [] {
      StepKeeps(s, evs[0]);
      RunKeeps(Step(s, evs[0]), evs[1..], t);
    }
  }

  // ----- jobs

  /** Every job posted is in exactly one place: on its way, once in exactly one deque, or run exactly once. */
  lemma {:induction false} JobsAccounted(n: nat, evs: seq<Event>, s: Sys, j: nat)
    requires n > 0 && Run(Start(n), evs, s) && j < |s.jobs|
    ensures Distinct(s.runs) && forall w :: 0 <= w < |s.deques| ==> Distinct(s.deques[w].jobs)
    ensures s.jobs[j].Posting? ==> j !in s.runs && forall w :: 0 <= w < |s.deques| ==> j !in s.deques[w].jobs
    ensures s.jobs[j].Queued? ==>
      j !in s.runs && forall w :: 0 <= w < |s.deques| ==> (j in s.deques[w].jobs <==> w == s.jobs[j].w)
    ensures s.jobs[j].Held? || s.jobs[j].Ran? ==>
      j in s.runs && forall w :: 0 <= w < |s.deques| ==> j !in s.deques[w].jobs
  {
    RunKeeps(Start(n), evs, s);
    forall w | 0 <= w < |s.deques|
      ensures Distinct(s.deques[w].jobs) && (j in s.deques[w].jobs <==> s.jobs[j] == Queued(w))
    {
      assert Holds(s.deques[w].jobs, s.jobs, w);
    }
  }

  /** A job never goes back: it is queued once, taken once, and finished by whoever took it. */
  predicate Advances(a: JobAt, b: JobAt) {
    match a
    case Posting(index, i) => b.Posting? ==> b.index == index && b.i >= i
    case Queued(_) => b == a || b.Held? || b.Ran?
    case Held(_) => b == a || b.Ran?
    case Ran => b == a
  }

  lemma {:induction false} StepAdvances(s: Sys, ev: Event, j: nat)
    requires Inv(s) && Enabled(s, ev) && j < |s.jobs|
    ensures j < |Step(s, ev).jobs| && Advances(s.jobs[j], Step(s, ev).jobs[j])
  {
    if ev.TryPop? && !ev.locked {
      var w := At(ev.w, s.workers[ev.w].i, Size(s));
      if s.deques[w].jobs != [] { TakeHolds(s, ev.w, w); }
    }
    if ev.Pop? && PopStep(s.deques[ev.w]).1.Got? { TakeHolds(s, ev.w, ev.w); }
  }

  lemma {:induction false} RunAdvances(s: Sys, evs: seq<Event>, t: Sys, j: nat)
    requires Inv(s) && Run(s, evs, t) && j < |s.jobs|
    ensures j < |t.jobs| && Advances(s.jobs[j], t.jobs[j])
    decreases |evs|
  {
    if evs != [] {
      StepKeeps(s, evs[0]);
      StepAdvances(s, evs[0], j);
      RunAdvances(Step(s, evs[0]), evs[1..], t, j);
    }
  }

  /** Each deque hands its jobs out in the order they were put in. */
  lemma {:induction false} DequesAreFifo(n: nat, evs: seq<Event>, s: Sys, w: nat)
    requires n > 0 && Run(Start(n), evs, s) && w < n
    ensures w < |s.deques| == |s.taken| == |s.pushed| && s.pushed[w] == s.taken[w] + s.deques[w].jobs
  {
    SizeStays(Start(n), evs, s);
    RunKeeps(Start(n), evs, s);
  }

  lemma {:induction false} SizeStays(s: Sys, evs: seq<Event>, t: Sys)
    requires Inv(s) && Run(s, evs, t)
    ensures Size(t) == Size(s)
    decreases |evs|
  {
    if evs != [] {
      StepKeeps(s, evs[0]);
      SizeStays(Step(s, evs[0]), evs[1..], t);
    }
  }

  // ----- the pool settles

  /** Steps of workers and of threads that are posting. */
  predicate Working(ev: Event) { ev.TryPush? || ev.Push? || ev.TryPop? || ev.Pop? || ev.Finish? }

  function JobRank(j: JobAt, n: nat): nat {
    match j
    case Posting(_, i) => 2 * n + 6 - if i <= n then i else n
    case Queued(_) => n + 4
    case Held(_) => 0
    case Ran => 0
  }

  function WorkerRank(w: Worker, asleep: bool, n: nat): nat {
    match w
    case Probing(i) => 2 + n - if i <= n then i else n
    case InPop => if asleep then 0 else 1
    case Running(_) => n + 3
    case Exited => 0
  }

  function JobRanks(jobs: seq<JobAt>, n: nat): nat {
    if jobs == [] then 0 else JobRanks(jobs[..|jobs| - 1], n) + JobRank(jobs[|jobs| - 1], n)
  }

  function WorkerRanks(workers: seq<Worker>, deques: seq<Deque<nat>>, n: nat): nat
    requires |workers| == |deques|
  {
    if workers == [] then 0
    else
      var k := |workers| - 1;
      WorkerRanks(workers[..k], deques[..k], n) + WorkerRank(workers[k], deques[k].asleep, n)
  }

  function Measure(s: Sys): nat
    requires Inv(s)
  {
    JobRanks(s.jobs, Size(s)) + WorkerRanks(s.workers, s.deques, Size(s))
  }

  lemma {:induction false} JobRankSet(jobs: seq<JobAt>, j: nat, p: JobAt, n: nat)
    requires j < |jobs|
    ensures JobRanks(jobs[j := p], n) == JobRanks(jobs, n) - JobRank(jobs[j], n) + JobRank(p, n)
    decreases |jobs|
  {
    var k := |jobs| - 1;
    if j < k {
      assert jobs[j := p][..k] == jobs[..k][j := p];
      JobRankSet(jobs[..k], j, p, n);
    } else {
      assert jobs[j := p][..k] == jobs[..k];
    }
  }

  lemma {:induction false} WorkerRankSet(workers: seq<Worker>, deques: seq<Deque<nat>>, w: nat, x: Worker,
      d: Deque<nat>, n: nat)
    requires w < |workers| == |deques|
    ensures WorkerRanks(workers[w := x], deques[w := d], n) ==
      WorkerRanks(workers, deques, n) - WorkerRank(workers[w], deques[w].asleep, n) + WorkerRank(x, d.asleep, n)
    decreases |workers|
  {
    var k := |workers| - 1;
    if w < k {
      assert workers[w := x][..k] == workers[..k][w := x] && deques[w := d][..k] == deques[..k][w := d];
      WorkerRankSet(workers[..k], deques[..k], w, x, d, n);
    } else {
      assert workers[w := x][..k] == workers[..k] && deques[w := d][..k] == deques[..k];
    }
  }

  lemma {:induction false} PushRanks(s: Sys, id: nat, w: nat)
    requires Inv(s) && id < |s.jobs| && s.jobs[id].Posting? && w < Size(s) && Inv(PushJob(s, id, w))
    ensures Measure(PushJob(s, id, w)) < Measure(s)
  {
    JobRankSet(s.jobs, id, Queued(w), Size(s));
    WorkerRankSet(s.workers, s.deques, w, s.workers[w], PushStep(s.deques[w], id), Size(s));
    assert s.workers[w := s.workers[w]] == s.workers;
  }

  lemma {:induction false} TakeRanks(s: Sys, v: nat, w: nat)
    requires Inv(s) && v < Size(s) && w < Size(s) && s.deques[w].jobs != [] && s.deques[w].jobs[0] < |s.jobs|
    requires s.workers[v].Probing? || (s.workers[v].InPop? && !s.deques[v].asleep)
    requires Inv(TakeJob(s, v, w))
    ensures Measure(TakeJob(s, v, w)) < Measure(s)
  {
    TakeHolds(s, v, w);
    var n, d := Size(s), TryPopStep(s.deques[w]).0;
    JobRankSet(s.jobs, s.deques[w].jobs[0], Held(v), n);
    WorkerRankSet(s.workers, s.deques, w, s.workers[w], d, n);
    assert s.workers[w := s.workers[w]] == s.workers;
    var deques := s.deques[w := d];
    WorkerRankSet(s.workers, deques, v, Running(s.deques[w].jobs[0]), deques[v], n);
    assert deques[v := deques[v]] == deques;
  }

  lemma {:induction false} WorkerStepRanks(s: Sys, w: nat, x: Worker)
    requires Inv(s) && w < Size(s)
    ensures WorkerRanks(s.workers[w := x], s.deques, Size(s)) ==
      WorkerRanks(s.workers, s.deques, Size(s)) - WorkerRank(s.workers[w], s.deques[w].asleep, Size(s))
      + WorkerRank(x, s.deques[w].asleep, Size(s))
  {
    WorkerRankSet(s.workers, s.deques, w, x, s.deques[w], Size(s));
    assert s.deques[w := s.deques[w]] == s.deques;
  }

  lemma {:induction false} ProbeRanks(s: Sys, v: nat, locked: bool)
    requires Inv(s) && Enabled(s, TryPop(v, locked))
    ensures Inv(Step(s, TryPop(v, locked))) && Measure(Step(s, TryPop(v, locked))) < Measure(s)
  {
    ProbeKeeps(s, v, locked);
    var w := At(v, s.workers[v].i, Size(s));
    if locked || s.deques[w].jobs == [] {
      WorkerStepRanks(s, v, NextProbe(s.workers[v].i, Size(s)));
    } else {
      TakeHolds(s, v, w);
      TakeRanks(s, v, w);
    }
  }

  lemma {:induction false} PopRanks(s: Sys, w: nat)
    requires Inv(s) && Enabled(s, Pop(w))
    ensures Inv(Step(s, Pop(w))) && Measure(Step(s, Pop(w))) < Measure(s)
  {
    StepKeeps(s, Pop(w));
    if s.deques[w].stop {
      WorkerStepRanks(s, w, Exited);
    } else if s.deques[w].jobs != [] {
      TakeHolds(s, w, w);
      TakeRanks(s, w, w);
    } else {
      WorkerRankSet(s.workers, s.deques, w, s.workers[w], PopStep(s.deques[w]).0, Size(s));
      assert s.workers[w := s.workers[w]] == s.workers;
    }
  }

  lemma {:induction false} TryPushRanks(s: Sys, id: nat, locked: bool)
    requires Inv(s) && Enabled(s, TryPush(id, locked))
    ensures Inv(Step(s, TryPush(id, locked))) && Measure(Step(s, TryPush(id, locked))) < Measure(s)
  {
    StepKeeps(s, TryPush(id, locked));
    if locked {
      JobRankSet(s.jobs, id, s.jobs[id].(i := s.jobs[id].i + 1), Size(s));
    } else {
      PushRanks(s, id, At(s.jobs[id].index, s.jobs[id].i, Size(s)));
    }
  }

  lemma {:induction false} FinishRanks(s: Sys, w: nat)
    requires Inv(s) && Enabled(s, Finish(w))
    ensures Inv(Step(s, Finish(w))) && Measure(Step(s, Finish(w))) < Measure(s)
  {
    FinishKeeps(s, w);
    JobRankSet(s.jobs, s.workers[w].job, Ran, Size(s));
    WorkerStepRanks(s, w, Probing(0));
  }

  /** Every such step uses some of the measure up. */
  lemma {:induction false} WorkingDecreases(s: Sys, ev: Event)
    requires Inv(s) && Enabled(s, ev) && Working(ev)
    ensures Inv(Step(s, ev)) && Measure(Step(s, ev)) < Measure(s)
  {
    match ev
    case TryPush(id, locked) => TryPushRanks(s, id, locked);
    case Push(id) =>
      PushKeeps(s, id, s.jobs[id].index);
      PushRanks(s, id, s.jobs[id].index);
    case TryPop(v, locked) => ProbeRanks(s, v, locked);
    case Pop(w) => PopRanks(s, w);
    case Finish(w) => FinishRanks(s, w);
  }

  /** Without new posts, stops or spurious wake-ups, however the steps interleave and however often a try-lock
      fails, the pool comes to rest within `Measure` steps. */
  lemma {:induction false} Settles(s: Sys, evs: seq<Event>, t: Sys)
    requires Inv(s) && Run(s, evs, t) && forall k :: 0 <= k < |evs| ==> Working(evs[k])
    ensures Inv(t) && |evs| <= Measure(s) - Measure(t)
    decreases |evs|
  {
    if evs != [] {
      WorkingDecreases(s, evs[0]);
      Settles(Step(s, evs[0]), evs[1..], t);
    }
  }

  ghost predicate AtRest(s: Sys) { forall ev :: Working(ev) ==> !Enabled(s, ev) }

  /** At rest, every worker has left or sleeps over an empty deque, and no job is on its way or in hand. */
  lemma {:induction false} RestIs(s: Sys)
    requires Inv(s) && AtRest(s)
    ensures forall w :: 0 <= w < Size(s) ==> s.workers[w].Exited? || s.deques[w].asleep
    ensures forall j :: 0 <= j < |s.jobs| ==>
      s.jobs[j].Ran? || (s.jobs[j].Queued? && s.jobs[j].w < Size(s) && s.deques[s.jobs[j].w].stop)
  {
    forall w | 0 <= w < Size(s) ensures s.workers[w].Exited? || s.deques[w].asleep {
      assert !Enabled(s, TryPop(w, false)) && !Enabled(s, Pop(w)) && !Enabled(s, Finish(w));
    }
    forall j | 0 <= j < |s.jobs|
      ensures s.jobs[j].Ran? || (s.jobs[j].Queued? && s.jobs[j].w < Size(s) && s.deques[s.jobs[j].w].stop)
    {
      assert !Enabled(s, TryPush(j, false)) && !Enabled(s, Push(j));
      if s.jobs[j].Queued? {
        assert Holds(s.deques[s.jobs[j].w].jobs, s.jobs, s.jobs[j].w);
      }
    }
  }

  /** Unless some worker was told to stop, the pool does not come to rest before every job has been run. */
  lemma {:induction false} AllRun(s: Sys)
    requires Inv(s) && AtRest(s) && forall w :: 0 <= w < Size(s) ==> !s.deques[w].stop
    ensures forall j :: 0 <= j < |s.jobs| ==> s.jobs[j].Ran?
  {
    RestIs(s);
  }

  /** Once every worker was told to stop, at rest all of them have left, so `join` returns; what it drops are
      the jobs still queued, all others have been run. */
  lemma {:induction false} JoinReturns(s: Sys)
    requires Inv(s) && AtRest(s) && forall w :: 0 <= w < Size(s) ==> s.deques[w].stop
    ensures forall w :: 0 <= w < Size(s) ==> s.workers[w].Exited?
    ensures forall j :: 0 <= j < |s.jobs| ==> s.jobs[j].Ran? || s.jobs[j].Queued?
  {
    RestIs(s);
  }

  // ----- who sleeps

  /** Worker `v` waits on its condition variable: it was not told to stop and found its own deque empty. */
  predicate FallsAsleep(s: Sys, ev: Event, v: nat) {
    ev == Pop(v) && v < |s.deques| && s.deques[v].jobs == [] && !s.deques[v].stop
  }

  /** Since then no job was put into its own deque, and it was neither told to stop nor woken for no reason. */
  predicate Undisturbed(s: Sys, evs: seq<Event>, t: Sys, v: nat) {
    && v < |s.pushed| && v < |t.pushed| && t.pushed[v] == s.pushed[v]
    && forall k :: 0 <= k < |evs| ==> evs[k] != Stop(v) && evs[k] != Wake(v)
  }

  ghost predicate Slept(s: Sys, evs: seq<Event>, t: Sys, v: nat)
    requires Inv(s)
    decreases |evs|
  {
    evs != [] && Enabled(s, evs[0]) &&
    (StepKeeps(s, evs[0]);
     var s' := Step(s, evs[0]);
     (FallsAsleep(s, evs[0], v) && Undisturbed(s', evs[1..], t, v)) || Slept(s', evs[1..], t, v))
  }

  /** A push wakes the owner, and nobody else. */
  lemma {:induction false} PushSleeps(s: Sys, id: nat, w: nat, v: nat)
    requires NoLostWakeup(s.deques, s.workers) && Fifo(s) && id < |s.jobs| && w < Size(s) && v < Size(s)
    ensures var t := PushJob(s, id, w);
      && |t.deques| == |t.pushed| == Size(s) && s.pushed[v] <= t.pushed[v]
      && (t.deques[v].asleep <==> s.deques[v].asleep && t.pushed[v] == s.pushed[v])
  {
    assert s.deques[w].Sound();
  }

  lemma {:induction false} StepSleeps(s: Sys, ev: Event, v: nat)
    requires Inv(s) && Enabled(s, ev) && v < Size(s)
    ensures var t := Step(s, ev);
      && |t.deques| == |s.deques| == |t.pushed| == |s.pushed| == Size(s) && s.pushed[v] <= t.pushed[v]
      && (t.deques[v].asleep <==> FallsAsleep(s, ev, v) || (s.deques[v].asleep && Undisturbed(s, [ev], t, v)))
  {
    assert [ev][0] == ev;
    match ev
    case TryPush(id, locked) => if !locked { PushSleeps(s, id, At(s.jobs[id].index, s.jobs[id].i, Size(s)), v); }
    case Push(id) => PushSleeps(s, id, s.jobs[id].index, v);
    case TryPop(x, locked) => ProbeSleeps(s, x, locked, v);
    case Pop(w) => PopSleeps(s, w, v);
    case Post =>
    case Wake(_) =>
    case Finish(_) =>
    case Stop(_) =>
  }

  lemma {:induction false} ProbeSleeps(s: Sys, x: nat, locked: bool, v: nat)
    requires Inv(s) && Enabled(s, TryPop(x, locked)) && v < Size(s)
    ensures var t := Step(s, TryPop(x, locked));
      |t.deques| == Size(s) && t.pushed == s.pushed && t.deques[v].asleep == s.deques[v].asleep
  {
    var w := At(x, s.workers[x].i, Size(s));
    if s.deques[w].jobs != [] { TakeHolds(s, x, w); }
  }

  lemma {:induction false} PopSleeps(s: Sys, w: nat, v: nat)
    requires Inv(s) && Enabled(s, Pop(w)) && v < Size(s)
    ensures var t := Step(s, Pop(w));
      && |t.deques| == Size(s) && t.pushed == s.pushed
      && (t.deques[v].asleep <==> FallsAsleep(s, Pop(w), v) || s.deques[v].asleep)
  {
    if PopStep(s.deques[w]).1.Got? { TakeHolds(s, w, w); }
  }

  lemma {:induction false} PushedGrows(s: Sys, evs: seq<Event>, t: Sys, v: nat)
    requires Inv(s) && Run(s, evs, t) && v < Size(s)
    ensures v < |s.pushed| && v < |t.pushed| && s.pushed[v] <= t.pushed[v]
    decreases |evs|
  {
    if evs != [] {
      StepKeeps(s, evs[0]);
      StepSleeps(s, evs[0], v);
      PushedGrows(Step(s, evs[0]), evs[1..], t, v);
    }
  }

  lemma {:induction false} SleepsFrom(s: Sys, evs: seq<Event>, t: Sys, v: nat)
    requires Inv(s) && Run(s, evs, t) && v < Size(s)
    ensures v < |s.deques| && v < |t.deques|
    ensures t.deques[v].asleep <==> (s.deques[v].asleep && Undisturbed(s, evs, t, v)) || Slept(s, evs, t, v)
    decreases |evs|
  {
    if evs != [] {
      var s' := Step(s, evs[0]);
      StepKeeps(s, evs[0]);
      StepSleeps(s, evs[0], v);
      SleepsFrom(s', evs[1..], t, v);
      PushedGrows(s', evs[1..], t, v);
      UndisturbedSplit(s, evs, s', t, v);
    }
  }

  lemma {:induction false} UndisturbedSplit(s: Sys, evs: seq<Event>, s': Sys, t: Sys, v: nat)
    requires evs != [] && v < |s.pushed| && v < |s'.pushed| && v < |t.pushed|
    requires s.pushed[v] <= s'.pushed[v] <= t.pushed[v]
    ensures Undisturbed(s, evs, t, v) <==> Undisturbed(s, [evs[0]], s', v) && Undisturbed(s', evs[1..], t, v)
  {
    assert forall k :: 1 <= k < |evs| ==> evs[k] == evs[1..][k - 1];
    assert [evs[0]][0] == evs[0];
  }

  /** A worker sleeps exactly if at some point of the run it found its own deque empty, and nothing has happened
      to its own deque since. What waits in other deques, and whether their workers are busy, plays no part. */
  lemma {:induction false} SleepsIff(n: nat, evs: seq<Event>, t: Sys, v: nat)
    requires n > 0 && Run(Start(n), evs, t) && v < n
    ensures v < |t.deques| && (t.deques[v].asleep <==> Slept(Start(n), evs, t, v))
  {
    SleepsFrom(Start(n), evs, t, v);
  }

  /** The worker that owns the deque a job waits in is awake, and has not left unless it was told to stop. */
  lemma {:induction false} OwnerAwake(n: nat, evs: seq<Event>, s: Sys, j: nat)
    requires n > 0 && Run(Start(n), evs, s) && j < |s.jobs| && s.jobs[j].Queued?
    ensures var w := s.jobs[j].w;
      w < |s.deques| == |s.workers| && !s.deques[w].asleep && (s.workers[w].Exited? ==> s.deques[w].stop)
  {
    RunKeeps(Start(n), evs, s);
    assert Holds(s.deques[s.jobs[j].w].jobs, s.jobs, s.jobs[j].w);
  }

  lemma {:induction false} RunSnoc(s: Sys, evs: seq<Event>, m: Sys, ev: Event)
    requires Inv(s) && Run(s, evs, m)
    ensures Inv(m)
    ensures Enabled(m, ev) ==> Run(s, evs + [ev], Step(m, ev))
    decreases |evs|
  {
    if evs == [] {
      assert [] + [ev] == [ev];
      if Enabled(m, ev) {
        StepKeeps(m, ev);
        assert Run(Step(m, ev), [], Step(m, ev));
      }
    } else {
      StepKeeps(s, evs[0]);
      RunSnoc(Step(s, evs[0]), evs[1..], m, ev);
      assert (evs + [ev])[1..] == evs[1..] + [ev];
    }
  }

  /** A worker finds the next deque empty. */
  lemma {:induction false} FindsNothing(r: Sys, evs: seq<Event>, s: Sys, v: nat) returns (evs': seq<Event>, t: Sys)
    requires Inv(r) && Run(r, evs, s) && Size(s) == |s.deques| == 2 && v < 2 && s.workers[v].Probing?
    requires s.deques[0].jobs == s.deques[1].jobs == []
    ensures Run(r, evs', t) && t == s.(workers := s.workers[v := NextProbe(s.workers[v].i, 2)])
  {
    evs' := evs + [TryPop(v, false)];
    t := NothingFound(r, evs, s, v);
  }

  lemma {:induction false} NothingFound(start: Sys, evs: seq<Event>, s: Sys, v: nat) returns (t: Sys)
    requires Inv(start) && Run(start, evs, s) && v < Size(s) == |s.deques| && s.workers[v].Probing?
    requires forall w :: 0 <= w < |s.deques| ==> s.deques[w].jobs == []
    ensures Run(start, evs + [TryPop(v, false)], t)
    ensures t == s.(workers := s.workers[v := NextProbe(s.workers[v].i, Size(s))])
  {
    RunSnoc(start, evs, s, TryPop(v, false));
    t := Step(s, TryPop(v, false));
  }

  lemma {:induction false} PushedFirstTry(s: Sys, id: nat)
    requires Inv(s) && id < |s.jobs| && s.jobs[id].Posting? && s.jobs[id].i == 0
    ensures Step(s, TryPush(id, false)) == PushJob(s, id, s.jobs[id].index)
  {
    assert At(s.jobs[id].index, 0, Size(s)) == s.jobs[id].index;
  }

  lemma {:induction false} Waits(r: Sys, evs: seq<Event>, s: Sys, w: nat) returns (evs': seq<Event>, t: Sys)
    requires Inv(r) && Run(r, evs, s) && Size(s) == |s.deques| == 2 && w < 2 && s.workers[w] == InPop
    requires s.deques[w] == Deque([], false, false)
    ensures Run(r, evs', t) && t == s.(deques := s.deques[w := Deque([], false, true)])
  {
    RunSnoc(r, evs, s, Pop(w));
    t := Step(s, Pop(w));
    evs' := evs + [Pop(w)];
  }

  /** With both deques empty, a worker probes both and goes to sleep. */
  lemma {:induction false} GoesToSleep(r: Sys, evs: seq<Event>, s: Sys, w: nat) returns (evs': seq<Event>, t: Sys)
    requires Inv(r) && Run(r, evs, s) && Size(s) == |s.deques| == 2 && w < 2 && s.workers[w] == Probing(0)
    requires s.deques[0].jobs == s.deques[1].jobs == [] && s.deques[w] == Deque([], false, false)
    ensures Run(r, evs', t)
    ensures t == s.(workers := s.workers[w := InPop], deques := s.deques[w := Deque([], false, true)])
  {
    evs', t := FindsNothing(r, evs, s, w);
    evs', t := FindsNothing(r, evs', t, w);
    assert t.workers == s.workers[w := InPop];
    evs', t := Waits(r, evs', t, w);
  }

  lemma {:induction false} IsPosted(r: Sys, evs: seq<Event>, s: Sys) returns (evs': seq<Event>, t: Sys)
    requires Inv(r) && Run(r, evs, s) && Size(s) == 2 && s.next < 3
    ensures Run(r, evs', t)
    ensures t == s.(jobs := s.jobs + [Posting(s.next % 2, 0)], next := s.next + 1)
  {
    RunSnoc(r, evs, s, Post);
    t := Step(s, Post);
    evs' := evs + [Post];
  }

  /** A job is posted, and the worker whose turn it is has it in its deque. */
  lemma {:induction false} Posts(r: Sys, evs: seq<Event>, s: Sys, w: nat) returns (evs': seq<Event>, t: Sys)
    requires Inv(r) && Run(r, evs, s) && Size(s) == |s.deques| == 2 && w < 2 && s.next % 2 == w && s.next < 3
    ensures Run(r, evs', t)
    ensures t.next == s.next + 1 && t.jobs == s.jobs + [Queued(w)] && t.workers == s.workers
    ensures t.deques == s.deques[w := PushStep(s.deques[w], |s.jobs|)]
  {
    var m: Sys;
    evs', m := IsPosted(r, evs, s);
    RunSnoc(r, evs', m, TryPush(|s.jobs|, false));
    PushedFirstTry(m, |s.jobs|);
    t := PushJob(m, |s.jobs|, w);
    evs' := evs' + [TryPush(|s.jobs|, false)];
  }

  /** The worker takes the one job in its deque. */
  lemma {:induction false} Takes(r: Sys, evs: seq<Event>, s: Sys, w: nat) returns (evs': seq<Event>, t: Sys)
    requires Inv(r) && Run(r, evs, s) && Size(s) == |s.deques| == 2 && w < 2 && s.workers[w] == InPop && s.jobs != []
    requires s.deques[w] == Deque([|s.jobs| - 1], false, false)
    ensures Run(r, evs', t)
    ensures t.next == s.next && t.jobs == s.jobs[|s.jobs| - 1 := Held(w)]
    ensures t.workers == s.workers[w := Running(|s.jobs| - 1)] && t.deques == s.deques[w := Deque([], false, false)]
  {
    RunSnoc(r, evs, s, Pop(w));
    t := Step(s, Pop(w));
    evs' := evs + [Pop(w)];
    assert [|s.jobs| - 1][1..] == [];
  }

  lemma {:induction false} Finishes(r: Sys, evs: seq<Event>, s: Sys, w: nat) returns (evs': seq<Event>, t: Sys)
    requires Inv(r) && Run(r, evs, s) && w < Size(s) && s.workers[w].Running? && s.workers[w].job < |s.jobs|
    ensures Run(r, evs', t)
    ensures t == s.(workers := s.workers[w := Probing(0)], jobs := s.jobs[s.workers[w].job := Ran])
  {
    RunSnoc(r, evs, s, Finish(w));
    t := Step(s, Finish(w));
    evs' := evs + [Finish(w)];
  }

  const BUSY: Deque<nat> := Deque([], false, false)
  const ASLEEP: Deque<nat> := Deque([], false, true)

  lemma {:induction false} StartsIdle() returns (r: Sys)
    ensures r == Start(2) && Inv(r)
    ensures r.workers == [Probing(0), Probing(0)] && r.deques == [BUSY, BUSY] && r.jobs == [] && r.next == 0
  {
    r := Start(2);
  }

  lemma {:induction false} BothSleep(r: Sys) returns (evs: seq<Event>, s: Sys)
    requires Inv(r) && r.workers == [Probing(0), Probing(0)] && r.deques == [BUSY, BUSY] && r.jobs == [] && r.next == 0
    ensures Run(r, evs, s)
    ensures s.workers == [InPop, InPop] && s.deques == [ASLEEP, ASLEEP] && s.jobs == [] && s.next == 0
  {
    assert Run(r, [], r);
    evs, s := GoesToSleep(r, [], r, 0);
    evs, s := GoesToSleep(r, evs, s, 1);
  }

  lemma {:induction false} Woken(j: nat)
    ensures PushStep(ASLEEP, j) == Deque([j], false, false)
  {
  }

  lemma {:induction false} FirstIsPosted(r: Sys, evs: seq<Event>, s: Sys) returns (evs': seq<Event>, t: Sys)
    requires Inv(r) && Run(r, evs, s)
    requires s.workers == [InPop, InPop] && s.deques == [ASLEEP, ASLEEP] && s.jobs == [] && s.next == 0
    ensures Run(r, evs', t) && t.workers == [InPop, InPop] && t.jobs == [Queued(0)] && t.next == 1
    ensures t.deques == [Deque([0], false, false), ASLEEP]
  {
    evs', t := Posts(r, evs, s, 0);
    Woken(0);
    assert t.jobs == [] + [Queued(0)];
  }

  lemma {:induction false} FirstKeepsBusy(r: Sys, evs: seq<Event>, s: Sys) returns (evs': seq<Event>, t: Sys)
    requires Inv(r) && Run(r, evs, s)
    requires s.workers == [InPop, InPop] && s.jobs == [Queued(0)] && s.next == 1
    requires s.deques == [Deque([0], false, false), ASLEEP]
    ensures Run(r, evs', t)
    ensures t.workers == [Running(0), InPop] && t.deques == [BUSY, ASLEEP] && t.jobs == [Held(0)] && t.next == 1
  {
    evs', t := Takes(r, evs, s, 0);
  }

  lemma {:induction false} SecondIsRun(r: Sys, evs: seq<Event>, s: Sys) returns (evs': seq<Event>, t: Sys)
    requires Inv(r) && Run(r, evs, s)
    requires s.workers == [Running(0), InPop] && s.deques == [BUSY, ASLEEP] && s.jobs == [Held(0)] && s.next == 1
    ensures Run(r, evs', t)
    ensures t.workers == [Running(0), Probing(0)] && t.deques == [BUSY, BUSY]
    ensures t.jobs == [Held(0), Ran] && t.next == 2
  {
    evs', t := Posts(r, evs, s, 1);
    Woken(1);
    assert t.deques[1] == Deque([1], false, false) && t.jobs == [Held(0), Queued(1)];
    evs', t := Takes(r, evs', t, 1);
    evs', t := Finishes(r, evs', t, 1);
  }

  lemma {:induction false} ThirdWaits(r: Sys, evs: seq<Event>, s: Sys) returns (evs': seq<Event>, t: Sys)
    requires Inv(r) && Run(r, evs, s)
    requires s.workers == [Running(0), Probing(0)] && s.deques == [BUSY, BUSY]
    requires s.jobs == [Held(0), Ran] && s.next == 2
    ensures Run(r, evs', t) && |t.workers| == |t.deques| == 2
    ensures t.jobs == [Held(0), Ran, Queued(0)] && t.workers[0] == Running(0)
    ensures t.deques[1].asleep && !t.deques[1].stop
  {
    evs', t := GoesToSleep(r, evs, s, 1);
    evs', t := Posts(r, evs', t, 0);
  }

  /** A run of two workers that ends with a job waiting behind a busy worker while the other one sleeps: both fall
      asleep, the first job keeps worker 0 busy, worker 1 runs the second and falls asleep again, and the third
      goes to worker 0. */
  lemma {:induction false} SleepsBesideWaitingJob() returns (evs: seq<Event>, s: Sys)
    ensures Run(Start(2), evs, s) && |s.workers| == |s.deques| == 2
    ensures s.jobs == [Held(0), Ran, Queued(0)] && s.workers[0] == Running(0)
    ensures s.deques[1].asleep && !s.deques[1].stop
  {
    var r := StartsIdle();
    evs, s := BothSleep(r);
    evs, s := FirstIsPosted(r, evs, s);
    evs, s := FirstKeepsBusy(r, evs, s);
    evs, s := SecondIsRun(r, evs, s);
    evs, s := ThirdWaits(r, evs, s);
  }
}
