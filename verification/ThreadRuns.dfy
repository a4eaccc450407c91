/** Runs of `simple_thread_pool_t` between `start` and `join`: any number of posting threads, one step for each
    critical section. */
module ThreadRuns {
  import opened Sequences
  import opened ThreadStates

  /** `Probing(i)`: about to try the `i`-th deque from its own; `InPop`: in the blocking `pop` on its own. */
  datatype Worker = Probing(i: nat) | InPop | Running(job: nat) | Exited

  /** Where a job is: with the thread that posts it, which is about to try the `i`-th deque from `index`, in a
      deque, in the hands of a worker, or done. */
  datatype JobAt = Posting(index: nat, i: nat) | Queued(w: nat) | Held(w: nat) | Ran

  /** Jobs are numbered as they are posted. `pushed`, `taken` and `runs` are logs. */
  datatype Sys = Sys(
    deques: seq<Deque<nat>>,
    workers: seq<Worker>,
    jobs: seq<JobAt>,
    next: nat,
    pushed: seq<seq<nat>>,
    taken: seq<seq<nat>>,
    runs: seq<nat>)

  /** `locked`: the try-lock fails. `Wake` is a spurious wake-up. */
  datatype Event =
    | Post
    | TryPush(id: nat, locked: bool)
    | Push(id: nat)
    | TryPop(w: nat, locked: bool)
    | Pop(w: nat)
    | Wake(w: nat)
    | Finish(w: nat)
    | Stop(w: nat)

  /** `start`. */
  function Start(n: nat): Sys {
    Sys(seq(n, _ => Deque([], false, false)), seq(n, _ => Probing(0)), [], 0, seq(n, _ => []), seq(n, _ => []), [])
  }

  function Size(s: Sys): nat { |s.workers| }

  predicate Enabled(s: Sys, ev: Event) {
    match ev
    case Post => true
    case TryPush(id, _) => id < |s.jobs| && s.jobs[id].Posting? && s.jobs[id].i < Size(s)
    case Push(id) => id < |s.jobs| && s.jobs[id].Posting? && s.jobs[id].i == Size(s)
    case TryPop(w, _) => w < Size(s) && s.workers[w].Probing?
    case Pop(w) => w < Size(s) <= |s.deques| && s.workers[w].InPop? && !s.deques[w].asleep
    case Wake(w) => w < Size(s) <= |s.deques| && s.deques[w].asleep
    case Finish(w) => w < Size(s) && s.workers[w].Running?
    case Stop(w) => w < Size(s)
  }

  // ----- what always holds

  /** The deque of `w` holds, once each, exactly the jobs that are there. */
  ghost predicate Holds(queue: seq<nat>, jobs: seq<JobAt>, w: nat) {
    && Distinct(queue)
    && (forall k :: 0 <= k < |queue| ==> queue[k] < |jobs| && jobs[queue[k]] == Queued(w))
    && (forall j :: 0 <= j < |jobs| && jobs[j] == Queued(w) ==> j in queue)
  }

  ghost predicate QueuesHold(deques: seq<Deque<nat>>, jobs: seq<JobAt>) {
    && (forall w :: 0 <= w < |deques| ==> Holds(deques[w].jobs, jobs, w))
    && (forall j :: 0 <= j < |jobs| && jobs[j].Queued? ==> jobs[j].w < |deques|)
  }

  /** A job that was taken and not finished is in the hands of exactly one worker. */
  ghost predicate WorkersHold(workers: seq<Worker>, jobs: seq<JobAt>) {
    && (forall w :: 0 <= w < |workers| && workers[w].Running? ==>
          workers[w].job < |jobs| && jobs[workers[w].job] == Held(w))
    && (forall j :: 0 <= j < |jobs| && jobs[j].Held? ==>
          jobs[j].w < |workers| && workers[jobs[j].w] == Running(j))
  }

  /** No lost wake-up: who sleeps unnotified has an empty deque and was not told to stop. */
  ghost predicate NoLostWakeup(deques: seq<Deque<nat>>, workers: seq<Worker>) {
    && |deques| == |workers|
    && (forall w :: 0 <= w < |deques| ==> deques[w].Sound() && (deques[w].asleep ==> workers[w].InPop?))
    && (forall w :: 0 <= w < |deques| && workers[w].Exited? ==> deques[w].stop)
  }

  ghost predicate InBounds(s: Sys) {
    && Size(s) > 0
    && (forall w :: 0 <= w < Size(s) && s.workers[w].Probing? ==> s.workers[w].i < Size(s))
    && (forall j :: 0 <= j < |s.jobs| && s.jobs[j].Posting? ==> s.jobs[j].index < Size(s) && s.jobs[j].i <= Size(s))
  }

  /** Each deque is first in, first out. */
  ghost predicate Fifo(s: Sys) {
    && |s.pushed| == |s.taken| == |s.deques|
    && (forall w :: 0 <= w < |s.deques| ==> s.pushed[w] == s.taken[w] + s.deques[w].jobs)
  }

  /** A job was run once if it was taken, and else never. */
  ghost predicate RunOnce(runs: seq<nat>, jobs: seq<JobAt>) {
    && Distinct(runs)
    && (forall k :: 0 <= k < |runs| ==> runs[k] < |jobs| && (jobs[runs[k]].Held? || jobs[runs[k]].Ran?))
    && (forall j :: 0 <= j < |jobs| && (jobs[j].Held? || jobs[j].Ran?) ==> j in runs)
  }

  ghost predicate Inv(s: Sys) {
    && InBounds(s) && NoLostWakeup(s.deques, s.workers)
    && QueuesHold(s.deques, s.jobs) && WorkersHold(s.workers, s.jobs)
    && Fifo(s) && RunOnce(s.runs, s.jobs)
  }

  // ----- steps

  const UINT32: nat := 0x1_0000_0000

  /** The worker goes on to the next deque, or from the last one into `pop`. */
  function NextProbe(i: nat, n: nat): Worker {
    if i + 1 < n then Probing(i + 1) else InPop
  }

  function PushJob(s: Sys, id: nat, w: nat): Sys
    requires id < |s.jobs| && w < |s.deques| == |s.pushed|
  {
    s.(deques := s.deques[w := PushStep(s.deques[w], id)],
       jobs := s.jobs[id := Queued(w)],
       pushed := s.pushed[w := s.pushed[w] + [id]])
  }

  /** Worker `v` takes the front job of deque `w` and runs it. */
  function TakeJob(s: Sys, v: nat, w: nat): Sys
    requires v < |s.workers| && w < |s.deques| == |s.taken|
    requires s.deques[w].jobs != [] && s.deques[w].jobs[0] < |s.jobs|
  {
    var job := s.deques[w].jobs[0];
    s.(deques := s.deques[w := TryPopStep(s.deques[w]).0],
       workers := s.workers[v := Running(job)],
       jobs := s.jobs[job := Held(v)],
       taken := s.taken[w := s.taken[w] + [job]],
       runs := s.runs + [job])
  }

  function Step(s: Sys, ev: Event): Sys
    requires Inv(s) && Enabled(s, ev)
  {
    match ev
    case Post => s.(jobs := s.jobs + [Posting(s.next % Size(s), 0)], next := (s.next + 1) % UINT32)
    case TryPush(id, locked) =>
      var p := s.jobs[id];
      if locked then s.(jobs := s.jobs[id := p.(i := p.i + 1)])
      else PushJob(s, id, At(p.index, p.i, Size(s)))
    case Push(id) => PushJob(s, id, s.jobs[id].index)
    case TryPop(v, locked) =>
      var w := At(v, s.workers[v].i, Size(s));
      if locked || s.deques[w].jobs == [] then s.(workers := s.workers[v := NextProbe(s.workers[v].i, Size(s))])
      else TakeJob(s, v, w)
    case Pop(w) =>
      (match PopStep(s.deques[w]).1
       case Exit => s.(workers := s.workers[w := Exited])
       case Sleeps => s.(deques := s.deques[w := PopStep(s.deques[w]).0])
       case Got(_) => TakeJob(s, w, w))
    case Wake(w) => s.(deques := s.deques[w := s.deques[w].(asleep := false)])
    case Finish(w) => s.(workers := s.workers[w := Probing(0)], jobs := s.jobs[s.workers[w].job := Ran])
    case Stop(w) => s.(deques := s.deques[w := StopStep(s.deques[w])])
  }

  // ----- every step keeps the invariant

  lemma {:induction false} HoldsPushed(queue: seq<nat>, jobs: seq<JobAt>, w: nat, j: nat)
    requires Holds(queue, jobs, w) && j < |jobs| && !jobs[j].Queued?
    ensures Holds(queue + [j], jobs[j := Queued(w)], w)
  {
    var queue' := queue + [j];
    assert queue'[|queue|] == j;
    forall i | 0 <= i < |jobs| && jobs[i] == Queued(w) ensures i in queue' { assert i in queue; }
  }

  lemma {:induction false} HoldsPopped(queue: seq<nat>, jobs: seq<JobAt>, w: nat, p: JobAt)
    requires Holds(queue, jobs, w) && queue != [] && !p.Queued?
    ensures Holds(queue[1..], jobs[queue[0] := p], w)
  {
    assert queue == [queue[0]] + queue[1..];
  }

  lemma {:induction false} PushHolds(s: Sys, id: nat, w: nat)
    requires Inv(s) && id < |s.jobs| && s.jobs[id].Posting? && w < |s.deques|
    ensures QueuesHold(PushJob(s, id, w).deques, PushJob(s, id, w).jobs)
  {
    HoldsPushed(s.deques[w].jobs, s.jobs, w, id);
    var t := PushJob(s, id, w);
    forall v | 0 <= v < |t.deques| ensures Holds(t.deques[v].jobs, t.jobs, v) {
      assert Holds(s.deques[v].jobs, s.jobs, v);
    }
  }

  lemma {:induction false} PushKeeps(s: Sys, id: nat, w: nat)
    requires Inv(s) && id < |s.jobs| && s.jobs[id].Posting? && w < |s.deques|
    ensures Inv(PushJob(s, id, w))
  {
    PushHolds(s, id, w);
  }

  lemma {:induction false} TakeHolds(s: Sys, v: nat, w: nat)
    requires Inv(s) && v < |s.workers| && w < |s.deques| && s.deques[w].jobs != []
    ensures s.deques[w].jobs[0] < |s.jobs| && s.jobs[s.deques[w].jobs[0]] == Queued(w)
    ensures QueuesHold(TakeJob(s, v, w).deques, TakeJob(s, v, w).jobs)
  {
    assert Holds(s.deques[w].jobs, s.jobs, w);
    HoldsPopped(s.deques[w].jobs, s.jobs, w, Held(v));
    var t := TakeJob(s, v, w);
    forall u | 0 <= u < |t.deques| ensures Holds(t.deques[u].jobs, t.jobs, u) {
      assert Holds(s.deques[u].jobs, s.jobs, u);
    }
  }

  lemma {:induction false} TakeRunsOnce(runs: seq<nat>, jobs: seq<JobAt>, j: nat, v: nat)
    requires RunOnce(runs, jobs) && j < |jobs| && jobs[j].Queued?
    ensures RunOnce(runs + [j], jobs[j := Held(v)])
  {
    var runs' := runs + [j];
    assert runs'[|runs|] == j;
    forall i | 0 <= i < |jobs| && (jobs[i].Held? || jobs[i].Ran?) ensures i in runs' { assert i in runs; }
  }

  lemma {:induction false} TakeWorkersHold(workers: seq<Worker>, jobs: seq<JobAt>, v: nat, j: nat)
    requires WorkersHold(workers, jobs) && v < |workers| && !workers[v].Running? && j < |jobs| && jobs[j].Queued?
    ensures WorkersHold(workers[v := Running(j)], jobs[j := Held(v)])
  {
  }

  lemma {:induction false} TakeFifo(s: Sys, v: nat, w: nat)
    requires Fifo(s) && v < |s.workers| && w < |s.deques| && s.deques[w].jobs != [] && s.deques[w].jobs[0] < |s.jobs|
    ensures Fifo(TakeJob(s, v, w))
  {
    assert s.deques[w].jobs == [s.deques[w].jobs[0]] + s.deques[w].jobs[1..];
  }

  lemma {:induction false} TakeKeeps(s: Sys, v: nat, w: nat)
    requires Inv(s) && v < |s.workers| && w < |s.deques| && s.deques[w].jobs != []
    requires !s.workers[v].Running? && !s.workers[v].Exited? && !s.deques[v].asleep
    ensures s.deques[w].jobs[0] < |s.jobs| && Inv(TakeJob(s, v, w))
  {
    TakeHolds(s, v, w);
    var j := s.deques[w].jobs[0];
    TakeRunsOnce(s.runs, s.jobs, j, v);
    TakeWorkersHold(s.workers, s.jobs, v, j);
    TakeFifo(s, v, w);
  }

  lemma {:induction false} PostKeeps(s: Sys)
    requires Inv(s)
    ensures Inv(Step(s, Post))
  {
    var t := Step(s, Post);
    forall w | 0 <= w < |t.deques| ensures Holds(t.deques[w].jobs, t.jobs, w) {
      assert Holds(s.deques[w].jobs, s.jobs, w);
    }
  }

  /** A job that is neither queued nor taken changes hands outside the deques. */
  lemma {:induction false} JobFrame(s: Sys, id: nat, p: JobAt)
    requires Inv(s) && id < |s.jobs| && !s.jobs[id].Queued? && !p.Queued?
    ensures QueuesHold(s.deques, s.jobs[id := p])
  {
    forall w | 0 <= w < |s.deques| ensures Holds(s.deques[w].jobs, s.jobs[id := p], w) {
      assert Holds(s.deques[w].jobs, s.jobs, w);
    }
  }

  lemma {:induction false} FinishKeeps(s: Sys, w: nat)
    requires Inv(s) && Enabled(s, Finish(w))
    ensures Inv(Step(s, Finish(w)))
  {
    JobFrame(s, s.workers[w].job, Ran);
  }

  lemma {:induction false} BlockedPushKeeps(s: Sys, id: nat)
    requires Inv(s) && Enabled(s, TryPush(id, true))
    ensures Inv(Step(s, TryPush(id, true)))
  {
    JobFrame(s, id, s.jobs[id].(i := s.jobs[id].i + 1));
  }

  /** Steps that only touch one deque's flags, or only one worker. */
  lemma {:induction false} FlagsKeep(s: Sys, ev: Event)
    requires Inv(s) && Enabled(s, ev) && (ev.Wake? || ev.Stop? || (ev.Pop? && !PopStep(s.deques[ev.w]).1.Got?))
    ensures Inv(Step(s, ev))
  {
    var t := Step(s, ev);
    assert t.deques[ev.w].jobs == s.deques[ev.w].jobs;
    assert QueuesHold(t.deques, t.jobs) by {
      forall u | 0 <= u < |t.deques| ensures Holds(t.deques[u].jobs, t.jobs, u) {
        assert Holds(s.deques[u].jobs, s.jobs, u);
      }
    }
  }

  lemma {:induction false} ProbeKeeps(s: Sys, v: nat, locked: bool)
    requires Inv(s) && Enabled(s, TryPop(v, locked))
    ensures Inv(Step(s, TryPop(v, locked)))
  {
    var w := At(v, s.workers[v].i, Size(s));
    if !locked && s.deques[w].jobs != [] { TakeKeeps(s, v, w); }
  }

  /** Every event keeps the invariant. */
  lemma {:induction false} StepKeeps(s: Sys, ev: Event)
    requires Inv(s) && Enabled(s, ev)
    ensures Inv(Step(s, ev))
  {
    match ev
    case Post => PostKeeps(s);
    case TryPush(id, locked) =>
      if locked { BlockedPushKeeps(s, id); } else { PushKeeps(s, id, At(s.jobs[id].index, s.jobs[id].i, Size(s))); }
    case Push(id) => PushKeeps(s, id, s.jobs[id].index);
    case TryPop(v, locked) => ProbeKeeps(s, v, locked);
    case Pop(w) => if PopStep(s.deques[w]).1.Got? { TakeKeeps(s, w, w); } else { FlagsKeep(s, ev); }
    case Wake(_) => FlagsKeep(s, ev);
    case Finish(w) => FinishKeeps(s, w);
    case Stop(_) => FlagsKeep(s, ev);
  }
}
