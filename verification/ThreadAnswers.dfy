/** What the deques of `simple_thread_pool_t` answer: which job a worker gets, and what is left. */
module ThreadAnswers {
  import opened Base
  import opened Sequences
  import opened ThreadStates
  import opened ThreadRuns

  // ----- one deque

  /** `pop` gives out the front job and the rest stays, in order. It leaves on a stop whatever is in the deque, and
      sleeps exactly if there is neither a stop nor a job. */
  lemma {:induction false} PopTakesFront<J>(d: Deque<J>)
    ensures var (d', r) := PopStep(d);
      match r
      case Got(j) => !d.stop && [j] + d'.jobs == d.jobs && d' == d.(jobs := d'.jobs)
      case Exit => d.stop && d' == d
      case Sleeps => !d.stop && d.jobs == [] && d' == d.(asleep := true)
  {
  }

  /** `try_pop` gives out the front job, stop or no stop, and nothing exactly if the deque is empty. */
  lemma {:induction false} TryPopTakesFront<J>(d: Deque<J>)
    ensures var (d', r) := TryPopStep(d);
      match r
      case Some(j) => [j] + d'.jobs == d.jobs && d' == d.(jobs := d'.jobs)
      case None => d.jobs == [] && d' == d
  {
  }

  /** After `k` pushes on an empty deque, `k` pops give the jobs out in the order they came. */
  lemma {:induction false} PushedThenPopped<J>(d: Deque<J>, jobs: seq<J>)
    requires d.jobs == [] && !d.stop
    ensures Popped(PushAll(d, jobs), |jobs|) == jobs
  {
    PushAllAppends(d, jobs);
    assert PushAll(d, jobs).jobs == jobs;
    PoppedIs(PushAll(d, jobs));
  }

  function PushAll<J>(d: Deque<J>, jobs: seq<J>): Deque<J>
    decreases |jobs|
  {
    if jobs == [] then d else PushAll(PushStep(d, jobs[0]), jobs[1..])
  }

  /** The jobs that `k` turns of `pop` give out. */
  function Popped<J>(d: Deque<J>, k: nat): seq<J>
    decreases k
  {
    if k == 0 then []
    else match PopStep(d)
      case (d', Got(j)) => [j] + Popped(d', k - 1)
      case (d', _) => Popped(d', k - 1)
  }

  lemma {:induction false} PushAllAppends<J>(d: Deque<J>, jobs: seq<J>)
    ensures PushAll(d, jobs).jobs == d.jobs + jobs && PushAll(d, jobs).stop == d.stop
    decreases |jobs|
  {
    if jobs != [] {
      PushAllAppends(PushStep(d, jobs[0]), jobs[1..]);
      assert d.jobs + [jobs[0]] + jobs[1..] == d.jobs + jobs;
    }
  }

  lemma {:induction false} PoppedIs<J>(d: Deque<J>)
    requires !d.stop
    ensures Popped(d, |d.jobs|) == d.jobs
    decreases |d.jobs|
  {
    if d.jobs != [] { PoppedIs(PopStep(d).0); }
  }

  // ----- runs

  /** Worker `v` has got job `j` from deque `w`, of which `d` is left. */
  ghost predicate Takes(s: Sys, t: Sys, v: nat, w: nat, j: nat, d: Deque<nat>) {
    && v < |s.workers| && w < |s.deques| == |s.taken| && j < |s.jobs| && s.jobs[j] == Queued(w)
    && t.deques == s.deques[w := d]
    && t.workers == s.workers[v := Running(j)]
    && t.jobs == s.jobs[j := Held(v)]
    && t.taken == s.taken[w := s.taken[w] + [j]]
    && t.runs == s.runs + [j]
    && t.pushed == s.pushed && t.next == s.next
  }

  /** In a run, `pop` leaves the deque of the specification, and the worker runs the very job that it gave out. */
  lemma {:induction false} PopAnswer(s: Sys, w: nat)
    requires Inv(s) && Enabled(s, Pop(w))
    ensures var t := Step(s, Pop(w));
      match PopStep(s.deques[w])
      case (d, Got(j)) => Takes(s, t, w, w, j, d)
      case (d, Exit) => d == s.deques[w] && t == s.(workers := s.workers[w := Exited])
      case (d, Sleeps) => t == s.(deques := s.deques[w := d])
  {
    if s.deques[w].jobs != [] { TakeHolds(s, w, w); }
  }

  /** The same of `try_pop` on the deque the worker has come to; without a job it goes on to the next one. */
  lemma {:induction false} TryPopAnswer(s: Sys, v: nat)
    requires Inv(s) && Enabled(s, TryPop(v, false))
    ensures var t, w := Step(s, TryPop(v, false)), At(v, s.workers[v].i, Size(s));
      match TryPopStep(s.deques[w])
      case (d, Some(j)) => Takes(s, t, v, w, j, d)
      case (d, None) => d == s.deques[w] && t == s.(workers := s.workers[v := NextProbe(s.workers[v].i, Size(s))])
  {
    var w := At(v, s.workers[v].i, Size(s));
    if s.deques[w].jobs != [] { TakeHolds(s, v, w); }
  }

  /** Probing starts at one's own deque and goes on to the next one, round the pool. */
  lemma {:induction false} GoesRound(index: nat, i: nat, n: nat)
    requires index < n
    ensures At(index, 0, n) == index
    ensures At(index, i + 1, n) == (if At(index, i, n) + 1 == n then 0 else At(index, i, n) + 1)
  {
    var q, k := (index + i) / n, (index + i) % n;
    if k + 1 == n {
      assert index + i + 1 == (q + 1) * n + 0;
      Modulo(q + 1, n, 0);
    } else {
      assert index + i + 1 == q * n + (k + 1);
      Modulo(q, n, k + 1);
    }
  }

  /** Where a worker is that was idle after `k` failed attempts. */
  function AfterFailures(k: nat, n: nat): Worker {
    if k == 0 then Probing(0)
    else match AfterFailures(k - 1, n) case Probing(i) => NextProbe(i, n) case other => other
  }

  /** A worker tries each of the `n` deques once before it blocks on its own. */
  lemma {:induction false} TriesEachOnce(k: nat, n: nat)
    requires k <= n && n > 0
    ensures AfterFailures(k, n) == if k < n then Probing(k) else InPop
  {
    if k > 0 { TriesEachOnce(k - 1, n); }
  }

  /** Posts start at one deque after the other, round the pool, until the counter wraps. */
  lemma {:induction false} PostsGoRound(s: Sys)
    requires Inv(s) && s.next + 1 < UINT32
    ensures Inv(Step(s, Post))
    ensures var t, k := Step(s, Post), |s.jobs|;
      && |t.jobs| == k + 1 && Step(t, Post).jobs == t.jobs + [Posting(NextIndex(s, t.jobs[k]), 0)]
      && t.jobs[k] == Posting(s.next % Size(s), 0)
  {
    PostKeeps(s);
    GoesRound(0, s.next, Size(s));
  }

  function NextIndex(s: Sys, p: JobAt): nat
    requires p.Posting?
  {
    if p.index + 1 == Size(s) then 0 else p.index + 1
  }
}
