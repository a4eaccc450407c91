/** `simple_thread_pool_t::thread_state`: one worker's deque, as a value and as an object. */
module ThreadStates {
  import opened Base

  /** `asleep`: the owner is in `_cv.wait` and has not been notified. */
  datatype Deque<J> = Deque(jobs: seq<J>, stop: bool, asleep: bool) {
    /** Nobody sleeps on a reason to be awake. */
    predicate Sound() { asleep ==> jobs == [] && !stop }
  }

  datatype PopResult<J> = Exit | Got(job: J) | Sleeps

  /** `push`, and `try_push` once it has the lock: notifies only when the deque was empty. */
  function PushStep<J>(d: Deque<J>, job: J): Deque<J> {
    d.(jobs := d.jobs + [job], asleep := d.asleep && d.jobs != [])
  }

  /** `try_pop` once it has the lock: it does not look at `_stop`. */
  function TryPopStep<J>(d: Deque<J>): (Deque<J>, Option<J>) {
    if d.jobs == [] then (d, None) else (d.(jobs := d.jobs[1..]), Some(d.jobs[0]))
  }

  /** One turn of the loop in `pop`, from getting the lock to returning or waiting. */
  function PopStep<J>(d: Deque<J>): (Deque<J>, PopResult<J>) {
    if d.stop then (d, Exit)
    else if d.jobs != [] then (d.(jobs := d.jobs[1..]), Got(d.jobs[0]))
    else (d.(asleep := true), Sleeps)
  }

  function StopStep<J>(d: Deque<J>): Deque<J> {
    d.(stop := true, asleep := false)
  }

  class ThreadState<J> {
    var stop: bool
    var jobs: seq<J>
    var asleep: bool

    function Abs(): Deque<J>
      reads this
    {
      Deque(jobs, stop, asleep)
    }

    constructor ()
      ensures Abs() == Deque([], false, false) && Abs().Sound()
    {
      stop, jobs, asleep := false, [], false;
    }

    method NotifyOne()
      modifies this`asleep
      ensures !asleep
    {
      asleep := false;
    }

    method TryPop(locked: bool) returns (job: Option<J>)
      modifies this
      ensures locked ==> job == None && Abs() == old(Abs())
      ensures !locked ==> (Abs(), job) == TryPopStep(old(Abs()))
      ensures old(Abs().Sound()) ==> Abs().Sound()
    {
      if locked || jobs == [] { return None; }
      job := Some(jobs[0]);
      jobs := jobs[1..];
    }

    method PopOnce() returns (r: PopResult<J>)
      requires !asleep
      modifies this
      ensures (Abs(), r) == PopStep(old(Abs())) && Abs().Sound()
    {
      if stop { return Exit; }
      if jobs != [] {
        r := Got(jobs[0]);
        jobs := jobs[1..];
        return;
      }
      asleep := true;
      return Sleeps;
    }

    method Push(job: J)
      modifies this
      ensures Abs() == PushStep(old(Abs()), job)
      ensures old(Abs().Sound()) ==> Abs().Sound() && !asleep
    {
      var wasEmpty := jobs == [];
      jobs := jobs + [job];
      if wasEmpty { NotifyOne(); }
    }

    method TryPush(job: J, locked: bool) returns (ok: bool)
      modifies this
      ensures ok == !locked && Abs() == if ok then PushStep(old(Abs()), job) else old(Abs())
      ensures old(Abs().Sound()) ==> Abs().Sound()
    {
      if locked { return false; }
      Push(job);
      return true;
    }

    method Stop()
      modifies this
      ensures Abs() == StopStep(old(Abs())) && Abs().Sound()
    {
      stop := true;
      NotifyOne();
    }
  }

  /** The `i`-th deque from `index` on, round the pool. */
  function At(index: nat, i: nat, n: nat): (k: nat)
    requires n > 0
    ensures k < n
  {
    (index + i) % n
  }

  /** Going round from anywhere reaches every deque. */
  lemma {:induction false} ReachesAll(index: nat, n: nat, w: nat) returns (i: nat)
    requires w < n
    ensures i < n && At(index, i, n) == w
  {
    var r := index % n;
    i := if w >= r then w - r else w + n - r;
    var q := if w >= r then index / n else index / n + 1;
    assert index + i == q * n + w;
    assert (q * n + w) % n == w by { Modulo(q, n, w); }
  }

  lemma {:induction false} Modulo(q: nat, n: nat, w: nat)
    requires w < n
    ensures (q * n + w) % n == w
  {
    var x := q * n + w;
    if x / n > q {
      Multiple(n, x / n - q);
    } else {
      Multiple(n, q - x / n);
    }
  }

  lemma {:induction false} Multiple(n: nat, d: nat)
    ensures d > 0 ==> n * d >= n
  {
    if d > 1 {
      Multiple(n, d - 1);
      assert n * d == n * (d - 1) + n;
    }
  }

  /** Where probing from `index` ends: at the first deque whose lock is free, or after all of them. */
  function FirstFree(locked: seq<bool>, index: nat, i: nat): (k: nat)
    requires |locked| > 0 && i <= |locked|
    ensures i <= k <= |locked|
    ensures forall m :: i <= m < k ==> locked[At(index, m, |locked|)]
    ensures k < |locked| ==> !locked[At(index, k, |locked|)]
    decreases |locked| - i
  {
    if i == |locked| || !locked[At(index, i, |locked|)] then i else FirstFree(locked, index, i + 1)
  }

  ghost predicate AllSound<J>(states: seq<ThreadState<J>>)
    reads states
  {
    && (forall k :: 0 <= k < |states| ==> states[k].Abs().Sound())
    && (forall i, j :: 0 <= i < j < |states| ==> states[i] != states[j])
  }

  /** `post`: the first deque from `index` on whose lock is free, else a blocking push on the first one. The
      job goes into exactly one deque, whose owner is awake afterwards. */
  method Post<J>(states: seq<ThreadState<J>>, locked: seq<bool>, index: nat, job: J) returns (w: nat)
    requires |states| == |locked| > 0 && AllSound(states)
    modifies states
    ensures w < |states| && AllSound(states) && !states[w].asleep
    ensures w == var i := FirstFree(locked, index, 0); At(index, if i < |locked| then i else 0, |locked|)
    ensures states[w].Abs() == PushStep(old(states[w].Abs()), job)
    ensures forall k :: 0 <= k < |states| && k != w ==> states[k].Abs() == old(states[k].Abs())
  {
    var i := 0;
    while i < |states|
      invariant 0 <= i <= |states| && AllSound(states)
      invariant forall k :: 0 <= k < |states| ==> states[k].Abs() == old(states[k].Abs())
      invariant FirstFree(locked, index, 0) == FirstFree(locked, index, i)
    {
      w := At(index, i, |states|);
      var ok := states[w].TryPush(job, locked[w]);
      if ok { return; }
      i := i + 1;
    }
    w := At(index, 0, |states|);
    states[w].Push(job);
  }

  /** A worker's probing: takes from the first deque, starting with its own, that is free and not empty. */
  method Probe<J>(states: seq<ThreadState<J>>, locked: seq<bool>, index: nat) returns (job: Option<J>, w: nat)
    requires |states| == |locked| > 0 && AllSound(states)
    modifies states
    ensures AllSound(states)
    ensures job.None? ==> forall k :: 0 <= k < |states| ==> states[k].Abs() == old(states[k].Abs())
    ensures job.Some? ==> w < |states| && !locked[w] && (states[w].Abs(), job) == TryPopStep(old(states[w].Abs()))
    ensures job.Some? ==> forall k :: 0 <= k < |states| && k != w ==> states[k].Abs() == old(states[k].Abs())
    ensures job.None? ==> forall m :: 0 <= m < |states| ==>
      locked[At(index, m, |states|)] || states[At(index, m, |states|)].jobs == []
  {
    var i := 0;
    job, w := None, 0;
    while i < |states|
      invariant 0 <= i <= |states| && AllSound(states) && job == None
      invariant forall k :: 0 <= k < |states| ==> states[k].Abs() == old(states[k].Abs())
      invariant forall m :: 0 <= m < i ==> locked[At(index, m, |states|)] || states[At(index, m, |states|)].jobs == []
    {
      w := At(index, i, |states|);
      job := states[w].TryPop(locked[w]);
      if job.Some? { return; }
      i := i + 1;
    }
  }
}
