/** What holds of every run of the cleanup stack, and of every exit of a coroutine that uses it. */
module CleanupTheorems {
  import opened Base
  import opened Sequences
  import opened Cleanup

  lemma {:induction false} StartsPrefix(sizes: seq<nat>, d: nat, e: nat)
    requires d <= e <= |sizes|
    ensures StartsDownTo(sizes, e) <= StartsDownTo(sizes, d)
    decreases e - d
  {
    if d < e { StartsPrefix(sizes, d + 1, e); }
  }

  /** Group by group from the top, and each group's ops in order. */
  predicate Before(a: (nat, nat), b: (nat, nat)) { a.0 > b.0 || (a.0 == b.0 && a.1 < b.1) }

  ghost predicate InOrder(starts: seq<(nat, nat)>) {
    forall a, b :: 0 <= a < b < |starts| ==> Before(starts[a], starts[b])
  }

  /** The promised start order names every op exactly once, innermost group first. */
  lemma {:induction false} EveryOpOnce(sizes: seq<nat>, d: nat)
    requires d <= |sizes|
    ensures forall g, i :: (g, i) in StartsDownTo(sizes, d) <==> d <= g < |sizes| && i < sizes[g]
    ensures InOrder(StartsDownTo(sizes, d)) && Distinct(StartsDownTo(sizes, d))
    decreases |sizes| - d
  {
    if d < |sizes| {
      EveryOpOnce(sizes, d + 1);
      var hi: seq<(nat, nat)>, lo: seq<(nat, nat)> := StartsDownTo(sizes, d + 1), GroupStarts(d, sizes[d]);
      var s := hi + lo;
      assert forall g, i :: (g, i) in lo <==> g == d && i < sizes[g] by {
        forall g: nat, i: nat ensures (g, i) in lo <==> g == d && i < sizes[d] {
          if g == d && i < sizes[d] { assert lo[i] == (g, i); }
        }
      }
      forall a, b | 0 <= a < b < |s| ensures Before(s[a], s[b]) {
        if b < |hi| {
          assert s[a] == hi[a] && s[b] == hi[b] && Before(hi[a], hi[b]);
        } else if a < |hi| {
          assert (s[a].0, s[a].1) in hi && s[b] == lo[b - |hi|];
          assert s[a].0 > d == s[b].0;
        } else {
          assert s[a] == lo[a - |hi|] && s[b] == lo[b - |hi|];
          assert s[a].1 < s[b].1;
        }
      }
    }
  }

  /** An unfinished stack still has a step to take. */
  lemma {:induction false} DoneIffNothingLeft(s: Stack, sizes: seq<nat>)
    requires Inv(s, sizes)
    ensures AllLeft(s.all) == 0 <==> !s.active
  {
    AllLeftZero(s.all);
    if s.active { SignalsAll(s.all[s.depth - 1].ops); }
  }

  /** For any stack of groups, any completion order and any interleaving with the start loop: the ops start
      in exactly the promised order, the continuation fires once, exactly when every op has finished, the
      stack is then empty, and its error is set iff some op failed. */
  lemma {:induction false} CleanupRun(sizes: seq<nat>, evs: seq<Event>, t: Stack)
    requires Total(sizes) > 0 && Run(Initiate(Init(sizes)), evs, t)
    ensures t.started <= StartsDownTo(sizes, 0)
    ensures |evs| <= 3 * Total(sizes)
    ensures t.fired == if |evs| == 3 * Total(sizes) then 1 else 0
    ensures t.fired == 1 ==> t.depth == 0 && t.started == StartsDownTo(sizes, 0)
    ensures t.fired == 1 ==>
      |t.all| == |sizes| && forall g :: 0 <= g < |sizes| ==> |t.all[g].ops| == sizes[g] && Finished(t.all[g])
    ensures t.fired == 1 ==> (t.err <==> AnyGroupFailed(t.all, 0))
  {
    var s := Initiate(Init(sizes));
    InitiateKeeps(sizes);
    RunKeeps(s, sizes, evs, t);
    DoneIffNothingLeft(t, sizes);
    StartedSoFar(t, sizes);
  }

  lemma {:induction false} StartedSoFar(s: Stack, sizes: seq<nat>)
    requires Inv(s, sizes)
    ensures s.started <= StartsDownTo(sizes, 0)
  {
    if s.active {
      StartsPrefix(sizes, 0, s.depth - 1);
      assert GroupStarts(s.depth - 1, s.starting) <= GroupStarts(s.depth - 1, sizes[s.depth - 1]);
    }
  }

  /** Innermost first: once an op of a group has started, every op of the groups above has finished. */
  lemma {:induction false} InnermostFirst(sizes: seq<nat>, evs: seq<Event>, t: Stack, g: nat, i: nat, above: nat)
    requires Run(Initiate(Init(sizes)), evs, t)
    requires g < above < |t.all| && i < |t.all[g].ops| && !t.all[g].ops[i].NotStarted?
    ensures Finished(t.all[above])
  {
    InitiateKeeps(sizes);
    RunKeeps(Initiate(Init(sizes)), sizes, evs, t);
  }

  /** No group is popped while its start loop still has ops to start. */
  lemma {:induction false} NotPoppedWhileStarting(s: Stack, sizes: seq<nat>, i: nat)
    requires Inv(s, sizes) && Enabled(s, Signal(i)) && Step(s, Signal(i)).depth < s.depth
    ensures s.starting == |s.all[s.depth - 1].ops|
  {
    LastSignal(s.all[s.depth - 1], s.starting, i);
  }

  /** The run is never stuck: the loop goes on, or some op is yet to finish or to signal. */
  lemma {:induction false} NeverStuck(s: Stack, sizes: seq<nat>)
    requires Inv(s, sizes) && s.active
    ensures exists ev :: Enabled(s, ev)
  {
    var ops := s.all[s.depth - 1].ops;
    SignalsAll(ops);
    var i :| 0 <= i < |ops| && !ops[i].Signaled?;
    match ops[i] {
      case NotStarted => assert Enabled(s, Start);
      case Running => assert Enabled(s, Report(i, false));
      case Reported(_) => assert Enabled(s, Signal(i));
    }
  }

  // ----- coroutine exit

  datatype Fault<E> = User(e: E) | OneOrMoreCleanupOpsFailed

  /** How a coroutine body ends: `DSK_RETURN(v)`, or `DSK_THROW(e)` and a failed `DSK_TRY` alike. */
  datatype Exit<V, E> = Return(v: V) | Throw(e: E)

  /** `result` is the host's `_r`; `frame` says that the coroutine frame still exists. */
  datatype Coro<V, E> = Coro(stack: Stack, result: Result<V, Fault<E>>, frame: bool, resumed: nat)

  function Original<V, E>(exit: Exit<V, E>): Result<V, Fault<E>> {
    match exit case Return(v) => Ok(v) case Throw(e) => Err(User(e))
  }

  /** The tail of `initiate_cleanup`, in the callback and in the immediate case alike. */
  function Conclude<V, E>(c: Coro<V, E>): Coro<V, E> {
    c.(result := if c.stack.err then Err(OneOrMoreCleanupOpsFailed) else c.result,
       frame := false, resumed := c.resumed + 1)
  }

  function BeginExit<V, E>(sizes: seq<nat>, exit: Exit<V, E>): Coro<V, E> {
    var c := Coro(Initiate(Init(sizes)), Original(exit), true, 0);
    if c.stack.active then c else Conclude(c)
  }

  function CoroStep<V, E>(c: Coro<V, E>, ev: Event): Coro<V, E>
    requires Enabled(c.stack, ev)
  {
    var c' := c.(stack := Step(c.stack, ev));
    if c'.stack.fired > c.stack.fired then Conclude(c') else c'
  }

  ghost predicate CoroRun<V, E>(c: Coro<V, E>, evs: seq<Event>, d: Coro<V, E>)
    decreases |evs|
  {
    if evs == [] then d == c else Enabled(c.stack, evs[0]) && CoroRun(CoroStep(c, evs[0]), evs[1..], d)
  }

  /** While the stack runs nothing is decided; when it fires everything is, once. */
  lemma {:induction false} CoroFollows<V, E>(c: Coro<V, E>, sizes: seq<nat>, evs: seq<Event>, d: Coro<V, E>)
    requires Inv(c.stack, sizes) && CoroRun(c, evs, d) && c.stack.active && c.frame && c.resumed == 0
    ensures Run(c.stack, evs, d.stack)
    ensures d.resumed == d.stack.fired - c.stack.fired
    ensures d.frame == (d.resumed == 0)
    ensures d.result == if d.resumed == 1 && d.stack.err then Err(OneOrMoreCleanupOpsFailed) else c.result
    decreases |evs|
  {
    if evs != [] {
      var c' := CoroStep(c, evs[0]);
      assert Run(c.stack, [evs[0]], c'.stack);
      RunKeeps(c.stack, sizes, [evs[0]], c'.stack);
      if c'.stack.active {
        CoroFollows(c', sizes, evs[1..], d);
      }
    }
  }

  /** The result is the value that was returned, or the error that was thrown. */
  ghost predicate Keeps<V, E>(exit: Exit<V, E>, r: Result<V, Fault<E>>) {
    match r case Ok(v) => exit == Return(v) case Err(f) => f.User? && exit == Throw(f.e)
  }

  /** Every exit resumes the continuation exactly once, when all cleanup ops of all scopes have finished and
      the frame is gone; the result is the original one unless some cleanup op failed. */
  lemma {:induction false} CoroutineExit<V, E>(sizes: seq<nat>, exit: Exit<V, E>, evs: seq<Event>, c: Coro<V, E>)
    requires CoroRun(BeginExit(sizes, exit), evs, c)
    ensures |evs| <= 3 * Total(sizes)
    ensures c.resumed == if |evs| == 3 * Total(sizes) then 1 else 0
    ensures c.resumed == 0 ==> c.frame && Keeps(exit, c.result)
    ensures c.resumed == 1 ==>
      && !c.frame && c.stack.depth == 0
      && (forall g :: 0 <= g < |c.stack.all| ==> Finished(c.stack.all[g]))
      && if AnyGroupFailed(c.stack.all, 0) then c.result == Err(OneOrMoreCleanupOpsFailed) else Keeps(exit, c.result)
  {
    var b := BeginExit(sizes, exit);
    InitiateKeeps(sizes);
    DoneIffNothingLeft(b.stack, sizes);
    if b.stack.active { ExitsLater(sizes, b, evs, c); }
  }

  /** With something to clean up, the end of the stack is the end of the coroutine. */
  lemma {:induction false} ExitsLater<V, E>(sizes: seq<nat>, b: Coro<V, E>, evs: seq<Event>, c: Coro<V, E>)
    requires b.stack == Initiate(Init(sizes)) && b.stack.active && b.frame && b.resumed == 0 && CoroRun(b, evs, c)
    ensures |evs| <= 3 * Total(sizes) && c.resumed == if |evs| == 3 * Total(sizes) then 1 else 0
    ensures c.resumed == 0 ==> c.frame && c.result == b.result
    ensures c.resumed == 1 ==>
      && !c.frame && c.stack.depth == 0
      && (forall g :: 0 <= g < |c.stack.all| ==> Finished(c.stack.all[g]))
      && c.result == if AnyGroupFailed(c.stack.all, 0) then Err(OneOrMoreCleanupOpsFailed) else b.result
  {
    InitiateKeeps(sizes);
    CoroFollows(b, sizes, evs, c);
    CleanupRun(sizes, evs, c.stack);
  }
}
