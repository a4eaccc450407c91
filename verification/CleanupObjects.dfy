/** `lazy_async_op_group_stack` and the coroutine that owns one, as objects, proved against `Cleanup`. */
module CleanupObjects {
  import opened Base
  import opened Cleanup
  import opened CleanupTheorems

  class GroupStack {
    var groups: seq<Group>
    var starting: nat
    var cont: bool
    var err: bool
    var fired: nat
    ghost var popped: seq<Group>
    ghost var started: seq<(nat, nat)>

    ghost function Abs(): Stack
      reads this
    {
      Stack(groups + popped, |groups|, starting, cont, err, fired, started)
    }

    constructor (sizes: seq<nat>)
      ensures Abs() == Init(sizes)
    {
      groups := seq(|sizes|, g requires 0 <= g < |sizes| => FreshGroup(sizes[g]));
      starting, cont, err, fired := 0, false, false, 0;
      popped, started := [], [];
    }

    method Pop()
      requires groups != []
      modifies this`groups, this`popped
      ensures Abs() == old(Abs()).(depth := old(Abs()).depth - 1)
    {
      popped := [groups[|groups| - 1]] + popped;
      groups := groups[..|groups| - 1];
    }

    method PopUntilNonEmpty()
      modifies this`groups, this`popped
      ensures Abs() == old(Abs()).(depth := Settle(old(Abs()).all, old(Abs()).depth))
    {
      while groups != [] && groups[|groups| - 1].ops == []
        invariant Abs() == old(Abs()).(depth := |groups|) && |groups| <= old(|groups|)
        invariant Settle(Abs().all, |groups|) == old(Settle(Abs().all, |groups|))
        decreases |groups|
      {
        assert Abs().all[|groups| - 1] == groups[|groups| - 1];
        Pop();
      }
      assert groups != [] ==> Abs().all[|groups| - 1] == groups[|groups| - 1];
    }

    /** `until_all_done_op::initiate`, up to the start loop of the top group. */
    method Begin() returns (pending: bool)
      requires !cont
      modifies this
      ensures Abs() == Initiate(old(Abs())) && pending == cont
    {
      PopUntilNonEmpty();
      starting := 0;
      cont := groups != [];
      return cont;
    }

    /** One round of the start loop. */
    method StartNext()
      requires Enabled(Abs(), Start)
      modifies this
      ensures Abs() == Step(old(Abs()), Start)
    {
      var t := |groups| - 1;
      started := started + [(t, starting)];
      groups := groups[t := groups[t].(ops := groups[t].ops[starting := Running])];
      starting := starting + 1;
    }

    /** First half of an op's callback: store the error. */
    method ReportDone(i: nat, failed: bool)
      requires Enabled(Abs(), Report(i, failed))
      modifies this
      ensures Abs() == Step(old(Abs()), Report(i, failed))
    {
      var t := |groups| - 1;
      var g := groups[t];
      if failed {
        g := g.(err := true);
      }
      groups := groups[t := g.(ops := g.ops[i := Reported(failed)])];
    }

    /** Second half: count, and after the last op pop the group and go on, or resume. */
    method SignalDone(i: nat)
      requires Enabled(Abs(), Signal(i))
      modifies this
      ensures Abs() == Step(old(Abs()), Signal(i))
    {
      var t := |groups| - 1;
      var g := groups[t];
      groups := groups[t := g.(ops := g.ops[i := Signaled(g.ops[i].failed)], n := g.n + 1)];
      assert Abs() == WithTop(old(Abs()), GroupSignal(g, i));
      if g.n == |g.ops| {
        GroupFinished();
      }
    }

    /** The continuation given to each group. */
    method GroupFinished()
      requires groups != [] && cont
      modifies this
      ensures Abs() == GroupDone(old(Abs()))
    {
      assert Abs().all[|groups| - 1] == groups[|groups| - 1];
      if groups[|groups| - 1].err {
        err := true;
      }
      Pop();
      PopUntilNonEmpty();
      starting := 0;
      if groups == [] {
        cont := false;
        fired := fired + 1;
      }
    }
  }

  class Coroutine<V, E> {
    const cleanup: GroupStack
    var r: Option<Result<V, Fault<E>>>
    var frame: bool
    var resumed: nat

    /** A body that has not ended yet. */
    ghost predicate InBody()
      reads this, cleanup
    {
      r == None && frame && resumed == 0 && exists sizes :: cleanup.Abs() == Init(sizes)
    }

    ghost function Abs(): Coro<V, E>
      requires r.Some?
      reads this, cleanup
    {
      Coro(cleanup.Abs(), r.value, frame, resumed)
    }

    constructor (sizes: seq<nat>)
      ensures InBody() && cleanup.Abs() == Init(sizes) && fresh(cleanup)
    {
      cleanup := new GroupStack(sizes);
      r, frame, resumed := None, true, 0;
    }

    /** The throw, return and failed-try awaiters: the result first, then `initiate_cleanup`. */
    method End(exit: Exit<V, E>, ghost sizes: seq<nat>)
      requires InBody() && cleanup.Abs() == Init(sizes)
      modifies this, cleanup
      ensures r.Some? && Abs() == BeginExit(sizes, exit)
    {
      r := match exit case Return(v) => Some(Ok(v)) case Throw(e) => Some(Err(User(e)));
      var pending := cleanup.Begin();
      if !pending {
        Finish();
      }
    }

    /** An op of the top cleanup group signals; the last one of all ends the coroutine. */
    method OpSignals(i: nat)
      requires r.Some? && Enabled(cleanup.Abs(), Signal(i))
      modifies this, cleanup
      ensures r.Some? && Abs() == CoroStep(old(Abs()), Signal(i))
    {
      cleanup.SignalDone(i);
      if !cleanup.cont {
        Finish();
      }
    }

    method Finish()
      requires r.Some?
      modifies this
      ensures r.Some? && Abs() == Conclude(old(Abs()))
    {
      if cleanup.err {
        r := Some(Err(OneOrMoreCleanupOpsFailed));
      }
      frame := false;
      resumed := resumed + 1;
    }
  }
}
