/** What `until_if_op` promises over every run: one resumption after all children, the right winner, and the
    verdict the caller reads. */
module UntilTheorems {
  import opened Base
  import opened Until

  /** For n >= 1 the continuation fires exactly once, exactly when every child was started and has finished;
      over no children at all it never fires. */
  lemma {:induction false} FiresOnceAfterAll(cat: Category, n: nat, evs: seq<Event>, t: Op)
    requires Run(Init(cat, n), evs, t)
    ensures Own(evs) <= 4 * n
    ensures t.fired == if n > 0 && Own(evs) == 4 * n then 1 else 0
    ensures t.fired == 1 <==> n > 0 && |t.children| == n && forall i :: 0 <= i < n ==> t.children[i].Done?
  {
    InitInv(cat, n);
    RunKeeps(Init(cat, n), evs, t);
    CountsZero(t.children);
  }

  /** `_firstIdx` names the first child, in the order of checks, that met the condition. It is set, when all
      is over, unless no child met it or the parent's stop request came before the first that did. */
  lemma {:induction false} FirstIdxMeaning(cat: Category, n: nat, evs: seq<Event>, t: Op)
    requires Run(Init(cat, n), evs, t)
    ensures t.firstIdx.Some? ==> t.met != [] && t.firstIdx == Some(t.met[0])
    ensures t.firstIdx.Some? ==> t.firstIdx.value < |t.children| && HasMet(t.children[t.firstIdx.value])
    ensures t.fired == 1 ==> (t.firstIdx == None <==> t.met == [] || t.stop == Parent)
    ensures t.fired == 1 ==> (t.met == [] <==> forall i :: 0 <= i < |t.children| ==> !HasMet(t.children[i]))
  {
    InitInv(cat, n);
    RunKeeps(Init(cat, n), evs, t);
    CountsZero(t.children);
  }

  /** `_firstIdx` is written at most once. */
  lemma {:induction false} WrittenOnce(s: Op, ev: Event)
    requires Inv(s) && Enabled(s, ev) && s.firstIdx.Some?
    ensures Step(s, ev).firstIdx == s.firstIdx
  {
  }

  /** What the caller is told when no stop was requested from outside: `until_first_*` says `NotFound` iff
      no child met the condition, `until_all_succeeded` says `Failed` iff some child met it, i.e. failed. */
  lemma {:induction false} VerdictWithoutParentStop(cat: Category, n: nat, evs: seq<Event>, t: Op)
    requires Run(Init(cat, n), evs, t) && t.fired == 1
    requires forall k :: 0 <= k < |evs| ==> !evs[k].ParentStop?
    ensures var someMet := exists i :: 0 <= i < |t.children| && HasMet(t.children[i]);
      t.err == match cat
        case FirstFound => if someMet then None else Some(NotFound)
        case AllIfNotFound => if someMet then Some(Failed) else None
  {
    InitInv(cat, n);
    RunKeeps(Init(cat, n), evs, t);
    FirstIdxMeaning(cat, n, evs, t);
  }

  /** Who moves first: the parent asking two or more children to stop, or a child that meets the condition. */
  function FirstMover(n: nat, evs: seq<Event>): Stopper {
    if evs == [] then Nobody
    else match evs[0]
      case ParentStop => if n == 1 then FirstMover(n, evs[1..]) else Parent
      case Check(i, true) => By(i)
      case _ => FirstMover(n, evs[1..])
  }

  lemma {:induction false} StopIsFirstMover(s: Op, evs: seq<Event>, t: Op)
    requires Run(s, evs, t)
    ensures t.stop == if s.stop.Nobody? then FirstMover(|s.children|, evs) else s.stop
    decreases |evs|
  {
    if evs != [] { StopIsFirstMover(Step(s, evs[0]), evs[1..], t); }
  }

  /** With stop requests from outside the verdict depends on who moves first, and on nothing else. */
  lemma {:induction false} VerdictByFirstMover(cat: Category, n: nat, evs: seq<Event>, t: Op)
    requires Run(Init(cat, n), evs, t) && t.fired == 1
    ensures t.firstIdx == if FirstMover(n, evs).By? then Some(FirstMover(n, evs).i) else None
    ensures t.err == match cat
      case FirstFound => if FirstMover(n, evs).By? then None else Some(NotFound)
      case AllIfNotFound => if FirstMover(n, evs).By? then Some(Failed) else None
  {
    FirstIdxMeaning(cat, n, evs, t);
    InitInv(cat, n);
    RunKeeps(Init(cat, n), evs, t);
    CountsZero(t.children);
    StopIsFirstMover(Init(cat, n), evs, t);
  }

  /** What the caller takes: `until_first_*` yields the value of the first child that met the condition, and its
      index; `until_all_succeeded` yields every child's value, in the order of the children. */
  lemma {:induction false} ResultIs<V>(cat: Category, n: nat, evs: seq<Event>, t: Op, values: seq<V>, r: Taken<V>)
    requires Run(Init(cat, n), evs, t) && t.fired == 1 && |values| == |t.children| && TakenFrom(t, values, r)
    ensures var first := FirstMover(n, evs);
      match cat
      case FirstFound =>
        if first.By? then first.i < |values| && HasMet(t.children[first.i]) && r == First(values[first.i], first.i)
        else r == Failure(NotFound)
      case AllIfNotFound => r == if first.By? then Failure(Failed) else All(values)
  {
    VerdictByFirstMover(cat, n, evs, t);
    FirstIdxMeaning(cat, n, evs, t);
    InitInv(cat, n);
    RunKeeps(Init(cat, n), evs, t);
  }

  /** So `until_all_succeeded` keeps its promise -- no error means that no child failed, failing being the
      condition -- exactly when the parent did not move first or no child failed at all. */
  lemma {:induction false} AllSucceededIff(n: nat, evs: seq<Event>, t: Op)
    requires Run(Init(AllIfNotFound, n), evs, t) && t.fired == 1
    ensures (t.err == None ==> forall i :: 0 <= i < |t.children| ==> !HasMet(t.children[i]))
       <==> FirstMover(n, evs) != Parent || forall k :: 0 <= k < |evs| ==> !(evs[k].Check? && evs[k].m)
  {
    VerdictByFirstMover(AllIfNotFound, n, evs, t);
    FirstIdxMeaning(AllIfNotFound, n, evs, t);
    StopIsFirstMover(Init(AllIfNotFound, n), evs, t);
    MetIffChecked(Init(AllIfNotFound, n), evs, t);
  }

  lemma {:induction false} MetIffChecked(s: Op, evs: seq<Event>, t: Op)
    requires Run(s, evs, t)
    ensures t.met == [] <==> s.met == [] && forall k :: 0 <= k < |evs| ==> !(evs[k].Check? && evs[k].m)
    decreases |evs|
  {
    if evs != [] {
      MetIffChecked(Step(s, evs[0]), evs[1..], t);
      assert forall k :: 1 <= k < |evs| ==> evs[k] == evs[1..][k - 1];
    }
  }

  /** A child that fails inside its own start, when the parent has already asked to stop. */
  lemma {:induction false} FailsInline(s: Op) returns (t: Op)
    requires s.stop == Parent && s.started < |s.children| && s.children[s.started].NotStarted? && s.n > 0
    ensures var i := s.started; Run(s, [Start, Check(i, true), Note(i), CountDown(i)], t)
    ensures t.stop == Parent && t.started == s.started + 1 && t.n == s.n - 1 && t.firstIdx == s.firstIdx
    ensures t.children == s.children[s.started := Done(true)]
    ensures t.cat == s.cat && t.fired == s.fired + (if s.n == 1 then 1 else 0)
    ensures t.err == if s.n == 1 then ErrFromFirstIdx(s.cat, s.firstIdx) else s.err
  {
    var i := s.started;
    var s1 := Step(s, Start);
    var s2 := Step(s1, Check(i, true));
    var s3 := Step(s2, Note(i));
    t := Step(s3, CountDown(i));
    assert Run(s3, [CountDown(i)], t);
    assert Run(s2, [Note(i), CountDown(i)], t);
    assert Run(s1, [Check(i, true), Note(i), CountDown(i)], t);
  }

  lemma {:induction false} RunConcat(s: Op, a: seq<Event>, m: Op, b: seq<Event>, t: Op)
    requires Run(s, a, m) && Run(m, b, t)
    ensures Run(s, a + b, t)
    decreases |a|
  {
    if a == [] {
      assert a + b == b;
    } else {
      assert (a + b)[1..] == a[1..] + b;
      RunConcat(Step(s, a[0]), a[1..], m, b, t);
    }
  }

  /** A run that breaks the promise: a stop is requested, then both children fail, and no error is set. */
  lemma {:induction false} AllSucceededCounterexample() returns (evs: seq<Event>, t: Op)
    ensures Run(Init(AllIfNotFound, 2), evs, t) && t.fired == 1 && t.err == None
    ensures t.children == [Done(true), Done(true)]
  {
    var s := Init(AllIfNotFound, 2);
    var s1 := Step(s, ParentStop);
    assert Run(s, [ParentStop], s1);
    var s2 := FailsInline(s1);
    t := FailsInline(s2);
    var first := [Start, Check(0, true), Note(0), CountDown(0)];
    var second := [Start, Check(1, true), Note(1), CountDown(1)];
    RunConcat(s, [ParentStop], s1, first, s2);
    RunConcat(s, [ParentStop] + first, s2, second, t);
    evs := [ParentStop] + first + second;
  }
}
