/** `async_op_group`: ops start as they are added; one waiter is resumed when all of them are done. */
module OpGroup {
  import opened Sequences

  /** `Finished`: the callback ran up to `is_failed`, and erases the op next. */
  datatype OpState = Listed | Erased(failed: bool)

  /** `list` is the list of ops, newest first; `fired` counts calls of the continuation. */
  datatype Group = Group(ops: seq<OpState>, list: seq<nat>, started: bool, cont: bool, err: bool, fired: nat)

  datatype Event = Add | Done(id: nat, failed: bool) | Wait

  const EMPTY := Group([], [], false, false, false, 0)

  /** Ops are added only before the wait (the library asserts it), and finish once. */
  predicate Enabled(g: Group, ev: Event) {
    match ev
    case Add => !g.started && !g.cont
    case Done(id, _) => id < |g.ops| && g.ops[id].Listed?
    case Wait => g.list == [] || (!g.started && !g.cont)
  }

  function AddStep(g: Group): Group {
    g.(ops := g.ops + [Listed], list := [|g.ops|] + g.list)
  }

  /** The critical section at the end of an op, and the continuation if it is to be called. */
  function DoneStep(g: Group, id: nat, failed: bool): Group
    requires id < |g.ops|
  {
    var list := Without(g.list, id);
    var fires := g.started && list == [];
    Group(g.ops[id := Erased(failed)], list, g.started, g.cont && !fires, g.err || failed,
          g.fired + if fires then 1 else 0)
  }

  /** `until_all_done_op::initiate`, and whether the caller is to wait. */
  function WaitStep(g: Group): (Group, bool) {
    if g.list == [] then (g, false) else (g.(started := true, cont := true), true)
  }

  function Step(g: Group, ev: Event): Group
    requires Enabled(g, ev)
  {
    match ev
    case Add => AddStep(g)
    case Done(id, failed) => DoneStep(g, id, failed)
    case Wait => WaitStep(g).0
  }

  ghost predicate Inv(g: Group) {
    && Lists(g.list, g.ops)
    && (g.cont <==> g.started && g.list != [])
    && g.fired == (if g.started && g.list == [] then 1 else 0)
    && (g.err <==> SomeFailed(g.ops))
  }

  predicate SomeFailed(ops: seq<OpState>) {
    exists id :: 0 <= id < |ops| && ops[id] == Erased(true)
  }

  ghost predicate NewestFirst(list: seq<nat>) { forall i, j :: 0 <= i < j < |list| ==> list[i] > list[j] }

  ghost predicate Lists(list: seq<nat>, ops: seq<OpState>) {
    && NewestFirst(list)
    && (forall k :: 0 <= k < |list| ==> list[k] < |ops| && ops[list[k]].Listed?)
    && (forall id :: 0 <= id < |ops| && ops[id].Listed? ==> IndexOf(list, id) < |list|)
  }

  lemma {:induction false} ErasedFromList(list: seq<nat>, ops: seq<OpState>, id: nat, failed: bool)
    requires Lists(list, ops) && id < |ops| && ops[id].Listed?
    ensures Lists(Without(list, id), ops[id := Erased(failed)])
  {
    WithoutIsCut(list, id);
    ListsCut(list, ops, IndexOf(list, id), failed);
  }

  lemma {:induction false} ListsCut(list: seq<nat>, ops: seq<OpState>, k: nat, failed: bool)
    requires Lists(list, ops) && k < |list|
    ensures Lists(Cut(list, k), ops[list[k] := Erased(failed)])
  {
    var list', ops' := Cut(list, k), ops[list[k] := Erased(failed)];
    assert forall j :: 0 <= j < |list'| ==> list'[j] == list[if j < k then j else j + 1];
    forall i | 0 <= i < |ops'| && ops'[i].Listed? ensures IndexOf(list', i) < |list'| {
      var j := IndexOf(list, i);
      assert list'[if j < k then j else j - 1] == i;
    }
  }

  lemma {:induction false} DoneKeeps(g: Group, id: nat, failed: bool)
    requires Inv(g) && Enabled(g, Done(id, failed))
    ensures Inv(DoneStep(g, id, failed))
  {
    ErasedFromList(g.list, g.ops, id, failed);
    DoneFails(g.ops, id, failed);
    assert IndexOf(g.list, id) < |g.list|;
  }

  lemma {:induction false} DoneFails(ops: seq<OpState>, id: nat, failed: bool)
    requires id < |ops| && ops[id].Listed?
    ensures SomeFailed(ops[id := Erased(failed)]) <==> SomeFailed(ops) || failed
  {
    var ops' := ops[id := Erased(failed)];
    if failed { assert ops'[id] == Erased(true); }
    if SomeFailed(ops) {
      var i :| 0 <= i < |ops| && ops[i] == Erased(true);
      assert ops'[i] == Erased(true);
    }
  }

  lemma {:induction false} AddKeeps(g: Group)
    requires Inv(g) && Enabled(g, Add)
    ensures Inv(AddStep(g))
  {
    var t := AddStep(g);
    forall i | 0 <= i < |t.ops| && t.ops[i].Listed? ensures IndexOf(t.list, i) < |t.list| {
      if i < |g.ops| { assert t.list[1 + IndexOf(g.list, i)] == i; } else { assert t.list[0] == i; }
    }
    assert SomeFailed(t.ops) <==> SomeFailed(g.ops) by {
      if SomeFailed(g.ops) {
        var i :| 0 <= i < |g.ops| && g.ops[i] == Erased(true);
        assert t.ops[i] == Erased(true);
      }
    }
  }

  lemma {:induction false} StepKeeps(g: Group, ev: Event)
    requires Inv(g) && Enabled(g, ev)
    ensures Inv(Step(g, ev))
  {
    match ev
    case Add => AddKeeps(g);
    case Done(id, failed) => DoneKeeps(g, id, failed);
    case Wait =>
  }

  ghost predicate Run(g: Group, evs: seq<Event>, t: Group)
    requires Inv(g)
    decreases |evs|
  {
    if evs == [] then t == g
    else Enabled(g, evs[0]) && (StepKeeps(g, evs[0]); Run(Step(g, evs[0]), evs[1..], t))
  }

  lemma {:induction false} RunKeeps(g: Group, evs: seq<Event>, t: Group)
    requires Inv(g) && Run(g, evs, t)
    ensures Inv(t)
    decreases |evs|
  {
    if evs != [] {
      StepKeeps(g, evs[0]);
      RunKeeps(Step(g, evs[0]), evs[1..], t);
    }
  }

  /** How often a wait in this run was told to wait. */
  ghost function Waits(g: Group, evs: seq<Event>): nat
    requires Inv(g)
    decreases |evs|
  {
    if evs == [] || !Enabled(g, evs[0]) then 0
    else
      StepKeeps(g, evs[0]);
      (if evs[0] == Wait && WaitStep(g).1 then 1 else 0) + Waits(Step(g, evs[0]), evs[1..])
  }

  lemma {:induction false} WaitsOnce(g: Group, evs: seq<Event>, t: Group)
    requires Inv(g) && Run(g, evs, t)
    ensures Waits(g, evs) == (if t.started then 1 else 0) - (if g.started then 1 else 0)
    decreases |evs|
  {
    if evs != [] {
      StepKeeps(g, evs[0]);
      WaitsOnce(Step(g, evs[0]), evs[1..], t);
    }
  }

  /** In every run of adds, completions and waits: at most one wait has to wait, its continuation is called
      exactly once, and that when the last op is erased; a wait that is told that all is done is never resumed;
      and the error is set exactly if some op failed, also one that finished before the wait. */
  lemma {:induction false} FiresOnceAfterAll(evs: seq<Event>, t: Group)
    requires Run(EMPTY, evs, t)
    ensures Waits(EMPTY, evs) <= 1
    ensures t.fired == if Waits(EMPTY, evs) == 1 && forall id :: 0 <= id < |t.ops| ==> t.ops[id].Erased? then 1 else 0
    ensures t.err <==> exists id :: 0 <= id < |t.ops| && t.ops[id] == Erased(true)
  {
    RunKeeps(EMPTY, evs, t);
    WaitsOnce(EMPTY, evs, t);
    if t.list != [] {
      assert t.ops[t.list[0]].Listed?;
    }
  }

  /** A wait returns at once exactly when every op so far is done, and then changes nothing. */
  lemma {:induction false} AlreadyDoneIff(g: Group)
    requires Inv(g) && Enabled(g, Wait)
    ensures !WaitStep(g).1 <==> forall id :: 0 <= id < |g.ops| ==> g.ops[id].Erased?
    ensures !WaitStep(g).1 ==> Step(g, Wait) == g
  {
    if g.list != [] {
      assert g.ops[g.list[0]].Listed?;
    }
  }

  /** The group as an object. The list holds the op ids, newest first. */
  class AsyncOpGroup {
    var started: bool
    var err: bool
    var cont: bool
    var list: seq<nat>
    ghost var ops: seq<OpState>
    ghost var fired: nat

    ghost function Abs(): Group
      reads this
    {
      Group(ops, list, started, cont, err, fired)
    }

    constructor ()
      ensures Abs() == EMPTY && Inv(Abs())
    {
      started, err, cont, list := false, false, false, [];
      ops, fired := [], 0;
    }

    method AddAndInitiate(id: nat)
      requires Inv(Abs()) && Enabled(Abs(), Add) && id == |ops|
      modifies this
      ensures Abs() == AddStep(old(Abs())) && Inv(Abs())
    {
      AddKeeps(Abs());
      list := [id] + list;
      ops := ops + [Listed];
    }

    /** The completion of an op: `resumes` tells whether it calls the continuation. */
    method Complete(id: nat, failed: bool) returns (resumes: bool)
      requires Inv(Abs()) && Enabled(Abs(), Done(id, failed))
      modifies this
      ensures Abs() == DoneStep(old(Abs()), id, failed) && Inv(Abs())
      ensures resumes == (fired == old(fired) + 1) && (resumes ==> old(cont) && !cont && list == [])
    {
      DoneKeeps(Abs(), id, failed);
      if failed { err := true; }
      list := Without(list, id);
      ops := ops[id := Erased(failed)];
      resumes := started && list == [];
      if resumes {
        cont := false;
        fired := fired + 1;
      }
    }

    method UntilAllDone() returns (waits: bool)
      requires Inv(Abs()) && Enabled(Abs(), Wait)
      modifies this
      ensures (Abs(), waits) == WaitStep(old(Abs())) && Inv(Abs())
    {
      if list == [] { return false; }
      cont := true;
      started := true;
      return true;
    }
  }
}
