/** Asynchronous cleanup: the stack of lazy op groups that a coroutine runs when it exits. The ops of the top
    group are started in order by a loop, finish on any thread at any time (also inside that loop), and the
    last one to finish pops the group and starts the next. */
module Cleanup {

  /** `Reported`: the callback has stored the error; `Signaled`: it has done its `fetch_add`. */
  datatype Phase = NotStarted | Running | Reported(failed: bool) | Signaled(failed: bool)

  /** `lazy_async_op_group`: `n` counts from 1. */
  datatype Group = Group(ops: seq<Phase>, n: nat, err: bool)

  /** The stack is `all[..depth]`; `all[depth..]` keeps the groups already popped. `started` logs every op
      start as (group, op); `fired` counts calls of the stack's continuation. */
  datatype Stack = Stack(
    all: seq<Group>,
    depth: nat,
    starting: nat,
    active: bool,
    err: bool,
    fired: nat,
    started: seq<(nat, nat)>)

  datatype Event = Start | Report(i: nat, failed: bool) | Signal(i: nat)

  function FreshGroup(size: nat): Group { Group(seq(size, _ => NotStarted), 1, false) }

  function Init(sizes: seq<nat>): Stack {
    Stack(seq(|sizes|, g requires 0 <= g < |sizes| => FreshGroup(sizes[g])), |sizes|, 0, false, false, 0, [])
  }

  /** `pop_untill_non_empty`. */
  function Settle(all: seq<Group>, depth: nat): (d: nat)
    requires depth <= |all|
    ensures d <= depth && (d > 0 ==> all[d - 1].ops != [])
    ensures forall g :: d <= g < depth ==> all[g].ops == []
  {
    if depth == 0 || all[depth - 1].ops != [] then depth else Settle(all, depth - 1)
  }

  /** `until_all_done_op::initiate`: pending iff some group has an op. */
  function Initiate(s: Stack): Stack
    requires s.depth <= |s.all|
  {
    var d := Settle(s.all, s.depth);
    s.(depth := d, starting := 0, active := d > 0)
  }

  predicate Enabled(s: Stack, ev: Event) {
    && s.active && 0 < s.depth <= |s.all|
    && var ops := s.all[s.depth - 1].ops;
    match ev
    case Start => s.starting < |ops|
    case Report(i, _) => i < |ops| && ops[i].Running?
    case Signal(i) => i < |ops| && ops[i].Reported?
  }

  function WithTop(s: Stack, g: Group): Stack
    requires 0 < s.depth <= |s.all|
  {
    s.(all := s.all[s.depth - 1 := g])
  }

  function GroupStart(g: Group, i: nat): Group
    requires i < |g.ops|
  {
    g.(ops := g.ops[i := Running])
  }

  function GroupReport(g: Group, i: nat, failed: bool): Group
    requires i < |g.ops|
  {
    g.(ops := g.ops[i := Reported(failed)], err := g.err || failed)
  }

  function GroupSignal(g: Group, i: nat): Group
    requires i < |g.ops| && g.ops[i].Reported?
  {
    g.(ops := g.ops[i := Signaled(g.ops[i].failed)], n := g.n + 1)
  }

  /** The continuation the stack passes to its groups: merge the error, pop, go on or fire. */
  function GroupDone(s: Stack): Stack
    requires 0 < s.depth <= |s.all|
  {
    var d := Settle(s.all, s.depth - 1);
    s.(err := s.err || s.all[s.depth - 1].err,
       depth := d, starting := 0, active := d > 0, fired := if d > 0 then s.fired else s.fired + 1)
  }

  function Step(s: Stack, ev: Event): Stack
    requires Enabled(s, ev)
  {
    var top := s.all[s.depth - 1];
    match ev
    case Start =>
      WithTop(s, GroupStart(top, s.starting)).(
        starting := s.starting + 1, started := s.started + [(s.depth - 1, s.starting)])
    case Report(i, failed) => WithTop(s, GroupReport(top, i, failed))
    case Signal(i) =>
      var s' := WithTop(s, GroupSignal(top, i));
      if top.n == |top.ops| then GroupDone(s') else s'
  }

  // ----- what is promised

  /** The starts of group `g`, in order, up to its `n`-th op. */
  function GroupStarts(g: nat, n: nat): seq<(nat, nat)> { seq(n, i requires 0 <= i < n => (g, i)) }

  /** Every start of groups `d` and above: top group first, ops in order. */
  function StartsDownTo(sizes: seq<nat>, d: nat): seq<(nat, nat)>
    requires d <= |sizes|
    decreases |sizes| - d
  {
    if d == |sizes| then [] else StartsDownTo(sizes, d + 1) + GroupStarts(d, sizes[d])
  }

  function Total(sizes: seq<nat>): nat {
    if sizes == [] then 0 else Total(sizes[..|sizes| - 1]) + sizes[|sizes| - 1]
  }

  predicate AnyFailed(ops: seq<Phase>) {
    exists i :: 0 <= i < |ops| && (ops[i].Reported? || ops[i].Signaled?) && ops[i].failed
  }

  predicate AnyGroupFailed(all: seq<Group>, from: nat) {
    exists g :: from <= g < |all| && AnyFailed(all[g].ops)
  }

  function Signals(ops: seq<Phase>): nat {
    if ops == [] then 0
    else Signals(ops[..|ops| - 1]) + (if ops[|ops| - 1].Signaled? then 1 else 0)
  }

  /** Steps an op still has to take. */
  function Left(p: Phase): nat {
    match p case NotStarted => 3 case Running => 2 case Reported(_) => 1 case Signaled(_) => 0
  }

  function GroupLeft(ops: seq<Phase>): nat {
    if ops == [] then 0 else GroupLeft(ops[..|ops| - 1]) + Left(ops[|ops| - 1])
  }

  function AllLeft(all: seq<Group>): nat {
    if all == [] then 0 else AllLeft(all[..|all| - 1]) + GroupLeft(all[|all| - 1].ops)
  }

  ghost predicate Untouched(g: Group) {
    g.n == 1 && !g.err && forall i :: 0 <= i < |g.ops| ==> g.ops[i].NotStarted?
  }

  ghost predicate Finished(g: Group) {
    forall i :: 0 <= i < |g.ops| ==> g.ops[i].Signaled?
  }

  /** The running group: its loop has started exactly the first `starting` ops, and its counter and error
      tell what its ops did. */
  ghost predicate InProgress(g: Group, starting: nat) {
    && starting <= |g.ops|
    && (forall i :: 0 <= i < |g.ops| ==> (g.ops[i].NotStarted? <==> i >= starting))
    && g.n == 1 + Signals(g.ops) <= |g.ops|
    && (g.err <==> AnyFailed(g.ops))
  }

  ghost predicate Inv(s: Stack, sizes: seq<nat>) {
    && |s.all| == |sizes| && s.depth <= |s.all|
    && (forall g :: 0 <= g < |sizes| ==> |s.all[g].ops| == sizes[g])
    && (forall g :: s.depth <= g < |s.all| ==> Finished(s.all[g]))
    && (forall g :: 0 <= g < s.depth - 1 ==> Untouched(s.all[g]))
    && (s.err <==> AnyGroupFailed(s.all, s.depth))
    && (s.active <==> s.depth > 0)
    && (s.active ==> InProgress(s.all[s.depth - 1], s.starting)
                     && s.started == StartsDownTo(sizes, s.depth) + GroupStarts(s.depth - 1, s.starting))
    && (!s.active ==> s.started == StartsDownTo(sizes, 0))
  }

  // ----- counting lemmas

  lemma {:induction false} SignalsUpdate(ops: seq<Phase>, i: nat, p: Phase)
    requires i < |ops|
    ensures Signals(ops[i := p]) + (if ops[i].Signaled? then 1 else 0) == Signals(ops) + (if p.Signaled? then 1 else 0)
    ensures GroupLeft(ops[i := p]) + Left(ops[i]) == GroupLeft(ops) + Left(p)
  {
    var l := |ops| - 1;
    if i < l {
      SignalsUpdate(ops[..l], i, p);
      assert ops[i := p][..l] == ops[..l][i := p];
    } else {
      assert ops[i := p][..l] == ops[..l];
    }
  }

  lemma {:induction false} SignalsAll(ops: seq<Phase>)
    ensures Signals(ops) <= |ops|
    ensures Signals(ops) == |ops| <==> forall i :: 0 <= i < |ops| ==> ops[i].Signaled?
    ensures (forall i :: 0 <= i < |ops| ==> ops[i].NotStarted?) ==> Signals(ops) == 0 && GroupLeft(ops) == 3 * |ops|
    ensures GroupLeft(ops) == 0 <==> forall i :: 0 <= i < |ops| ==> ops[i].Signaled?
  {
    if ops != [] { SignalsAll(ops[..|ops| - 1]); }
  }

  lemma {:induction false} AllLeftUpdate(all: seq<Group>, g: nat, grp: Group)
    requires g < |all|
    ensures AllLeft(all[g := grp]) + GroupLeft(all[g].ops) == AllLeft(all) + GroupLeft(grp.ops)
  {
    var l := |all| - 1;
    if g < l {
      AllLeftUpdate(all[..l], g, grp);
      assert all[g := grp][..l] == all[..l][g := grp];
    } else {
      assert all[g := grp][..l] == all[..l];
    }
  }

  lemma {:induction false} AllLeftZero(all: seq<Group>)
    ensures AllLeft(all) == 0 <==> forall g :: 0 <= g < |all| ==> Finished(all[g])
  {
    if all != [] {
      AllLeftZero(all[..|all| - 1]);
      SignalsAll(all[|all| - 1].ops);
    }
  }

  lemma {:induction false} AllLeftInit(all: seq<Group>, sizes: seq<nat>)
    requires |all| == |sizes|
    requires forall g :: 0 <= g < |all| ==> Untouched(all[g]) && |all[g].ops| == sizes[g]
    ensures AllLeft(all) == 3 * Total(sizes)
  {
    if all != [] {
      AllLeftInit(all[..|all| - 1], sizes[..|all| - 1]);
      SignalsAll(all[|all| - 1].ops);
    }
  }

  lemma {:induction false} SkipEmpty(sizes: seq<nat>, d: nat, e: nat)
    requires d <= e <= |sizes| && forall g :: d <= g < e ==> sizes[g] == 0
    ensures StartsDownTo(sizes, d) == StartsDownTo(sizes, e)
    decreases e - d
  {
    if d < e { SkipEmpty(sizes, d + 1, e); }
  }

  // ----- every step keeps the invariant

  lemma {:induction false} EmptyTotal(sizes: seq<nat>)
    ensures Total(sizes) == 0 <==> forall g :: 0 <= g < |sizes| ==> sizes[g] == 0
  {
    if sizes != [] { EmptyTotal(sizes[..|sizes| - 1]); }
  }

  lemma {:induction false} UntouchedInProgress(g: Group)
    requires Untouched(g) && g.ops != []
    ensures InProgress(g, 0)
  {
    SignalsAll(g.ops);
  }

  lemma {:induction false} InitIsUntouched(sizes: seq<nat>)
    ensures var all := Init(sizes).all;
      |all| == |sizes| && (forall g :: 0 <= g < |sizes| ==> Untouched(all[g]) && |all[g].ops| == sizes[g])
      && !AnyGroupFailed(all, 0)
  {
    var all := Init(sizes).all;
    assert forall g :: 0 <= g < |sizes| ==> all[g] == FreshGroup(sizes[g]);
  }

  /** The stack rests, or stands before the first op of its top group. */
  lemma {:induction false} FreshTop(s: Stack, sizes: seq<nat>)
    requires |s.all| == |sizes| && s.depth <= |s.all| && s.starting == 0 && (s.active <==> s.depth > 0)
    requires forall g :: 0 <= g < |sizes| ==> |s.all[g].ops| == sizes[g]
    requires forall g :: s.depth <= g < |s.all| ==> Finished(s.all[g])
    requires forall g :: 0 <= g < s.depth ==> Untouched(s.all[g])
    requires s.depth > 0 ==> s.all[s.depth - 1].ops != []
    requires s.err <==> AnyGroupFailed(s.all, s.depth)
    requires s.started == StartsDownTo(sizes, s.depth)
    ensures Inv(s, sizes)
  {
    if s.active {
      UntouchedInProgress(s.all[s.depth - 1]);
      assert GroupStarts(s.depth - 1, 0) == [];
    }
  }

  lemma {:induction false} InitiateKeeps(sizes: seq<nat>)
    ensures Inv(Initiate(Init(sizes)), sizes)
    ensures AllLeft(Initiate(Init(sizes)).all) == 3 * Total(sizes)
    ensures Initiate(Init(sizes)).active <==> Total(sizes) > 0
  {
    var s := Initiate(Init(sizes));
    InitIsUntouched(sizes);
    AllLeftInit(s.all, sizes);
    SkipEmpty(sizes, s.depth, |sizes|);
    EmptyTotal(sizes);
    NoneFailed(s.all, s.depth);
    FreshTop(s, sizes);
  }

  lemma {:induction false} NoneFailed(all: seq<Group>, d: nat)
    requires !AnyGroupFailed(all, 0)
    ensures !AnyGroupFailed(all, d)
  {
  }

  /** Only the running group changes. */
  lemma {:induction false} TopKeeps(s: Stack, t: Stack, sizes: seq<nat>, top: Group)
    requires Inv(s, sizes) && s.active && |top.ops| == |s.all[s.depth - 1].ops| && InProgress(top, t.starting)
    requires t == WithTop(s, top).(starting := t.starting, started := t.started)
    requires t.started == StartsDownTo(sizes, s.depth) + GroupStarts(s.depth - 1, t.starting)
    ensures Inv(t, sizes)
  {
    assert forall g :: s.depth <= g < |s.all| ==> t.all[g] == s.all[g];
    assert AnyGroupFailed(t.all, s.depth) <==> AnyGroupFailed(s.all, s.depth);
  }

  lemma {:induction false} StartsGroup(g: Group, starting: nat)
    requires InProgress(g, starting) && starting < |g.ops|
    ensures InProgress(GroupStart(g, starting), starting + 1)
    ensures GroupLeft(GroupStart(g, starting).ops) == GroupLeft(g.ops) - 1
  {
    SignalsUpdate(g.ops, starting, Running);
    var ops, ops' := g.ops, g.ops[starting := Running];
    if i :| 0 <= i < |ops| && (ops[i].Reported? || ops[i].Signaled?) && ops[i].failed { assert ops'[i] == ops[i]; }
  }

  lemma {:induction false} ReportsGroup(g: Group, starting: nat, i: nat, failed: bool)
    requires InProgress(g, starting) && i < |g.ops| && g.ops[i].Running?
    ensures InProgress(GroupReport(g, i, failed), starting)
    ensures GroupLeft(GroupReport(g, i, failed).ops) == GroupLeft(g.ops) - 1
  {
    SignalsUpdate(g.ops, i, Reported(failed));
    var ops, ops' := g.ops, g.ops[i := Reported(failed)];
    if failed { assert ops'[i].failed; }
    if j :| 0 <= j < |ops| && (ops[j].Reported? || ops[j].Signaled?) && ops[j].failed { assert ops'[j] == ops[j]; }
  }

  lemma {:induction false} OneMoreStart(before: seq<(nat, nat)>, g: nat, n: nat)
    ensures before + GroupStarts(g, n) + [(g, n)] == before + GroupStarts(g, n + 1)
  {
    assert GroupStarts(g, n + 1) == GroupStarts(g, n) + [(g, n)];
  }

  lemma {:induction false} StartKeeps(s: Stack, sizes: seq<nat>)
    requires Inv(s, sizes) && Enabled(s, Start)
    ensures Inv(Step(s, Start), sizes) && AllLeft(Step(s, Start).all) == AllLeft(s.all) - 1
  {
    var d, t := s.depth - 1, Step(s, Start);
    var top := GroupStart(s.all[d], s.starting);
    StartsGroup(s.all[d], s.starting);
    AllLeftUpdate(s.all, d, top);
    OneMoreStart(StartsDownTo(sizes, s.depth), d, s.starting);
    TopKeeps(s, t, sizes, top);
  }

  lemma {:induction false} ReportKeeps(s: Stack, sizes: seq<nat>, i: nat, failed: bool)
    requires Inv(s, sizes) && Enabled(s, Report(i, failed))
    ensures var ev := Report(i, failed);
      Inv(Step(s, ev), sizes) && AllLeft(Step(s, ev).all) == AllLeft(s.all) - 1
  {
    var d, t := s.depth - 1, Step(s, Report(i, failed));
    ReportsGroup(s.all[d], s.starting, i, failed);
    AllLeftUpdate(s.all, d, t.all[d]);
    TopKeeps(s, t, sizes, t.all[d]);
  }

  lemma {:induction false} SignalKeepsFailed(ops: seq<Phase>, i: nat)
    requires i < |ops| && ops[i].Reported?
    ensures AnyFailed(ops[i := Signaled(ops[i].failed)]) <==> AnyFailed(ops)
  {
    var ops' := ops[i := Signaled(ops[i].failed)];
    if j :| 0 <= j < |ops| && (ops[j].Reported? || ops[j].Signaled?) && ops[j].failed { assert ops'[j].failed; }
    if j :| 0 <= j < |ops| && (ops'[j].Reported? || ops'[j].Signaled?) && ops'[j].failed { assert ops[j].failed; }
  }

  /** The last op to signal finds every op of its group started and signalled. */
  lemma {:induction false} LastSignal(g: Group, starting: nat, i: nat)
    requires InProgress(g, starting) && i < |g.ops| && g.ops[i].Reported? && g.n == |g.ops|
    ensures Finished(GroupSignal(g, i)) && starting == |g.ops|
  {
    SignalsUpdate(g.ops, i, Signaled(g.ops[i].failed));
    SignalsAll(GroupSignal(g, i).ops);
  }

  lemma {:induction false} GroupDoneKeeps(s: Stack, t: Stack, sizes: seq<nat>)
    requires 0 < s.depth <= |s.all| == |sizes| && t == GroupDone(s)
    requires forall g :: 0 <= g < |sizes| ==> |s.all[g].ops| == sizes[g]
    requires forall g :: s.depth - 1 <= g < |s.all| ==> Finished(s.all[g])
    requires forall g :: 0 <= g < s.depth - 1 ==> Untouched(s.all[g])
    requires s.err <==> AnyGroupFailed(s.all, s.depth)
    requires s.all[s.depth - 1].err <==> AnyFailed(s.all[s.depth - 1].ops)
    requires s.started == StartsDownTo(sizes, s.depth - 1)
    ensures Inv(t, sizes)
  {
    SkipEmpty(sizes, t.depth, s.depth - 1);
    FailedDown(s.all, s.depth);
    EmptyDoNotFail(s.all, t.depth, s.depth - 1);
    FreshTop(t, sizes);
  }

  lemma {:induction false} FailedDown(all: seq<Group>, d: nat)
    requires 0 < d <= |all|
    ensures AnyGroupFailed(all, d - 1) <==> AnyGroupFailed(all, d) || AnyFailed(all[d - 1].ops)
  {
  }

  lemma {:induction false} EmptyDoNotFail(all: seq<Group>, d: nat, e: nat)
    requires d <= e <= |all| && forall g :: d <= g < e ==> all[g].ops == []
    ensures AnyGroupFailed(all, d) <==> AnyGroupFailed(all, e)
  {
  }

  /** Signalling changes neither the outcome of the group nor that of the groups below and above. */
  lemma {:induction false} SignalTop(s: Stack, sizes: seq<nat>, i: nat)
    requires Inv(s, sizes) && Enabled(s, Signal(i))
    ensures var top := s.all[s.depth - 1]; var top' := GroupSignal(top, i); var m := WithTop(s, top');
      && AllLeft(m.all) == AllLeft(s.all) - 1
      && (AnyFailed(top'.ops) <==> AnyFailed(top.ops))
      && (AnyGroupFailed(m.all, s.depth) <==> AnyGroupFailed(s.all, s.depth))
      && top'.n == 1 + Signals(top'.ops)
  {
    var top := s.all[s.depth - 1];
    SignalsUpdate(top.ops, i, Signaled(top.ops[i].failed));
    SignalKeepsFailed(top.ops, i);
    AllLeftUpdate(s.all, s.depth - 1, GroupSignal(top, i));
    assert forall g :: s.depth <= g < |s.all| ==> WithTop(s, GroupSignal(top, i)).all[g] == s.all[g];
  }

  lemma {:induction false} SignalsGroup(g: Group, starting: nat, i: nat)
    requires InProgress(g, starting) && i < |g.ops| && g.ops[i].Reported? && g.n != |g.ops|
    ensures InProgress(GroupSignal(g, i), starting)
  {
    SignalsUpdate(g.ops, i, Signaled(g.ops[i].failed));
    SignalKeepsFailed(g.ops, i);
  }

  lemma {:induction false} MiddleSignalKeeps(s: Stack, sizes: seq<nat>, i: nat)
    requires Inv(s, sizes) && Enabled(s, Signal(i)) && s.all[s.depth - 1].n != |s.all[s.depth - 1].ops|
    ensures Inv(Step(s, Signal(i)), sizes)
  {
    var top := s.all[s.depth - 1];
    SignalsGroup(top, s.starting, i);
    TopKeeps(s, Step(s, Signal(i)), sizes, GroupSignal(top, i));
  }

  /** What the stack looks like once its running group is over. */
  lemma {:induction false} TopFinished(s: Stack, sizes: seq<nat>, top: Group)
    requires Inv(s, sizes) && s.active && |top.ops| == |s.all[s.depth - 1].ops| == s.starting && Finished(top)
    ensures var all := s.all[s.depth - 1 := top];
      && (forall g :: 0 <= g < |sizes| ==> |all[g].ops| == sizes[g])
      && (forall g :: s.depth - 1 <= g < |all| ==> Finished(all[g]))
      && (forall g :: 0 <= g < s.depth - 1 ==> Untouched(all[g]))
      && s.started == StartsDownTo(sizes, s.depth - 1)
  {
  }

  lemma {:induction false} LastSignalKeeps(s: Stack, sizes: seq<nat>, i: nat)
    requires Inv(s, sizes) && Enabled(s, Signal(i)) && s.all[s.depth - 1].n == |s.all[s.depth - 1].ops|
    ensures Inv(Step(s, Signal(i)), sizes)
  {
    SignalTop(s, sizes, i);
    var top := s.all[s.depth - 1];
    var top' := GroupSignal(top, i);
    LastSignal(top, s.starting, i);
    TopFinished(s, sizes, top');
    GroupDoneKeeps(WithTop(s, top'), Step(s, Signal(i)), sizes);
  }

  lemma {:induction false} SignalKeeps(s: Stack, sizes: seq<nat>, i: nat)
    requires Inv(s, sizes) && Enabled(s, Signal(i))
    ensures Inv(Step(s, Signal(i)), sizes) && AllLeft(Step(s, Signal(i)).all) == AllLeft(s.all) - 1
    ensures Step(s, Signal(i)).fired == s.fired + (if Step(s, Signal(i)).active then 0 else 1)
  {
    SignalTop(s, sizes, i);
    if s.all[s.depth - 1].n == |s.all[s.depth - 1].ops| {
      LastSignalKeeps(s, sizes, i);
    } else {
      MiddleSignalKeeps(s, sizes, i);
    }
  }

  // ----- runs

  ghost predicate Run(s: Stack, evs: seq<Event>, t: Stack)
    decreases |evs|
  {
    if evs == [] then t == s else Enabled(s, evs[0]) && Run(Step(s, evs[0]), evs[1..], t)
  }

  lemma {:induction false} RunKeeps(s: Stack, sizes: seq<nat>, evs: seq<Event>, t: Stack)
    requires Inv(s, sizes) && Run(s, evs, t)
    ensures Inv(t, sizes) && AllLeft(t.all) == AllLeft(s.all) - |evs|
    ensures t.fired == s.fired + (if s.active && !t.active then 1 else 0)
    decreases |evs|
  {
    if evs != [] {
      match evs[0] {
        case Start => StartKeeps(s, sizes);
        case Report(i, failed) => ReportKeeps(s, sizes, i, failed);
        case Signal(i) => SignalKeeps(s, sizes, i);
      }
      RunKeeps(Step(s, evs[0]), sizes, evs[1..], t);
    }
  }
}
