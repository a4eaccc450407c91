/** What holds of every run of `res_pool`. */
module PoolTheorems {
  import opened Sequences
  import opened PoolSpec
  import opened PoolRuns

  ghost predicate Run(s: Sys, evs: seq<Event>, t: Sys)
    requires Inv(s)
    decreases |evs|
  {
    if evs == [] then t == s
    else Enabled(s, evs[0]) && (StepKeeps(s, evs[0]); Run(Step(s, evs[0]), evs[1..], t))
  }

  lemma {:induction false} RunKeeps(s: Sys, evs: seq<Event>, t: Sys)
    requires Inv(s) && Run(s, evs, t)
    ensures Inv(t)
    decreases |evs|
  {
    if evs != [] {
      StepKeeps(s, evs[0]);
      RunKeeps(Step(s, evs[0]), evs[1..], t);
    }
  }

  // ----- ownership

  /** The destructor of a valid reference, or of a result nobody took yet, would recycle `x`. */
  predicate Holds(s: Sys, h: Place, x: nat) {
    match h
    case InRef(r) => r in s.refs && s.refs[r] == x
    case InOp(id) => id < |s.ops| && s.ops[id].Holding() && s.ops[id].res == x
    case Idle => false
    case Cleared => false
  }

  lemma {:induction false} OnlyHolder(s: Sys, h: Place, x: nat)
    requires Inv(s) && Holds(s, h, x)
    ensures x < |s.place| && h == s.place[x] && x in s.pool.inuse
  {
  }

  lemma {:induction false} Disjoint(s: Sys)
    requires Inv(s)
    ensures Distinct(s.pool.unused + s.pool.inuse)
  {
    forall i, j | 0 <= i < |s.pool.unused| && 0 <= j < |s.pool.inuse| ensures s.pool.unused[i] != s.pool.inuse[j] {
      assert s.place[s.pool.unused[i]].Idle? && s.place[s.pool.inuse[j]].Held();
    }
  }

  /** Ownership: no resource is listed twice, the capacity is respected, and the resources in use are exactly
      those with a holder, of which there is never a second. */
  lemma {:induction false} Ownership(cap: nat, evs: seq<Event>, s: Sys)
    requires cap > 0 && Run(Init(cap), evs, s)
    ensures Distinct(s.pool.unused + s.pool.inuse) && |s.pool.unused| + |s.pool.inuse| <= s.pool.cap
    ensures forall h: Place, x: nat :: Holds(s, h, x) ==> x in s.pool.inuse
    ensures forall x :: x in s.pool.inuse ==> exists h :: Holds(s, h, x)
    ensures forall h, h', x: nat :: Holds(s, h, x) && Holds(s, h', x) ==> h == h'
  {
    RunKeeps(Init(cap), evs, s);
    Disjoint(s);
    forall h: Place, x: nat | Holds(s, h, x) ensures x in s.pool.inuse { OnlyHolder(s, h, x); }
    forall x | x in s.pool.inuse ensures exists h :: Holds(s, h, x) { assert Holds(s, s.place[x], x); }
    forall h, h', x: nat | Holds(s, h, x) && Holds(s, h', x) ensures h == h' {
      OnlyHolder(s, h, x);
      OnlyHolder(s, h', x);
    }
  }

  // ----- waiting ops

  /** Results stand: a waiting op may become anything, after that it keeps its resource or its failure. */
  predicate Follows(a: Acq, b: Acq) {
    match a
    case Waiting => true
    case Given(res) => b == a || b == Has(res) || b == Spent
    case Has(_) => b == a || b == Spent
    case Spent => b == a
    case Cancelled => b == a
  }

  /** The only waiting op that `recycle` touches is the oldest. */
  lemma {:induction false} GiveBackTakesOldest(s: Sys, res: nat, id: nat)
    requires LetGo(s, res) && id < |s.ops|
    ensures var t := GiveBack(s, res);
      && |t.ops| == |s.ops|
      && t.ops[id] == if s.pool.waiters != [] && s.pool.waiters[0] == id then Given(res) else s.ops[id]
  {
  }

  lemma {:induction false} DropRefTakesOldest(s: Sys, r: nat, id: nat)
    requires Inv(s) && r in s.refs && id < |s.ops|
    ensures var t := DropRef(s, r);
      && |t.ops| == |s.ops|
      && t.ops[id] == if s.pool.waiters != [] && s.pool.waiters[0] == id then Given(s.refs[r]) else s.ops[id]
  {
    assert LetGo(s.(refs := s.refs - {r}), s.refs[r]);
    GiveBackTakesOldest(s.(refs := s.refs - {r}), s.refs[r], id);
  }

  lemma {:induction false} DropOpTakesOldest(s: Sys, i: nat, id: nat)
    requires Inv(s) && i < |s.ops| && s.ops[i].Has? && id < |s.ops|
    ensures var t := DropOp(s, i);
      && |t.ops| == |s.ops|
      && t.ops[id] == if id == i then Spent
                      else if s.pool.waiters != [] && s.pool.waiters[0] == id then Given(s.ops[i].res)
                      else s.ops[id]
  {
    var m := s.(ops := s.ops[i := Spent]);
    QueuedFrame(s.pool.waiters, s.ops, m.ops);
    assert LetGo(m, s.ops[i].res);
    GiveBackTakesOldest(m, s.ops[i].res, id);
  }

  /** What one event does to one op. */
  lemma {:induction false} StepOnOp(s: Sys, ev: Event, id: nat)
    requires Inv(s) && Enabled(s, ev) && id < |s.ops|
    ensures var t := Step(s, ev);
      && id < |t.ops| && Follows(s.ops[id], t.ops[id])
      && (s.ops[id].Waiting? && !t.ops[id].Waiting? && ev != CancelOp(id) ==>
            s.pool.waiters != [] && s.pool.waiters[0] == id && t.ops[id].Given?)
  {
    match ev
    case TryAcquire(_) =>
    case InitAcquire(_) =>
    case Complete(_) =>
    case TakeResult(_, _) =>
    case DropResult(i) => DropOpTakesOldest(s, i, id);
    case RecycleRef(r) => DropRefTakesOldest(s, r, id);
    case MoveConstruct(_, _) =>
    case MoveAssign(src, dst) =>
      if dst in s.refs { DropRefTakesOldest(s, dst, id); }
    case CancelOp(i) => var k := IndexOf(s.pool.waiters, i);
    case CreateAll =>
    case ClearUnused =>
    case SetCapacity(_) =>
  }

  /** Whatever an op got first stands for the rest of every run. */
  lemma {:induction false} OutcomeStands(s: Sys, evs: seq<Event>, t: Sys, id: nat)
    requires Inv(s) && Run(s, evs, t) && id < |s.ops|
    ensures id < |t.ops| && Follows(s.ops[id], t.ops[id])
    decreases |evs|
  {
    if evs != [] {
      StepKeeps(s, evs[0]);
      StepOnOp(s, evs[0], id);
      OutcomeStands(Step(s, evs[0]), evs[1..], t, id);
    }
  }

  /** First come, first served: no event but its own cancellation decides the later of two waiting ops and
      leaves the earlier one waiting. */
  lemma {:induction false} OldestFirst(s: Sys, ev: Event, a: nat, b: nat)
    requires Inv(s) && Enabled(s, ev) && a < b < |s.ops| && ev != CancelOp(b)
    requires s.ops[a].Waiting? && s.ops[b].Waiting?
    ensures b < |Step(s, ev).ops| && Step(s, ev).ops[b].Waiting?
  {
    StepOnOp(s, ev, b);
    var i, j := IndexOf(s.pool.waiters, a), IndexOf(s.pool.waiters, b);
    assert s.pool.waiters[i] == a && s.pool.waiters[j] == b;
  }

  /** A recycled resource goes straight to the oldest waiting op, and stays in use; if nobody waits it is
      unused again, and next in line. */
  lemma {:induction false} RecycledToOldest(s: Sys, r: nat, id: nat)
    requires Inv(s) && r in s.refs && id < |s.ops| && s.ops[id].Waiting?
    requires forall i :: 0 <= i < id ==> !s.ops[i].Waiting?
    ensures var t := Step(s, RecycleRef(r));
      t.ops == s.ops[id := Given(s.refs[r])] && t.pool == s.pool.(waiters := s.pool.waiters[1..])
  {
    assert s.pool.waiters[IndexOf(s.pool.waiters, id)] == id;
  }

  lemma {:induction false} RecycledToUnused(s: Sys, r: nat)
    requires Inv(s) && r in s.refs && forall i :: 0 <= i < |s.ops| ==> !s.ops[i].Waiting?
    ensures var t := Step(s, RecycleRef(r));
      t.ops == s.ops && t.pool.unused == [s.refs[r]] + s.pool.unused && s.refs[r] !in t.pool.inuse
  {
    StepKeeps(s, RecycleRef(r));
    var t := Step(s, RecycleRef(r));
    assert s.pool.waiters == [];
    assert t.place[s.refs[r]].Idle?;
  }

  // ----- capacity

  /** In every state of the run, somebody waits only while every resource the capacity allows is in use. */
  ghost predicate ExhaustedThroughout(s: Sys, evs: seq<Event>)
    requires Inv(s)
    decreases |evs|
  {
    && WaitsOnlyWhenExhausted(s.pool)
    && (evs == [] ||
        (Enabled(s, evs[0]) && (StepKeeps(s, evs[0]); ExhaustedThroughout(Step(s, evs[0]), evs[1..]))))
  }

  /** `set_capacity` would give another capacity although someone waits. */
  predicate Strands(p: Pool<nat>, n: nat) { p.waiters != [] && n != p.cap }

  /** Whenever the capacity is set in the run, nobody waits or nothing changes. */
  ghost predicate SetsInTime(s: Sys, evs: seq<Event>)
    requires Inv(s)
    decreases |evs|
  {
    evs == [] ||
    (Enabled(s, evs[0]) && (evs[0].SetCapacity? ==> !Strands(s.pool, evs[0].n)) &&
     (StepKeeps(s, evs[0]); SetsInTime(Step(s, evs[0]), evs[1..])))
  }

  /** Somebody waits only on an exhausted pool, throughout a run, exactly if no change of the capacity in it
      strands anyone. */
  lemma {:induction false} ExhaustedIff(s: Sys, evs: seq<Event>, t: Sys)
    requires Inv(s) && WaitsOnlyWhenExhausted(s.pool) && Run(s, evs, t)
    ensures ExhaustedThroughout(s, evs) <==> SetsInTime(s, evs)
    ensures ExhaustedThroughout(s, evs) ==> WaitsOnlyWhenExhausted(t.pool)
    decreases |evs|
  {
    if evs != [] {
      StepKeeps(s, evs[0]);
      ExhaustedStep(s, evs[0]);
      if WaitsOnlyWhenExhausted(Step(s, evs[0]).pool) { ExhaustedIff(Step(s, evs[0]), evs[1..], t); }
    }
  }

  lemma {:induction false} ExhaustedStep(s: Sys, ev: Event)
    requires Inv(s) && WaitsOnlyWhenExhausted(s.pool) && Enabled(s, ev)
    ensures WaitsOnlyWhenExhausted(Step(s, ev).pool) <==> !(ev.SetCapacity? && Strands(s.pool, ev.n))
  {
    if ev.MoveAssign? && ev.dst in s.refs { DropRefKeeps(s, ev.dst); }
  }

  /** A new op gets a resource ahead of those that wait exactly when one is unused or may be created. Those that
      wait go on waiting. */
  lemma {:induction false} OvertakesIff(s: Sys)
    requires Inv(s) && s.pool.waiters != []
    ensures var t := Step(s, InitAcquire(false));
      && |t.ops| == |s.ops| + 1 && s.pool.waiters <= t.pool.waiters
      && (t.ops[|s.ops|].Has? <==> !(s.pool.unused == [] && |s.pool.inuse| >= s.pool.cap))
  {
    StepKeeps(s, InitAcquire(false));
  }

  /** So, when the capacity is set, the next op overtakes exactly if that strands someone. */
  lemma {:induction false} SettingOvertakesIff(s: Sys, n: nat)
    requires Inv(s) && WaitsOnlyWhenExhausted(s.pool) && Enabled(s, SetCapacity(n))
    ensures Inv(Step(s, SetCapacity(n)))
    ensures var t := Step(Step(s, SetCapacity(n)), InitAcquire(false));
      && |t.ops| == |s.ops| + 1
      && (s.pool.waiters != [] && s.pool.waiters <= t.pool.waiters && t.ops[|s.ops|].Has? <==> Strands(s.pool, n))
  {
    StepKeeps(s, SetCapacity(n));
    var m := Step(s, SetCapacity(n));
    StepKeeps(m, InitAcquire(false));
    if s.pool.waiters != [] { OvertakesIff(m); }
  }

  /** In a run where no change of the capacity strands anyone, nobody overtakes. */
  lemma {:induction false} NobodyOvertakes(cap: nat, evs: seq<Event>, s: Sys)
    requires cap > 0 && Run(Init(cap), evs, s) && SetsInTime(Init(cap), evs)
    ensures Inv(s)
    ensures var t := Step(s, InitAcquire(false));
      |t.ops| == |s.ops| + 1 && (t.ops[|s.ops|].Has? ==> s.pool.waiters == [])
  {
    RunKeeps(Init(cap), evs, s);
    ExhaustedIff(Init(cap), evs, s);
    StepKeeps(s, InitAcquire(false));
    if s.pool.waiters != [] { OvertakesIff(s); }
  }

  lemma {:induction false} RunSnoc(s: Sys, evs: seq<Event>, m: Sys, ev: Event)
    requires Inv(s) && Run(s, evs, m)
    ensures Inv(m)
    ensures Enabled(m, ev) ==> Run(s, evs + [ev], Step(m, ev))
    decreases |evs|
  {
    if evs == [] {
      assert [] + [ev] == [ev];
      if Enabled(m, ev) {
        StepKeeps(m, ev);
        assert Run(Step(m, ev), [], Step(m, ev));
      }
    } else {
      StepKeeps(s, evs[0]);
      RunSnoc(Step(s, evs[0]), evs[1..], m, ev);
      assert (evs + [ev])[1..] == evs[1..] + [ev];
    }
  }

  /** An op that gets a new resource, one that has to wait, and a change of the capacity, as ends of a run. */
  lemma {:induction false} GetsNew(start: Sys, evs: seq<Event>, s: Sys) returns (t: Sys)
    requires Inv(start) && Run(start, evs, s) && s.pool.unused == [] && |s.pool.inuse| < s.pool.cap
    ensures Run(start, evs + [InitAcquire(false)], t)
    ensures t.pool == s.pool.(inuse := [s.pool.created] + s.pool.inuse, created := s.pool.created + 1)
    ensures t.ops == s.ops + [Has(s.pool.created)] && t.refs == s.refs
  {
    RunSnoc(start, evs, s, InitAcquire(false));
    t := Step(s, InitAcquire(false));
  }

  lemma {:induction false} HasToWait(start: Sys, evs: seq<Event>, s: Sys) returns (t: Sys)
    requires Inv(start) && Run(start, evs, s) && s.pool.unused == [] && |s.pool.inuse| >= s.pool.cap
    ensures Run(start, evs + [InitAcquire(false)], t) && t == Wait(s)
  {
    RunSnoc(start, evs, s, InitAcquire(false));
    t := Step(s, InitAcquire(false));
  }

  lemma {:induction false} IsSet(start: Sys, evs: seq<Event>, s: Sys, n: nat) returns (t: Sys)
    requires Inv(start) && Run(start, evs, s) && n >= |s.pool.unused| + |s.pool.inuse|
    ensures Run(start, evs + [SetCapacity(n)], t) && t == s.(pool := s.pool.(cap := n))
  {
    RunSnoc(start, evs, s, SetCapacity(n));
    t := Step(s, SetCapacity(n));
  }

  /** One op holds the only resource, and one waits for it. */
  lemma {:induction false} OneWaits() returns (evs: seq<Event>, s: Sys)
    ensures Run(Init(1), evs, s) && s.pool.cap == |s.pool.inuse| == 1 && s.pool.unused == []
    ensures s.ops == [Has(0), Waiting]
  {
    var s0 := Init(1);
    assert Run(s0, [], s0);
    s := GetsNew(s0, [], s0);
    evs := [] + [InitAcquire(false)];
    s := HasToWait(s0, evs, s);
    evs := evs + [InitAcquire(false)];
  }

  /** A run that strands a waiting op: the capacity grows, and the next op gets a resource at once. */
  lemma {:induction false} StrandedAcquirer() returns (evs: seq<Event>, s: Sys, t: Sys)
    ensures Run(Init(1), evs, s) && |s.ops| == 2 && s.ops[1].Waiting? && |s.pool.inuse| < s.pool.cap
    ensures Run(Init(1), evs + [InitAcquire(false)], t)
    ensures |t.ops| == 3 && t.ops[1].Waiting? && t.ops[2].Has?
  {
    evs, s := OneWaits();
    s := IsSet(Init(1), evs, s, 2);
    evs := evs + [SetCapacity(2)];
    t := GetsNew(Init(1), evs, s);
  }

  /** With a capacity of 0, which `set_capacity` accepts for an empty pool, an op waits although nothing is held
      that could come back. */
  lemma {:induction false} ZeroCapacityStrands() returns (s: Sys)
    ensures Run(Init(1), [] + [SetCapacity(0)] + [InitAcquire(false)], s)
    ensures s.pool == Pool(0, [], [], 0, [0]) && s.ops == [Waiting] && s.refs == map[]
  {
    var s0 := Init(1);
    assert Run(s0, [], s0);
    s := IsSet(s0, [], s0, 0);
    s := HasToWait(s0, [] + [SetCapacity(0)], s);
  }

  lemma {:induction false} HeldBy(s: Sys, k: nat)
    requires Inv(s) && k < |s.pool.inuse|
    ensures var x := s.pool.inuse[k]; x < |s.place| && Holds(s, s.place[x], x)
  {
  }

  lemma {:induction false} NothingHeld(s: Sys)
    requires Inv(s) && s.refs == map[] && forall id :: 0 <= id < |s.ops| ==> !s.ops[id].Holding()
    ensures s.pool.inuse == []
  {
    if s.pool.inuse != [] { HeldBy(s, 0); }
  }

  /** Nobody waits for nothing: in a run where no change of the capacity strands anyone, somebody holds a resource
      as long as anyone waits, unless the capacity is 0. So once every reference and every result is gone the
      destructor's assertions hold. */
  lemma {:induction false} AllReturned(cap: nat, evs: seq<Event>, s: Sys)
    requires cap > 0 && Run(Init(cap), evs, s) && SetsInTime(Init(cap), evs)
    requires s.refs == map[] && forall id :: 0 <= id < |s.ops| ==> !s.ops[id].Holding()
    ensures s.pool.inuse == []
    ensures s.pool.cap > 0 ==> s.pool.waiters == [] && forall id :: 0 <= id < |s.ops| ==> !s.ops[id].Waiting?
  {
    RunKeeps(Init(cap), evs, s);
    ExhaustedIff(Init(cap), evs, s);
    NothingHeld(s);
  }

  /** A resource that `clear_unused` destroyed is never handed out again. */
  lemma {:induction false} ClearedForGood(s: Sys, evs: seq<Event>, t: Sys, x: nat)
    requires Inv(s) && Run(s, evs, t) && x < |s.place| && s.place[x].Cleared?
    ensures Inv(t) && x < |t.place| && t.place[x].Cleared?
    ensures x !in t.pool.unused && x !in t.pool.inuse
    decreases |evs|
  {
    if evs != [] {
      StepKeeps(s, evs[0]);
      ClearedStep(s, evs[0], x);
      ClearedForGood(Step(s, evs[0]), evs[1..], t, x);
    }
  }

  lemma {:induction false} ClearedAssign(s: Sys, src: nat, dst: nat, x: nat)
    requires Inv(s) && x < |s.place| && s.place[x].Cleared?
    ensures x < |Assign(s, src, dst).place| && Assign(s, src, dst).place[x].Cleared?
  {
    if dst in s.refs { DropRefKeeps(s, dst); }
  }

  lemma {:induction false} ClearedStep(s: Sys, ev: Event, x: nat)
    requires Inv(s) && Enabled(s, ev) && x < |s.place| && s.place[x].Cleared?
    ensures x < |Step(s, ev).place| && Step(s, ev).place[x].Cleared?
  {
    match ev
    case TryAcquire(r) => if AcquireStep(s.pool).1.Some? { AcquireStock(s.pool, s.place, InRef(r)); }
    case InitAcquire(_) => if AcquireStep(s.pool).1.Some? { AcquireStock(s.pool, s.place, InRef(0)); }
    case Complete(_) =>
    case TakeResult(_, _) =>
    case DropResult(_) =>
    case RecycleRef(_) =>
    case MoveConstruct(_, _) =>
    case MoveAssign(src, dst) => ClearedAssign(s, src, dst, x);
    case CancelOp(_) =>
    case CreateAll =>
    case ClearUnused =>
    case SetCapacity(_) =>
  }
}
