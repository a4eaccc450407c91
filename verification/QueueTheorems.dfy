/** What holds of every run of `res_queue`, for any number of threads and any interleaving. */
module QueueTheorems {
  import opened Base
  import opened Sequences
  import opened QueueSpec
  import opened QueueRuns

  ghost predicate Run<T>(s: Sys<T>, evs: seq<Event<T>>, t: Sys<T>)
    requires Inv(s)
    decreases |evs|
  {
    if evs == [] then t == s
    else Enabled(s, evs[0]) && (StepKeeps(s, evs[0]); Run(Step(s, evs[0]), evs[1..], t))
  }

  function Init<T>(cap: nat): Sys<T> { Sys(Queue(cap, false, [], [], []), [], [], [], []) }

  function Values<T>(log: seq<(Party, T)>): seq<T> {
    seq(|log|, j requires 0 <= j < |log| => log[j].1)
  }

  lemma {:induction false} RunKeeps<T>(s: Sys<T>, evs: seq<Event<T>>, t: Sys<T>)
    requires Inv(s) && Run(s, evs, t)
    ensures Inv(t)
    decreases |evs|
  {
    if evs != [] {
      StepKeeps(s, evs[0]);
      RunKeeps(Step(s, evs[0]), evs[1..], t);
    }
  }

  /** Nothing is lost, duplicated or reordered: the items admitted, in order, are the items handed out
      followed by the items queued. */
  lemma {:induction false} Conservation<T>(cap: nat, evs: seq<Event<T>>, s: Sys<T>)
    requires cap > 0 && Run(Init(cap), evs, s)
    ensures Values(s.ins) == Values(s.outs) + s.q.items
  {
    RunKeeps(Init(cap), evs, s);
  }

  /** The log says of every op what its result says: an enqueuer's item was admitted exactly once if the
      op succeeded and never otherwise, a successful dequeuer took exactly one item, and the result is set
      exactly once, or not yet. */
  lemma {:induction false} ExactlyOnce<T>(cap: nat, evs: seq<Event<T>>, s: Sys<T>, id: nat)
    requires cap > 0 && Run(Init(cap), evs, s) && id < |s.ops|
    ensures Count(s.ins, id) == if s.ops[id].Outcome() == Some(Accepted) then 1 else 0
    ensures Count(s.outs, id) == if s.ops[id].Outcome().Some? && s.ops[id].Outcome().value.Got? then 1 else 0
    ensures CountIds(s.results, id) == if s.ops[id].phase.Done? then 1 else 0
  {
    RunKeeps(Init(cap), evs, s);
    assert Accounted(s, id);
  }

  /** No stranded waiter: a dequeuer waits only on an empty queue whose end is not marked, an enqueuer only
      on a non-empty one, and both are still queued, so a later event can reach them. */
  lemma {:induction false} NoStrandedWaiter<T>(cap: nat, evs: seq<Event<T>>, s: Sys<T>, id: nat)
    requires cap > 0 && Run(Init(cap), evs, s) && id < |s.ops| && s.ops[id].phase.Waiting?
    ensures s.ops[id].kind.Deq? ==> id in s.q.deq && s.q.items == [] && !s.q.ended
    ensures s.ops[id].kind.Enq? ==> (id, s.ops[id].kind.v) in s.q.enq && s.q.items != []
  {
    RunKeeps(Init(cap), evs, s);
    if s.ops[id].kind.Deq? {
      assert s.q.deq[IndexOf(s.q.deq, id)] == id;
    } else {
      var k := EnqIndexOf(s.q.enq, id);
      assert s.q.enq[k] == (id, s.ops[id].kind.v);
    }
  }

  // ----- results never change

  /** An op keeps its kind, and once decided keeps its outcome; a set result stays set. */
  ghost predicate Persists<T>(s: Sys<T>, t: Sys<T>, id: nat) {
    && id < |s.ops| <= |t.ops|
    && t.ops[id].kind == s.ops[id].kind
    && (s.ops[id].Outcome().Some? ==> t.ops[id].Outcome() == s.ops[id].Outcome())
    && (s.ops[id].phase.Done? ==> t.ops[id].phase.Done?)
  }

  lemma {:induction false} ServePersists<T>(s: Sys<T>, id: nat)
    requires Core(s) && id < |s.ops|
    ensures Persists(s, Serve(s), id)
    decreases |s.q.deq|
  {
    if s.q.items != [] && s.q.deq != [] {
      HandOffKeeps(s);
      ServePersists(HandOff(s), id);
    }
  }

  lemma {:induction false} FillPersists<T>(s: Sys<T>, id: nat)
    requires Core(s) && id < |s.ops|
    ensures Persists(s, Fill(s), id)
    decreases |s.q.enq|
  {
    if s.q.enq != [] && |s.q.items| < s.q.cap {
      MoveInKeeps(s);
      FillPersists(MoveIn(s), id);
    }
  }

  lemma {:induction false} FailAllPersists<T>(s: Sys<T>, id: nat)
    requires Core(s) && id < |s.ops|
    ensures Persists(s, FailAll(s), id)
    decreases |s.q.deq|
  {
    if s.q.deq != [] {
      FailOldestKeeps(s);
      FailAllPersists(FailOldest(s), id);
    }
  }

  lemma {:induction false} AdmitAllPersists<T>(s: Sys<T>, vs: seq<T>)
    ensures AdmitAll(s, vs).ops == s.ops
    decreases |vs|
  {
    if vs != [] { AdmitAllPersists(Admit(s, vs[0]), vs[1..]); }
  }

  lemma {:induction false} TakeAllOutPersists<T>(s: Sys<T>, p: Party)
    ensures TakeAllOut(s, p).ops == s.ops
    decreases |s.q.items|
  {
    if s.q.items != [] { TakeAllOutPersists(TakeOut(s, p), p); }
  }

  lemma {:induction false} EnqPersists<T>(s: Sys<T>, ev: Event<T>, id: nat)
    requires Inv(s) && Enabled(s, ev) && id < |s.ops| && (ev.InitEnq? || ev.TryEnq?)
    ensures Persists(s, Step(s, ev), id)
  {
    if EnqueueStep(s.q, ev.v).1.Ok? {
      AdmitNewKeeps(s, ev.v);
      ServePersists(AdmitNew(s, ev.v), id);
      AdmitKeeps(s, ev.v);
      ServePersists(Admit(s, ev.v), id);
    }
  }

  lemma {:induction false} BulkPersists<T>(s: Sys<T>, ev: Event<T>, id: nat)
    requires Inv(s) && Enabled(s, ev) && id < |s.ops| && (ev.ForceEnq? || ev.ForceDeq? || ev.Clear? || ev.MarkEnd?)
    ensures Persists(s, Step(s, ev), id)
  {
    match ev
    case ForceEnq(vs) =>
      AdmitAllKeeps(s, vs);
      AdmitAllPersists(s, vs);
      ServePersists(AdmitAll(s, vs), id);
    case ForceDeq =>
      TakeAllOutKeeps(s, Sync);
      TakeAllOutPersists(s, Sync);
      FillPersists(TakeAllOut(s, Sync), id);
    case MarkEnd => FailAllPersists(s, id);
    case Clear => TakeAllOutPersists(s, Dropped);
  }

  lemma {:induction false} StepPersists<T>(s: Sys<T>, ev: Event<T>, id: nat)
    requires Inv(s) && Enabled(s, ev) && id < |s.ops|
    ensures Persists(s, Step(s, ev), id)
  {
    match ev
    case InitEnq(_, _) => EnqPersists(s, ev, id);
    case TryEnq(_) => EnqPersists(s, ev, id);
    case ForceEnq(_) => BulkPersists(s, ev, id);
    case ForceDeq => BulkPersists(s, ev, id);
    case Clear => BulkPersists(s, ev, id);
    case MarkEnd => BulkPersists(s, ev, id);
    case InitDeq(_) =>
    case TryDeq =>
    case Stop(i) => var e, d := EnqIndexOf(s.q.enq, i), IndexOf(s.q.deq, i);
    case Complete(_) =>
    case ClearEndMark =>
    case Grow(_) =>
  }

  /** Whatever decided an op first, its outcome stands for the rest of every run. */
  lemma {:induction false} OutcomeStands<T>(s: Sys<T>, evs: seq<Event<T>>, t: Sys<T>, id: nat)
    requires Inv(s) && Run(s, evs, t) && id < |s.ops|
    ensures Persists(s, t, id)
    decreases |evs|
  {
    if evs != [] {
      StepKeeps(s, evs[0]);
      StepPersists(s, evs[0], id);
      OutcomeStands(Step(s, evs[0]), evs[1..], t, id);
    }
  }

  // ----- capacity and fairness

  /** In every state of the run, an enqueuer waits only on a full queue. */
  ghost predicate FullThroughout<T>(s: Sys<T>, evs: seq<Event<T>>)
    requires Inv(s)
    decreases |evs|
  {
    && WaitsOnlyWhenFull(s.q)
    && (evs == [] || (Enabled(s, evs[0]) && (StepKeeps(s, evs[0]); FullThroughout(Step(s, evs[0]), evs[1..]))))
  }

  /** `increase_capacity` would leave room although someone waits. */
  predicate Strands<T>(q: Queue<nat, nat, T>, n: nat) { q.enq != [] && |q.items| < q.cap + n }

  /** Whenever the capacity grows in the run, nobody waits or the queue is full even so. */
  ghost predicate GrowsInTime<T>(s: Sys<T>, evs: seq<Event<T>>)
    requires Inv(s)
    decreases |evs|
  {
    evs == [] ||
    (Enabled(s, evs[0]) && (evs[0].Grow? ==> !Strands(s.q, evs[0].n)) &&
     (StepKeeps(s, evs[0]); GrowsInTime(Step(s, evs[0]), evs[1..])))
  }

  /** An enqueuer waits only on a full queue, throughout a run, exactly if no growth of the capacity in it
      strands anyone: nothing else ever does, and the first growth that strands someone ends it. */
  lemma {:induction false} FullIff<T>(s: Sys<T>, evs: seq<Event<T>>, t: Sys<T>)
    requires Inv(s) && WaitsOnlyWhenFull(s.q) && Run(s, evs, t)
    ensures FullThroughout(s, evs) <==> GrowsInTime(s, evs)
    ensures FullThroughout(s, evs) ==> WaitsOnlyWhenFull(t.q)
    decreases |evs|
  {
    if evs != [] {
      StepKeeps(s, evs[0]);
      FullStep(s.q, evs[0], |s.ops|);
      if WaitsOnlyWhenFull(Step(s, evs[0]).q) { FullIff(Step(s, evs[0]), evs[1..], t); }
    }
  }

  lemma {:induction false} FullStep<T>(q: Queue<nat, nat, T>, ev: Event<T>, n: nat)
    requires Joint(q) && WaitsOnlyWhenFull(q) && (ev.Clear? ==> q.enq == [])
    ensures WaitsOnlyWhenFull(QueueStep(q, ev, n)) <==> !(ev.Grow? && Strands(q, ev.n))
  {
  }

  /** A new enqueuer gets in ahead of those that wait exactly when the queue is open and has room. Those that
      wait go on waiting. */
  lemma {:induction false} OvertakesIff<T>(s: Sys<T>, v: T)
    requires Inv(s) && s.q.enq != []
    ensures var t := Step(s, InitEnq(v, false));
      && |s.ops| < |t.ops| && s.q.enq <= t.q.enq
      && (t.ops[|s.ops|].Outcome() == Some(Accepted) <==> !s.q.ended && |s.q.items| < s.q.cap)
  {
    StepKeeps(s, InitEnq(v, false));
    if EnqueueStep(s.q, v).1.Ok? {
      AdmitNewKeeps(s, v);
      ServePersists(AdmitNew(s, v), |s.ops|);
    }
  }

  /** So, when the capacity grows, the next enqueuer overtakes exactly if the growth strands someone on an open
      queue. */
  lemma {:induction false} GrowthOvertakesIff<T>(s: Sys<T>, n: nat, v: T)
    requires Inv(s) && WaitsOnlyWhenFull(s.q)
    ensures Inv(Step(s, Grow(n)))
    ensures var t := Step(Step(s, Grow(n)), InitEnq(v, false));
      && |s.ops| < |t.ops|
      && (s.q.enq != [] && s.q.enq <= t.q.enq && t.ops[|s.ops|].Outcome() == Some(Accepted) <==>
            Strands(s.q, n) && !s.q.ended)
  {
    StepKeeps(s, Grow(n));
    var t := Step(s, Grow(n));
    NewOpIsThere(t, v);
    if s.q.enq != [] { OvertakesIff(t, v); }
  }

  lemma {:induction false} NewOpIsThere<T>(s: Sys<T>, v: T)
    requires Inv(s)
    ensures |s.ops| < |Step(s, InitEnq(v, false)).ops|
  {
    if EnqueueStep(s.q, v).1.Ok? {
      AdmitNewKeeps(s, v);
      ServePersists(AdmitNew(s, v), |s.ops|);
    }
  }

  /** In a run where no growth strands anyone, nobody overtakes. */
  lemma {:induction false} NobodyOvertakes<T>(cap: nat, evs: seq<Event<T>>, s: Sys<T>, v: T)
    requires cap > 0 && Run(Init(cap), evs, s) && GrowsInTime(Init(cap), evs)
    ensures Inv(s)
    ensures var t := Step(s, InitEnq(v, false));
      |s.ops| < |t.ops| && (t.ops[|s.ops|].Outcome() == Some(Accepted) ==> s.q.enq == [])
  {
    RunKeeps(Init(cap), evs, s);
    FullIff(Init(cap), evs, s);
    NewOpIsThere(s, v);
    if s.q.enq != [] { OvertakesIff(s, v); }
  }

  lemma {:induction false} RunSnoc<T>(s: Sys<T>, evs: seq<Event<T>>, m: Sys<T>, ev: Event<T>)
    requires Inv(s) && Run(s, evs, m)
    ensures Inv(m)
    ensures Enabled(m, ev) ==> Run(s, evs + [ev], Step(m, ev))
    decreases |evs|
  {
    if evs == [] {
      assert [] + [ev] == [ev];
      if Enabled(m, ev) {
        StepKeeps(m, ev);
        assert Run(Step(m, ev), [], Step(m, ev));
      }
    } else {
      StepKeeps(s, evs[0]);
      RunSnoc(Step(s, evs[0]), evs[1..], m, ev);
      assert (evs + [ev])[1..] == evs[1..] + [ev];
    }
  }

  /** An enqueuer that gets in, one that has to wait, and a growth of the capacity, as ends of a run. */
  lemma {:induction false} GetsIn<T>(start: Sys<T>, evs: seq<Event<T>>, s: Sys<T>, v: T) returns (t: Sys<T>)
    requires Inv(start) && Run(start, evs, s) && !s.q.ended && |s.q.items| < s.q.cap && s.q.deq == []
    ensures Run(start, evs + [InitEnq(v, false)], t)
    ensures t.q == s.q.(items := s.q.items + [v]) && t.ops == s.ops + [Op(Enq(v), Decided(Accepted))]
  {
    RunSnoc(start, evs, s, InitEnq(v, false));
    t := AdmitNew(s, v);
  }

  lemma {:induction false} HasToWait<T>(start: Sys<T>, evs: seq<Event<T>>, s: Sys<T>, v: T) returns (t: Sys<T>)
    requires Inv(start) && Run(start, evs, s) && !s.q.ended && |s.q.items| >= s.q.cap
    ensures Run(start, evs + [InitEnq(v, false)], t)
    ensures t.q == s.q.(enq := s.q.enq + [(|s.ops|, v)]) && t.ops == s.ops + [Op(Enq(v), Waiting)]
  {
    RunSnoc(start, evs, s, InitEnq(v, false));
    t := NewEnqWaiter(s, v);
  }

  lemma {:induction false} Grows<T>(start: Sys<T>, evs: seq<Event<T>>, s: Sys<T>, n: nat) returns (t: Sys<T>)
    requires Inv(start) && Run(start, evs, s)
    ensures Run(start, evs + [Grow(n)], t) && t == s.(q := s.q.(cap := s.q.cap + n))
  {
    RunSnoc(start, evs, s, Grow(n));
    t := s.(q := s.q.(cap := s.q.cap + n));
  }

  /** One item fills the queue, and one waits. */
  lemma {:induction false} OneWaits(start: Sys<int>, v: int, w: int) returns (evs: seq<Event<int>>, s: Sys<int>)
    requires Inv(start) && start.q == Queue(1, false, [], [], []) && start.ops == []
    ensures Run(start, evs, s) && s.q == Queue(1, false, [v], [(1, w)], [])
    ensures s.ops == [Op(Enq(v), Decided(Accepted)), Op(Enq(w), Waiting)]
  {
    s := GetsIn(start, [], start, v);
    evs := [] + [InitEnq(v, false)];
    s := HasToWait(start, evs, s, w);
    evs := evs + [InitEnq(w, false)];
  }

  /** A run that strands an enqueuer: the queue is full, one waits, and the capacity grows. The next one to come
      is accepted at once. */
  lemma {:induction false} StrandedEnqueuer() returns (evs: seq<Event<int>>, s: Sys<int>, t: Sys<int>)
    ensures Run(Init(1), evs, s) && |s.ops| == 2 && s.ops[1].phase.Waiting? && |s.q.items| < s.q.cap
    ensures Run(Init(1), evs + [InitEnq(9, false)], t)
    ensures |t.ops| == 3 && t.ops[1].phase.Waiting? && t.ops[2].Outcome() == Some(Accepted)
  {
    evs, s := OneWaits(Init(1), 7, 8);
    s := Grows(Init(1), evs, s, 1);
    evs := evs + [Grow(1)];
    t := GetsIn(Init(1), evs, s, 9);
  }

  /** `b` is `a` with some of its front gone, or with something appended. */
  predicate Shifted<X(==)>(a: seq<X>, b: seq<X>) {
    if |b| >= |a| then a <= b else b == a[|a| - |b|..]
  }

  /** Waiters are taken from the front of their lists, whatever the event, unless it is a cancellation. */
  lemma {:induction false} TakenFromFront<T>(q: Queue<nat, nat, T>, ev: Event<T>, n: nat)
    requires Joint(q) && !ev.Stop?
    ensures Shifted(q.deq, QueueStep(q, ev, n).deq) && Shifted(q.enq, QueueStep(q, ev, n).enq)
  {
    DequeuersFromFront(q, ev, n);
    EnqueuersFromFront(q, ev, n);
  }

  lemma {:induction false} ShiftedBy<X>(a: seq<X>, k: nat, b: seq<X>)
    requires k <= |a| && (b == a[k..] || a <= b)
    ensures Shifted(a, b)
  {
  }

  lemma {:induction false} DequeuersFromFront<T>(q: Queue<nat, nat, T>, ev: Event<T>, n: nat)
    requires Joint(q) && !ev.Stop?
    ensures Shifted(q.deq, QueueStep(q, ev, n).deq)
  {
    var k := match ev
      case InitEnq(_, _) => Min(1, |q.deq|)
      case TryEnq(_) => Min(1, |q.deq|)
      case ForceEnq(vs) => Min(|q.items + vs|, |q.deq|)
      case _ => |q.deq|;
    ShiftedBy(q.deq, k, QueueStep(q, ev, n).deq);
  }

  lemma {:induction false} EnqueuersFromFront<T>(q: Queue<nat, nat, T>, ev: Event<T>, n: nat)
    requires Joint(q) && !ev.Stop?
    ensures Shifted(q.enq, QueueStep(q, ev, n).enq)
  {
    var k := if ev.ForceDeq? then Min(|q.enq|, q.cap) else Min(1, |q.enq|);
    ShiftedBy(q.enq, k, QueueStep(q, ev, n).enq);
  }

  /** If an earlier one is still there, so is every later one. */
  lemma {:induction false} LaterDeqStays(before: seq<nat>, now: seq<nat>, i: nat, j: nat, i': nat) returns (j': nat)
    requires Increasing(before) && Shifted(before, now)
    requires i < j < |before| && i' < |now| && now[i'] == before[i]
    ensures j' < |now| && now[j'] == before[j]
  {
    var d := if |now| >= |before| then 0 else |before| - |now|;
    assert d > 0 ==> now[i'] == before[d + i'];
    j' := j - d;
  }

  lemma {:induction false} LaterEnqStays<T>(before: seq<(nat, T)>, now: seq<(nat, T)>, i: nat, j: nat, i': nat)
    returns (j': nat)
    requires forall k, l :: 0 <= k < l < |before| ==> before[k].0 < before[l].0
    requires Shifted(before, now) && i < j < |before| && i' < |now| && now[i'].0 == before[i].0
    ensures j' < |now| && now[j'] == before[j]
  {
    var d := if |now| >= |before| then 0 else |before| - |now|;
    assert d > 0 ==> now[i'] == before[d + i'];
    j' := j - d;
  }

  lemma {:induction false} InOrder(s: seq<nat>, i: nat, j: nat)
    requires Increasing(s) && i < |s| && j < |s| && s[i] < s[j]
    ensures i < j
  {
  }

  lemma {:induction false} OldestDequeuerFirst<T>(s: Sys<T>, t: Sys<T>, a: nat, b: nat)
    requires DeqListed(s.q.deq, s.ops) && DeqListed(t.q.deq, t.ops) && Shifted(s.q.deq, t.q.deq)
    requires a < b < |s.ops| <= |t.ops| && s.ops[a] == s.ops[b] == Op(Deq, Waiting) && t.ops[a] == Op(Deq, Waiting)
    ensures t.ops[b].phase.Waiting?
  {
    var i, j, i' := IndexOf(s.q.deq, a), IndexOf(s.q.deq, b), IndexOf(t.q.deq, a);
    assert s.q.deq[i] == a && s.q.deq[j] == b && t.q.deq[i'] == a;
    InOrder(s.q.deq, i, j);
    var j' := LaterDeqStays(s.q.deq, t.q.deq, i, j, i');
  }

  lemma {:induction false} OldestEnqueuerFirst<T>(s: Sys<T>, t: Sys<T>, a: nat, b: nat)
    requires EnqListed(s.q.enq, s.ops) && EnqListed(t.q.enq, t.ops) && Shifted(s.q.enq, t.q.enq)
    requires a < b < |s.ops| <= |t.ops| && s.ops[a].kind.Enq? && s.ops[b].kind.Enq? && t.ops[a].kind.Enq?
    requires s.ops[a].phase.Waiting? && s.ops[b].phase.Waiting? && t.ops[a].phase.Waiting?
    ensures t.ops[b].phase.Waiting?
  {
    var i, j, i' := EnqIndexOf(s.q.enq, a), EnqIndexOf(s.q.enq, b), EnqIndexOf(t.q.enq, a);
    assert s.q.enq[i].0 == a && s.q.enq[j].0 == b && t.q.enq[i'].0 == a;
    var j' := LaterEnqStays(s.q.enq, t.q.enq, i, j, i');
  }

  lemma {:induction false} StopSpares<T>(s: Sys<T>, id: nat, b: nat)
    requires Inv(s) && id < |s.ops| && b < |s.ops| && id != b
    ensures |Cancel(s, id).ops| == |s.ops| && Cancel(s, id).ops[b] == s.ops[b]
  {
    var e, d := EnqIndexOf(s.q.enq, id), IndexOf(s.q.deq, id);
  }

  lemma {:induction false} FrontFirst<T>(s: Sys<T>, ev: Event<T>, a: nat, b: nat, t: Sys<T>)
    requires Inv(s) && Enabled(s, ev) && a < b < |s.ops| && !ev.Stop? && t == Step(s, ev)
    requires s.ops[a].phase.Waiting? && s.ops[b].phase.Waiting? && s.ops[a].kind.Enq? == s.ops[b].kind.Enq?
    requires |t.ops| >= |s.ops| && t.ops[a].phase.Waiting? && t.ops[a].kind == s.ops[a].kind
    ensures t.ops[b].phase.Waiting?
  {
    StepKeeps(s, ev);
    TakenFromFront(s.q, ev, |s.ops|);
    WaitersFirst(s, t, a, b);
  }

  lemma {:induction false} WaitersFirst<T>(s: Sys<T>, t: Sys<T>, a: nat, b: nat)
    requires Listed(s) && Listed(t) && Shifted(s.q.deq, t.q.deq) && Shifted(s.q.enq, t.q.enq)
    requires a < b < |s.ops| <= |t.ops|
    requires s.ops[a].phase.Waiting? && s.ops[b].phase.Waiting? && s.ops[a].kind.Enq? == s.ops[b].kind.Enq?
    requires t.ops[a].phase.Waiting? && t.ops[a].kind == s.ops[a].kind
    ensures t.ops[b].phase.Waiting?
  {
    if s.ops[a].kind.Deq? { OldestDequeuerFirst(s, t, a, b); } else { OldestEnqueuerFirst(s, t, a, b); }
  }

  /** First come, first served: of two ops waiting for the same thing, no event but its own cancellation
      decides the later one and leaves the earlier one waiting. */
  lemma {:induction false} OldestFirst<T>(s: Sys<T>, ev: Event<T>, a: nat, b: nat)
    requires Inv(s) && Enabled(s, ev) && a < b < |s.ops| && ev != Stop(b)
    requires s.ops[a].phase.Waiting? && s.ops[b].phase.Waiting? && s.ops[a].kind.Enq? == s.ops[b].kind.Enq?
    ensures var t := Step(s, ev);
      |t.ops| >= |s.ops| && (t.ops[a].phase.Waiting? ==> t.ops[b].phase.Waiting?)
  {
    StepPersists(s, ev, a);
    if ev.Stop? {
      StopSpares(s, ev.id, b);
    } else if Step(s, ev).ops[a].phase.Waiting? {
      FrontFirst(s, ev, a, b, Step(s, ev));
    }
  }

  // ----- after the end is marked

  /** What is still to be dequeued: the items, then those that waiting enqueuers bring. */
  function Backlog<T>(q: Queue<nat, nat, T>): seq<T> {
    q.items + seq(|q.enq|, k requires 0 <= k < |q.enq| => q.enq[k].1)
  }

  /** No cancellation, bulk dequeue, `clear` or `clear_end_mark`. */
  predicate Draining<T>(ev: Event<T>) {
    ev.InitEnq? || ev.TryEnq? || ev.ForceEnq? || ev.InitDeq? || ev.TryDeq? || ev.MarkEnd? || ev.Complete? || ev.Grow?
  }

  predicate Attempt<T>(ev: Event<T>) { ev.TryDeq? || ev == InitDeq(false) }

  function Attempts<T>(evs: seq<Event<T>>): nat {
    if evs == [] then 0 else (if Attempt(evs[0]) then 1 else 0) + Attempts(evs[1..])
  }

  /** On the queue alone: an attempt takes the front of the backlog; nothing else touches it. */
  lemma {:induction false} BacklogStep<T>(q: Queue<nat, nat, T>, ev: Event<T>, n: nat)
    requires Joint(q) && q.ended && Draining(ev)
    ensures var q' := QueueStep(q, ev, n);
      && q'.ended && |Backlog(q)| >= |q.items|
      && (Attempt(ev) && q.items != [] ==> Backlog(q') == Backlog(q)[1..] && Backlog(q)[0] == q.items[0])
      && (!Attempt(ev) || q.items == [] ==> Backlog(q') == Backlog(q))
  {
    if Attempt(ev) && q.items != [] && q.enq != [] {
      var q' := QueueStep(q, ev, n);
      assert q'.items == q.items[1..] + [q.enq[0].1];
    }
  }

  lemma {:induction false} OutsStep<T>(s: Sys<T>, ev: Event<T>)
    requires Inv(s) && s.q.ended && Enabled(s, ev) && Draining(ev)
    ensures var t := Step(s, ev);
      Values(t.outs) == Values(s.outs) + if Attempt(ev) && s.q.items != [] then [s.q.items[0]] else []
  {
    var t := Step(s, ev);
    if Attempt(ev) && s.q.items != [] {
      assert t.outs == s.outs + [(if ev.TryDeq? then Sync else Of(|s.ops|), s.q.items[0])];
    } else {
      assert t.outs == s.outs;
    }
  }

  lemma {:induction false} DrainStep<T>(s: Sys<T>, ev: Event<T>, t: Sys<T>)
    requires Inv(s) && s.q.ended && Enabled(s, ev) && Draining(ev) && t == Step(s, ev)
    ensures Inv(t) && t.q.ended
    ensures Attempt(ev) && Backlog(s.q) != [] ==>
      Backlog(t.q) == Backlog(s.q)[1..] && Values(t.outs) == Values(s.outs) + [Backlog(s.q)[0]]
    ensures !Attempt(ev) || Backlog(s.q) == [] ==>
      Backlog(t.q) == Backlog(s.q) && Values(t.outs) == Values(s.outs)
  {
    StepKeeps(s, ev);
    OutsStep(s, ev);
    BacklogStep(s.q, ev, |s.ops|);
    assert s.q.items == [] ==> Backlog(s.q) == [];
  }

  lemma {:induction false} DrainHead<T>(s: Sys<T>, evs: seq<Event<T>>, t: Sys<T>) returns (s': Sys<T>)
    requires Inv(s) && s.q.ended && evs != [] && Run(s, evs, t) && Draining(evs[0])
    ensures Inv(s') && s'.q.ended && Run(s', evs[1..], t)
    ensures Attempt(evs[0]) && Backlog(s.q) != [] ==>
      Backlog(s'.q) == Backlog(s.q)[1..] && Values(s'.outs) == Values(s.outs) + [Backlog(s.q)[0]]
    ensures !Attempt(evs[0]) || Backlog(s.q) == [] ==>
      Backlog(s'.q) == Backlog(s.q) && Values(s'.outs) == Values(s.outs)
  {
    s' := Step(s, evs[0]);
    DrainStep(s, evs[0], s');
  }

  /** Draining on the backlog and the items handed out alone. */
  predicate Drains<T(==)>(b: seq<T>, outs: seq<T>, evs: seq<Event<T>>, b2: seq<T>, outs2: seq<T>)
    decreases |evs|
  {
    if evs == [] then b2 == b && outs2 == outs
    else if Attempt(evs[0]) && b != [] then Drains(b[1..], outs + [b[0]], evs[1..], b2, outs2)
    else Drains(b, outs, evs[1..], b2, outs2)
  }

  lemma {:induction false} DrainsAll<T>(b: seq<T>, outs: seq<T>, evs: seq<Event<T>>, b2: seq<T>, outs2: seq<T>)
    requires Drains(b, outs, evs, b2, outs2)
    ensures var n := Min(Attempts(evs), |b|); n <= |b| && outs2 == outs + b[..n] && b2 == b[n..]
    decreases |evs|
  {
    if evs != [] {
      if Attempt(evs[0]) && b != [] {
        DrainsAll(b[1..], outs + [b[0]], evs[1..], b2, outs2);
        OneMore(outs, b, Min(Attempts(evs[1..]), |b| - 1));
      } else {
        DrainsAll(b, outs, evs[1..], b2, outs2);
      }
    }
  }

  lemma {:induction false} OneMore<X>(outs: seq<X>, b: seq<X>, k: nat)
    requires k < |b|
    ensures outs + [b[0]] + b[1..][..k] == outs + b[..k + 1] && b[1..][k..] == b[k + 1..]
  {
    assert [b[0]] + b[1..][..k] == b[..k + 1];
  }

  lemma {:induction false} RunDrains<T>(s: Sys<T>, evs: seq<Event<T>>, t: Sys<T>)
    requires Inv(s) && s.q.ended && Run(s, evs, t)
    requires forall k :: 0 <= k < |evs| ==> Draining(evs[k])
    ensures Drains(Backlog(s.q), Values(s.outs), evs, Backlog(t.q), Values(t.outs)) && t.q.ended && t.q.deq == []
    decreases |evs|
  {
    if evs != [] {
      var s' := DrainHead(s, evs, t);
      RunDrains(s', evs[1..], t);
    }
  }

  /** The drain theorem: once the end is marked, `n` attempts to dequeue yield exactly the first `n` of the
      queued items and the items of waiting enqueuers, in that order, and nobody is left waiting. */
  lemma {:induction false} Drain<T>(s: Sys<T>, evs: seq<Event<T>>, t: Sys<T>)
    requires Inv(s) && s.q.ended && Run(s, evs, t)
    requires forall k :: 0 <= k < |evs| ==> Draining(evs[k])
    ensures Min(Attempts(evs), |Backlog(s.q)|) <= |Backlog(s.q)|
    ensures Values(t.outs) == Values(s.outs) + Backlog(s.q)[..Min(Attempts(evs), |Backlog(s.q)|)]
    ensures Backlog(t.q) == Backlog(s.q)[Min(Attempts(evs), |Backlog(s.q)|)..]
    ensures t.q.ended && t.q.deq == []
  {
    RunDrains(s, evs, t);
    DrainsAll(Backlog(s.q), Values(s.outs), evs, Backlog(t.q), Values(t.outs));
  }

  /** What a dequeuer that is initiated after the end was marked turns into. */
  lemma {:induction false} EndedDequeue<T>(s: Sys<T>)
    requires Inv(s) && s.q.ended
    ensures Step(s, InitDeq(false)) == if s.q.items == [] then NewOp(s, Deq, EndReached) else MoveInIfAny(TakeOutNew(s))
  {
  }

  /** After the end is marked a dequeuer is told so exactly when the backlog is used up; it never waits. */
  lemma {:induction false} EndReachedIff<T>(s: Sys<T>)
    requires Inv(s) && s.q.ended
    ensures var t := Step(s, InitDeq(false));
      && |s.ops| < |t.ops| && !t.ops[|s.ops|].phase.Waiting?
      && (t.ops[|s.ops|].Outcome() == Some(Fails(EndReached)) <==> Backlog(s.q) == [])
  {
    EndedDequeue(s);
    if s.q.items != [] {
      assert TakeOutNew(s).ops[|s.ops|].Outcome() == Some(Got(s.q.items[0]));
    }
  }
}
