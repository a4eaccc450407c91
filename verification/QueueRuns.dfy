/** Runs of `res_queue` shared by any number of threads. One event is one critical section or one result
    being set after unlock; ops are numbered in the order they are initiated. */
module QueueRuns {
  import opened Base
  import opened Sequences
  import opened QueueSpec

  datatype Kind<T> = Enq(v: T) | Deq

  datatype Res<T> = Accepted | Got(v: T) | Fails(e: Errc)

  /** `Decided`: taken off the waiter queue, or never put there, but `_r` is not set yet. */
  datatype Phase<T> = Waiting | Decided(res: Res<T>) | Done(res: Res<T>)

  datatype Op<T> = Op(kind: Kind<T>, phase: Phase<T>) {
    function Outcome(): Option<Res<T>> {
      match phase case Waiting => None case Decided(r) => Some(r) case Done(r) => Some(r)
    }
  }

  /** Who brought an item in or took it out. */
  datatype Party = Sync | Dropped | Of(id: nat)

  /** `ins` and `outs` log the items in critical-section order; `results` logs every `_r.emplace`. */
  datatype Sys<T> = Sys(
    q: Queue<nat, nat, T>,
    ops: seq<Op<T>>,
    ins: seq<(Party, T)>,
    outs: seq<(Party, T)>,
    results: seq<nat>)

  datatype Event<T> =
    | InitEnq(v: T, stop: bool)
    | InitDeq(stop: bool)
    | TryEnq(v: T)
    | TryDeq
    | ForceEnq(vs: seq<T>)
    | ForceDeq
    | MarkEnd
    | ClearEndMark
    | Stop(id: nat)
    | Complete(id: nat)
    | Grow(n: nat)
    | Clear

  // ----- single moves

  function Decide<T>(s: Sys<T>, id: nat, r: Res<T>): Sys<T>
    requires id < |s.ops|
  {
    s.(ops := s.ops[id := s.ops[id].(phase := Decided(r))])
  }

  function NewOp<T>(s: Sys<T>, kind: Kind<T>, e: Errc): Sys<T> {
    s.(ops := s.ops + [Op(kind, Decided(Fails(e)))])
  }

  function NewEnqWaiter<T>(s: Sys<T>, v: T): Sys<T> {
    s.(ops := s.ops + [Op(Enq(v), Waiting)], q := s.q.(enq := s.q.enq + [(|s.ops|, v)]))
  }

  function NewDeqWaiter<T>(s: Sys<T>): Sys<T> {
    s.(ops := s.ops + [Op(Deq, Waiting)], q := s.q.(deq := s.q.deq + [|s.ops|]))
  }

  function Admit<T>(s: Sys<T>, v: T): Sys<T> {
    s.(q := s.q.(items := s.q.items + [v]), ins := s.ins + [(Sync, v)])
  }

  function AdmitAll<T>(s: Sys<T>, vs: seq<T>): Sys<T>
    decreases |vs|
  {
    if vs == [] then s else AdmitAll(Admit(s, vs[0]), vs[1..])
  }

  function AdmitNew<T>(s: Sys<T>, v: T): Sys<T> {
    s.(q := s.q.(items := s.q.items + [v]),
       ops := s.ops + [Op(Enq(v), Decided(Accepted))],
       ins := s.ins + [(Of(|s.ops|), v)])
  }

  function TakeOut<T>(s: Sys<T>, p: Party): Sys<T>
    requires s.q.items != []
  {
    s.(q := s.q.(items := s.q.items[1..]), outs := s.outs + [(p, s.q.items[0])])
  }

  function TakeAllOut<T>(s: Sys<T>, p: Party): Sys<T>
    decreases |s.q.items|
  {
    if s.q.items == [] then s else TakeAllOut(TakeOut(s, p), p)
  }

  function TakeOutNew<T>(s: Sys<T>): Sys<T>
    requires s.q.items != []
  {
    TakeOut(s, Of(|s.ops|)).(ops := s.ops + [Op(Deq, Decided(Got(s.q.items[0])))])
  }

  /** The front item goes to the oldest waiting dequeuer. */
  function HandOff<T>(s: Sys<T>): Sys<T>
    requires s.q.items != [] && s.q.deq != [] && s.q.deq[0] < |s.ops|
  {
    var s' := Decide(TakeOut(s, Of(s.q.deq[0])), s.q.deq[0], Got(s.q.items[0]));
    s'.(q := s'.q.(deq := s.q.deq[1..]))
  }

  /** The item of the oldest waiting enqueuer moves into the queue. */
  function MoveIn<T>(s: Sys<T>): Sys<T>
    requires s.q.enq != [] && s.q.enq[0].0 < |s.ops|
  {
    Decide(s, s.q.enq[0].0, Accepted).(
      q := s.q.(items := s.q.items + [s.q.enq[0].1], enq := s.q.enq[1..]),
      ins := s.ins + [(Of(s.q.enq[0].0), s.q.enq[0].1)])
  }

  function FailOldest<T>(s: Sys<T>): Sys<T>
    requires s.q.deq != [] && s.q.deq[0] < |s.ops|
  {
    Decide(s, s.q.deq[0], Fails(EndReached)).(q := s.q.(deq := s.q.deq[1..]))
  }

  /** The waiter lists name ops that exist. */
  predicate InRange<T>(s: Sys<T>) {
    && (forall k :: 0 <= k < |s.q.enq| ==> s.q.enq[k].0 < |s.ops|)
    && (forall k :: 0 <= k < |s.q.deq| ==> s.q.deq[k] < |s.ops|)
  }

  /** `HandOff` for as long as there is an item and a dequeuer. */
  function Serve<T>(s: Sys<T>): Sys<T>
    requires InRange(s)
    decreases |s.q.deq|
  {
    if s.q.items == [] || s.q.deq == [] then s else Serve(HandOff(s))
  }

  function Fill<T>(s: Sys<T>): Sys<T>
    requires InRange(s)
    decreases |s.q.enq|
  {
    if s.q.enq == [] || |s.q.items| >= s.q.cap then s else Fill(MoveIn(s))
  }

  function FailAll<T>(s: Sys<T>): Sys<T>
    requires InRange(s)
    decreases |s.q.deq|
  {
    if s.q.deq == [] then s else FailAll(FailOldest(s))
  }

  function MoveInIfAny<T>(s: Sys<T>): Sys<T>
    requires InRange(s)
  {
    if s.q.enq == [] then s else MoveIn(s)
  }

  function EnqIndexOf<T>(enq: seq<(nat, T)>, id: nat): (k: nat)
    ensures k <= |enq|
    ensures k < |enq| ==> enq[k].0 == id
    ensures k == |enq| ==> forall j :: 0 <= j < |enq| ==> enq[j].0 != id
  {
    if enq == [] || enq[0].0 == id then 0 else 1 + EnqIndexOf(enq[1..], id)
  }

  /** The stop callback: decides the op if it is still queued. */
  function Cancel<T>(s: Sys<T>, id: nat): Sys<T>
    requires id < |s.ops|
  {
    var e := EnqIndexOf(s.q.enq, id);
    var d := IndexOf(s.q.deq, id);
    if e < |s.q.enq| then Decide(s, id, Fails(Canceled)).(q := s.q.(enq := Cut(s.q.enq, e)))
    else if d < |s.q.deq| then Decide(s, id, Fails(Canceled)).(q := s.q.(deq := Cut(s.q.deq, d)))
    else s
  }

  function Finish<T>(s: Sys<T>, id: nat): Sys<T>
    requires id < |s.ops| && s.ops[id].phase.Decided?
  {
    s.(ops := s.ops[id := s.ops[id].(phase := Done(s.ops[id].phase.res))], results := s.results + [id])
  }

  // ----- what always holds

  /** The list holds exactly the waiting enqueuers, oldest first, each with its own item. */
  ghost predicate EnqListed<T>(enq: seq<(nat, T)>, ops: seq<Op<T>>) {
    && (forall k :: 0 <= k < |enq| ==> enq[k].0 < |ops| && ops[enq[k].0] == Op(Enq(enq[k].1), Waiting))
    && (forall i, j :: 0 <= i < j < |enq| ==> enq[i].0 < enq[j].0)
    && (forall id :: 0 <= id < |ops| && ops[id].phase.Waiting? && ops[id].kind.Enq? ==>
          EnqIndexOf(enq, id) < |enq|)
  }

  ghost predicate DeqListed<T>(deq: seq<nat>, ops: seq<Op<T>>) {
    && (forall k :: 0 <= k < |deq| ==> deq[k] < |ops| && ops[deq[k]] == Op(Deq, Waiting))
    && Increasing(deq)
    && (forall id :: 0 <= id < |ops| && ops[id].phase.Waiting? && ops[id].kind.Deq? ==>
          IndexOf(deq, id) < |deq|)
  }

  ghost predicate Listed<T>(s: Sys<T>) {
    EnqListed(s.q.enq, s.ops) && DeqListed(s.q.deq, s.ops)
  }

  /** Conservation in FIFO order: what came in is what went out followed by what is queued. */
  ghost predicate Conserved<T>(s: Sys<T>) {
    && |s.ins| == |s.outs| + |s.q.items|
    && (forall j :: 0 <= j < |s.outs| ==> s.outs[j].1 == s.ins[j].1)
    && (forall j :: 0 <= j < |s.q.items| ==> s.q.items[j] == s.ins[|s.outs| + j].1)
  }

  function Count<T>(log: seq<(Party, T)>, id: nat): nat {
    if log == [] then 0 else Count(log[..|log| - 1], id) + (if log[|log| - 1].0 == Of(id) then 1 else 0)
  }

  function CountIds(log: seq<nat>, id: nat): nat {
    if log == [] then 0 else CountIds(log[..|log| - 1], id) + (if log[|log| - 1] == id then 1 else 0)
  }

  /** An enqueuer is in `ins` once if it was accepted and else never; likewise dequeuers in `outs`; and an
      op's result was set once if it is done and else never. */
  ghost predicate Accounted<T>(s: Sys<T>, id: nat)
    requires id < |s.ops|
  {
    && Count(s.ins, id) == (if s.ops[id].Outcome() == Some(Accepted) then 1 else 0)
    && Count(s.outs, id) == (if s.ops[id].Outcome().Some? && s.ops[id].Outcome().value.Got? then 1 else 0)
    && CountIds(s.results, id) == (if s.ops[id].phase.Done? then 1 else 0)
    && (s.ops[id].Outcome() == Some(Accepted) ==> s.ops[id].kind.Enq?)
    && (s.ops[id].Outcome().Some? && s.ops[id].Outcome().value.Got? ==> s.ops[id].kind.Deq?)
  }

  /** Log entries carry the item of their op. */
  ghost predicate Traceable<T>(s: Sys<T>) {
    && (forall j :: 0 <= j < |s.ins| && s.ins[j].0.Of? ==>
          s.ins[j].0.id < |s.ops| && s.ops[s.ins[j].0.id].kind == Enq(s.ins[j].1))
    && (forall j :: 0 <= j < |s.outs| && s.outs[j].0.Of? ==>
          s.outs[j].0.id < |s.ops| && s.ops[s.outs[j].0.id].Outcome() == Some(Got(s.outs[j].1)))
    && (forall j :: 0 <= j < |s.results| ==> s.results[j] < |s.ops|)
  }

  ghost predicate Core<T>(s: Sys<T>) {
    Listed(s) && Conserved(s) && Traceable(s) && forall id :: 0 <= id < |s.ops| ==> Accounted(s, id)
  }

  ghost predicate Inv<T>(s: Sys<T>) { Core(s) && Joint(s.q) }

  // ----- every move keeps the core

  lemma {:induction false} CountBeyond<T>(log: seq<(Party, T)>, id: nat)
    requires forall j :: 0 <= j < |log| ==> log[j].0 != Of(id)
    ensures Count(log, id) == 0
  {
    if log != [] { CountBeyond(log[..|log| - 1], id); }
  }

  lemma {:induction false} CountIdsBeyond(log: seq<nat>, id: nat)
    requires id !in log
    ensures CountIds(log, id) == 0
  {
    if log != [] { CountIdsBeyond(log[..|log| - 1], id); }
  }

  lemma {:induction false} CountPush<T>(log: seq<(Party, T)>, e: (Party, T), id: nat)
    ensures Count(log + [e], id) == Count(log, id) + (if e.0 == Of(id) then 1 else 0)
  {
    assert (log + [e])[..|log|] == log;
  }

  lemma {:induction false} FreshUncounted<T>(s: Sys<T>)
    requires Core(s)
    ensures Count(s.ins, |s.ops|) == 0 && Count(s.outs, |s.ops|) == 0 && CountIds(s.results, |s.ops|) == 0
  {
    CountBeyond(s.ins, |s.ops|);
    CountBeyond(s.outs, |s.ops|);
    CountIdsBeyond(s.results, |s.ops|);
  }

  /** Appending an op that does not wait, or changing an op that never waited here, keeps a list exact. */
  lemma {:induction false} EnqFrame<T>(enq: seq<(nat, T)>, ops: seq<Op<T>>, ops': seq<Op<T>>)
    requires EnqListed(enq, ops) && |ops'| >= |ops|
    requires forall id :: 0 <= id < |ops| && ops[id].phase.Waiting? && ops[id].kind.Enq? ==> ops'[id] == ops[id]
    requires forall id :: 0 <= id < |ops'| && ops'[id].phase.Waiting? && ops'[id].kind.Enq? ==>
      id < |ops| && ops[id] == ops'[id]
    ensures EnqListed(enq, ops')
  {
  }

  lemma {:induction false} DeqFrame<T>(deq: seq<nat>, ops: seq<Op<T>>, ops': seq<Op<T>>)
    requires DeqListed(deq, ops) && |ops'| >= |ops|
    requires forall id :: 0 <= id < |ops| && ops[id].phase.Waiting? && ops[id].kind.Deq? ==> ops'[id] == ops[id]
    requires forall id :: 0 <= id < |ops'| && ops'[id].phase.Waiting? && ops'[id].kind.Deq? ==>
      id < |ops| && ops[id] == ops'[id]
    ensures DeqListed(deq, ops')
  {
  }

  /** Deciding the `k`-th waiting dequeuer and cutting it from its list keeps the list exact. */
  lemma {:induction false} DeqUnlisted<T>(deq: seq<nat>, ops: seq<Op<T>>, k: nat, op: Op<T>)
    requires DeqListed(deq, ops) && k < |deq| && !op.phase.Waiting?
    ensures DeqListed(Cut(deq, k), ops[deq[k] := op])
  {
    var ops', deq' := ops[deq[k] := op], Cut(deq, k);
    assert forall j :: 0 <= j < |deq'| ==> deq'[j] == deq[if j < k then j else j + 1];
    forall id | 0 <= id < |ops'| && ops'[id].phase.Waiting? && ops'[id].kind.Deq?
      ensures IndexOf(deq', id) < |deq'|
    {
      var j := IndexOf(deq, id);
      assert deq'[if j < k then j else j - 1] == id;
    }
  }

  lemma {:induction false} EnqUnlisted<T>(enq: seq<(nat, T)>, ops: seq<Op<T>>, k: nat, op: Op<T>)
    requires EnqListed(enq, ops) && k < |enq| && !op.phase.Waiting?
    ensures EnqListed(Cut(enq, k), ops[enq[k].0 := op])
  {
    var ops', enq' := ops[enq[k].0 := op], Cut(enq, k);
    assert forall j :: 0 <= j < |enq'| ==> enq'[j] == enq[if j < k then j else j + 1];
    forall id | 0 <= id < |ops'| && ops'[id].phase.Waiting? && ops'[id].kind.Enq?
      ensures EnqIndexOf(enq', id) < |enq'|
    {
      var j := EnqIndexOf(enq, id);
      assert enq'[if j < k then j else j - 1].0 == id;
    }
  }

  lemma {:induction false} NewOpKeeps<T>(s: Sys<T>, kind: Kind<T>, e: Errc)
    requires Core(s)
    ensures Core(NewOp(s, kind, e))
  {
    FreshUncounted(s);
    var s' := NewOp(s, kind, e);
    EnqFrame(s.q.enq, s.ops, s'.ops);
    DeqFrame(s.q.deq, s.ops, s'.ops);
    forall id | 0 <= id < |s'.ops| ensures Accounted(s', id) {
      if id < |s.ops| { assert Accounted(s, id); }
    }
  }

  lemma {:induction false} EnqAppended<T>(enq: seq<(nat, T)>, ops: seq<Op<T>>, v: T)
    requires EnqListed(enq, ops)
    ensures EnqListed(enq + [(|ops|, v)], ops + [Op(Enq(v), Waiting)])
  {
    var enq': seq<(nat, T)>, ops' := enq + [(|ops|, v)], ops + [Op(Enq(v), Waiting)];
    assert enq'[|enq|].0 == |ops|;
    forall id | 0 <= id < |ops'| && ops'[id].phase.Waiting? && ops'[id].kind.Enq?
      ensures EnqIndexOf(enq', id) < |enq'|
    {
      assert enq'[if id < |ops| then EnqIndexOf(enq, id) else |enq|].0 == id;
    }
  }

  lemma {:induction false} DeqAppended<T>(deq: seq<nat>, ops: seq<Op<T>>)
    requires DeqListed(deq, ops)
    ensures DeqListed(deq + [|ops|], ops + [Op(Deq, Waiting)])
  {
    var deq', ops' := deq + [|ops|], ops + [Op(Deq, Waiting)];
    assert deq'[|deq|] == |ops|;
    forall id | 0 <= id < |ops'| && ops'[id].phase.Waiting? && ops'[id].kind.Deq?
      ensures IndexOf(deq', id) < |deq'|
    {
      assert deq'[if id < |ops| then IndexOf(deq, id) else |deq|] == id;
    }
  }

  lemma {:induction false} NewEnqWaiterKeeps<T>(s: Sys<T>, v: T)
    requires Core(s)
    ensures Core(NewEnqWaiter(s, v))
  {
    FreshUncounted(s);
    var s' := NewEnqWaiter(s, v);
    EnqAppended(s.q.enq, s.ops, v);
    DeqFrame(s.q.deq, s.ops, s'.ops);
    forall id | 0 <= id < |s'.ops| ensures Accounted(s', id) {
      if id < |s.ops| { assert Accounted(s, id); }
    }
  }

  lemma {:induction false} NewDeqWaiterKeeps<T>(s: Sys<T>)
    requires Core(s)
    ensures Core(NewDeqWaiter(s))
  {
    FreshUncounted(s);
    var s' := NewDeqWaiter(s);
    DeqAppended(s.q.deq, s.ops);
    EnqFrame(s.q.enq, s.ops, s'.ops);
    forall id | 0 <= id < |s'.ops| ensures Accounted(s', id) {
      if id < |s.ops| { assert Accounted(s, id); }
    }
  }

  lemma {:induction false} AdmitKeeps<T>(s: Sys<T>, v: T)
    requires Core(s)
    ensures Core(Admit(s, v))
  {
    var s' := Admit(s, v);
    forall id | 0 <= id < |s'.ops| ensures Accounted(s', id) {
      assert Accounted(s, id);
      CountPush(s.ins, (Sync, v), id);
    }
  }

  lemma {:induction false} AdmitNewLogs<T>(s: Sys<T>, v: T)
    requires Core(s)
    ensures Listed(AdmitNew(s, v)) && Conserved(AdmitNew(s, v)) && Traceable(AdmitNew(s, v))
  {
    var s' := AdmitNew(s, v);
    EnqFrame(s.q.enq, s.ops, s'.ops);
    DeqFrame(s.q.deq, s.ops, s'.ops);
  }

  lemma {:induction false} AdmitNewKeeps<T>(s: Sys<T>, v: T)
    requires Core(s)
    ensures Core(AdmitNew(s, v))
  {
    AdmitNewLogs(s, v);
    FreshUncounted(s);
    var s' := AdmitNew(s, v);
    forall id | 0 <= id < |s'.ops| ensures Accounted(s', id) {
      CountPush(s.ins, (Of(|s.ops|), v), id);
      if id < |s.ops| { assert Accounted(s, id); }
    }
  }

  lemma {:induction false} TakeOutKeeps<T>(s: Sys<T>, p: Party)
    requires Core(s) && s.q.items != [] && !p.Of?
    ensures Core(TakeOut(s, p))
  {
    var s' := TakeOut(s, p);
    forall id | 0 <= id < |s'.ops| ensures Accounted(s', id) {
      assert Accounted(s, id);
      CountPush(s.outs, (p, s.q.items[0]), id);
    }
  }

  lemma {:induction false} TakeOutNewLogs<T>(s: Sys<T>)
    requires Core(s) && s.q.items != []
    ensures Listed(TakeOutNew(s)) && Conserved(TakeOutNew(s)) && Traceable(TakeOutNew(s))
  {
    var s' := TakeOutNew(s);
    EnqFrame(s.q.enq, s.ops, s'.ops);
    DeqFrame(s.q.deq, s.ops, s'.ops);
  }

  lemma {:induction false} TakeOutNewKeeps<T>(s: Sys<T>)
    requires Core(s) && s.q.items != []
    ensures Core(TakeOutNew(s))
  {
    TakeOutNewLogs(s);
    FreshUncounted(s);
    var s' := TakeOutNew(s);
    forall id | 0 <= id < |s'.ops| ensures Accounted(s', id) {
      CountPush(s.outs, (Of(|s.ops|), s.q.items[0]), id);
      if id < |s.ops| { assert Accounted(s, id); }
    }
  }

  lemma {:induction false} HandOffListed<T>(s: Sys<T>)
    requires Listed(s) && s.q.items != [] && s.q.deq != []
    ensures Listed(HandOff(s))
  {
    var s' := HandOff(s);
    DeqUnlisted(s.q.deq, s.ops, 0, s'.ops[s.q.deq[0]]);
    assert Cut(s.q.deq, 0) == s.q.deq[1..];
    EnqFrame(s.q.enq, s.ops, s'.ops);
  }

  lemma {:induction false} HandOffLogs<T>(s: Sys<T>)
    requires Core(s) && s.q.items != [] && s.q.deq != []
    ensures Conserved(HandOff(s)) && Traceable(HandOff(s))
  {
  }

  lemma {:induction false} HandOffKeeps<T>(s: Sys<T>)
    requires Core(s) && s.q.items != [] && s.q.deq != []
    ensures Core(HandOff(s))
  {
    HandOffListed(s);
    HandOffLogs(s);
    var s' := HandOff(s);
    var w := s.q.deq[0];
    assert s.ops[w] == Op(Deq, Waiting);
    forall id | 0 <= id < |s'.ops| ensures Accounted(s', id) {
      assert Accounted(s, id);
      CountPush(s.outs, (Of(w), s.q.items[0]), id);
    }
  }

  lemma {:induction false} MoveInKeeps<T>(s: Sys<T>)
    requires Core(s) && s.q.enq != []
    ensures Core(MoveIn(s))
  {
    var s' := MoveIn(s);
    var w := s.q.enq[0];
    EnqUnlisted(s.q.enq, s.ops, 0, s'.ops[s.q.enq[0].0]);
    DeqFrame(s.q.deq, s.ops, s'.ops);
    assert s.ops[w.0] == Op(Enq(w.1), Waiting);
    forall id | 0 <= id < |s'.ops| ensures Accounted(s', id) {
      assert Accounted(s, id);
      CountPush(s.ins, (Of(w.0), w.1), id);
    }
  }

  /** A waiting op fails, and the logs stay as they are. */
  lemma {:induction false} FailsAccounted<T>(s: Sys<T>, s': Sys<T>, id: nat, e: Errc)
    requires Core(s) && id < |s.ops| && s.ops[id].phase.Waiting?
    requires s'.ops == s.ops[id := s.ops[id].(phase := Decided(Fails(e)))]
    requires s'.ins == s.ins && s'.outs == s.outs && s'.results == s.results && s'.q.items == s.q.items
    ensures Conserved(s') && Traceable(s') && forall i :: 0 <= i < |s'.ops| ==> Accounted(s', i)
  {
    forall i | 0 <= i < |s'.ops| ensures Accounted(s', i) {
      assert Accounted(s, i);
    }
  }

  lemma {:induction false} FailOldestKeeps<T>(s: Sys<T>)
    requires Core(s) && s.q.deq != []
    ensures Core(FailOldest(s))
  {
    var s' := FailOldest(s);
    DeqUnlisted(s.q.deq, s.ops, 0, s'.ops[s.q.deq[0]]);
    EnqFrame(s.q.enq, s.ops, s'.ops);
    FailsAccounted(s, s', s.q.deq[0], EndReached);
  }

  lemma {:induction false} CancelKeeps<T>(s: Sys<T>, id: nat)
    requires Core(s) && id < |s.ops|
    ensures Core(Cancel(s, id))
  {
    var e, d := EnqIndexOf(s.q.enq, id), IndexOf(s.q.deq, id);
    if e < |s.q.enq| { CancelEnqKeeps(s, e); } else if d < |s.q.deq| { CancelDeqKeeps(s, d); }
  }

  lemma {:induction false} CancelEnqKeeps<T>(s: Sys<T>, e: nat)
    requires Core(s) && e < |s.q.enq|
    ensures var id := s.q.enq[e].0; Core(Decide(s, id, Fails(Canceled)).(q := s.q.(enq := Cut(s.q.enq, e))))
  {
    var id := s.q.enq[e].0;
    var s' := Decide(s, id, Fails(Canceled)).(q := s.q.(enq := Cut(s.q.enq, e)));
    EnqUnlisted(s.q.enq, s.ops, e, s'.ops[id]);
    DeqFrame(s.q.deq, s.ops, s'.ops);
    FailsAccounted(s, s', id, Canceled);
  }

  lemma {:induction false} CancelDeqKeeps<T>(s: Sys<T>, d: nat)
    requires Core(s) && d < |s.q.deq|
    ensures var id := s.q.deq[d]; Core(Decide(s, id, Fails(Canceled)).(q := s.q.(deq := Cut(s.q.deq, d))))
  {
    var id := s.q.deq[d];
    var s' := Decide(s, id, Fails(Canceled)).(q := s.q.(deq := Cut(s.q.deq, d)));
    DeqUnlisted(s.q.deq, s.ops, d, s'.ops[id]);
    EnqFrame(s.q.enq, s.ops, s'.ops);
    FailsAccounted(s, s', id, Canceled);
  }

  lemma {:induction false} FinishKeeps<T>(s: Sys<T>, id: nat)
    requires Core(s) && id < |s.ops| && s.ops[id].phase.Decided?
    ensures Core(Finish(s, id))
  {
    var s' := Finish(s, id);
    EnqFrame(s.q.enq, s.ops, s'.ops);
    DeqFrame(s.q.deq, s.ops, s'.ops);
    forall i | 0 <= i < |s'.ops| ensures Accounted(s', i) {
      assert Accounted(s, i);
      assert (s.results + [id])[..|s.results|] == s.results;
    }
  }

  lemma {:induction false} AdmitAllKeeps<T>(s: Sys<T>, vs: seq<T>)
    requires Core(s)
    ensures Core(AdmitAll(s, vs)) && AdmitAll(s, vs).q == s.q.(items := s.q.items + vs)
    decreases |vs|
  {
    if vs == [] {
      assert s.q.items + vs == s.q.items;
    } else {
      AdmitKeeps(s, vs[0]);
      AdmitAllKeeps(Admit(s, vs[0]), vs[1..]);
      assert s.q.items + [vs[0]] + vs[1..] == s.q.items + vs;
    }
  }

  lemma {:induction false} TakeAllOutKeeps<T>(s: Sys<T>, p: Party)
    requires Core(s) && !p.Of?
    ensures Core(TakeAllOut(s, p)) && TakeAllOut(s, p).q == s.q.(items := [])
    decreases |s.q.items|
  {
    if s.q.items != [] {
      TakeOutKeeps(s, p);
      TakeAllOutKeeps(TakeOut(s, p), p);
    }
  }

  /** One hand-off at a time, the loop does what `Match` says. */
  lemma {:induction false} ServeKeeps<T>(s: Sys<T>)
    requires Core(s)
    ensures Core(Serve(s)) && Serve(s).q == Match(s.q).0
    decreases |s.q.deq|
  {
    if s.q.items != [] && s.q.deq != [] {
      HandOffKeeps(s);
      ServeKeeps(HandOff(s));
      MatchStep(s.q);
    }
  }

  lemma {:induction false} FillKeeps<T>(s: Sys<T>)
    requires Core(s)
    ensures Core(Fill(s)) && Fill(s).q == Refill(s.q).0
    decreases |s.q.enq|
  {
    if s.q.enq == [] || |s.q.items| >= s.q.cap {
      RefillNone(s.q);
    } else {
      MoveInKeeps(s);
      FillKeeps(MoveIn(s));
      RefillStep(s.q);
    }
  }

  lemma {:induction false} FailAllKeeps<T>(s: Sys<T>)
    requires Core(s)
    ensures Core(FailAll(s)) && FailAll(s).q == s.q.(deq := [])
    decreases |s.q.deq|
  {
    if s.q.deq != [] {
      FailOldestKeeps(s);
      FailAllKeeps(FailOldest(s));
    }
  }

  // ----- steps

  /** Callbacks belong to initiated ops, a result is set after it was decided, and `clear` wants no
      waiting enqueuer, which it would leave behind on an empty queue. */
  ghost predicate Enabled<T>(s: Sys<T>, ev: Event<T>) {
    match ev
    case Stop(id) => id < |s.ops|
    case Complete(id) => id < |s.ops| && s.ops[id].phase.Decided?
    case Clear => s.q.enq == []
    case _ => true
  }

  ghost function Step<T>(s: Sys<T>, ev: Event<T>): Sys<T>
    requires Inv(s) && Enabled(s, ev)
  {
    match ev
    case InitEnq(v, stop) =>
      if stop then NewOp(s, Enq(v), Canceled)
      else (match EnqueueStep(s.q, v).1
        case Err(OutOfCapacity) => NewEnqWaiter(s, v)
        case Err(e) => NewOp(s, Enq(v), e)
        case Ok(_) => Serve(AdmitNew(s, v)))
    case InitDeq(stop) =>
      if stop then NewOp(s, Deq, Canceled)
      else (match DequeueStep(s.q).1
        case Err(ResourceUnavailable) => NewDeqWaiter(s)
        case Err(e) => NewOp(s, Deq, e)
        case Ok(_) => MoveInIfAny(TakeOutNew(s)))
    case TryEnq(v) => if EnqueueStep(s.q, v).1.Err? then s else Serve(Admit(s, v))
    case TryDeq => if DequeueStep(s.q).1.Err? then s else MoveInIfAny(TakeOut(s, Sync))
    case ForceEnq(vs) => if vs == [] || s.q.ended then s else Serve(AdmitAllOf(s, vs))
    case ForceDeq => if s.q.items == [] then s else Fill(TakeAllOutOf(s, Sync))
    case MarkEnd => if s.q.ended then s else EndMarked(FailAll(s))
    case ClearEndMark => s.(q := s.q.(ended := false))
    case Stop(id) => Cancel(s, id)
    case Complete(id) => Finish(s, id)
    case Grow(n) => s.(q := s.q.(cap := s.q.cap + n))
    case Clear => TakeAllOut(s, Dropped)
  }

  function EndMarked<T>(s: Sys<T>): Sys<T> { s.(q := s.q.(ended := true)) }

  ghost function AdmitAllOf<T>(s: Sys<T>, vs: seq<T>): (r: Sys<T>)
    requires Core(s)
    ensures Core(r)
  {
    AdmitAllKeeps(s, vs);
    AdmitAll(s, vs)
  }

  ghost function TakeAllOutOf<T>(s: Sys<T>, p: Party): (r: Sys<T>)
    requires Core(s) && !p.Of?
    ensures Core(r)
  {
    TakeAllOutKeeps(s, p);
    TakeAllOut(s, p)
  }

  /** What the sequential specification says an event does to the queue. */
  function QueueStep<T>(q: Queue<nat, nat, T>, ev: Event<T>, n: nat): Queue<nat, nat, T> {
    match ev
    case InitEnq(v, stop) =>
      if stop then q
      else if EnqueueStep(q, v).1 == Err(OutOfCapacity) then q.(enq := q.enq + [(n, v)])
      else EnqueueStep(q, v).0
    case InitDeq(stop) =>
      if stop then q
      else if DequeueStep(q).1.Err? && DequeueStep(q).1.error.ResourceUnavailable? then q.(deq := q.deq + [n])
      else DequeueStep(q).0
    case TryEnq(v) => EnqueueStep(q, v).0
    case TryDeq => DequeueStep(q).0
    case ForceEnq(vs) => ForceEnqueueStep(q, vs).0
    case ForceDeq => ForceDequeueStep(q).0
    case MarkEnd => MarkEndStep(q).0
    case ClearEndMark => q.(ended := false)
    case Stop(id) =>
      var e, d := EnqIndexOf(q.enq, id), IndexOf(q.deq, id);
      if e < |q.enq| then q.(enq := Cut(q.enq, e))
      else if d < |q.deq| then q.(deq := Cut(q.deq, d))
      else q
    case Complete(_) => q
    case Grow(k) => q.(cap := q.cap + k)
    case Clear => q.(items := [])
  }

  lemma {:induction false} AdmittedKeeps<T>(s: Sys<T>, v: T)
    requires Inv(s) && EnqueueStep(s.q, v).1.Ok?
    ensures Core(AdmitNew(s, v)) && Core(Serve(AdmitNew(s, v))) && Serve(AdmitNew(s, v)).q == EnqueueStep(s.q, v).0
    ensures Joint(EnqueueStep(s.q, v).0)
  {
    AdmitNewKeeps(s, v);
    ServeKeeps(AdmitNew(s, v));
  }

  lemma {:induction false} InitEnqKeeps<T>(s: Sys<T>, v: T, stop: bool)
    requires Inv(s)
    ensures var ev := InitEnq(v, stop); Inv(Step(s, ev)) && Step(s, ev).q == QueueStep(s.q, ev, |s.ops|)
  {
    if stop {
      NewOpKeeps(s, Enq(v), Canceled);
    } else {
      match EnqueueStep(s.q, v).1
      case Err(OutOfCapacity) => NewEnqWaiterKeeps(s, v);
      case Err(e) => NewOpKeeps(s, Enq(v), e);
      case Ok(_) => AdmittedKeeps(s, v);
    }
  }

  lemma {:induction false} TakenKeeps<T>(s: Sys<T>)
    requires Inv(s) && s.q.items != []
    ensures Core(TakeOutNew(s)) && Core(MoveInIfAny(TakeOutNew(s)))
    ensures MoveInIfAny(TakeOutNew(s)).q == DequeueStep(s.q).0 && Joint(DequeueStep(s.q).0)
  {
    TakeOutNewKeeps(s);
    if s.q.enq != [] { MoveInKeeps(TakeOutNew(s)); }
  }

  lemma {:induction false} InitDeqKeeps<T>(s: Sys<T>, stop: bool)
    requires Inv(s)
    ensures var ev := InitDeq(stop); Inv(Step(s, ev)) && Step(s, ev).q == QueueStep(s.q, ev, |s.ops|)
  {
    if stop {
      NewOpKeeps(s, Deq, Canceled);
    } else {
      match DequeueStep(s.q).1
      case Err(ResourceUnavailable) => NewDeqWaiterKeeps(s);
      case Err(e) => NewOpKeeps(s, Deq, e);
      case Ok(_) => TakenKeeps(s);
    }
  }

  lemma {:induction false} TryEnqKeeps<T>(s: Sys<T>, v: T)
    requires Inv(s)
    ensures var ev := TryEnq(v); Inv(Step(s, ev)) && Step(s, ev).q == QueueStep(s.q, ev, |s.ops|)
  {
    if EnqueueStep(s.q, v).1.Ok? {
      AdmitKeeps(s, v);
      ServeKeeps(Admit(s, v));
    }
  }

  lemma {:induction false} TryDeqKeeps<T>(s: Sys<T>)
    requires Inv(s)
    ensures var ev := TryDeq; Inv(Step(s, ev)) && Step(s, ev).q == QueueStep(s.q, ev, |s.ops|)
  {
    if DequeueStep(s.q).1.Ok? {
      TakeOutKeeps(s, Sync);
      if s.q.enq != [] { MoveInKeeps(TakeOut(s, Sync)); }
    }
  }

  lemma {:induction false} ForceEnqKeeps<T>(s: Sys<T>, vs: seq<T>)
    requires Inv(s)
    ensures var ev := ForceEnq(vs); Inv(Step(s, ev)) && Step(s, ev).q == QueueStep(s.q, ev, |s.ops|)
  {
    if vs != [] && !s.q.ended {
      AdmitAllKeeps(s, vs);
      ServeKeeps(AdmitAll(s, vs));
    }
  }

  lemma {:induction false} ForceDeqKeeps<T>(s: Sys<T>)
    requires Inv(s)
    ensures Inv(Step(s, ForceDeq)) && Step(s, ForceDeq).q == QueueStep(s.q, ForceDeq, |s.ops|)
  {
    if s.q.items != [] {
      TakeAllOutKeeps(s, Sync);
      FillKeeps(TakeAllOut(s, Sync));
    }
  }

  lemma {:induction false} ClearKeeps<T>(s: Sys<T>)
    requires Inv(s) && Enabled(s, Clear)
    ensures Inv(Step(s, Clear)) && Step(s, Clear).q == QueueStep(s.q, Clear, |s.ops|)
  {
    TakeAllOutKeeps(s, Dropped);
  }

  lemma {:induction false} CoreFrame<T>(s: Sys<T>, ended: bool, cap: nat)
    requires Core(s)
    ensures Core(s.(q := s.q.(ended := ended, cap := cap)))
  {
    var s' := s.(q := s.q.(ended := ended, cap := cap));
    forall id | 0 <= id < |s.ops| ensures Accounted(s', id) {
      assert Accounted(s, id);
    }
  }

  lemma {:induction false} FlagsKeep<T>(s: Sys<T>, ev: Event<T>)
    requires Inv(s) && Enabled(s, ev) && (ev.MarkEnd? || ev.ClearEndMark? || ev.Grow?)
    ensures Inv(Step(s, ev)) && Step(s, ev).q == QueueStep(s.q, ev, |s.ops|)
  {
    match ev
    case MarkEnd => FailAllKeeps(s); CoreFrame(FailAll(s), true, s.q.cap);
    case ClearEndMark => CoreFrame(s, false, s.q.cap);
    case Grow(n) => CoreFrame(s, s.q.ended, s.q.cap + n);
  }

  lemma {:induction false} OpKeeps<T>(s: Sys<T>, ev: Event<T>)
    requires Inv(s) && Enabled(s, ev) && (ev.Stop? || ev.Complete?)
    ensures Inv(Step(s, ev)) && Step(s, ev).q == QueueStep(s.q, ev, |s.ops|)
  {
    if ev.Stop? { CancelKeeps(s, ev.id); } else { FinishKeeps(s, ev.id); }
  }

  /** Every event keeps the invariant, and moves the queue as its sequential specification says. */
  lemma {:induction false} StepKeeps<T>(s: Sys<T>, ev: Event<T>)
    requires Inv(s) && Enabled(s, ev)
    ensures Inv(Step(s, ev)) && Step(s, ev).q == QueueStep(s.q, ev, |s.ops|)
  {
    match ev
    case InitEnq(v, stop) => InitEnqKeeps(s, v, stop);
    case InitDeq(stop) => InitDeqKeeps(s, stop);
    case TryEnq(v) => TryEnqKeeps(s, v);
    case TryDeq => TryDeqKeeps(s);
    case ForceEnq(vs) => ForceEnqKeeps(s, vs);
    case ForceDeq => ForceDeqKeeps(s);
    case Clear => ClearKeeps(s);
    case MarkEnd => FlagsKeep(s, ev);
    case ClearEndMark => FlagsKeep(s, ev);
    case Grow(_) => FlagsKeep(s, ev);
    case Stop(_) => OpKeeps(s, ev);
    case Complete(_) => OpKeeps(s, ev);
  }
}
