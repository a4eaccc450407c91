/** `res_queue<T>` and its async ops, as objects. Each method is proved against `QueueSpec`; `Valid` keeps
    the joint waiter invariant with tombstones counted. */
module ResQueues {
  import opened Base
  import opened Sequences
  import opened WaiterQueues
  import opened QueueSpec

  /** `async_queue_op<true>`: brings the item `v`; `cont` says that a continuation is held. */
  class EnqueueOp<T> {
    const v: T
    var r: Option<Result<(), Errc>>
    var cont: bool
    var resumes: nat

    constructor (v: T)
      ensures this.v == v && Idle() && resumes == 0
    {
      this.v, r, cont, resumes := v, None, false, 0;
    }

    ghost predicate Idle() reads this { r.None? && !cont }

    ghost predicate Waiting() reads this { r.None? && cont }

    /** `complete` and `complete_with_err`: set the result once and resume the continuation once. */
    method Complete(res: Result<(), Errc>)
      requires Waiting()
      modifies this
      ensures r == Some(res) && !cont && resumes == old(resumes) + 1
    {
      r := Some(res);
      cont := false;
      resumes := resumes + 1;
    }
  }

  /** `async_queue_op<false>`: its result is the item. */
  class DequeueOp<T> {
    var r: Option<Result<T, Errc>>
    var cont: bool
    var resumes: nat

    constructor ()
      ensures Idle() && resumes == 0
    {
      r, cont, resumes := None, false, 0;
    }

    ghost predicate Idle() reads this { r.None? && !cont }

    ghost predicate Waiting() reads this { r.None? && cont }

    /** `complete` and `complete_with_err`: set the result once and resume the continuation once. */
    method Complete(res: Result<T, Errc>)
      requires Waiting()
      modifies this
      ensures r == Some(res) && !cont && resumes == old(resumes) + 1
    {
      r := Some(res);
      cont := false;
      resumes := resumes + 1;
    }
  }

  lemma {:induction false} SplitDistinct<X>(s: seq<X>, k: nat)
    requires Distinct(s) && k <= |s|
    ensures Distinct(s[..k]) && Distinct(s[k..])
    ensures forall x :: x in s[..k] ==> x !in s[k..]
  {
  }

  lemma {:induction false} DistinctParts<X>(s: seq<X>, a: seq<X>, b: seq<X>)
    requires Distinct(s) && s == a + b
    ensures Distinct(a) && Distinct(b)
    ensures forall x :: x in a ==> x !in b && x in s
    ensures forall x :: x in b ==> x in s
  {
    assert forall k :: 0 <= k < |a| ==> a[k] == s[k];
    assert forall k :: 0 <= k < |b| ==> b[k] == s[|a| + k];
  }

  ghost predicate EnqWaiting<T>(ops: seq<EnqueueOp<T>>)
    reads ops
  {
    forall o :: o in ops ==> o.Waiting()
  }

  ghost predicate DeqWaiting<T>(ops: seq<DequeueOp<T>>)
    reads ops
  {
    forall o :: o in ops ==> o.Waiting()
  }

  /** Every live waiter with the item it brings. */
  ghost function WithItems<T>(ops: seq<EnqueueOp<T>>): (r: seq<(EnqueueOp<T>, T)>) {
    seq(|ops|, i requires 0 <= i < |ops| => (ops[i], ops[i].v))
  }

  /** Admitting the first of these enqueuers, and keeping the others, is `Refill`. */
  lemma {:induction false} RefilledFrom<T>(q: Queue<EnqueueOp<T>, DequeueOp<T>, T>, es: seq<EnqueueOp<T>>,
      rest: seq<EnqueueOp<T>>, items: seq<T>, admitted: seq<EnqueueOp<T>>)
    requires q.items == [] && q.enq == WithItems(es) && |admitted| == |items| == Min(|es|, q.cap)
    requires es == admitted + rest && forall k :: 0 <= k < |admitted| ==> items[k] == admitted[k].v
    ensures Refill(q) == (q.(items := items, enq := WithItems(rest)), admitted)
  {
    assert WithItems(rest) == q.enq[|admitted|..];
    RefillIs(q, |admitted|, items, admitted);
  }

  lemma {:induction false} FirstMoves<X>(a: seq<X>, b: seq<X>)
    requires b != []
    ensures a + b == a + [b[0]] + b[1..]
  {
  }

  /** Completes every op that is not a tombstone, once each. */
  method FailAll<T>(waiters: seq<Option<DequeueOp<T>>>, e: Errc, ghost ops: seq<DequeueOp<T>>)
    requires Live(waiters) == ops && Distinct(ops) && DeqWaiting(ops)
    modifies ops
    ensures forall o :: o in ops ==> o.r == Some(Err(e)) && o.resumes == old(o.resumes) + 1
  {
    ghost var done := 0;
    var i := 0;
    while i < |waiters|
      invariant 0 <= i <= |waiters| && 0 <= done <= |ops|
      invariant LiveFrom(waiters, i) == ops[done..]
      invariant forall k :: 0 <= k < done ==> ops[k].r == Some(Err(e)) && ops[k].resumes == old(ops[k].resumes) + 1
      invariant forall k :: done <= k < |ops| ==> ops[k].Waiting() && ops[k].resumes == old(ops[k].resumes)
    {
      if waiters[i].Some? {
        assert ops[done..][0] == waiters[i].value;
        assert ops[done..][1..] == ops[done + 1..];
        waiters[i].value.Complete(Err(e));
        done := done + 1;
      }
      i := i + 1;
    }
  }

  method CompleteAll<T>(waiters: seq<(DequeueOp<T>, T)>, ghost ops: seq<DequeueOp<T>>)
    requires |ops| == |waiters| && Distinct(ops) && DeqWaiting(ops)
    requires forall k :: 0 <= k < |ops| ==> waiters[k].0 == ops[k]
    modifies ops
    ensures forall k :: 0 <= k < |ops| ==>
      ops[k].r == Some(Ok(waiters[k].1)) && ops[k].resumes == old(ops[k].resumes) + 1
  {
    for i := 0 to |waiters|
      invariant forall k :: 0 <= k < i ==>
        ops[k].r == Some(Ok(waiters[k].1)) && ops[k].resumes == old(ops[k].resumes) + 1
      invariant forall k :: i <= k < |ops| ==> ops[k].Waiting() && ops[k].resumes == old(ops[k].resumes)
    {
      assert waiters[i].0 == ops[i];
      waiters[i].0.Complete(Ok(waiters[i].1));
    }
  }

  /** Completes the oldest of these ops; the others go on waiting. */
  method CompleteFront<T>(waiters: seq<(DequeueOp<T>, T)>, ghost ops: seq<DequeueOp<T>>)
    requires |waiters| <= |ops| && Distinct(ops) && DeqWaiting(ops)
    requires forall k :: 0 <= k < |waiters| ==> waiters[k].0 == ops[k]
    modifies ops
    ensures forall k :: 0 <= k < |waiters| ==>
      ops[k].r == Some(Ok(waiters[k].1)) && ops[k].resumes == old(ops[k].resumes) + 1
    ensures forall k :: |waiters| <= k < |ops| ==> ops[k].Waiting()
  {
    SplitDistinct(ops, |waiters|);
    CompleteAll(waiters, ops[..|waiters|]);
  }

  method AcceptAll<T>(waiters: seq<EnqueueOp<T>>)
    requires Distinct(waiters) && EnqWaiting(waiters)
    modifies waiters
    ensures forall k :: 0 <= k < |waiters| ==>
      waiters[k].r == Some(Ok(())) && waiters[k].resumes == old(waiters[k].resumes) + 1
  {
    for i := 0 to |waiters|
      invariant forall k :: 0 <= k < i ==>
        waiters[k].r == Some(Ok(())) && waiters[k].resumes == old(waiters[k].resumes) + 1
      invariant forall k :: i <= k < |waiters| ==>
        waiters[k].Waiting() && waiters[k].resumes == old(waiters[k].resumes)
    {
      waiters[i].Complete(Ok(()));
    }
  }

  class ResQueue<T> {
    var cap: nat
    var endMarked: bool
    var items: seq<T>
    const enq: WaiterQueue<EnqueueOp<T>>
    const deq: WaiterQueue<DequeueOp<T>>
    var enqueueTotal: nat
    var enqueueWait: nat
    var dequeueTotal: nat
    var dequeueWait: nat

    ghost function Abs(): Queue<EnqueueOp<T>, DequeueOp<T>, T>
      reads this, enq, deq
    {
      Queue(cap, endMarked, items, WithItems(enq.live), deq.live)
    }

    /** The joint invariant on whole deques: an entry counts even when its op was cancelled. */
    ghost predicate Valid()
      reads this, enq, deq, enq.live, deq.live
    {
      && cap > 0
      && enq as object != deq && enq.Valid() && deq.Valid()
      && (items == [] ==> enq.entries == [])
      && (items != [] ==> deq.entries == [])
      && (endMarked ==> deq.entries == [])
      && enqueueWait <= enqueueTotal && dequeueWait <= dequeueTotal
      && Distinct(enq.live) && Distinct(deq.live)
      && EnqWaiting(enq.live) && DeqWaiting(deq.live)
    }

    /** An enqueue entry, cancelled or not, is there only while the queue is full. */
    ghost predicate FullWhileWaiting()
      reads this, enq
    {
      enq.entries != [] ==> |items| >= cap
    }

    constructor (cap: nat)
      requires cap > 0
      ensures Valid() && FullWhileWaiting() && fresh(enq) && fresh(deq)
      ensures Abs() == Queue(cap, false, [], [], [])
    {
      this.cap, endMarked, items := cap, false, [];
      enqueueTotal, enqueueWait, dequeueTotal, dequeueWait := 0, 0, 0, 0;
      enq := new WaiterQueue();
      deq := new WaiterQueue();
    }

    method TryEnqueueNoLock(v: T) returns (r: Result<Option<DequeueOp<T>>, Errc>)
      requires Valid()
      modifies this, deq
      ensures Valid() && (Abs(), r) == EnqueueStep(old(Abs()), v)
      ensures old(FullWhileWaiting()) ==> FullWhileWaiting()
    {
      ghost var es, ds := enq.live, deq.live;
      if endMarked {
        return Err(EndReached);
      }
      enqueueTotal := enqueueTotal + 1;
      if |items| >= cap {
        enqueueWait := enqueueWait + 1;
        return Err(OutOfCapacity);
      }
      var w := deq.TakeOldest();
      if w.Some? {
        return Ok(w);
      }
      items := items + [v];
      assert EnqWaiting(es);
      return Ok(None);
    }

    method TryDequeueNoLock() returns (r: Result<(Option<EnqueueOp<T>>, T), Errc>)
      requires Valid()
      modifies this, enq
      ensures Valid() && (Abs(), r) == DequeueStep(old(Abs()))
      ensures enq.live == if r.Ok? && r.value.0.Some? then old(enq.live)[1..] else old(enq.live)
      ensures old(FullWhileWaiting()) ==> FullWhileWaiting()
    {
      ghost var es, ds := enq.live, deq.live;
      dequeueTotal := dequeueTotal + 1;
      if items == [] {
        dequeueWait := dequeueWait + 1;
        return Err(if endMarked then EndReached else ResourceUnavailable);
      }
      var v := items[0];
      items := items[1..];
      var w := enq.TakeOldest();
      if w.Some? {
        items := items + [w.value.v];
        assert WithItems(es)[1..] == WithItems(es[1..]);
      }
      assert EnqWaiting(es) && DeqWaiting(ds);
      return Ok((w, v));
    }

    /** `try_enqueue`: the critical section, then the completion of the dequeuer it chose. */
    method TryEnqueue(v: T) returns (e: Option<Errc>)
      requires Valid()
      modifies this, deq, deq.live
      ensures Valid() && (old(FullWhileWaiting()) ==> FullWhileWaiting())
      ensures Abs() == EnqueueStep(old(Abs()), v).0
      ensures match EnqueueStep(old(Abs()), v).1
        case Err(x) => e == Some(x)
        case Ok(w) => e == None && (w.Some? ==> w.value.r == Some(Ok(v)) && w.value.resumes == old(w.value.resumes) + 1)
      ensures forall o :: o in deq.live ==> o in old(deq.live) && unchanged(o)
    {
      ghost var es, ds := enq.live, deq.live;
      var r := TryEnqueueNoLock(v);
      if r.Err? {
        return Some(r.error);
      }
      if r.value.Some? {
        r.value.value.Complete(Ok(v));
        assert es == [] && enq.live == [];
      }
      return None;
    }

    /** `async_enqueue_op::initiate`: either the op has its result on return, or it is queued as a waiter. */
    method InitiateEnqueue(op: EnqueueOp<T>, stopRequested: bool) returns (pending: bool)
      requires Valid() && op.Idle()
      modifies this, enq, deq, op, deq.live
      ensures Valid() && (old(FullWhileWaiting()) ==> FullWhileWaiting())
      ensures pending <==> !stopRequested && EnqueueStep(old(Abs()), op.v).1 == Err(OutOfCapacity)
      ensures pending ==> op.Waiting() && Abs() == old(Abs()).(enq := old(Abs()).enq + [(op, op.v)])
      ensures !pending && stopRequested ==> op.r == Some(Err(Canceled)) && Abs() == old(Abs())
      ensures !pending && !stopRequested ==> Abs() == EnqueueStep(old(Abs()), op.v).0
      ensures !pending && !stopRequested ==> op.r == Some(EnqueueResult(old(Abs()), op.v))
      ensures !stopRequested ==> match EnqueueStep(old(Abs()), op.v).1
        case Ok(Some(w)) => w.r == Some(Ok(op.v)) && w.resumes == old(w.resumes) + 1
        case _ => deq.live == old(deq.live)
      ensures forall o :: o in deq.live ==> o in old(deq.live) && unchanged(o)
    {
      if stopRequested {
        op.r := Some(Err(Canceled));
        return false;
      }
      ghost var es, ds := enq.live, deq.live;
      assert op !in es;
      var e := TryEnqueue(op.v);
      if e != Some(OutOfCapacity) {
        op.r := Some(if e == None then Ok(()) else Err(e.value));
        return false;
      }
      Suspend(op);
      return true;
    }

    /** The end of `initiate` for an enqueuer that found the queue full. */
    method Suspend(op: EnqueueOp<T>)
      requires Valid() && op.Idle() && |items| >= cap
      modifies enq, op
      ensures Valid() && FullWhileWaiting() && op.Waiting()
      ensures Abs() == old(Abs()).(enq := old(Abs()).enq + [(op, op.v)])
    {
      ghost var es := enq.live;
      assert op !in es;
      op.cont := true;
      enq.Add(op);
      assert WithItems(es + [op]) == WithItems(es) + [(op, op.v)];
    }

    /** The dequeuing counterparts. */
    method TryDequeue() returns (r: Result<T, Errc>)
      requires Valid()
      modifies this, enq, enq.live
      ensures Valid() && (old(FullWhileWaiting()) ==> FullWhileWaiting())
      ensures Abs() == DequeueStep(old(Abs())).0
      ensures match DequeueStep(old(Abs())).1
        case Err(x) => r == Err(x)
        case Ok(out) => r == Ok(out.1) && (out.0.Some? ==>
          out.0.value.r == Some(Ok(())) && out.0.value.resumes == old(out.0.value.resumes) + 1)
      ensures forall o :: o in enq.live ==> o in old(enq.live) && unchanged(o)
    {
      ghost var es, ds := enq.live, deq.live;
      var d := TryDequeueNoLock();
      if d.Err? {
        return Err(d.error);
      }
      if d.value.0.Some? {
        d.value.0.value.Complete(Ok(()));
        assert ds == [] && deq.live == [];
      }
      return Ok(d.value.1);
    }

    method InitiateDequeue(op: DequeueOp<T>, stopRequested: bool) returns (pending: bool)
      requires Valid() && op.Idle()
      modifies this, enq, deq, op, enq.live
      ensures Valid() && (old(FullWhileWaiting()) ==> FullWhileWaiting())
      ensures pending <==> !stopRequested && DequeueStep(old(Abs())).1 == Err(ResourceUnavailable)
      ensures pending ==> op.Waiting() && Abs() == old(Abs()).(deq := old(Abs()).deq + [op])
      ensures !pending && stopRequested ==> op.r == Some(Err(Canceled)) && Abs() == old(Abs())
      ensures !pending && !stopRequested ==> Abs() == DequeueStep(old(Abs())).0
      ensures !pending && !stopRequested ==> op.r == Some(DequeueResult(old(Abs())))
      ensures !stopRequested ==> match DequeueStep(old(Abs())).1
        case Ok((Some(w), _)) => w.r == Some(Ok(())) && w.resumes == old(w.resumes) + 1
        case _ => enq.live == old(enq.live)
      ensures forall o :: o in enq.live ==> o in old(enq.live) && unchanged(o)
    {
      if stopRequested {
        op.r := Some(Err(Canceled));
        return false;
      }
      ghost var es, ds := enq.live, deq.live;
      assert op !in ds;
      var r := TryDequeue();
      if r != Err(ResourceUnavailable) {
        op.r := Some(r);
        return false;
      }
      op.cont := true;
      deq.Add(op);
      return true;
    }

    /** The stop callback: cancels the op if it is still queued, and otherwise does nothing at all. */
    method StopEnqueue(op: EnqueueOp<T>)
      requires Valid()
      modifies enq, op
      ensures Valid() && (old(FullWhileWaiting()) ==> FullWhileWaiting())
      ensures op in old(enq.live) ==> op.r == Some(Err(Canceled)) && op.resumes == old(op.resumes) + 1
      ensures op in old(enq.live) ==> enq.live == Without(old(enq.live), op)
      ensures op !in old(enq.live) ==> unchanged(op) && Abs() == old(Abs())
      ensures items == old(items) && deq.live == old(deq.live)
    {
      ghost var es, ds := enq.live, deq.live;
      var found := enq.Erase(op);
      if found {
        WithoutIs(es, op);
        assert ds == [];
        op.Complete(Err(Canceled));
      }
    }

    method StopDequeue(op: DequeueOp<T>)
      requires Valid()
      modifies deq, op
      ensures Valid() && (old(FullWhileWaiting()) ==> FullWhileWaiting())
      ensures op in old(deq.live) ==> op.r == Some(Err(Canceled)) && op.resumes == old(op.resumes) + 1
      ensures op in old(deq.live) ==> deq.live == Without(old(deq.live), op)
      ensures op !in old(deq.live) ==> unchanged(op) && Abs() == old(Abs())
      ensures items == old(items) && enq.live == old(enq.live)
    {
      ghost var es, ds := enq.live, deq.live;
      var found := deq.Erase(op);
      if found {
        WithoutIs(ds, op);
        assert es == [];
        op.Complete(Err(Canceled));
      }
    }

    /** `mark_end`: every waiting dequeuer, and nobody else, is told that the end is reached. */
    method MarkEnd() returns (isFirst: bool)
      requires Valid()
      modifies this, deq, deq.live
      ensures Valid() && (old(FullWhileWaiting()) ==> FullWhileWaiting())
      ensures isFirst == !old(endMarked) && Abs() == MarkEndStep(old(Abs())).0
      ensures forall o :: o in old(deq.live) ==> o.r == Some(Err(EndReached)) && o.resumes == old(o.resumes) + 1
    {
      ghost var es, ds := enq.live, deq.live;
      isFirst := !endMarked;
      if isFirst {
        endMarked := true;
        var waiters := deq.TakeAll();
        FailAll(waiters, EndReached, ds);
        assert ds != [] ==> es == [];
      }
    }

    method ClearEndMark()
      requires Valid()
      modifies this
      ensures Valid() && Abs() == old(Abs()).(ended := false)
      ensures old(FullWhileWaiting()) ==> FullWhileWaiting()
    {
      endMarked := false;
    }

    /** Wakes nobody: an enqueuer that waited stays queued although there is room now. */
    method IncreaseCapacity(n: nat)
      requires Valid()
      modifies this
      ensures Valid() && Abs() == old(Abs()).(cap := old(cap) + n)
    {
      cap := cap + n;
    }

    /** Drops the items without serving enqueuers: the joint invariant, and with it the source's own assertion,
        stands exactly if no entry of an enqueuer, cancelled or not, is in the deque. */
    method Clear()
      requires Valid()
      modifies this
      ensures Abs() == old(Abs()).(items := [])
      ensures Valid() <==> old(enq.entries) == []
      ensures FullWhileWaiting() <==> old(enq.entries) == []
    {
      items := [];
    }

    /** The loop of `force_enqueue_range`: front items go to the oldest dequeuers while there are both. */
    method ServeDequeuers() returns (waiters: seq<(DequeueOp<T>, T)>)
      requires enq as object != deq && deq.Valid() && items != []
      modifies this`items, deq
      ensures deq.Valid() && (items == [] || deq.entries == [])
      ensures (Abs(), waiters) == Match(old(Abs()))
      ensures |waiters| <= |old(deq.live)| && deq.live == old(deq.live)[|waiters|..]
      ensures forall k :: 0 <= k < |waiters| ==> waiters[k].0 == old(deq.live)[k]
    {
      ghost var ds, vs := deq.live, items;
      waiters := [];
      while true
        invariant deq.Valid() && items != []
        invariant |waiters| <= |ds| && |waiters| < |vs|
        invariant deq.live == ds[|waiters|..] && items == vs[|waiters|..]
        invariant forall k :: 0 <= k < |waiters| ==> waiters[k] == (ds[k], vs[k])
        decreases |deq.live|
      {
        var w := deq.TakeOldest();
        if w == None {
          break;
        }
        waiters := waiters + [(w.value, items[0])];
        items := items[1..];
        if items == [] {
          break;
        }
      }
      assert |waiters| == Min(|vs|, |ds|);
      assert waiters == Match(old(Abs())).1;
    }

    /** The loop of `force_dequeue_all`: the oldest enqueuers' items fill the emptied queue. */
    method AdmitEnqueuers() returns (waiters: seq<EnqueueOp<T>>)
      requires enq as object != deq && enq.Valid() && items == [] && cap > 0
      modifies this`items, enq
      ensures enq.Valid() && (enq.entries == [] || |items| >= cap)
      ensures (Abs(), waiters) == Refill(old(Abs()))
      ensures old(enq.live) == waiters + enq.live
    {
      ghost var es := enq.live;
      waiters := [];
      while true
        invariant enq.Valid() && |items| == |waiters| < cap
        invariant es == waiters + enq.live
        invariant forall k :: 0 <= k < |waiters| ==> items[k] == waiters[k].v
        decreases |enq.live|
      {
        ghost var before := enq.live;
        var w := enq.TakeOldest();
        if w == None {
          break;
        }
        FirstMoves(waiters, before);
        items := items + [w.value.v];
        waiters := waiters + [w.value];
        if |items| >= cap {
          break;
        }
      }
      RefilledFrom(old(Abs()), es, enq.live, items, waiters);
    }

    /** The critical section of `force_enqueue_range`, which ignores the capacity. */
    method ForceEnqueueLocked(vs: seq<T>) returns (waiters: seq<(DequeueOp<T>, T)>)
      requires Valid() && vs != [] && !endMarked
      modifies this, deq
      ensures Valid() && (old(FullWhileWaiting()) ==> FullWhileWaiting())
      ensures (Abs(), waiters) == Match(old(Abs()).(items := old(items) + vs))
      ensures |waiters| <= |old(deq.live)|
      ensures forall k :: 0 <= k < |waiters| ==> waiters[k].0 == old(deq.live)[k]
      ensures waiters != [] ==> enq.live == []
    {
      ghost var es, ds := enq.live, deq.live;
      enqueueTotal := enqueueTotal + 1;
      items := items + vs;
      waiters := ServeDequeuers();
      SplitDistinct(ds, |waiters|);
      assert EnqWaiting(es) && DeqWaiting(ds);
    }

    /** The critical section, and then the waiters it took off the queue. */
    method ForceEnqueueAndHand(vs: seq<T>) returns (handed: seq<(DequeueOp<T>, T)>)
      requires Valid() && vs != [] && !endMarked
      modifies this, deq, deq.live
      ensures Valid() && (old(FullWhileWaiting()) ==> FullWhileWaiting())
      ensures (Abs(), handed) == Match(old(Abs()).(items := old(items) + vs))
      ensures |handed| <= |old(deq.live)| && forall k :: 0 <= k < |handed| ==>
        old(deq.live)[k].r == Some(Ok(handed[k].1)) && old(deq.live)[k].resumes == old(deq.live[k].resumes) + 1
    {
      ghost var ds := deq.live;
      handed := ForceEnqueueLocked(vs);
      if handed != [] { CompleteFront(handed, ds); }
    }

    method ForceEnqueueRange(vs: seq<T>) returns (e: Option<Errc>)
      requires Valid()
      modifies this, deq, deq.live
      ensures Valid() && (old(FullWhileWaiting()) ==> FullWhileWaiting())
      ensures Abs() == ForceEnqueueStep(old(Abs()), vs).0
      ensures match ForceEnqueueStep(old(Abs()), vs).1
        case Err(x) => e == Some(x)
        case Ok(handed) => e == None && |handed| <= |old(deq.live)| && forall k :: 0 <= k < |handed| ==>
          old(deq.live)[k].r == Some(Ok(handed[k].1)) && old(deq.live)[k].resumes == old(deq.live[k].resumes) + 1
    {
      if vs == [] {
        return None;
      }
      if endMarked {
        return Some(EndReached);
      }
      var handed := ForceEnqueueAndHand(vs);
      return None;
    }

    /** The critical section of `force_dequeue_all`: takes every item, then refills up to the capacity. */
    method ForceDequeueLocked() returns (out: seq<T>, waiters: seq<EnqueueOp<T>>)
      requires Valid() && items != []
      modifies this, enq
      ensures Valid() && FullWhileWaiting()
      ensures out == old(items) && (Abs(), waiters) == Refill(old(Abs()).(items := []))
      ensures old(enq.live) == waiters + enq.live && deq.live == []
    {
      ghost var es := enq.live;
      dequeueTotal := dequeueTotal + 1;
      out := items;
      items := [];
      waiters := AdmitEnqueuers();
      DistinctParts(es, waiters, enq.live);
      assert EnqWaiting(es);
    }

    method ForceDequeueAll() returns (r: Result<seq<T>, Errc>)
      requires Valid()
      modifies this, enq, enq.live
      ensures Valid() && (old(FullWhileWaiting()) ==> FullWhileWaiting())
      ensures Abs() == ForceDequeueStep(old(Abs())).0
      ensures match ForceDequeueStep(old(Abs())).1
        case Err(x) => r == Err(x)
        case Ok(out) => r == Ok(out.0) && |out.1| <= |old(enq.live)| && forall k :: 0 <= k < |out.1| ==>
          old(enq.live)[k].r == Some(Ok(())) && old(enq.live)[k].resumes == old(enq.live[k].resumes) + 1
    {
      if items == [] {
        return if endMarked then Err(EndReached) else Ok([]);
      }
      ghost var es := enq.live;
      var out, waiters := ForceDequeueLocked();
      DistinctParts(es, waiters, enq.live);
      AcceptAll(waiters);
      return Ok(out);
    }
  }
}
