/** `res_pool` and its acquire ops, as objects, proved against `PoolSpec`. */
module ResPools {
  import opened Base
  import opened Sequences
  import opened WaiterQueues
  import opened PoolSpec

  class AcquireOp {
    var r: Option<Result<nat, Errc>>
    var cont: bool
    var resumes: nat

    constructor ()
      ensures Idle() && resumes == 0
    {
      r, cont, resumes := None, false, 0;
    }

    ghost predicate Idle() reads this { r.None? && !cont }

    ghost predicate Waiting() reads this { r.None? && cont }

    /** `complete` and `complete_on_cancellation`. */
    method Complete(res: Result<nat, Errc>)
      requires Waiting()
      modifies this
      ensures r == Some(res) && !cont && resumes == old(resumes) + 1
    {
      r := Some(res);
      cont := false;
      resumes := resumes + 1;
    }
  }

  ghost predicate AllWaiting(ops: seq<AcquireOp>)
    reads ops
  {
    && (forall o :: o in ops ==> o.Waiting())
    && Distinct(ops)
  }

  class ResPool {
    var cap: nat
    var unused: seq<nat>
    var inuse: seq<nat>
    var created: nat
    const waiters: WaiterQueue<AcquireOp>

    ghost function Abs(): Pool<AcquireOp>
      reads this, waiters
    {
      Pool(cap, unused, inuse, created, waiters.live)
    }

    ghost predicate Valid()
      reads this, waiters, waiters.live
    {
      waiters.Valid() && WithinCapacity(Abs()) && AllWaiting(waiters.live)
    }

    /** Any entry of the deque, cancelled or not, means that nothing is left to hand out. */
    ghost predicate ExhaustedWhileQueued()
      reads this, waiters
    {
      waiters.entries != [] ==> unused == [] && |inuse| == cap
    }

    constructor (cap: nat)
      requires cap > 0
      ensures Valid() && ExhaustedWhileQueued() && Abs() == Pool(cap, [], [], 0, []) && fresh(waiters)
    {
      this.cap, unused, inuse, created := cap, [], [], 0;
      waiters := new WaiterQueue();
    }

    method TryAcquire() returns (r: Result<nat, Errc>)
      requires Valid()
      modifies this
      ensures Valid() && (old(ExhaustedWhileQueued()) ==> ExhaustedWhileQueued())
      ensures Abs() == AcquireStep(old(Abs())).0
      ensures r == match AcquireStep(old(Abs())).1 case Some(res) => Ok(res) case None => Err(ResourceUnavailable)
    {
      if unused == [] {
        if |inuse| < cap {
          unused := [created] + unused;
          created := created + 1;
        } else {
          return Err(ResourceUnavailable);
        }
      }
      var res := unused[0];
      inuse := [res] + inuse;
      unused := unused[1..];
      return Ok(res);
    }

    method InitiateAcquire(op: AcquireOp, stopRequested: bool) returns (pending: bool)
      requires Valid() && op.Idle()
      modifies this, waiters, op
      ensures Valid() && (old(ExhaustedWhileQueued()) ==> ExhaustedWhileQueued())
      ensures stopRequested ==> !pending && op.r == Some(Err(Canceled)) && Abs() == old(Abs())
      ensures !stopRequested ==> match AcquireStep(old(Abs())).1
        case Some(res) => !pending && op.r == Some(Ok(res)) && Abs() == AcquireStep(old(Abs())).0
        case None => pending && op.Waiting() && Abs() == old(Abs()).(waiters := old(waiters.live) + [op])
    {
      if stopRequested {
        op.r := Some(Err(Canceled));
        return false;
      }
      ghost var ops := waiters.live;
      assert op !in ops;
      var r := TryAcquire();
      if r.Ok? {
        op.r := Some(r);
        return false;
      }
      op.cont := true;
      waiters.Add(op);
      return true;
    }

    /** `recycle`: the resource goes to the oldest live waiter, or back to the unused ones. */
    method Recycle(res: nat)
      requires Valid() && res in inuse
      modifies this, waiters, waiters.live
      ensures Valid() && (old(ExhaustedWhileQueued()) ==> ExhaustedWhileQueued())
      ensures Abs() == RecycleStep(old(Abs()), res).0
      ensures old(waiters.live) != [] ==>
        old(waiters.live)[0].r == Some(Ok(res)) && old(waiters.live)[0].resumes == old(waiters.live[0].resumes) + 1
      ensures old(waiters.live) == [] ==> waiters.entries == []
    {
      ghost var ops := waiters.live;
      var w := waiters.TakeOldest();
      if w == None {
        WithoutIsCut(inuse, res);
        inuse := Without(inuse, res);
        unused := [res] + unused;
        return;
      }
      assert forall o :: o in ops[1..] ==> o in ops && o != ops[0];
      w.value.Complete(Ok(res));
    }

    method Cancel(op: AcquireOp)
      requires Valid()
      modifies waiters, op
      ensures Valid() && (old(ExhaustedWhileQueued()) ==> ExhaustedWhileQueued())
      ensures op in old(waiters.live) ==> op.r == Some(Err(Canceled)) && op.resumes == old(op.resumes) + 1
      ensures op in old(waiters.live) ==> Abs() == old(Abs()).(waiters := Without(old(waiters.live), op))
      ensures op !in old(waiters.live) ==> unchanged(op) && Abs() == old(Abs())
    {
      ghost var ops := waiters.live;
      var found := waiters.Erase(op);
      if found {
        WithoutIs(ops, op);
        op.Complete(Err(Canceled));
      }
    }

    method CreateAll()
      requires Valid()
      modifies this
      ensures Valid() && (old(ExhaustedWhileQueued()) ==> ExhaustedWhileQueued())
      ensures Abs() == CreateAllStep(old(Abs()))
    {
      ghost var first := created;
      var n := cap - |unused| - |inuse|;
      assert Descending(first, first) + unused == unused;
      while n > 0
        invariant created == first + old(cap - |unused| - |inuse|) - n && cap == old(cap) && inuse == old(inuse)
        invariant unused == Descending(first, created) + old(unused) && |unused| + |inuse| + n == cap && n >= 0
      {
        n := n - 1;
        unused := [created] + unused;
        created := created + 1;
        assert unused == Descending(first, created) + old(unused);
      }
    }

    method ClearUnused()
      requires Valid()
      modifies this
      ensures Valid() && Abs() == old(Abs()).(unused := [])
      ensures old(ExhaustedWhileQueued()) ==> ExhaustedWhileQueued()
    {
      unused := [];
    }

    /** Wakes nobody, as in `res_queue`. */
    method SetCapacity(n: nat)
      requires Valid() && n >= |unused| + |inuse|
      modifies this
      ensures Valid() && Abs() == old(Abs()).(cap := n)
    {
      cap := n;
    }

    /** The assertions of the destructor hold as soon as every resource is back, unless the capacity is 0. */
    lemma {:induction false} DestructorHolds()
      requires Valid() && ExhaustedWhileQueued() && inuse == []
      ensures waiters.entries == [] || cap == 0
    {
    }
  }
}
