/** The sequential specification of `res_queue`: what each critical section does to the items and to the
    ops that are still waiting. Tombstones do not appear. `E` and `D` name enqueue and dequeue ops. */
module QueueSpec {
  import opened Base

  datatype Queue<E, D, T> = Queue(cap: nat, ended: bool, items: seq<T>, enq: seq<(E, T)>, deq: seq<D>)

  /** The joint waiter invariant, on live waiters. */
  predicate Joint<E, D, T>(q: Queue<E, D, T>) {
    && q.cap > 0
    && (|q.items| == 0 ==> |q.enq| == 0)
    && (|q.items| > 0 ==> |q.deq| == 0)
    && (q.ended ==> |q.deq| == 0)
  }

  /** Nobody waits to enqueue while there is room. */
  predicate WaitsOnlyWhenFull<E, D, T>(q: Queue<E, D, T>) {
    |q.enq| > 0 ==> |q.items| >= q.cap
  }

  /** `try_enqueue_no_lock`: the waiting dequeuer to hand `v` to, if any. */
  function EnqueueStep<E, D, T>(q: Queue<E, D, T>, v: T): (Queue<E, D, T>, Result<Option<D>, Errc>) {
    if q.ended then (q, Err(EndReached))
    else if |q.items| >= q.cap then (q, Err(OutOfCapacity))
    else if q.deq != [] then (q.(deq := q.deq[1..]), Ok(Some(q.deq[0])))
    else (q.(items := q.items + [v]), Ok(None))
  }

  /** `try_dequeue_no_lock`: the item, and the enqueuer whose item took its place. */
  function DequeueStep<E, D, T>(q: Queue<E, D, T>): (Queue<E, D, T>, Result<(Option<E>, T), Errc>) {
    if q.items == [] then (q, Err(if q.ended then EndReached else ResourceUnavailable))
    else if q.enq == [] then (q.(items := q.items[1..]), Ok((None, q.items[0])))
    else (q.(items := q.items[1..] + [q.enq[0].1], enq := q.enq[1..]), Ok((Some(q.enq[0].0), q.items[0])))
  }

  /** What the caller of an enqueue or dequeue that does not wait is told. */
  function EnqueueResult<E, D, T>(q: Queue<E, D, T>, v: T): Result<(), Errc> {
    match EnqueueStep(q, v).1 case Err(e) => Err(e) case Ok(_) => Ok(())
  }

  function DequeueResult<E, D, T>(q: Queue<E, D, T>): Result<T, Errc> {
    match DequeueStep(q).1 case Err(e) => Err(e) case Ok(out) => Ok(out.1)
  }

  function Min(a: nat, b: nat): nat { if a <= b then a else b }

  /** Hands the front items to the oldest dequeuers, pairwise, for as long as there are both. */
  function Match<E, D, T>(q: Queue<E, D, T>): (Queue<E, D, T>, seq<(D, T)>) {
    var k := Min(|q.items|, |q.deq|);
    (q.(items := q.items[k..], deq := q.deq[k..]),
     seq(k, i requires 0 <= i < k => (q.deq[i], q.items[i])))
  }

  /** Moves in the items of the oldest enqueuers for as long as there is room. */
  function Refill<E, D, T>(q: Queue<E, D, T>): (Queue<E, D, T>, seq<E>) {
    var k := Min(|q.enq|, if |q.items| < q.cap then q.cap - |q.items| else 0);
    (q.(items := q.items + seq(k, i requires 0 <= i < k => q.enq[i].1), enq := q.enq[k..]),
     seq(k, i requires 0 <= i < k => q.enq[i].0))
  }

  lemma {:induction false} RefillIs<E, D, T>(q: Queue<E, D, T>, k: nat, items: seq<T>, ids: seq<E>)
    requires q.items == [] && k == Min(|q.enq|, q.cap) && |items| == |ids| == k
    requires forall j :: 0 <= j < k ==> items[j] == q.enq[j].1 && ids[j] == q.enq[j].0
    ensures Refill(q) == (q.(items := items, enq := q.enq[k..]), ids)
  {
    assert Refill(q).0.items == items && Refill(q).1 == ids;
  }

  lemma {:induction false} MatchStep<E, D, T>(q: Queue<E, D, T>)
    requires q.items != [] && q.deq != []
    ensures Match(q).0 == Match(q.(items := q.items[1..], deq := q.deq[1..])).0
  {
  }

  lemma {:induction false} RefillStep<E, D, T>(q: Queue<E, D, T>)
    requires q.enq != [] && |q.items| < q.cap
    ensures Refill(q).0 == Refill(q.(items := q.items + [q.enq[0].1], enq := q.enq[1..])).0
  {
    var q' := q.(items := q.items + [q.enq[0].1], enq := q.enq[1..]);
    assert Refill(q).0.items == Refill(q').0.items;
  }

  lemma {:induction false} RefillNone<E, D, T>(q: Queue<E, D, T>)
    requires q.enq == [] || |q.items| >= q.cap
    ensures Refill(q).0 == q
  {
    assert Refill(q).0.items == q.items;
  }

  function ForceEnqueueStep<E, D, T>(q: Queue<E, D, T>, vs: seq<T>)
    : (Queue<E, D, T>, Result<seq<(D, T)>, Errc>)
  {
    if vs == [] then (q, Ok([]))
    else if q.ended then (q, Err(EndReached))
    else var (q', handed) := Match(q.(items := q.items + vs)); (q', Ok(handed))
  }

  function ForceDequeueStep<E, D, T>(q: Queue<E, D, T>): (Queue<E, D, T>, Result<(seq<T>, seq<E>), Errc>) {
    if q.items == [] then (q, if q.ended then Err(EndReached) else Ok(([], [])))
    else var (q', admitted) := Refill(q.(items := [])); (q', Ok((q.items, admitted)))
  }

  function MarkEndStep<E, D, T>(q: Queue<E, D, T>): (Queue<E, D, T>, seq<D>) {
    if q.ended then (q, []) else (q.(ended := true, deq := []), q.deq)
  }
}
