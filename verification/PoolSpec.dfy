/** The sequential specification of `res_pool`: what each critical section does to the two resource lists
    and to the ops that are still waiting. Resources are numbered as they are created. */
module PoolSpec {
  import opened Base
  import opened Sequences

  datatype Pool<W> = Pool(cap: nat, unused: seq<nat>, inuse: seq<nat>, created: nat, waiters: seq<W>)

  /** `try_acquire`: creates a resource only when none is unused and there is room for one more. */
  function AcquireStep<W>(p: Pool<W>): (Pool<W>, Option<nat>) {
    if p.unused != [] then (p.(unused := p.unused[1..], inuse := [p.unused[0]] + p.inuse), Some(p.unused[0]))
    else if |p.inuse| < p.cap then (p.(inuse := [p.created] + p.inuse, created := p.created + 1), Some(p.created))
    else (p, None)
  }

  /** `recycle`: to the oldest live waiter, which is returned, or back to the unused list. */
  function RecycleStep<W>(p: Pool<W>, res: nat): (Pool<W>, Option<W>) {
    if p.waiters == [] then (p.(inuse := Without(p.inuse, res), unused := [res] + p.unused), None)
    else (p.(waiters := p.waiters[1..]), Some(p.waiters[0]))
  }

  /** The ids from `k - 1` down to `from`. */
  function Descending(from: nat, k: nat): seq<nat>
    requires from <= k
  {
    if from == k then [] else [k - 1] + Descending(from, k - 1)
  }

  function CreateAllStep<W>(p: Pool<W>): Pool<W>
    requires |p.unused| + |p.inuse| <= p.cap
  {
    var k := p.created + p.cap - |p.unused| - |p.inuse|;
    p.(unused := Descending(p.created, k) + p.unused, created := k)
  }

  predicate WithinCapacity<W>(p: Pool<W>) { |p.unused| + |p.inuse| <= p.cap }

  /** Somebody waits only when every resource the capacity allows is in use. */
  predicate WaitsOnlyWhenExhausted<W>(p: Pool<W>) { |p.waiters| > 0 ==> |p.unused| == 0 && |p.inuse| == p.cap }
}
