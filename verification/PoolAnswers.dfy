/** What `res_pool` answers: which resource an acquire gets, who gets a recycled one, and what `create_all` adds. */
module PoolAnswers {
  import opened Base
  import opened Sequences
  import opened PoolSpec
  import opened PoolRuns

  // ----- the sequential specification

  /** An acquire takes the first unused resource; only without one does it create the next, and only within the
      capacity. The resource becomes the first in use, and nothing else changes. */
  lemma {:induction false} AcquireAnswers<W>(p: Pool<W>)
    ensures var (p', r) := AcquireStep(p);
      match r
      case None => p' == p && p.unused == [] && |p.inuse| >= p.cap
      case Some(x) =>
        && p'.inuse == [x] + p.inuse && p'.cap == p.cap && p'.waiters == p.waiters
        && (if p.unused != [] then [x] + p'.unused == p.unused && p'.created == p.created
            else p'.unused == [] && |p.inuse| < p.cap && x == p.created && p'.created == x + 1)
  {
  }

  /** A recycled resource stays in use with the oldest waiting op, or becomes the first unused one. */
  lemma {:induction false} RecycleAnswers<W>(p: Pool<W>, res: nat)
    requires Distinct(p.inuse) && res in p.inuse
    ensures var (p', w) := RecycleStep(p, res);
      && p'.cap == p.cap && p'.created == p.created
      && (match w
          case Some(op) => [op] + p'.waiters == p.waiters && p'.inuse == p.inuse && p'.unused == p.unused
          case None =>
            && p.waiters == p'.waiters == [] && p'.unused == [res] + p.unused
            && |p'.inuse| == |p.inuse| - 1 && forall x :: x in p'.inuse <==> x in p.inuse && x != res)
  {
    WithoutIs(p.inuse, res);
  }

  /** What was recycled last is acquired first. */
  lemma {:induction false} RecycledLastIn<W>(p: Pool<W>, res: nat)
    requires p.waiters == []
    ensures var (p', r) := AcquireStep(RecycleStep(p, res).0);
      r == Some(res) && p' == p.(inuse := [res] + Without(p.inuse, res))
  {
    assert ([res] + p.unused)[1..] == p.unused;
  }

  /** `create_all` fills the pool exactly, with resources that are new and unused. */
  lemma {:induction false} CreateAllAnswers<W>(p: Pool<W>) returns (made: seq<nat>)
    requires WithinCapacity(p)
    ensures var p' := CreateAllStep(p);
      && |p'.unused| + |p'.inuse| == p.cap && p' == p.(unused := made + p.unused, created := p.created + |made|)
      && (forall k :: 0 <= k < |made| ==> made[k] == p.created + |made| - 1 - k)
  {
    made := Descending(p.created, CreateAllStep(p).created);
    DescendingIs(p.created, CreateAllStep(p).created);
  }

  // ----- runs

  /** In a run the caller gets the very resource of the specification, in its reference or in its op; without one
      `try_acquire` changes nothing, and an op that waits is the last in the queue. */
  lemma {:induction false} AcquireAnswer(s: Sys, r: nat)
    requires Inv(s) && r !in s.refs
    ensures var t, u := Step(s, TryAcquire(r)), Step(s, InitAcquire(false));
      match AcquireStep(s.pool)
      case (p, Some(x)) =>
        && t.pool == u.pool == p && t.ops == s.ops && t.refs == s.refs[r := x]
        && u.refs == s.refs && u.ops == s.ops + [Has(x)]
        && (s.pool.unused != [] ==> |t.place| == |u.place| == |s.place|)
      case (_, None) =>
        && t == s && u.ops == s.ops + [Waiting] && u.refs == s.refs && u.place == s.place
        && u.pool == s.pool.(waiters := s.pool.waiters + [|s.ops|])
  {
  }

  /** In a run `create_all` adds as many resources as the capacity leaves room for, and hands none out. */
  lemma {:induction false} CreateAllAnswer(s: Sys)
    requires Inv(s)
    ensures var t := Step(s, CreateAll);
      && |t.pool.unused| + |t.pool.inuse| == s.pool.cap && t.ops == s.ops && t.refs == s.refs
      && |t.place| == |s.place| + s.pool.cap - |s.pool.unused| - |s.pool.inuse|
      && t.pool.inuse == s.pool.inuse && t.pool.waiters == s.pool.waiters
  {
    var _ := CreateAllAnswers(s.pool);
  }

  /** Moving a reference hands its resource on and leaves it without one; the pool does not notice. */
  lemma {:induction false} MoveAnswer(s: Sys, src: nat, dst: nat)
    requires Inv(s) && Enabled(s, MoveConstruct(src, dst)) && src in s.refs
    ensures var t := Step(s, MoveConstruct(src, dst));
      t.pool == s.pool && t.ops == s.ops && src !in t.refs && dst in t.refs && t.refs[dst] == s.refs[src]
      && t.refs.Keys == s.refs.Keys - {src} + {dst} && forall r :: r in s.refs && r != src ==> t.refs[r] == s.refs[r]
  {
  }

  /** Assigning to a reference gives back what it held, as `recycle` does, and then moves; to itself it changes
      nothing. */
  lemma {:induction false} AssignAnswer(s: Sys, src: nat, dst: nat)
    requires Inv(s) && src in s.refs && dst in s.refs
    ensures var t := Step(s, MoveAssign(src, dst)); var (pool, w) := RecycleStep(s.pool, s.refs[dst]);
      if src == dst then t == s
      else
        && t.pool == pool && t.refs == (s.refs - {src})[dst := s.refs[src]]
        && (match w
            case Some(id) => id < |s.ops| && t.ops == s.ops[id := Given(s.refs[dst])]
            case None => t.ops == s.ops)
  {
    if src != dst {
      DropRefKeeps(s, dst);
      assert (s.refs - {dst} - {src})[dst := s.refs[src]] == (s.refs - {src})[dst := s.refs[src]];
    }
  }
}
