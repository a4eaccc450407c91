/** What `res_queue` answers: who gets which item, and what callers are told, in the sequential specification and in
    every step of a run. */
module QueueAnswers {
  import opened Base
  import opened QueueSpec
  import opened QueueRuns

  // ----- the sequential specification

  function Ids<E, T>(enq: seq<(E, T)>): seq<E> { seq(|enq|, k requires 0 <= k < |enq| => enq[k].0) }

  function Brought<E, T>(enq: seq<(E, T)>): seq<T> { seq(|enq|, k requires 0 <= k < |enq| => enq[k].1) }

  /** A dequeue gives out the front item, and the item of the oldest enqueuer takes the place at the end. Without
      an item it changes nothing, and the end is told apart from mere emptiness. */
  lemma {:induction false} DequeueTakesFront<E, D, T>(q: Queue<E, D, T>)
    ensures var (q', r) := DequeueStep(q);
      match r
      case Err(e) => q' == q && q.items == [] && e == (if q.ended then EndReached else ResourceUnavailable)
      case Ok((w, v)) =>
        && q' == q.(items := q'.items, enq := q'.enq)
        && (match w
            case None => q.enq == q'.enq == [] && [v] + q'.items == q.items
            case Some(id) =>
              q.enq != [] && q.enq[0].0 == id && [q.enq[0]] + q'.enq == q.enq
              && [v] + q'.items == q.items + [q.enq[0].1])
  {
  }

  /** An accepted item goes to the oldest waiting dequeuer, or else behind the others. A marked end turns everyone
      down, then a full queue. */
  lemma {:induction false} EnqueueAppends<E, D, T>(q: Queue<E, D, T>, v: T)
    ensures var (q', r) := EnqueueStep(q, v);
      match r
      case Err(e) => q' == q && (q.ended || |q.items| >= q.cap) && e == (if q.ended then EndReached else OutOfCapacity)
      case Ok(w) =>
        && !q.ended && |q.items| < q.cap
        && (match w
            case None => q.deq == [] && q' == q.(items := q'.items) && q.items + [v] == q'.items
            case Some(d) => q' == q.(deq := q'.deq) && [d] + q'.deq == q.deq)
  {
  }

  /** Items and dequeuers are paired from the front of both, until one of them is used up. */
  lemma {:induction false} MatchPairs<E, D, T>(q: Queue<E, D, T>)
    ensures var (q', pairs) := Match(q);
      && q' == q.(items := q'.items, deq := q'.deq) && (q'.items == [] || q'.deq == [])
      && Brought(pairs) + q'.items == q.items && Ids(pairs) + q'.deq == q.deq
  {
    var (q', pairs) := Match(q);
    var k := Min(|q.items|, |q.deq|);
    assert q.items == q.items[..k] + q.items[k..] && q.deq == q.deq[..k] + q.deq[k..];
    assert Brought(pairs) == q.items[..k] && Ids(pairs) == q.deq[..k];
  }

  /** The oldest enqueuers are admitted, in order, until there are no more or the queue is full. */
  lemma {:induction false} RefillAdmits<E, D, T>(q: Queue<E, D, T>) returns (moved: seq<(E, T)>)
    ensures var (q', admitted) := Refill(q);
      && q' == q.(items := q'.items, enq := q'.enq) && admitted == Ids(moved)
      && moved + q'.enq == q.enq && q'.items == q.items + Brought(moved)
      && (q'.enq == [] || |q'.items| >= q.cap) && (moved != [] ==> |q'.items| <= q.cap)
  {
    var k := |Refill(q).1|;
    moved := q.enq[..k];
    assert moved + q.enq[k..] == q.enq;
    assert Refill(q).1 == Ids(moved) && Refill(q).0.items == q.items + Brought(moved);
  }

  /** All items come in behind the others and dequeuers are served in order; an empty range is no error, and
      otherwise a marked end is. */
  lemma {:induction false} ForceEnqueueAnswers<E, D, T>(q: Queue<E, D, T>, vs: seq<T>)
    ensures var (q', r) := ForceEnqueueStep(q, vs);
      match r
      case Err(e) => q' == q && vs != [] && q.ended && e == EndReached
      case Ok(pairs) =>
        && (vs == [] || !q.ended) && (vs == [] ==> q' == q && pairs == [])
        && q' == q.(items := q'.items, deq := q'.deq)
        && Brought(pairs) + q'.items == q.items + vs && Ids(pairs) + q'.deq == q.deq
        && (vs != [] ==> q'.items == [] || q'.deq == [])
  {
    if vs == [] {
      assert Brought<D, T>([]) + q.items == q.items + vs && Ids<D, T>([]) + q.deq == q.deq;
    } else {
      MatchPairs(q.(items := q.items + vs));
    }
  }

  /** Every item goes out, in order, and the oldest enqueuers are admitted. With nothing to give, a marked end is
      told and otherwise nothing is. */
  lemma {:induction false} ForceDequeueAnswers<E, D, T>(q: Queue<E, D, T>) returns (moved: seq<(E, T)>)
    ensures var (q', r) := ForceDequeueStep(q);
      match r
      case Err(e) => q' == q && q.items == [] && q.ended && e == EndReached
      case Ok((out, admitted)) =>
        && out == q.items && (out == [] ==> q' == q && admitted == [] && !q.ended)
        && (out != [] ==>
              && admitted == Ids(moved) && moved + q'.enq == q.enq && q'.items == Brought(moved)
              && q' == q.(items := q'.items, enq := q'.enq) && (q'.enq == [] || |q'.items| >= q.cap)
              && |q'.items| <= q.cap)
  {
    if q.items == [] {
      moved := [];
    } else {
      moved := RefillAdmits(q.(items := []));
      assert Refill(q.(items := [])).0.items == Brought(moved);
    }
  }

  /** The first end mark names every waiting dequeuer, later ones nobody. */
  lemma {:induction false} MarkEndAnswers<E, D, T>(q: Queue<E, D, T>)
    ensures var (q', told) := MarkEndStep(q);
      q'.ended && told + q'.deq == q.deq && q' == q.(ended := true, deq := q'.deq) && (!q.ended ==> q'.deq == [])
      && (q.ended ==> told == [])
  {
    if q.ended { assert [] + q.deq == q.deq; } else { assert q.deq + [] == q.deq; }
  }

  // ----- runs

  /** `ops` once these have been decided, one after the other. */
  function Settled<T>(ops: seq<Op<T>>, done: seq<(nat, Res<T>)>): seq<Op<T>>
    requires forall k :: 0 <= k < |done| ==> done[k].0 < |ops|
    decreases |done|
  {
    if done == [] then ops else Settled(ops[done[0].0 := ops[done[0].0].(phase := Decided(done[0].1))], done[1..])
  }

  /** The results of dequeuers that get these items, and what the log of the items taken out says of it. */
  function Gots<T>(pairs: seq<(nat, T)>): (r: seq<(nat, Res<T>)>)
    ensures |r| == |pairs| && forall k :: 0 <= k < |r| ==> r[k].0 == pairs[k].0
  {
    if pairs == [] then [] else [(pairs[0].0, Got(pairs[0].1))] + Gots(pairs[1..])
  }

  function Entries<T>(pairs: seq<(nat, T)>): seq<(Party, T)> {
    if pairs == [] then [] else [(Of(pairs[0].0), pairs[0].1)] + Entries(pairs[1..])
  }

  function Alike<T>(ids: seq<nat>, res: Res<T>): (r: seq<(nat, Res<T>)>)
    ensures |r| == |ids| && forall k :: 0 <= k < |r| ==> r[k].0 == ids[k]
  {
    if ids == [] then [] else [(ids[0], res)] + Alike(ids[1..], res)
  }

  function BySync<T>(vs: seq<T>): seq<(Party, T)> {
    if vs == [] then [] else [(Sync, vs[0])] + BySync(vs[1..])
  }

  /** The one waiting enqueuer whose item moved in, if any, has been accepted; the others are as they were. */
  ghost predicate Admits<T>(s: Sys<T>, t: Sys<T>, w: Option<nat>) {
    |t.ops| >= |s.ops| &&
    match w
    case None => t.ops[..|s.ops|] == s.ops && t.ins == s.ins
    case Some(id) =>
      && id < |s.ops| && s.ops[id].kind.Enq? && s.ops[id].phase.Waiting?
      && t.ops[..|s.ops|] == s.ops[id := s.ops[id].(phase := Decided(Accepted))]
      && t.ins == s.ins + [(Of(id), s.ops[id].kind.v)]
  }

  /** The one waiting dequeuer that was handed the item, if any, has it; the others are as they were. */
  ghost predicate Hands<T>(s: Sys<T>, t: Sys<T>, w: Option<nat>, v: T) {
    |t.ops| >= |s.ops| &&
    match w
    case None => t.ops[..|s.ops|] == s.ops && t.outs == s.outs
    case Some(d) =>
      && d < |s.ops| && s.ops[d] == Op(Deq, Waiting)
      && t.ops[..|s.ops|] == s.ops[d := s.ops[d].(phase := Decided(Got(v)))]
      && t.outs == s.outs + [(Of(d), v)]
  }

  function Named<E, T>(r: Result<(Option<E>, T), Errc>): Option<E> {
    match r case Ok(out) => out.0 case Err(_) => None
  }

  /** A dequeuer that is initiated gets the very item of the specification, waits if that has none, and is told the
      end otherwise; and the enqueuer the specification names, and nobody else, is accepted. */
  lemma {:induction false} InitDeqAnswer<T>(s: Sys<T>)
    requires Inv(s)
    ensures var t, id := Step(s, InitDeq(false)), |s.ops|;
      && |t.ops| == id + 1 && t.ops[id].kind == Deq
      && (match DequeueResult(s.q)
          case Ok(v) => t.ops[id].Outcome() == Some(Got(v)) && t.outs == s.outs + [(Of(id), v)]
          case Err(ResourceUnavailable) => t.ops[id].phase == Waiting && t.outs == s.outs
          case Err(e) => t.ops[id].Outcome() == Some(Fails(e)) && t.outs == s.outs)
      && Admits(s, t, Named(DequeueStep(s.q).1))
  {
    if s.q.items != [] && s.q.enq != [] {
      assert s.ops[s.q.enq[0].0] == Op(Enq(s.q.enq[0].1), Waiting);
    }
  }

  /** `try_dequeue` in a run: one item goes out exactly if the specification yields it. */
  lemma {:induction false} TryDeqAnswer<T>(s: Sys<T>)
    requires Inv(s)
    ensures var t := Step(s, TryDeq);
      && |t.ops| == |s.ops|
      && (match DequeueResult(s.q)
          case Ok(v) => t.outs == s.outs + [(Sync, v)]
          case Err(_) => t == s)
      && Admits(s, t, Named(DequeueStep(s.q).1))
  {
    if s.q.items != [] && s.q.enq != [] {
      assert s.ops[s.q.enq[0].0] == Op(Enq(s.q.enq[0].1), Waiting);
    }
  }

  /** An enqueuer that is initiated is accepted or waits or is turned down exactly as the specification says. */
  lemma {:induction false} InitEnqAnswer<T>(s: Sys<T>, v: T)
    requires Inv(s)
    ensures var t, id := Step(s, InitEnq(v, false)), |s.ops|;
      && |t.ops| == id + 1 && t.ops[id].kind == Enq(v)
      && (match EnqueueStep(s.q, v).1
          case Ok(w) =>
            && t.ops[id].Outcome() == Some(Accepted) && t.ins == s.ins + [(Of(id), v)] && Hands(s, t, w, v)
          case Err(OutOfCapacity) => t.ops[id].phase == Waiting && t.ins == s.ins && Hands(s, t, None, v)
          case Err(e) => t.ops[id].Outcome() == Some(Fails(e)) && t.ins == s.ins && Hands(s, t, None, v))
  {
    if EnqueueStep(s.q, v).1.Ok? {
      AdmitNewKeeps(s, v);
      ServeOne(AdmitNew(s, v), v);
    }
  }

  lemma {:induction false} TryEnqAnswer<T>(s: Sys<T>, v: T)
    requires Inv(s)
    ensures var t := Step(s, TryEnq(v));
      && |t.ops| == |s.ops|
      && (match EnqueueStep(s.q, v).1
          case Ok(w) => t.ins == s.ins + [(Sync, v)] && Hands(s, t, w, v)
          case Err(_) => t == s)
  {
    if EnqueueStep(s.q, v).1.Ok? {
      AdmitKeeps(s, v);
      ServeOne(Admit(s, v), v);
    }
  }

  lemma {:induction false} ServeOne<T>(s: Sys<T>, v: T)
    requires Core(s) && s.q.items != [] && (s.q.deq != [] ==> s.q.items == [v])
    ensures s.q.deq == [] ==> Serve(s) == s
    ensures s.q.deq != [] ==>
      var d := s.q.deq[0];
      && s.ops[d] == Op(Deq, Waiting)
      && Serve(s).ops == s.ops[d := s.ops[d].(phase := Decided(Got(v)))] && Serve(s).ins == s.ins
      && Serve(s).outs == s.outs + [(Of(d), v)]
  {
    if s.q.deq != [] { assert Serve(HandOff(s)) == HandOff(s); }
  }

  lemma {:induction false} MatchTail<E, D, T>(q: Queue<E, D, T>)
    requires q.items != [] && q.deq != []
    ensures Match(q).1 == [(q.deq[0], q.items[0])] + Match(q.(items := q.items[1..], deq := q.deq[1..])).1
  {
  }

  lemma {:induction false} OneEntry<T>(log: seq<(Party, T)>, id: nat, v: T, rest: seq<(nat, T)>)
    ensures Gots([(id, v)] + rest) == [(id, Got(v))] + Gots(rest)
    ensures log + Entries([(id, v)] + rest) == log + [(Of(id), v)] + Entries(rest)
  {
    assert ([(id, v)] + rest)[1..] == rest;
  }

  /** Serving decides the very pairs of the specification, in order. */
  lemma {:induction false} ServeAnswers<T>(s: Sys<T>)
    requires Core(s)
    ensures var pairs := Match(s.q).1;
      && (forall k :: 0 <= k < |pairs| ==> pairs[k].0 < |s.ops|) && Serve(s).ins == s.ins
      && Serve(s).ops == Settled(s.ops, Gots(pairs)) && Serve(s).outs == s.outs + Entries(pairs)
    decreases |s.q.deq|
  {
    if s.q.items != [] && s.q.deq != [] {
      HandOffKeeps(s);
      ServeAnswers(HandOff(s));
      MatchTail(s.q);
      var rest := Match(HandOff(s).q).1;
      OneEntry(s.outs, s.q.deq[0], s.q.items[0], rest);
      assert ([(s.q.deq[0], Got(s.q.items[0]))] + Gots(rest))[1..] == Gots(rest);
    } else {
      assert s.outs + Entries<T>([]) == s.outs;
    }
  }

  lemma {:induction false} RefillTail<E, D, T>(q: Queue<E, D, T>)
    requires q.enq != [] && |q.items| < q.cap
    ensures var q' := q.(items := q.items + [q.enq[0].1], enq := q.enq[1..]);
      Refill(q).1 == [q.enq[0].0] + Refill(q').1
  {
  }

  lemma {:induction false} OneAlike<T>(id: nat, rest: seq<nat>, res: Res<T>)
    ensures Alike([id] + rest, res) == [(id, res)] + Alike(rest, res)
    ensures ([(id, res)] + Alike(rest, res))[1..] == Alike(rest, res)
  {
    assert ([id] + rest)[1..] == rest;
  }

  lemma {:induction false} FillAnswers<T>(s: Sys<T>)
    requires Core(s)
    ensures var ids := Refill(s.q).1;
      && (forall k :: 0 <= k < |ids| ==> ids[k] < |s.ops|) && Fill(s).outs == s.outs
      && Fill(s).ops == Settled(s.ops, Alike(ids, Accepted))
    decreases |s.q.enq|
  {
    if s.q.enq != [] && |s.q.items| < s.q.cap {
      MoveInKeeps(s);
      FillAnswers(MoveIn(s));
      RefillTail(s.q);
      OneAlike<T>(s.q.enq[0].0, Refill(MoveIn(s).q).1, Accepted);
    } else {
      assert Refill(s.q).1 == [];
    }
  }

  lemma {:induction false} FailAllAnswers<T>(s: Sys<T>)
    requires Core(s)
    ensures (forall k :: 0 <= k < |s.q.deq| ==> s.q.deq[k] < |s.ops|)
    ensures FailAll(s) == s.(ops := Settled(s.ops, Alike(s.q.deq, Fails(EndReached))), q := s.q.(deq := []))
    decreases |s.q.deq|
  {
    if s.q.deq != [] {
      FailOldestKeeps(s);
      FailAllAnswers(FailOldest(s));
      assert Alike<T>(s.q.deq, Fails(EndReached))[1..] == Alike(s.q.deq[1..], Fails(EndReached));
    }
  }

  lemma {:induction false} AdmitAllAnswers<T>(s: Sys<T>, vs: seq<T>)
    ensures AdmitAll(s, vs) == s.(q := s.q.(items := s.q.items + vs), ins := s.ins + BySync(vs))
    decreases |vs|
  {
    if vs == [] {
      assert s.q.items + vs == s.q.items && s.ins + BySync(vs) == s.ins;
    } else {
      AdmitAllAnswers(Admit(s, vs[0]), vs[1..]);
      assert s.q.items + [vs[0]] + vs[1..] == s.q.items + vs;
      assert s.ins + [(Sync, vs[0])] + BySync(vs[1..]) == s.ins + BySync(vs);
    }
  }

  lemma {:induction false} TakeAllOutAnswers<T>(s: Sys<T>)
    ensures TakeAllOut(s, Sync) == s.(q := s.q.(items := []), outs := s.outs + BySync(s.q.items))
    decreases |s.q.items|
  {
    if s.q.items == [] {
      assert s.outs + BySync(s.q.items) == s.outs;
    } else {
      TakeAllOutAnswers(TakeOut(s, Sync));
      assert s.outs + [(Sync, s.q.items[0])] + BySync(s.q.items[1..]) == s.outs + BySync(s.q.items);
    }
  }

  /** Every item of a forced range comes in, and exactly the pairs of the specification are handed over. */
  lemma {:induction false} ForceEnqAnswer<T>(s: Sys<T>, vs: seq<T>)
    requires Inv(s)
    ensures var t := Step(s, ForceEnq(vs));
      match ForceEnqueueStep(s.q, vs).1
      case Err(_) => t == s
      case Ok(pairs) =>
        && (forall k :: 0 <= k < |pairs| ==> pairs[k].0 < |s.ops|)
        && t.ops == Settled(s.ops, Gots(pairs)) && t.outs == s.outs + Entries(pairs) && t.ins == s.ins + BySync(vs)
  {
    if vs == [] {
      assert s.outs + Entries<T>([]) == s.outs && s.ins + BySync(vs) == s.ins;
    } else if !s.q.ended {
      AdmitAllKeeps(s, vs);
      AdmitAllAnswers(s, vs);
      ServeAnswers(AdmitAll(s, vs));
    }
  }

  /** Every item goes to the caller, in order, and exactly the enqueuers of the specification are accepted. */
  lemma {:induction false} ForceDeqAnswer<T>(s: Sys<T>)
    requires Inv(s)
    ensures var t := Step(s, ForceDeq);
      match ForceDequeueStep(s.q).1
      case Err(_) => t == s
      case Ok((out, admitted)) =>
        && (forall k :: 0 <= k < |admitted| ==> admitted[k] < |s.ops|)
        && t.outs == s.outs + BySync(out) && t.ops == Settled(s.ops, Alike(admitted, Accepted))
  {
    if s.q.items == [] {
      assert s.outs + BySync<T>([]) == s.outs;
    } else {
      TakeAllOutKeeps(s, Sync);
      TakeAllOutAnswers(s);
      FillAnswers(TakeAllOut(s, Sync));
    }
  }

  /** The dequeuers the specification names are told the end, and nobody else is. */
  lemma {:induction false} MarkEndAnswer<T>(s: Sys<T>)
    requires Inv(s)
    ensures var t, told := Step(s, MarkEnd), MarkEndStep(s.q).1;
      && (forall k :: 0 <= k < |told| ==> told[k] < |s.ops|)
      && t.ops == Settled(s.ops, Alike(told, Fails(EndReached))) && t.ins == s.ins && t.outs == s.outs
  {
    if !s.q.ended { FailAllAnswers(s); }
  }
}
