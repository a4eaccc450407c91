/** Runs of `res_pool` with any number of threads, references (`res_ref`) and acquire ops. One event is one
    critical section, one result being set after unlock, or one change of a reference. */
module PoolRuns {
  import opened Sequences
  import opened PoolSpec

  /** `Given`: handed over by `recycle`, but `complete` has not run yet; `Has`: the result is in the op;
      `Spent`: the result was taken out. */
  datatype Acq = Waiting | Given(res: nat) | Has(res: nat) | Spent | Cancelled {
    predicate Holding() { Given? || Has? }
  }

  /** Where a resource is. The held ones are held by whoever's destructor would recycle them. */
  datatype Place = Idle | InRef(r: nat) | InOp(id: nat) | Cleared {
    predicate Held() { InRef? || InOp? }
  }

  /** `refs` maps the valid references to their resources. `place` is bookkeeping: one entry for every
      resource ever created. */
  datatype Sys = Sys(pool: Pool<nat>, ops: seq<Acq>, refs: map<nat, nat>, place: seq<Place>)

  datatype Event =
    | TryAcquire(r: nat)
    | InitAcquire(stop: bool)
    | Complete(id: nat)
    | TakeResult(id: nat, r: nat)
    | DropResult(id: nat)
    | RecycleRef(r: nat)
    | MoveConstruct(src: nat, dst: nat)
    | MoveAssign(src: nat, dst: nat)
    | CancelOp(id: nat)
    | CreateAll
    | ClearUnused
    | SetCapacity(n: nat)

  function Init(cap: nat): Sys { Sys(Pool(cap, [], [], 0, []), [], map[], []) }

  /** New references are not valid yet, results are taken once, and capacity is not cut below what exists. */
  predicate Enabled(s: Sys, ev: Event) {
    match ev
    case TryAcquire(r) => r !in s.refs
    case InitAcquire(_) => true
    case Complete(id) => id < |s.ops| && s.ops[id].Given?
    case TakeResult(id, r) => id < |s.ops| && s.ops[id].Has? && r !in s.refs
    case DropResult(id) => id < |s.ops| && s.ops[id].Has?
    case RecycleRef(r) => r in s.refs
    case MoveConstruct(src, dst) => dst !in s.refs && src != dst
    case MoveAssign(_, _) => true
    case CancelOp(id) => id < |s.ops|
    case CreateAll => true
    case ClearUnused => true
    case SetCapacity(n) => n >= |s.pool.unused| + |s.pool.inuse|
  }

  // ----- what always holds

  /** The list names, once each, the resources that are in such a place. */
  ghost predicate Lists(s: seq<nat>, place: seq<Place>, held: bool) {
    && Distinct(s)
    && (forall k :: 0 <= k < |s| ==> s[k] < |place| && if held then place[s[k]].Held() else place[s[k]].Idle?)
    && (forall x :: 0 <= x < |place| && (if held then place[x].Held() else place[x].Idle?) ==> x in s)
  }

  /** References and places agree. */
  ghost predicate RefsHold(refs: map<nat, nat>, place: seq<Place>) {
    && (forall r :: r in refs ==> refs[r] < |place| && place[refs[r]] == InRef(r))
    && (forall x :: 0 <= x < |place| && place[x].InRef? ==> place[x].r in refs && refs[place[x].r] == x)
  }

  /** Ops and places agree. */
  ghost predicate OpsHold(ops: seq<Acq>, place: seq<Place>) {
    && (forall id :: 0 <= id < |ops| && ops[id].Holding() ==>
          ops[id].res < |place| && place[ops[id].res] == InOp(id))
    && (forall x :: 0 <= x < |place| && place[x].InOp? ==>
          place[x].id < |ops| && ops[place[x].id].Holding() && ops[place[x].id].res == x)
  }

  /** The queue names exactly the waiting ops, oldest first. */
  ghost predicate Queued(waiters: seq<nat>, ops: seq<Acq>) {
    && (forall k :: 0 <= k < |waiters| ==> waiters[k] < |ops| && ops[waiters[k]].Waiting?)
    && Increasing(waiters)
    && (forall id :: 0 <= id < |ops| && ops[id].Waiting? ==> IndexOf(waiters, id) < |waiters|)
  }

  ghost predicate Stock(p: Pool<nat>, place: seq<Place>) {
    && p.created == |place| && WithinCapacity(p)
    && Lists(p.unused, place, false) && Lists(p.inuse, place, true)
  }

  ghost predicate Inv(s: Sys) {
    Stock(s.pool, s.place) && RefsHold(s.refs, s.place) && OpsHold(s.ops, s.place) && Queued(s.pool.waiters, s.ops)
  }

  // ----- steps

  function Put(place: seq<Place>, x: nat, p: Place): seq<Place>
    requires x <= |place|
  {
    if x < |place| then place[x := p] else place + [p]
  }

  /** What `try_acquire` hands out, if anything, exists or is the next to be created. */
  predicate Acquires(s: Sys) {
    AcquireStep(s.pool).1.Some? && AcquireStep(s.pool).1.value <= |s.place|
  }

  function AcquireRef(s: Sys, r: nat): Sys
    requires Acquires(s)
  {
    var (pool, res) := AcquireStep(s.pool);
    s.(pool := pool, refs := s.refs[r := res.value], place := Put(s.place, res.value, InRef(r)))
  }

  function AcquireOp(s: Sys): Sys
    requires Acquires(s)
  {
    var (pool, res) := AcquireStep(s.pool);
    s.(pool := pool, ops := s.ops + [Has(res.value)], place := Put(s.place, res.value, InOp(|s.ops|)))
  }

  function Wait(s: Sys): Sys {
    s.(ops := s.ops + [Waiting], pool := s.pool.(waiters := s.pool.waiters + [|s.ops|]))
  }

  /** `res_pool::recycle`, once whoever held `res` has let go of it. */
  function GiveBack(s: Sys, res: nat): Sys
    requires res < |s.place| && (s.pool.waiters != [] ==> s.pool.waiters[0] < |s.ops|)
  {
    match RecycleStep(s.pool, res)
    case (pool, None) => s.(pool := pool, place := s.place[res := Idle])
    case (pool, Some(w)) => s.(pool := pool, ops := s.ops[w := Given(res)], place := s.place[res := InOp(w)])
  }

  function DropRef(s: Sys, r: nat): Sys
    requires Inv(s) && r in s.refs
  {
    GiveBack(s.(refs := s.refs - {r}), s.refs[r])
  }

  function DropOp(s: Sys, id: nat): Sys
    requires Inv(s) && id < |s.ops| && s.ops[id].Has?
  {
    GiveBack(s.(ops := s.ops[id := Spent]), s.ops[id].res)
  }

  function MoveRef(s: Sys, src: nat, dst: nat): Sys
    requires src in s.refs ==> s.refs[src] < |s.place|
  {
    if src !in s.refs then s
    else s.(refs := (s.refs - {src})[dst := s.refs[src]], place := s.place[s.refs[src] := InRef(dst)])
  }

  function CancelWaiter(s: Sys, id: nat): Sys
    requires id < |s.ops|
  {
    var k := IndexOf(s.pool.waiters, id);
    if k == |s.pool.waiters| then s
    else s.(ops := s.ops[id := Cancelled], pool := s.pool.(waiters := Cut(s.pool.waiters, k)))
  }

  function Vacated(place: seq<Place>): seq<Place> {
    seq(|place|, x requires 0 <= x < |place| => if place[x].Idle? then Cleared else place[x])
  }

  /** `res_ref::operator=`: what `dst` held goes back first. */
  function Assign(s: Sys, src: nat, dst: nat): Sys
    requires Inv(s)
  {
    if src == dst then s
    else if dst !in s.refs then MoveRef(s, src, dst)
    else DropRefKeeps(s, dst); MoveRef(DropRef(s, dst), src, dst)
  }

  function Step(s: Sys, ev: Event): Sys
    requires Inv(s) && Enabled(s, ev)
  {
    match ev
    case TryAcquire(r) =>
      if AcquireStep(s.pool).1.None? then s else AcquireRefKeeps(s, r); AcquireRef(s, r)
    case InitAcquire(stop) =>
      if stop then s.(ops := s.ops + [Cancelled])
      else if AcquireStep(s.pool).1.None? then Wait(s)
      else AcquireOpKeeps(s); AcquireOp(s)
    case Complete(id) => s.(ops := s.ops[id := Has(s.ops[id].res)])
    case TakeResult(id, r) =>
      var res := s.ops[id].res;
      s.(ops := s.ops[id := Spent], refs := s.refs[r := res], place := s.place[res := InRef(r)])
    case DropResult(id) => DropOp(s, id)
    case RecycleRef(r) => DropRef(s, r)
    case MoveConstruct(src, dst) => MoveRef(s, src, dst)
    case MoveAssign(src, dst) => Assign(s, src, dst)
    case CancelOp(id) => CancelWaiter(s, id)
    case CreateAll =>
      var pool := CreateAllStep(s.pool);
      s.(pool := pool, place := s.place + seq(pool.created - |s.place|, _ => Idle))
    case ClearUnused => s.(pool := s.pool.(unused := []), place := Vacated(s.place))
    case SetCapacity(n) => s.(pool := s.pool.(cap := n))
  }

  // ----- the lists

  /** A resource that was in no such place comes to the front. */
  lemma {:induction false} ListsPrepend(s: seq<nat>, place: seq<Place>, held: bool, x: nat, p: Place)
    requires Lists(s, place, held) && x <= |place|
    requires x < |place| ==> !if held then place[x].Held() else place[x].Idle?
    requires if held then p.Held() else p.Idle?
    ensures Lists([x] + s, Put(place, x, p), held)
  {
    var s', place' := [x] + s, Put(place, x, p);
    forall y | 0 <= y < |place'| && if held then place'[y].Held() else place'[y].Idle? ensures y in s' {
      if y != x { assert y in s; }
    }
  }

  /** The front one changes to another sort of place. */
  lemma {:induction false} ListsTail(s: seq<nat>, place: seq<Place>, held: bool, p: Place)
    requires Lists(s, place, held) && s != []
    requires !if held then p.Held() else p.Idle?
    ensures Lists(s[1..], place[s[0] := p], held)
  {
    assert s == [s[0]] + s[1..];
  }

  lemma {:induction false} ListsWithout(s: seq<nat>, place: seq<Place>, held: bool, x: nat, p: Place)
    requires Lists(s, place, held) && x in s
    requires !if held then p.Held() else p.Idle?
    ensures Lists(Without(s, x), place[x := p], held) && |Without(s, x)| == |s| - 1
  {
    WithoutIs(s, x);
    ListsFewer(s, Without(s, x), place, held, x, p);
  }

  lemma {:induction false} ListsFewer(s: seq<nat>, s': seq<nat>, place: seq<Place>, held: bool, x: nat, p: Place)
    requires Lists(s, place, held) && x in s
    requires Distinct(s') && forall y :: y in s' <==> y in s && y != x
    requires !if held then p.Held() else p.Idle?
    ensures Lists(s', place[x := p], held)
  {
    assert forall k :: 0 <= k < |s'| ==> s'[k] in s';
  }

  /** Another resource changes, or one changes within the same sort of place. */
  lemma {:induction false} ListsFrame(s: seq<nat>, place: seq<Place>, held: bool, x: nat, p: Place)
    requires Lists(s, place, held) && x <= |place|
    requires x < |place| ==> (if held then place[x].Held() == p.Held() else place[x].Idle? == p.Idle?)
    requires x == |place| ==> !if held then p.Held() else p.Idle?
    ensures Lists(s, Put(place, x, p), held)
  {
  }

  lemma {:induction false} AcquireStock(p: Pool<nat>, place: seq<Place>, h: Place)
    requires Stock(p, place) && AcquireStep(p).1.Some? && h.Held()
    ensures AcquireStep(p).1.value <= |place|
    ensures Stock(AcquireStep(p).0, Put(place, AcquireStep(p).1.value, h))
    ensures AcquireStep(p).1.value < |place| ==> place[AcquireStep(p).1.value].Idle?
  {
    var res := AcquireStep(p).1.value;
    ListsPrepend(p.inuse, place, true, res, h);
    if p.unused != [] { ListsTail(p.unused, place, false, h); } else { ListsFrame(p.unused, place, false, res, h); }
  }

  lemma {:induction false} RecycleStock(p: Pool<nat>, place: seq<Place>, res: nat)
    requires Stock(p, place) && res < |place| && place[res].Held()
    ensures p.waiters == [] ==> Stock(RecycleStep(p, res).0, place[res := Idle])
    ensures forall id :: p.waiters != [] ==> Stock(RecycleStep(p, res).0, place[res := InOp(id)])
  {
    if p.waiters == [] {
      ListsWithout(p.inuse, place, true, res, Idle);
      ListsPrepend(p.unused, place, false, res, Idle);
    } else {
      forall id ensures Stock(RecycleStep(p, res).0, place[res := InOp(id)]) { MoveStock(p, place, res, InOp(id)); }
    }
  }

  /** A held resource changes hands. */
  lemma {:induction false} MoveStock(p: Pool<nat>, place: seq<Place>, res: nat, h: Place)
    requires Stock(p, place) && res < |place| && place[res].Held() && h.Held()
    ensures forall ws :: Stock(p.(waiters := ws), place[res := h])
  {
    ListsFrame(p.inuse, place, true, res, h);
    ListsFrame(p.unused, place, false, res, h);
  }

  lemma {:induction false} DescendingIs(from: nat, k: nat)
    requires from <= k
    ensures |Descending(from, k)| == k - from
    ensures forall j :: 0 <= j < k - from ==> Descending(from, k)[j] == k - 1 - j
    decreases k
  {
    if from < k { DescendingIs(from, k - 1); }
  }

  lemma {:induction false} CreateAllStock(p: Pool<nat>, place: seq<Place>)
    requires Stock(p, place)
    ensures CreateAllStep(p).created >= |place|
    ensures Stock(CreateAllStep(p), place + seq(CreateAllStep(p).created - |place|, _ => Idle))
  {
    var k := CreateAllStep(p).created;
    DescendingIs(p.created, k);
    var more, unused', place' := Descending(p.created, k), CreateAllStep(p).unused, place + seq(k - |place|, _ => Idle);
    forall x | 0 <= x < |place'| && place'[x].Idle? ensures x in unused' {
      if x < |place| { assert x in p.unused; } else { assert more[k - 1 - x] == x; }
    }
  }

  lemma {:induction false} ClearStock(p: Pool<nat>, place: seq<Place>)
    requires Stock(p, place)
    ensures Stock(p.(unused := []), Vacated(place))
  {
    var place' := Vacated(place);
    forall x | 0 <= x < |place'| && place'[x].Held() ensures x in p.inuse {
      assert place[x].Held();
    }
  }

  // ----- the queue of waiting ops

  lemma {:induction false} QueuedFrame(ws: seq<nat>, ops: seq<Acq>, ops': seq<Acq>)
    requires Queued(ws, ops) && |ops'| >= |ops|
    requires forall id :: 0 <= id < |ops'| ==> (ops'[id].Waiting? <==> id < |ops| && ops[id].Waiting?)
    ensures Queued(ws, ops')
  {
  }

  lemma {:induction false} QueuedAppend(ws: seq<nat>, ops: seq<Acq>)
    requires Queued(ws, ops)
    ensures Queued(ws + [|ops|], ops + [Waiting])
  {
    var ws', ops' := ws + [|ops|], ops + [Waiting];
    assert ws'[|ws|] == |ops|;
    forall id | 0 <= id < |ops'| && ops'[id].Waiting? ensures IndexOf(ws', id) < |ws'| {
      assert ws'[if id < |ops| then IndexOf(ws, id) else |ws|] == id;
    }
  }

  lemma {:induction false} QueuedCut(ws: seq<nat>, ops: seq<Acq>, k: nat, op: Acq)
    requires Queued(ws, ops) && k < |ws| && !op.Waiting?
    ensures Queued(Cut(ws, k), ops[ws[k] := op])
  {
    var ws', ops' := Cut(ws, k), ops[ws[k] := op];
    assert forall j :: 0 <= j < |ws'| ==> ws'[j] == ws[if j < k then j else j + 1];
    forall id | 0 <= id < |ops'| && ops'[id].Waiting? ensures IndexOf(ws', id) < |ws'| {
      var j := IndexOf(ws, id);
      assert ws'[if j < k then j else j - 1] == id;
    }
  }

  // ----- every step keeps the invariant

  lemma {:induction false} AcquireRefKeeps(s: Sys, r: nat)
    requires Inv(s) && AcquireStep(s.pool).1.Some? && r !in s.refs
    ensures Acquires(s) && Inv(AcquireRef(s, r))
  {
    AcquireStock(s.pool, s.place, InRef(r));
  }

  lemma {:induction false} AcquireOpKeeps(s: Sys)
    requires Inv(s) && AcquireStep(s.pool).1.Some?
    ensures Acquires(s) && Inv(AcquireOp(s))
  {
    AcquireStock(s.pool, s.place, InOp(|s.ops|));
    QueuedFrame(s.pool.waiters, s.ops, AcquireOp(s).ops);
  }

  /** Whoever held `res` has let go of it: no reference and no op has it any more. */
  ghost predicate LetGo(s: Sys, res: nat) {
    && Stock(s.pool, s.place) && Queued(s.pool.waiters, s.ops)
    && res < |s.place| && s.place[res].Held()
    && RefsHold(s.refs, s.place[res := Idle]) && OpsHold(s.ops, s.place[res := Idle])
  }

  lemma {:induction false} GiveBackKeeps(s: Sys, res: nat)
    requires LetGo(s, res)
    ensures Inv(GiveBack(s, res))
  {
    RecycleStock(s.pool, s.place, res);
    var ws := s.pool.waiters;
    if ws != [] {
      QueuedCut(ws, s.ops, 0, Given(res));
      assert Cut(ws, 0) == ws[1..];
      var place' := s.place[res := InOp(ws[0])];
      assert place' == s.place[res := Idle][res := InOp(ws[0])];
    }
  }

  lemma {:induction false} DropRefKeeps(s: Sys, r: nat)
    requires Inv(s) && r in s.refs
    ensures Inv(DropRef(s, r)) && DropRef(s, r).refs == s.refs - {r}
  {
    var m := s.(refs := s.refs - {r});
    assert LetGo(m, s.refs[r]);
    GiveBackKeeps(m, s.refs[r]);
  }

  lemma {:induction false} DropOpKeeps(s: Sys, id: nat)
    requires Inv(s) && id < |s.ops| && s.ops[id].Has?
    ensures Inv(DropOp(s, id))
  {
    var m := s.(ops := s.ops[id := Spent]);
    QueuedFrame(s.pool.waiters, s.ops, m.ops);
    assert LetGo(m, s.ops[id].res);
    GiveBackKeeps(m, s.ops[id].res);
  }

  lemma {:induction false} MoveRefKeeps(s: Sys, src: nat, dst: nat)
    requires Inv(s) && dst !in s.refs
    ensures Inv(MoveRef(s, src, dst))
  {
    if src in s.refs {
      MoveStock(s.pool, s.place, s.refs[src], InRef(dst));
      assert s.pool.(waiters := s.pool.waiters) == s.pool;
    }
  }

  lemma {:induction false} AssignKeeps(s: Sys, src: nat, dst: nat)
    requires Inv(s)
    ensures Inv(Assign(s, src, dst))
  {
    if src != dst {
      if dst in s.refs {
        DropRefKeeps(s, dst);
        MoveRefKeeps(DropRef(s, dst), src, dst);
      } else {
        MoveRefKeeps(s, src, dst);
      }
    }
  }

  lemma {:induction false} TakeResultKeeps(s: Sys, id: nat, r: nat)
    requires Inv(s) && Enabled(s, TakeResult(id, r))
    ensures Inv(Step(s, TakeResult(id, r)))
  {
    MoveStock(s.pool, s.place, s.ops[id].res, InRef(r));
    assert s.pool.(waiters := s.pool.waiters) == s.pool;
    QueuedFrame(s.pool.waiters, s.ops, s.ops[id := Spent]);
  }

  lemma {:induction false} WaitKeeps(s: Sys)
    requires Inv(s)
    ensures Inv(Wait(s))
  {
    QueuedAppend(s.pool.waiters, s.ops);
  }

  lemma {:induction false} CancelKeeps(s: Sys, id: nat)
    requires Inv(s) && id < |s.ops|
    ensures Inv(CancelWaiter(s, id))
  {
    var k := IndexOf(s.pool.waiters, id);
    if k < |s.pool.waiters| { QueuedCut(s.pool.waiters, s.ops, k, Cancelled); }
  }

  lemma {:induction false} CompleteKeeps(s: Sys, id: nat)
    requires Inv(s) && Enabled(s, Complete(id))
    ensures Inv(Step(s, Complete(id)))
  {
    QueuedFrame(s.pool.waiters, s.ops, s.ops[id := Has(s.ops[id].res)]);
  }

  lemma {:induction false} InitAcquireKeeps(s: Sys, stop: bool)
    requires Inv(s)
    ensures Inv(Step(s, InitAcquire(stop)))
  {
    if stop {
      QueuedFrame(s.pool.waiters, s.ops, s.ops + [Cancelled]);
    } else if AcquireStep(s.pool).1.Some? {
      AcquireOpKeeps(s);
    } else {
      WaitKeeps(s);
    }
  }

  lemma {:induction false} StockKeeps(s: Sys, ev: Event)
    requires Inv(s) && Enabled(s, ev) && (ev.CreateAll? || ev.ClearUnused? || ev.SetCapacity?)
    ensures Inv(Step(s, ev))
  {
    CreateAllStock(s.pool, s.place);
    ClearStock(s.pool, s.place);
    var t := Step(s, ev);
    assert RefsHold(t.refs, t.place) && OpsHold(t.ops, t.place);
  }

  /** Every event keeps the invariant: a resource is unused, cleared, or in use by exactly one holder. */
  lemma {:induction false} StepKeeps(s: Sys, ev: Event)
    requires Inv(s) && Enabled(s, ev)
    ensures Inv(Step(s, ev))
  {
    match ev
    case TryAcquire(r) => if AcquireStep(s.pool).1.Some? { AcquireRefKeeps(s, r); }
    case InitAcquire(stop) => InitAcquireKeeps(s, stop);
    case Complete(id) => CompleteKeeps(s, id);
    case TakeResult(id, r) => TakeResultKeeps(s, id, r);
    case DropResult(id) => DropOpKeeps(s, id);
    case RecycleRef(r) => DropRefKeeps(s, r);
    case MoveConstruct(src, dst) => MoveRefKeeps(s, src, dst);
    case MoveAssign(src, dst) => AssignKeeps(s, src, dst);
    case CancelOp(id) => CancelKeeps(s, id);
    case CreateAll => StockKeeps(s, ev);
    case ClearUnused => StockKeeps(s, ev);
    case SetCapacity(_) => StockKeeps(s, ev);
  }
}
