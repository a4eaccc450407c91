/** `until_if_op` over any number of ops: children finish on any thread and at any time after their own start,
    also inside the start loop; each evaluates the condition, the first to meet it asks the others to stop,
    and the last one to count down resumes the continuation. */
module Until {
  import opened Base

  /** `Checked`: the condition is evaluated and `request_stop` called, `won` being what it returned;
      `Noted`: `_firstIdx` is written where it had to be; `Done`: counted down. */
  datatype Child =
    | NotStarted
    | Running
    | Checked(met: bool, won: bool)
    | Noted(met: bool)
    | Done(met: bool)

  /** Whose `request_stop` on `_opSs` was the first, and so returned true. A single op has no stop source
      between it and the parent, so there a stop of the parent decides nothing. */
  datatype Stopper = Nobody | Parent | By(i: nat)

  /** `until_first_take_first_founded` and `until_first_take_all_if_not_found`. */
  datatype Category = FirstFound | AllIfNotFound

  /** What `take_result` yields: the error, the value of one child with its index, or the values of all. */
  datatype Taken<V> = Failure(e: Errc) | First(v: V, i: nat) | All(vs: seq<V>)

  /** `met` logs the children whose condition held, in the order of their checks. */
  datatype Op = Op(
    cat: Category,
    children: seq<Child>,
    started: nat,
    n: nat,
    stop: Stopper,
    firstIdx: Option<nat>,
    err: Option<Errc>,
    fired: nat,
    met: seq<nat>)

  datatype Event = Start | Check(i: nat, m: bool) | Note(i: nat) | CountDown(i: nat) | ParentStop

  function Init(cat: Category, n: nat): Op {
    Op(cat, seq(n, _ => NotStarted), 0, n, Nobody, None, None, 0, [])
  }

  predicate Enabled(s: Op, ev: Event) {
    match ev
    case Start => s.started < |s.children| && s.children[s.started].NotStarted?
    case Check(i, _) => i < |s.children| && s.children[i].Running?
    case Note(i) => i < |s.children| && s.children[i].Checked?
    case CountDown(i) => i < |s.children| && s.children[i].Noted? && s.n > 0
    case ParentStop => s.fired == 0
  }

  /** `set_err_from_first_idx`. */
  function ErrFromFirstIdx(cat: Category, firstIdx: Option<nat>): Option<Errc> {
    match cat
    case FirstFound => if firstIdx.None? then Some(NotFound) else None
    case AllIfNotFound => if firstIdx.Some? then Some(Failed) else None
  }

  function Step(s: Op, ev: Event): Op
    requires Enabled(s, ev)
  {
    match ev
    case Start => s.(children := s.children[s.started := Running], started := s.started + 1)
    case Check(i, m) =>
      s.(children := s.children[i := Checked(m, m && s.stop.Nobody?)],
         stop := if m && s.stop.Nobody? then By(i) else s.stop,
         met := if m then s.met + [i] else s.met)
    case Note(i) =>
      s.(children := s.children[i := Noted(s.children[i].met)],
         firstIdx := if s.children[i].won then Some(i) else s.firstIdx)
    case CountDown(i) =>
      var s' := s.(children := s.children[i := Done(s.children[i].met)], n := s.n - 1);
      if s.n == 1 then s'.(err := ErrFromFirstIdx(s.cat, s.firstIdx), fired := s.fired + 1) else s'
    case ParentStop => if s.stop.Nobody? && |s.children| != 1 then s.(stop := Parent) else s
  }

  predicate HasMet(c: Child) { (c.Checked? || c.Noted? || c.Done?) && c.met }

  function Pending(cs: seq<Child>): nat {
    if cs == [] then 0 else Pending(cs[..|cs| - 1]) + (if cs[|cs| - 1].Done? then 0 else 1)
  }

  /** Steps a child still has to take. */
  function Left(c: Child): nat {
    match c case NotStarted => 4 case Running => 3 case Checked(_, _) => 2 case Noted(_) => 1 case Done(_) => 0
  }

  function AllLeft(cs: seq<Child>): nat {
    if cs == [] then 0 else AllLeft(cs[..|cs| - 1]) + Left(cs[|cs| - 1])
  }

  ghost predicate Counted(s: Op) {
    && s.started <= |s.children|
    && (forall i :: 0 <= i < |s.children| ==> (s.children[i].NotStarted? <==> i >= s.started))
    && s.n == Pending(s.children)
    && s.fired == (if s.n == 0 && |s.children| > 0 then 1 else 0)
    && s.err == (if s.fired == 1 then ErrFromFirstIdx(s.cat, s.firstIdx) else None)
  }

  ghost predicate Inv(s: Op) { Counted(s) && Winner(s) }

  /** The stop state, the log of conditions met, the pending writes and `_firstIdx` agree. */
  ghost predicate Winner(s: Op) {
    && (forall k :: 0 <= k < |s.met| ==> s.met[k] < |s.children| && HasMet(s.children[s.met[k]]))
    && (forall i :: 0 <= i < |s.children| && HasMet(s.children[i]) ==> i in s.met)
    && (s.stop.Nobody? ==> s.met == [])
    && (s.stop.By? ==> s.met != [] && s.stop.i == s.met[0])
    && (forall i :: 0 <= i < |s.children| && s.children[i].Checked? ==> (s.children[i].won <==> s.stop == By(i)))
    && (s.firstIdx.Some? ==> s.stop == By(s.firstIdx.value) && !s.children[s.firstIdx.value].Checked?)
    && (s.stop.By? && !s.children[s.stop.i].Checked? ==> s.firstIdx == Some(s.stop.i))
  }

  lemma {:induction false} CountsUpdate(cs: seq<Child>, i: nat, c: Child)
    requires i < |cs|
    ensures Pending(cs[i := c]) + (if cs[i].Done? then 0 else 1) == Pending(cs) + (if c.Done? then 0 else 1)
    ensures AllLeft(cs[i := c]) + Left(cs[i]) == AllLeft(cs) + Left(c)
  {
    var l := |cs| - 1;
    if i < l {
      CountsUpdate(cs[..l], i, c);
      assert cs[i := c][..l] == cs[..l][i := c];
    } else {
      assert cs[i := c][..l] == cs[..l];
    }
  }

  lemma {:induction false} CountsZero(cs: seq<Child>)
    ensures Pending(cs) == 0 <==> forall i :: 0 <= i < |cs| ==> cs[i].Done?
    ensures AllLeft(cs) == 0 <==> Pending(cs) == 0
    ensures (forall i :: 0 <= i < |cs| ==> cs[i].NotStarted?) ==> Pending(cs) == |cs| && AllLeft(cs) == 4 * |cs|
  {
    if cs != [] { CountsZero(cs[..|cs| - 1]); }
  }

  lemma {:induction false} StepKeeps(s: Op, ev: Event)
    requires Inv(s) && Enabled(s, ev)
    ensures Inv(Step(s, ev)) && |Step(s, ev).children| == |s.children| && Step(s, ev).cat == s.cat
    ensures AllLeft(Step(s, ev).children) == AllLeft(s.children) - (if ev.ParentStop? then 0 else 1)
    ensures !ev.ParentStop? && !s.stop.Parent? ==> !Step(s, ev).stop.Parent?
  {
    WinnerKeeps(s, ev);
    CountedKeeps(s, ev);
  }

  lemma {:induction false} CountedKeeps(s: Op, ev: Event)
    requires Counted(s) && Enabled(s, ev)
    ensures Counted(Step(s, ev))
    ensures AllLeft(Step(s, ev).children) == AllLeft(s.children) - (if ev.ParentStop? then 0 else 1)
  {
    if !ev.ParentStop? {
      var i := if ev.Start? then s.started else ev.i;
      CountsUpdate(s.children, i, Step(s, ev).children[i]);
      CountsZero(s.children);
    }
  }

  lemma {:induction false} CheckKeepsWinner(s: Op, i: nat, m: bool)
    requires Winner(s) && Enabled(s, Check(i, m))
    ensures Winner(Step(s, Check(i, m)))
  {
    var t := Step(s, Check(i, m));
    forall j | 0 <= j < |t.children| && HasMet(t.children[j]) ensures j in t.met {
      if j == i { assert t.met[|s.met|] == i; } else { assert j in s.met; }
    }
  }

  lemma {:induction false} WinnerKeeps(s: Op, ev: Event)
    requires Winner(s) && Enabled(s, ev)
    ensures Winner(Step(s, ev))
  {
    if ev.Check? { CheckKeepsWinner(s, ev.i, ev.m); }
  }

  ghost predicate Run(s: Op, evs: seq<Event>, t: Op)
    decreases |evs|
  {
    if evs == [] then t == s else Enabled(s, evs[0]) && Run(Step(s, evs[0]), evs[1..], t)
  }

  /** Steps taken by children: everything but stop requests of the parent. */
  function Own(evs: seq<Event>): nat {
    if evs == [] then 0 else (if evs[0].ParentStop? then 0 else 1) + Own(evs[1..])
  }

  lemma {:induction false} RunKeeps(s: Op, evs: seq<Event>, t: Op)
    requires Inv(s) && Run(s, evs, t)
    ensures Inv(t) && |t.children| == |s.children| && t.cat == s.cat
    ensures AllLeft(t.children) + Own(evs) == AllLeft(s.children)
    ensures (forall k :: 0 <= k < |evs| ==> !evs[k].ParentStop?) && !s.stop.Parent? ==> !t.stop.Parent?
    decreases |evs|
  {
    if evs != [] {
      StepKeeps(s, evs[0]);
      RunKeeps(Step(s, evs[0]), evs[1..], t);
    }
  }

  lemma {:induction false} InitInv(cat: Category, n: nat)
    ensures Inv(Init(cat, n)) && AllLeft(Init(cat, n).children) == 4 * n
  {
    CountsZero(Init(cat, n).children);
  }

  /** `r` is what the op, once it is over, makes of the values of its children. */
  predicate TakenFrom<V(==)>(s: Op, values: seq<V>, r: Taken<V>) {
    match r
    case Failure(e) => s.err == Some(e)
    case First(v, i) => s.err == None && s.cat.FirstFound? && s.firstIdx == Some(i) && i < |values| && v == values[i]
    case All(vs) => s.err == None && s.cat.AllIfNotFound? && s.firstIdx == None && vs == values
  }

  /** The assertions of `take_result`: without an error `_firstIdx` is, or is not, that of a child. */
  lemma {:induction false} TakeAsserts(s: Op)
    requires Inv(s) && s.fired == 1 && s.err == None
    ensures s.cat.FirstFound? ==> s.firstIdx.Some? && s.firstIdx.value < |s.children|
    ensures s.cat.AllIfNotFound? ==> s.firstIdx == None
  {
    if s.firstIdx.Some? {
      assert s.met[0] < |s.children|;
    }
  }

  // ----- the op as an object

  class UntilIfOp {
    const cat: Category
    var n: nat
    var firstIdx: Option<nat>
    var stopRequested: bool
    var err: Option<Errc>
    var fired: nat

    constructor (cat: Category, n: nat)
      ensures this.cat == cat && this.n == n && firstIdx == None && !stopRequested && err == None && fired == 0
    {
      this.cat, this.n := cat, n;
      firstIdx, stopRequested, err, fired := None, false, None, 0;
    }

    /** What the fields are of a run state. */
    ghost predicate Shows(s: Op)
      reads this
    {
      && cat == s.cat && n == s.n && firstIdx == s.firstIdx && err == s.err && fired == s.fired
      && (stopRequested <==> !s.stop.Nobody?)
    }

    /** `std::stop_source::request_stop`. */
    method RequestStop() returns (first: bool)
      modifies this`stopRequested
      ensures stopRequested && first == !old(stopRequested)
    {
      first := !stopRequested;
      stopRequested := true;
    }

    /** A child's callback when no other child and no stop request comes between its three atomic steps. */
    method ChildDone(i: nat, met: bool, ghost s: Op)
      requires Shows(s) && Inv(s) && i < |s.children| && s.children[i].Running? && s.n > 0
      modifies this
      ensures var s1 := Step(s, Check(i, met)); var s2 := Step(s1, Note(i)); Shows(Step(s2, CountDown(i)))
    {
      if met {
        var first := RequestStop();
        if first {
          firstIdx := Some(i);
        }
      }
      n := n - 1;
      if n == 0 {
        SetErrFromFirstIdx();
        fired := fired + 1;
      }
    }

    /** The callback of an op list of length one: no stop source is made, so a stop request by the parent
        does not keep the child's verdict from being taken. */
    method SoleChildDone(met: bool)
      requires firstIdx == None && err == None
      modifies this
      ensures firstIdx == (if met then Some(0) else None) && err == ErrFromFirstIdx(cat, firstIdx)
      ensures fired == old(fired) + 1
    {
      if met {
        firstIdx := Some(0);
      }
      SetErrFromFirstIdx();
      fired := fired + 1;
    }

    method SetErrFromFirstIdx()
      modifies this`err
      ensures match cat
        case FirstFound => err == if firstIdx.None? then Some(NotFound) else old(err)
        case AllIfNotFound => err == if firstIdx.Some? then Some(Failed) else old(err)
    {
      if cat.FirstFound? {
        if firstIdx.None? {
          err := Some(NotFound);
        }
      } else if firstIdx.Some? {
        err := Some(Failed);
      }
    }

    /** `take_result`, once the continuation was called. */
    method TakeResult<V(==)>(values: seq<V>, ghost s: Op) returns (r: Taken<V>)
      requires Shows(s) && Inv(s) && s.fired == 1 && |values| == |s.children|
      ensures TakenFrom(s, values, r)
    {
      if err.Some? { return Failure(err.value); }
      TakeAsserts(s);
      if cat.FirstFound? {
        return First(values[firstIdx.value], firstIdx.value);
      }
      assert firstIdx == None;
      var rs: seq<V> := [];
      for i := 0 to |values|
        invariant rs == values[..i]
      {
        rs := rs + [values[i]];
      }
      assert values[..|values|] == values;
      return All(rs);
    }
  }
}
