/** The finder of the JSON backend (`simdjson_loop_iter`): it goes round the fields of a document, and stays where
    it is between the objects that are read with it. */
module JserFinder {
  import opened Base

  /** `at` is the current field, or the number of fields at the end; `n` counts the fields met so far, for as long
      as `counting`; `j` is how many the current loop has had. */
  datatype Cursor = Cursor(at: nat, n: nat, j: nat, counting: bool)

  const FRESH := Cursor(0, 0, 0, true)

  /** What holds of a cursor over a document of that size. */
  predicate Fits(c: Cursor, size: nat) {
    && c.at <= size && c.n <= size
    && (if c.counting then c.j <= c.n <= c.at + (if c.j > 0 then 1 else 0) else c.j <= c.n + 1)
  }

  /** The field behind the current one, if that has been used. */
  function Ahead(c: Cursor, size: nat): nat {
    if c.j > 0 && c.at < size then c.at + 1 else c.at
  }

  /** `start`: a new loop, from where the last one stopped. */
  function Start(c: Cursor, size: nat): (r: Cursor)
    requires Fits(c, size)
    ensures Fits(r, size) && r.j <= r.n
  {
    Cursor(Ahead(c, size), c.n, 0, c.counting)
  }

  /** How many fields the current loop is still to have. */
  function Left(c: Cursor, size: nat): nat {
    (if c.counting && Ahead(c, size) < size then size - Ahead(c, size) else 0) + (if c.j < c.n then c.n - c.j else 0)
  }

  /** `next`: the first time the end is reached the fields have been counted; later loops have as many. */
  function Next(c: Cursor, size: nat): (r: (Cursor, Option<nat>))
    requires Fits(c, size) && c.j <= c.n
    ensures Fits(r.0, size)
    ensures r.1.Some? ==> r.1.value < size && r.0.j <= r.0.n && Left(r.0, size) < Left(c, size)
  {
    var at := Ahead(c, size);
    if c.counting && at < size then (Cursor(at, c.n + 1, c.j + 1, true), Some(at))
    else if c.j < c.n then
      var i := if at == size then 0 else at;
      (Cursor(i, c.n, c.j + 1, false), Some(i))
    else (Cursor(at, c.n, c.j + 1, false), None)
  }

  /** `skip_remains`: goes to the end, without counting. */
  function Skip(c: Cursor, size: nat): (r: Cursor)
    requires Fits(c, size)
    ensures Fits(r, size)
  {
    c.(at := size)
  }

  // ----- what a loop meets

  /** The fields the loop would have if nothing stopped it. */
  function View<X>(doc: seq<X>, c: Cursor): seq<X>
    requires Fits(c, |doc|) && c.j <= c.n
    decreases Left(c, |doc|)
  {
    match Next(c, |doc|)
    case (_, None) => []
    case (c', Some(i)) => [doc[i]] + View(doc, c')
  }

  /** Whether a field is among them, said without running the loop: those ahead and, from the first one on, as many
      as the count wants. */
  predicate ToCome(c: Cursor, size: nat, p: nat)
    requires c.j <= c.n
  {
    p < size &&
    if c.counting then Ahead(c, size) <= p || p < c.n - c.j
    else
      var w := if Ahead(c, size) == size then 0 else Ahead(c, size);
      w <= p < w + c.n - c.j || p < w + c.n - c.j - size
  }

  lemma {:induction false} ToComeNext(c: Cursor, size: nat, p: nat)
    requires Fits(c, size) && c.j <= c.n
    ensures var (c', f) := Next(c, size);
      ToCome(c, size, p) <==> f.Some? && (f.value == p || ToCome(c', size, p))
  {
  }

  /** The loop meets exactly these. */
  lemma {:induction false} MeetsExactly<X>(doc: seq<X>, c: Cursor, x: X)
    requires Fits(c, |doc|) && c.j <= c.n
    ensures x in View(doc, c) <==> exists p: nat :: ToCome(c, |doc|, p) && doc[p] == x
    decreases Left(c, |doc|)
  {
    var (c', f) := Next(c, |doc|);
    forall p: nat ensures ToCome(c, |doc|, p) <==> f.Some? && (f.value == p || ToCome(c', |doc|, p)) {
      ToComeNext(c, |doc|, p);
    }
    if f.Some? {
      MeetsExactly(doc, c', x);
      assert ToCome(c, |doc|, f.value);
    }
  }

  /** `m` fields from position `w` on, round the document. */
  function Round<X>(doc: seq<X>, w: nat, m: nat): seq<X>
    requires w <= |doc| && m <= |doc|
  {
    if w + m <= |doc| then doc[w..w + m] else doc[w..] + doc[..w + m - |doc|]
  }

  lemma {:induction false} RoundNext<X>(doc: seq<X>, w: nat, m: nat)
    requires w < |doc| && 0 < m <= |doc|
    ensures Round(doc, w, m) == [doc[w]] + Round(doc, if w + 1 == |doc| then 0 else w + 1, m - 1)
  {
  }

  lemma {:induction false} AheadNext<X>(doc: seq<X>, a: nat, m: nat)
    requires a < |doc| && m <= |doc|
    ensures doc[a..] + doc[..m] == [doc[a]] + (doc[a + 1..] + doc[..m])
  {
  }

  lemma {:induction false} NoneAhead<X>(doc: seq<X>, m: nat)
    requires m <= |doc|
    ensures doc[|doc|..] + doc[..m] == Round(doc, 0, m)
  {
  }

  /** Those ahead, and then from the first one on; a loop that does not count goes round from where it is. */
  function InOrder<X>(doc: seq<X>, c: Cursor): seq<X>
    requires Fits(c, |doc|) && c.j <= c.n
  {
    var a := Ahead(c, |doc|);
    if c.counting then doc[a..] + doc[..c.n - c.j] else Round(doc, if a == |doc| then 0 else a, c.n - c.j)
  }

  lemma {:induction false} CountingNext<X>(doc: seq<X>, c: Cursor)
    requires Fits(c, |doc|) && c.j <= c.n && c.counting && Ahead(c, |doc|) < |doc|
    ensures var (c', f) := Next(c, |doc|); f.Some? && InOrder(doc, c) == [doc[f.value]] + InOrder(doc, c')
  {
    AheadNext(doc, Ahead(c, |doc|), c.n - c.j);
  }

  lemma {:induction false} RoundsNext<X>(doc: seq<X>, c: Cursor)
    requires Fits(c, |doc|) && c.j < c.n && (c.counting ==> Ahead(c, |doc|) == |doc|)
    ensures var (c', f) := Next(c, |doc|); f.Some? && InOrder(doc, c) == [doc[f.value]] + InOrder(doc, c')
  {
    var a := Ahead(c, |doc|);
    RoundNext(doc, if a == |doc| then 0 else a, c.n - c.j);
    NoneAhead(doc, c.n - c.j);
  }

  /** The loop meets them in this order. */
  lemma {:induction false} MeetsInOrder<X>(doc: seq<X>, c: Cursor)
    requires Fits(c, |doc|) && c.j <= c.n
    ensures View(doc, c) == InOrder(doc, c)
    decreases Left(c, |doc|)
  {
    var (c', f) := Next(c, |doc|);
    if f.Some? {
      if c.counting && Ahead(c, |doc|) < |doc| { CountingNext(doc, c); } else { RoundsNext(doc, c); }
      MeetsInOrder(doc, c');
    }
  }

  /** The first loop of all meets the document as it is. */
  lemma {:induction false} FreshMeetsAll<X>(doc: seq<X>)
    ensures View(doc, Start(FRESH, |doc|)) == doc
  {
    MeetsInOrder(doc, Start(FRESH, |doc|));
  }

  /** Every field so far was counted, and none was skipped. */
  predicate Whole(c: Cursor, size: nat) {
    if c.counting then c.n == Ahead(c, size) else c.n == size
  }

  lemma {:induction false} WholeNext(c: Cursor, size: nat)
    requires Fits(c, size) && c.j <= c.n && Whole(c, size)
    ensures Whole(Next(c, size).0, size)
  {
  }

  /** Then a new loop meets every field. */
  lemma {:induction false} WholeMeetsAll(c: Cursor, size: nat, p: nat)
    requires Fits(c, size) && Whole(c, size) && p < size
    ensures Whole(Start(c, size), size) && ToCome(Start(c, size), size, p)
  {
  }

  /** After `skip_remains`, if the end was not reached before, a new loop meets only the fields met so far. */
  lemma {:induction false} SkippedMeets(c: Cursor, size: nat, p: nat)
    requires Fits(c, size) && c.counting
    ensures ToCome(Start(Skip(c, size), size), size, p) <==> p < c.n
  {
  }

  // ----- the finder as an object

  class LoopIter {
    const size: nat
    var it: nat
    var n: nat
    var j: nat
    var counting: bool

    constructor (size: nat)
      ensures this.size == size && State() == FRESH
    {
      this.size := size;
      it, n, j, counting := 0, 0, 0, true;
    }

    function State(): Cursor
      reads this
    {
      Cursor(it, n, j, counting)
    }

    /** `++it`, which does nothing at the end. */
    method Advance()
      requires it <= size
      modifies this`it
      ensures it == if old(it) < size then old(it) + 1 else size
    {
      if it < size { it := it + 1; }
    }

    method StartLoop()
      requires Fits(State(), size)
      modifies this
      ensures State() == Start(old(State()), size)
    {
      if j > 0 { Advance(); }
      j := 0;
    }

    /** `next`: the position of the field it yields. */
    method NextField() returns (f: Option<nat>)
      requires Fits(State(), size) && j <= n
      modifies this
      ensures (State(), f) == Next(old(State()), size)
    {
      if j > 0 { Advance(); }
      if counting {
        if it < size {
          n := n + 1;
          j := j + 1;
          return Some(it);
        }
        counting := false;
      }
      if j < n {
        j := j + 1;
        if it == size { it := 0; }
        return Some(it);
      }
      j := j + 1;
      return None;
    }

    method SkipRemains()
      requires Fits(State(), size)
      modifies this
      ensures State() == Skip(old(State()), size)
    {
      Advance();
      while it < size
        invariant it <= size && n == old(n) && j == old(j) && counting == old(counting)
      {
        Advance();
      }
    }
  }
}
