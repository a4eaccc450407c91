/** What the finder still shows to a second nested object, once `skip_remains` has run for the first one. */
module JserNested {
  import opened Base
  import opened Sequences
  import opened JserFinder
  import opened Jser
  import opened JserObjects
  import opened JserRoundTrip

  /** At the end, with everything counted or with the count still open. */
  predicate Capped(c: Cursor, size: nat) { c.at == size && (c.counting || c.n == size) }

  lemma {:induction false} KeyedStaysBehind(s: Schema, doc: seq<(string, Tree)>, i: nat, j: nat, c: Cursor)
    requires s.Obj? && Fits(c, |doc|) && i <= j <= |s.flds| && forall k :: i <= k < j ==> s.flds[k].Keyed?
    ensures AfterNested(s, doc, j, c) == AfterNested(s, doc, i, c)
    decreases j - i
  {
    if i < j { KeyedStaysBehind(s, doc, i, j - 1, c); }
  }

  /** Reading an object in which no object holds two nested ones leaves the finder so. */
  lemma {:induction false} AfterCapped(s: Schema, doc: seq<(string, Tree)>, c: Cursor)
    requires s.Obj? && WellFormed(s) && Linear(s) && Fits(c, |doc|) && Whole(c, |doc|)
    ensures Capped(After(s, doc, c), |doc|)
    decreases s
  {
    var c1 := AfterKeyed(s, doc, c);
    if i :| 0 <= i < |s.flds| && s.flds[i].Nested? {
      WholeAt(s, doc, c, i);
      AfterCapped(s.flds[i].obj, doc, At(s, doc, c, i));
      KeyedStaysBehind(s, doc, i + 1, |s.flds|, c1);
    } else {
      WholeAt(s, doc, c, |s.flds|);
    }
  }

  /** The second nested object of an object meets exactly as many fields, from the first one on, as were met before:
      those behind them are never looked at. */
  lemma {:induction false} SecondMeets(s: Schema, doc: seq<(string, Tree)>, i: nat, j: nat, p: nat)
    requires s.Obj? && WellFormed(s) && i < j < |s.flds| && s.flds[i].Nested? && Linear(s.flds[i].obj)
    requires forall k :: 0 <= k < j && k != i ==> s.flds[k].Keyed?
    ensures var c := At(s, doc, FRESH, j);
      ToCome(Start(c, |doc|), |doc|, p) <==> p < c.n
  {
    WholeAt(s, doc, FRESH, i);
    AfterCapped(s.flds[i].obj, doc, At(s, doc, FRESH, i));
    KeyedStaysBehind(s, doc, i + 1, j, AfterKeyed(s, doc, FRESH));
    CappedMeets(At(s, doc, FRESH, j), |doc|, p);
  }

  lemma {:induction false} CappedMeets(c: Cursor, size: nat, p: nat)
    requires Fits(c, size) && Capped(c, size)
    ensures ToCome(Start(c, size), size, p) <==> p < c.n
  {
  }

  /** The key stands among the first `n` fields. */
  predicate Early(doc: seq<(string, Tree)>, n: nat, k: string) {
    exists p :: 0 <= p < n && p < |doc| && doc[p].0 == k
  }

  /** What such a loop finds of a key. */
  lemma {:induction false} EarlyLookup(doc: seq<(string, Tree)>, c: Cursor, k: string)
    requires Fits(c, |doc|) && Once(doc, k) && forall p: nat :: ToCome(Start(c, |doc|), |doc|, p) <==> p < c.n
    ensures Lookup(View(doc, Start(c, |doc|)), k) == Lookup(doc, k) <==> Lookup(doc, k).None? || Early(doc, c.n, k)
  {
    var start := Start(c, |doc|);
    var view := View(doc, start);
    ViewLookup(doc, start, k);
    if Early(doc, c.n, k) {
      var p: nat :| p < c.n && p < |doc| && doc[p].0 == k;
      MeetsExactly(doc, start, doc[p]);
      var q :| 0 <= q < |view| && view[q] == doc[p];
      LookupSome(view, q);
    } else if Lookup(view, k).Some? {
      var q := LookupWhere(view, k);
      MeetsExactly(doc, start, view[q]);
    }
  }

  /** An object with two nested ones, of which the second holds keyed fields only. */
  ghost predicate Twin(s: Schema, i: nat, j: nat) {
    && s.Obj? && WellFormed(s) && i < j < |s.flds| && s.flds[i].Nested? && s.flds[j].Nested?
    && (forall k :: 0 <= k < |s.flds| && k != i && k != j ==> s.flds[k].Keyed?)
    && (forall k :: 0 <= k < |s.flds| && k != j ==> Linear(SchemaOf(s.flds[k])))
    && s.flds[j].obj.Obj?
    && (forall q :: 0 <= q < |s.flds[j].obj.flds| ==>
          s.flds[j].obj.flds[q].Keyed? && Linear(s.flds[j].obj.flds[q].s))
  }

  /** A field of the second nested object is found, or need not be. */
  ghost predicate Reached(f: Field, d: Data, doc: seq<(string, Tree)>, n: nat)
    requires f.Keyed?
  {
    Missing(f.s) == Some(d) || Early(doc, n, f.key)
  }

  ghost predicate AllReached(o: Schema, e: Data, doc: seq<(string, Tree)>, n: nat) {
    && o.Obj? && e.DObj? && |e.parts| == |o.flds|
    && forall q :: 0 <= q < |o.flds| ==> o.flds[q].Keyed? && Reached(o.flds[q], e.parts[q], doc, n)
  }

  /** Such an object is read back exactly when every `null` tells what it stands for and every field of the second
      nested object stands among those that were met before, or is what a missing one becomes. */
  lemma {:induction false} TwinRoundTripIff(s: Schema, d: Data, i: nat, j: nat)
    requires Twin(s, i, j) && Conforms(s, d)
    ensures var doc := WriteFields(s, d, 0);
      Read(s, Write(s, d)) == Ok(d) <==>
        NullsTell(s, d) && AllReached(s.flds[j].obj, d.parts[j], doc, At(s, doc, FRESH, j).n)
  {
    var doc := WriteFields(s, d, 0);
    RoundTripIff(s, d);
    forall k | k in FlatKeys(s, 0) ensures Once(doc, k) { WrittenOnce(s, d, 0, k); }
    forall k | 0 <= k < |s.flds| && k != j ensures SeenPart(s, d, doc, FRESH, k) { OtherSeen(s, d, i, j, k); }
    assert Seen(s, d) <==> SeenIn(s, d, doc, FRESH);
    assert SeenIn(s, d, doc, FRESH) <==> SeenPart(s, d, doc, FRESH, j);
    SecondSeenIff(s, d, i, j);
  }

  lemma {:induction false} OtherSeen(s: Schema, d: Data, i: nat, j: nat, k: nat)
    requires Twin(s, i, j) && Conforms(s, d) && k < |s.flds| && k != j
    requires forall key :: key in FlatKeys(s, 0) ==> Once(WriteFields(s, d, 0), key)
    ensures SeenPart(s, d, WriteFields(s, d, 0), FRESH, k)
  {
    var doc := WriteFields(s, d, 0);
    forall key | key in KeysOf(s.flds[k]) ensures Once(doc, key) { KeyIn(s, 0, k, key); }
    match s.flds[k]
    case Keyed(key, fs) =>
      assert key in KeysOf(s.flds[k]);
      WholeLookup(doc, FRESH, key);
      LinearSeen(fs, d.parts[k]);
    case Nested(o) =>
      WholeAt(s, doc, FRESH, k);
      LinearSeenIn(o, d.parts[k], doc, At(s, doc, FRESH, k));
  }

  lemma {:induction false} SecondSeenIff(s: Schema, d: Data, i: nat, j: nat)
    requires Twin(s, i, j) && Conforms(s, d)
    requires forall key :: key in FlatKeys(s, 0) ==> Once(WriteFields(s, d, 0), key)
    ensures var doc := WriteFields(s, d, 0);
      SeenPart(s, d, doc, FRESH, j) <==> AllReached(s.flds[j].obj, d.parts[j], doc, At(s, doc, FRESH, j).n)
  {
    var o, doc := s.flds[j].obj, WriteFields(s, d, 0);
    assert Conforms(o, d.parts[j]) by { assert s.flds[j] == Nested(o); }
    var c := At(s, doc, FRESH, j);
    forall p: nat ensures ToCome(Start(c, |doc|), |doc|, p) <==> p < c.n { SecondMeets(s, doc, i, j, p); }
    assert SeenPart(s, d, doc, FRESH, j) <==> SeenIn(o, d.parts[j], doc, c);
    if SeenIn(o, d.parts[j], doc, c) {
      forall q | 0 <= q < |o.flds| ensures Reached(o.flds[q], d.parts[j].parts[q], doc, c.n) {
        PartSeen(o, d.parts[j], doc, c, q);
        SecondPartSeenIff(s, d, j, q, c);
      }
    }
    if AllReached(o, d.parts[j], doc, c.n) {
      forall q | 0 <= q < |o.flds| ensures SeenPart(o, d.parts[j], doc, c, q) { SecondPartSeenIff(s, d, j, q, c); }
      AllPartsSeen(o, d.parts[j], doc, c);
    }
  }

  lemma {:induction false} AllPartsSeen(s: Schema, d: Data, doc: seq<(string, Tree)>, c: Cursor)
    requires s.Obj? && Conforms(s, d) && Fits(c, |doc|)
    requires forall q :: 0 <= q < |s.flds| ==> SeenPart(s, d, doc, c, q)
    ensures SeenIn(s, d, doc, c)
  {
  }

  lemma {:induction false} PartSeen(s: Schema, d: Data, doc: seq<(string, Tree)>, c: Cursor, q: nat)
    requires s.Obj? && Conforms(s, d) && Fits(c, |doc|) && SeenIn(s, d, doc, c) && q < |s.flds|
    ensures SeenPart(s, d, doc, c, q)
  {
  }

  lemma {:induction false} SecondPartSeenIff(s: Schema, d: Data, j: nat, q: nat, c: Cursor)
    requires s.Obj? && WellFormed(s) && Conforms(s, d) && j < |s.flds| && s.flds[j].Nested? && s.flds[j].obj.Obj?
    requires q < |s.flds[j].obj.flds| && s.flds[j].obj.flds[q].Keyed? && Linear(s.flds[j].obj.flds[q].s)
    requires forall key :: key in FlatKeys(s, 0) ==> Once(WriteFields(s, d, 0), key)
    requires var doc := WriteFields(s, d, 0);
      Fits(c, |doc|) && forall p: nat :: ToCome(Start(c, |doc|), |doc|, p) <==> p < c.n
    ensures var o, doc := s.flds[j].obj, WriteFields(s, d, 0);
      SeenPart(o, d.parts[j], doc, c, q) <==> Reached(o.flds[q], d.parts[j].parts[q], doc, c.n)
  {
    var o, doc, e := s.flds[j].obj, WriteFields(s, d, 0), d.parts[j];
    var k, fs := o.flds[q].key, o.flds[q].s;
    assert k in KeysOf(o.flds[q]);
    KeyIn(o, 0, q, k);
    KeyIn(s, 0, j, k);
    EarlyLookup(doc, c, k);
    LinearSeen(fs, e.parts[q]);
    FoundWhereWritten(s, d, 0, j, k);
    KeysSplitAt(s, j);
    FoundWhereWritten(o, e, 0, q, k);
    if Empty(fs, e.parts[q]) { DefaultsTell(fs, e.parts[q]); }
  }

  lemma {:induction false} KeysSplitAt(s: Schema, j: nat)
    requires s.Obj? && WellFormed(s) && j < |s.flds| && s.flds[j].Nested? && s.flds[j].obj.Obj?
    ensures Distinct(FlatKeys(s.flds[j].obj, 0))
  {
  }

  // ----- two examples

  /** `x`, and two nested objects of one field each. */
  function Two(b: Schema): Schema {
    Obj([Keyed("x", Num), Nested(Obj([Keyed("a", Num)])), Nested(Obj([Keyed("b", b)]))])
  }

  lemma {:induction false} KeysDiffer()
    ensures "x" != "a" && "x" != "b" && "a" != "b"
  {
    assert "x"[0] == 'x' && "a"[0] == 'a' && "b"[0] == 'b';
  }

  lemma {:induction false} TwoWellFormed(b: Schema)
    requires WellFormed(b)
    ensures WellFormed(Two(b))
  {
    KeysDiffer();
    var s := Two(b);
    assert FlatKeys(s, 3) == [] && FlatKeys(s, 2) == ["b"] by { OneKey("b", b); }
    assert FlatKeys(s, 1) == ["a", "b"] by { OneKey("a", Num); }
    assert FlatKeys(s, 0) == ["x", "a", "b"];
    OneKey("a", Num);
    OneKey("b", b);
  }

  lemma {:induction false} OneKey(k: string, s: Schema)
    requires WellFormed(s)
    ensures FlatKeys(Obj([Keyed(k, s)]), 0) == [k] && WellFormed(Obj([Keyed(k, s)]))
  {
    assert FlatKeys(Obj([Keyed(k, s)]), 1) == [];
  }

  lemma {:induction false} OnlyKey(k: string, s: Schema)
    ensures OwnKeys([Keyed(k, s)]) == {k} && AnyKeyed([Keyed(k, s)])
  {
    var flds := [Keyed(k, s)];
    assert flds[0].Keyed?;
  }

  /** One key, and the very next field has it. */
  lemma {:induction false} NextHasIt(s: Schema, doc: seq<(string, Tree)>, c: Cursor, k: string, c': Cursor, i: nat)
    requires s.Obj? && Fits(c, |doc|) && AnyKeyed(s.flds) && OwnKeys(s.flds) == {k}
    requires Next(Start(c, |doc|), |doc|) == (c', Some(i)) && doc[i].0 == k
    ensures AfterKeyed(s, doc, c) == c'
  {
    assert {k} - {doc[i].0} == {};
    assert Pass({}, doc, c') == c';
  }

  /** When the second nested object is read, the finder has met two fields. */
  lemma {:induction false} TwoMet(b: Schema, doc: seq<(string, Tree)>)
    requires |doc| == 3 && doc[0].0 == "x" && doc[1].0 == "a" && doc[2].0 == "b"
    ensures At(Two(b), doc, FRESH, 2) == Cursor(3, 2, 1, true)
  {
    var s, o := Two(b), Obj([Keyed("a", Num)]);
    var c1, c2 := Cursor(0, 1, 1, true), Cursor(1, 2, 1, true);
    assert s.flds[0].Keyed? && OwnKeys(s.flds) == {"x"};
    NextHasIt(s, doc, FRESH, "x", c1, 0);
    OnlyKey("a", Num);
    NextHasIt(o, doc, c1, "a", c2, 1);
    KeyedStays(o, doc, 1, c2);
    KeyedStays(s, doc, 1, c1);
    assert AfterNested(s, doc, 2, c1) == After(o, doc, c1);
  }

  /** So it does not find its own. */
  lemma {:induction false} SecondBlind(doc: seq<(string, Tree)>)
    requires |doc| == 3 && doc[0].0 == "x" && doc[1].0 == "a" && doc[2].0 == "b"
    ensures Lookup(View(doc, Start(Cursor(3, 2, 1, true), 3)), "b") == None
  {
    KeysDiffer();
    var view := View(doc, Start(Cursor(3, 2, 1, true), 3));
    if Lookup(view, "b").Some? {
      var q := LookupWhere(view, "b");
      MeetsExactly(doc, Start(Cursor(3, 2, 1, true), 3), view[q]);
    }
  }

  function Numbers(x: int, a: int, b: Data): Data { DObj([DNum(x), DObj([DNum(a)]), DObj([b])]) }

  lemma {:induction false} TwoConforms(s: Schema, x: int, a: int, b: Data)
    requires Conforms(s, b)
    ensures Conforms(Two(s), Numbers(x, a, b))
  {
    assert Conforms(Obj([Keyed("a", Num)]), DObj([DNum(a)]));
    assert Conforms(Obj([Keyed("b", s)]), DObj([b]));
  }

  lemma {:induction false} WritesOne(k: string, s: Schema, d: Data)
    requires Conforms(s, d) && !Empty(s, d)
    ensures Conforms(Obj([Keyed(k, s)]), DObj([d]))
    ensures WriteFields(Obj([Keyed(k, s)]), DObj([d]), 0) == [(k, Write(s, d))]
  {
    var o := Obj([Keyed(k, s)]);
    assert Conforms(o, DObj([d]));
    assert WriteFields(o, DObj([d]), 1) == [];
  }

  lemma {:induction false} TwoWritten(s: Schema, x: int, a: int, b: Data)
    requires Conforms(s, b) && !Empty(s, b)
    ensures Conforms(Two(s), Numbers(x, a, b))
    ensures WriteFields(Two(s), Numbers(x, a, b), 0) == [("x", JNum(x)), ("a", JNum(a)), ("b", Write(s, b))]
  {
    var t, d := Two(s), Numbers(x, a, b);
    TwoConforms(s, x, a, b);
    WritesOne("a", Num, DNum(a));
    WritesOne("b", s, b);
    assert WriteFields(t, d, 3) == [];
    assert WriteFields(t, d, 2) == [("b", Write(s, b))];
    assert WriteFields(t, d, 1) == [("a", JNum(a)), ("b", Write(s, b))];
  }

  /** What the second nested object reads depends on what a missing field becomes. */
  lemma {:induction false} SecondReads(s: Schema, doc: seq<(string, Tree)>, part: Data)
    requires |doc| == 3 && doc[0].0 == "x" && doc[1].0 == "a" && doc[2].0 == "b" && WellFormed(s)
    ensures FieldReads(Two(s), doc, FRESH, 2, part) <==> Missing(s).Some? && part == DObj([Missing(s).value])
  {
    var o := Obj([Keyed("b", s)]);
    TwoMet(s, doc);
    SecondBlind(doc);
    OneKey("b", s);
    var c := Cursor(3, 2, 1, true);
    if part.DObj? {
      ReadObjIff(o, doc, c, part.parts);
      if |part.parts| == 1 {
        assert FieldReads(o, doc, c, 0, part.parts[0]) <==> Missing(s) == Some(part.parts[0]);
      }
    }
  }

  lemma {:induction false} TwoFails(s: Schema, doc: seq<(string, Tree)>, parts: seq<Data>)
    requires |doc| == 3 && doc[0].0 == "x" && doc[1].0 == "a" && doc[2].0 == "b" && WellFormed(s) && Missing(s).None?
    ensures ReadObj(Two(s), doc, FRESH).0 != Ok(DObj(parts))
  {
    TwoWellFormed(s);
    ReadObjIff(Two(s), doc, FRESH, parts);
    if |parts| == 3 { SecondReads(s, doc, parts[2]); }
  }

  /** An object is read to nothing but an object. */
  lemma {:induction false} ObjectOnly(s: Schema, doc: seq<(string, Tree)>, c: Cursor)
    requires s.Obj? && Fits(c, |doc|)
    ensures ReadObj(s, doc, c).0.Ok? ==> ReadObj(s, doc, c).0.value.DObj?
  {
  }

  /** Every such value fails to be read back if the second nested field must be there. */
  lemma {:induction false} SecondNotFound(s: Schema, x: int, a: int, b: Data)
    requires WellFormed(s) && Conforms(s, b) && !Empty(s, b) && Missing(s).None?
    ensures Conforms(Two(s), Numbers(x, a, b)) && Read(Two(s), Write(Two(s), Numbers(x, a, b))).Err?
  {
    TwoWritten(s, x, a, b);
    var doc := WriteFields(Two(s), Numbers(x, a, b), 0);
    ObjectOnly(Two(s), doc, FRESH);
    var r := ReadObj(Two(s), doc, FRESH).0;
    if r.Ok? { TwoFails(s, doc, r.value.parts); }
  }

  lemma {:induction false} Lookups(doc: seq<(string, Tree)>, x: Tree, a: Tree, b: Tree)
    requires doc == [("x", x), ("a", a), ("b", b)]
    ensures Once(doc, "x") && Once(doc, "a") && Lookup(doc, "x") == Some(x) && Lookup(doc, "a") == Some(a)
  {
    KeysDiffer();
    var d1, d2 := doc[1..], doc[2..];
    assert d1 == [("a", a), ("b", b)] && d1[1..] == d2 == [("b", b)] && d2[1..] == [];
    assert Lookup(d2, "x") == Lookup(d2, "a") == None && Lookup(d1, "x") == None;
  }

  lemma {:induction false} FirstsRead(s: Schema, doc: seq<(string, Tree)>, x: int, a: int, b: Tree)
    requires doc == [("x", JNum(x)), ("a", JNum(a)), ("b", b)]
    ensures FieldReads(Two(s), doc, FRESH, 0, DNum(x)) && FieldReads(Two(s), doc, FRESH, 1, DObj([DNum(a)]))
  {
    Lookups(doc, JNum(x), JNum(a), b);
    WholeLookup(doc, FRESH, "x");
    WholeAt(Two(s), doc, FRESH, 1);
    OneRead(doc, At(Two(s), doc, FRESH, 1), "a", a);
  }

  lemma {:induction false} OneRead(doc: seq<(string, Tree)>, c: Cursor, k: string, v: int)
    requires Fits(c, |doc|) && Whole(c, |doc|) && Once(doc, k) && Lookup(doc, k) == Some(JNum(v))
    ensures ReadObj(Obj([Keyed(k, Num)]), doc, c).0 == Ok(DObj([DNum(v)]))
  {
    OneKey(k, Num);
    WholeLookup(doc, c, k);
    ReadObjIff(Obj([Keyed(k, Num)]), doc, c, [DNum(v)]);
  }

  /** And if it need not be there, what was written of it is lost without an error. */
  lemma {:induction false} SecondLost(x: int, a: int, b: int)
    ensures var s, d := Two(Opt(true, Num)), Numbers(x, a, DOpt(Some(DNum(b))));
      Conforms(s, d) && Read(s, Write(s, d)) == Ok(Numbers(x, a, DOpt(None)))
  {
    var o, full := Opt(true, Num), DOpt(Some(DNum(b)));
    assert Conforms(o, full);
    TwoWritten(o, x, a, full);
    TwoReads(o, WriteFields(Two(o), Numbers(x, a, full), 0), x, a, Write(o, full), DOpt(None));
  }

  lemma {:induction false} TwoReads(s: Schema, doc: seq<(string, Tree)>, x: int, a: int, b: Tree, d: Data)
    requires doc == [("x", JNum(x)), ("a", JNum(a)), ("b", b)] && WellFormed(s) && Missing(s) == Some(d)
    ensures ReadObj(Two(s), doc, FRESH).0 == Ok(Numbers(x, a, d))
  {
    TwoWellFormed(s);
    FirstsRead(s, doc, x, a, b);
    SecondReads(s, doc, DObj([d]));
    ThreeRead(Two(s), doc, FRESH, DNum(x), DObj([DNum(a)]), DObj([d]));
  }

  lemma {:induction false} ThreeRead(s: Schema, doc: seq<(string, Tree)>, c: Cursor, p: Data, q: Data, r: Data)
    requires s.Obj? && |s.flds| == 3 && WellFormed(s) && Fits(c, |doc|)
    requires FieldReads(s, doc, c, 0, p) && FieldReads(s, doc, c, 1, q) && FieldReads(s, doc, c, 2, r)
    ensures ReadObj(s, doc, c).0 == Ok(DObj([p, q, r]))
  {
    ReadObjIff(s, doc, c, [p, q, r]);
  }
}
