/** What reading gives back of what was written, for every schema and every value. */
module JserRoundTrip {
  import opened Base
  import opened Sequences
  import opened JserFinder
  import opened Jser
  import opened JserObjects

  // ----- arrays

  lemma {:induction false} ReadElemsIff(s: Schema, js: seq<Tree>, ds: seq<Data>)
    requires s.Range?
    ensures ReadElems(s, js) == Ok(ds) <==>
      |ds| == |js| && forall i :: 0 <= i < |js| ==> Read(s.elem, js[i]) == Ok(ds[i])
    decreases |js|
  {
    if js != [] {
      if ds != [] {
        ReadElemsIff(s, js[1..], ds[1..]);
        assert ds == [ds[0]] + ds[1..];
        assert forall i :: 0 <= i < |js| ==> js[i] == if i == 0 then js[0] else js[1..][i - 1];
      } else if ReadElems(s, js).Ok? {
        assert |ReadElems(s, js).value| > 0;
      }
    }
  }

  lemma {:induction false} ReadPartsIff(s: Schema, js: seq<Tree>, i: nat, ds: seq<Data>)
    requires s.Tuple? && i <= |s.elems|
    ensures ReadParts(s, js, i) == Ok(ds) <==>
      && |ds| == |s.elems| - i && (i < |s.elems| ==> |js| >= |s.elems|)
      && forall k :: i <= k < |s.elems| ==> Read(s.elems[k], js[k]) == Ok(ds[k - i])
    decreases |s.elems| - i
  {
    if i < |s.elems| && i < |js| {
      if ds != [] {
        ReadPartsIff(s, js, i + 1, ds[1..]);
        assert ds == [ds[0]] + ds[1..];
        assert |ds| == |s.elems| - i ==> forall m {:trigger ds[m]} :: 1 <= m < |ds| ==> ds[m] == ds[1..][m - 1];
      } else if ReadParts(s, js, i).Ok? {
        assert |ReadParts(s, js, i).value| > 0;
      }
    }
  }

  // ----- documents

  lemma {:induction false} LookupConcat(a: seq<(string, Tree)>, b: seq<(string, Tree)>, k: string)
    ensures Lookup(a + b, k) == if Lookup(a, k).Some? then Lookup(a, k) else Lookup(b, k)
    decreases |a|
  {
    if a == [] {
      assert a + b == b;
    } else {
      assert (a + b)[1..] == a[1..] + b;
      LookupConcat(a[1..], b, k);
    }
  }

  /** Only keys of the schema are written. */
  lemma {:induction false} OnlyKnownKeys(s: Schema, d: Data, i: nat, k: string)
    requires s.Obj? && Conforms(s, d) && i <= |s.flds| && k !in FlatKeys(s, i)
    ensures Lookup(WriteFields(s, d, i), k).None?
    decreases s, |s.flds| - i
  {
    if i < |s.flds| {
      OnlyKnownKeys(s, d, i + 1, k);
      LookupConcat(WriteField(s.flds[i], d.parts[i]), WriteFields(s, d, i + 1), k);
      if s.flds[i].Nested? { OnlyKnownKeys(s.flds[i].obj, d.parts[i], 0, k); }
    }
  }

  /** With unique keys, a field is found where its part was written. */
  lemma {:induction false} FoundWhereWritten(s: Schema, d: Data, i: nat, j: nat, k: string)
    requires s.Obj? && Conforms(s, d) && i <= j < |s.flds|
    requires Distinct(FlatKeys(s, i)) && k in KeysOf(s.flds[j])
    ensures Lookup(WriteFields(s, d, i), k) == Lookup(WriteField(s.flds[j], d.parts[j]), k)
    decreases j - i
  {
    LookupConcat(WriteField(s.flds[i], d.parts[i]), WriteFields(s, d, i + 1), k);
    KeysSplit(s, i);
    if i < j {
      KeyIn(s, i + 1, j, k);
      FoundWhereWritten(s, d, i + 1, j, k);
      assert k !in KeysOf(s.flds[i]);
      if s.flds[i].Nested? { OnlyKnownKeys(s.flds[i].obj, d.parts[i], 0, k); }
    } else {
      OnlyKnownKeys(s, d, i + 1, k);
    }
  }

  /** A keyed part is written under its key exactly if it is not an empty optional or variant. */
  lemma {:induction false} WrittenIffNotEmpty(s: Schema, d: Data, i: nat)
    requires s.Obj? && WellFormed(s) && Conforms(s, d) && i < |s.flds| && s.flds[i].Keyed?
    ensures Lookup(WriteFields(s, d, 0), s.flds[i].key) ==
      if Empty(s.flds[i].s, d.parts[i]) then None else Some(Write(s.flds[i].s, d.parts[i]))
  {
    assert s.flds[i].key in KeysOf(s.flds[i]);
    FoundWhereWritten(s, d, 0, i, s.flds[i].key);
  }

  /** An array has one tree for each element. */
  lemma {:induction false} WritesAsMany(s: Schema, d: Data)
    requires Conforms(s, d) && (s.Range? || s.Tuple?)
    ensures Write(s, d).JArr? && |Write(s, d).elems| == |d.elems|
  {
  }

  /** The key stands there at most once. */
  predicate Once(doc: seq<(string, Tree)>, k: string) {
    doc == [] || if doc[0].0 == k then Lookup(doc[1..], k).None? else Once(doc[1..], k)
  }

  lemma {:induction false} AbsentOnce(doc: seq<(string, Tree)>, k: string)
    requires Lookup(doc, k).None?
    ensures Once(doc, k)
  {
    if doc != [] { AbsentOnce(doc[1..], k); }
  }

  lemma {:induction false} OnceConcat(a: seq<(string, Tree)>, b: seq<(string, Tree)>, k: string)
    requires Once(a, k) && Once(b, k) && (Lookup(a, k).None? || Lookup(b, k).None?)
    ensures Once(a + b, k)
    decreases |a|
  {
    if a == [] {
      assert a + b == b;
    } else {
      assert (a + b)[1..] == a[1..] + b;
      LookupConcat(a[1..], b, k);
      if a[0].0 != k { OnceConcat(a[1..], b, k); }
    }
  }

  /** With unique keys, each is written at most once. */
  lemma {:induction false} WrittenOnce(s: Schema, d: Data, i: nat, k: string)
    requires s.Obj? && Conforms(s, d) && i <= |s.flds| && Distinct(FlatKeys(s, i))
    ensures Once(WriteFields(s, d, i), k)
    decreases s, |s.flds| - i
  {
    if i < |s.flds| {
      var f, p := s.flds[i], d.parts[i];
      KeysSplit(s, i);
      WrittenOnce(s, d, i + 1, k);
      if f.Nested? { WrittenOnce(f.obj, p, 0, k); }
      if k in KeysOf(f) {
        OnlyKnownKeys(s, d, i + 1, k);
      } else if f.Nested? {
        OnlyKnownKeys(f.obj, p, 0, k);
      }
      OnceConcat(WriteField(f, p), WriteFields(s, d, i + 1), k);
    }
  }

  lemma {:induction false} LookupSome(doc: seq<(string, Tree)>, n: nat)
    requires n < |doc|
    ensures Lookup(doc, doc[n].0).Some?
  {
    if n > 0 { LookupSome(doc[1..], n - 1); }
  }

  lemma {:induction false} LookupAt(doc: seq<(string, Tree)>, n: nat)
    requires n < |doc| && Once(doc, doc[n].0)
    ensures Lookup(doc, doc[n].0) == Some(doc[n].1)
  {
    if n > 0 {
      LookupSome(doc[1..], n - 1);
      LookupAt(doc[1..], n - 1);
    }
  }

  lemma {:induction false} LookupWhere(doc: seq<(string, Tree)>, k: string) returns (p: nat)
    requires Lookup(doc, k).Some?
    ensures p < |doc| && doc[p].0 == k
  {
    if doc[0].0 == k {
      p := 0;
    } else {
      p := LookupWhere(doc[1..], k);
      p := p + 1;
    }
  }

  /** What a loop finds of a key is what the document says about it. */
  lemma {:induction false} ViewLookup(doc: seq<(string, Tree)>, c: Cursor, k: string)
    requires Fits(c, |doc|) && c.j <= c.n && Once(doc, k)
    ensures Lookup(View(doc, c), k).Some? ==> Lookup(View(doc, c), k) == Lookup(doc, k)
    decreases Left(c, |doc|)
  {
    var (c', f) := Next(c, |doc|);
    if f.Some? {
      var view := View(doc, c');
      assert View(doc, c) == [doc[f.value]] + view && ([doc[f.value]] + view)[1..] == view;
      if doc[f.value].0 == k { LookupAt(doc, f.value); } else { ViewLookup(doc, c', k); }
    }
  }

  /** As long as nothing was skipped, a loop finds every key. */
  lemma {:induction false} WholeLookup(doc: seq<(string, Tree)>, c: Cursor, k: string)
    requires Fits(c, |doc|) && Whole(c, |doc|) && Once(doc, k)
    ensures Lookup(View(doc, Start(c, |doc|)), k) == Lookup(doc, k)
  {
    var start := Start(c, |doc|);
    ViewLookup(doc, start, k);
    if Lookup(doc, k).Some? {
      var p := LookupWhere(doc, k);
      WholeMeetsAll(c, |doc|, p);
      MeetsExactly(doc, start, doc[p]);
      var q :| 0 <= q < |View(doc, start)| && View(doc, start)[q] == doc[p];
      LookupSome(View(doc, start), q);
    }
  }

  lemma {:induction false} WholePass(waiting: set<string>, doc: seq<(string, Tree)>, c: Cursor)
    requires Fits(c, |doc|) && c.j <= c.n && Whole(c, |doc|)
    ensures Whole(Pass(waiting, doc, c), |doc|)
    decreases Left(c, |doc|)
  {
    WholeNext(c, |doc|);
    if waiting != {} {
      var (c', f) := Next(c, |doc|);
      if f.Some? { WholePass(waiting - {doc[f.value].0}, doc, c'); }
    }
  }

  // ----- the round trip

  predicate WritesNull(s: Schema, d: Data) {
    match s
    case Nothing => true
    case Opt(_, inner) => d.DOpt? && (d.opt.None? || WritesNull(inner, d.opt.value))
    case Variant(_, _, _) => d.DVariant? && d.index == 0
    case _ => false
  }

  /** No engaged optional holds something that is itself written as `null`. */
  ghost predicate NullsTell(s: Schema, d: Data)
    requires Conforms(s, d)
  {
    match s
    case Num => true
    case Str(_) => true
    case Nothing => true
    case Opt(_, inner) => d.opt.Some? ==> !WritesNull(inner, d.opt.value) && NullsTell(inner, d.opt.value)
    case Variant(_, _, alts) => d.index > 0 ==> NullsTell(alts[d.index - 1], d.val)
    case Range(_, elem) => forall i :: 0 <= i < |d.elems| ==> NullsTell(elem, d.elems[i])
    case Tuple(_, elems) => forall i :: 0 <= i < |elems| ==> NullsTell(elems[i], d.elems[i])
    case Obj(flds) => forall i :: 0 <= i < |flds| ==> NullsTell(SchemaOf(flds[i]), d.parts[i])
  }

  function SchemaOf(f: Field): Schema {
    match f case Keyed(_, s) => s case Nested(o) => o
  }

  lemma {:induction false} WritesNullIff(s: Schema, d: Data)
    requires WellFormed(s) && Conforms(s, d)
    ensures WritesNull(s, d) <==> Write(s, d) == JNull
    ensures AltKind(s).Some? ==> KindOf(Write(s, d)) == AltKind(s).value
    decreases s
  {
    match s
    case Opt(_, inner) => if d.opt.Some? { WritesNullIff(inner, d.opt.value); }
    case Variant(_, _, alts) =>
      if d.index > 0 { WritesNullIff(alts[d.index - 1], d.val); }
    case _ =>
  }

  /** One part of an object can be read where the finder is by then: a nested object in turn, and a keyed field if
      the loop meets it, or if it needs no reading to be what it was. */
  ghost predicate SeenPart(s: Schema, d: Data, doc: seq<(string, Tree)>, c: Cursor, i: nat)
    requires s.Obj? && Conforms(s, d) && Fits(c, |doc|) && i < |s.flds|
    decreases s, 0
  {
    match s.flds[i]
    case Keyed(k, fs) =>
      && Seen(fs, d.parts[i])
      && (Lookup(View(doc, Start(c, |doc|)), k) == Lookup(doc, k) || Missing(fs) == Some(d.parts[i]))
    case Nested(o) => SeenIn(o, d.parts[i], doc, At(s, doc, c, i))
  }

  ghost predicate SeenIn(s: Schema, d: Data, doc: seq<(string, Tree)>, c: Cursor)
    requires s.Obj? && Conforms(s, d) && Fits(c, |doc|)
    decreases s, 1
  {
    forall i :: 0 <= i < |s.flds| ==> SeenPart(s, d, doc, c, i)
  }

  /** The finder, which goes where the keys lead it, meets all that was written, in every object. */
  ghost predicate Seen(s: Schema, d: Data)
    requires Conforms(s, d)
    decreases s, 2
  {
    match s
    case Num => true
    case Str(_) => true
    case Nothing => true
    case Opt(_, inner) => d.opt.Some? ==> Seen(inner, d.opt.value)
    case Variant(_, _, alts) => d.index > 0 ==> Seen(alts[d.index - 1], d.val)
    case Range(_, elem) => forall i :: 0 <= i < |d.elems| ==> Seen(elem, d.elems[i])
    case Tuple(_, elems) => forall i :: 0 <= i < |elems| ==> Seen(elems[i], d.elems[i])
    case Obj(_) => SeenIn(s, d, WriteFields(s, d, 0), FRESH)
  }

  /** Everything a document says about the known keys is what was written, and is said once. */
  ghost predicate Agrees(s: Schema, d: Data, doc: seq<(string, Tree)>)
    requires s.Obj? && Conforms(s, d)
  {
    forall k :: k in FlatKeys(s, 0) ==> Once(doc, k) && Lookup(doc, k) == Lookup(WriteFields(s, d, 0), k)
  }

  /** Reading what was written gives the value back exactly when every `null` in it tells what it stands for and
      the finder meets every field it is needed for. */
  lemma {:induction false} RoundTripIff(s: Schema, d: Data)
    requires WellFormed(s) && Conforms(s, d)
    ensures Read(s, Write(s, d)) == Ok(d) <==> NullsTell(s, d) && Seen(s, d)
    decreases s, 1
  {
    match s
    case Num =>
    case Str(_) =>
    case Nothing =>
    case Opt(_, inner) =>
      if d.opt.Some? {
        WritesNullIff(inner, d.opt.value);
        RoundTripIff(inner, d.opt.value);
      }
    case Variant(_, _, _) => VariantRoundTrip(s, d);
    case Range(_, _) => RangeRoundTrip(s, d);
    case Tuple(_, _) => TupleRoundTrip(s, d);
    case Obj(_) =>
      forall k | k in FlatKeys(s, 0) ensures Once(WriteFields(s, d, 0), k) { WrittenOnce(s, d, 0, k); }
      ObjRoundTrip(s, d, WriteFields(s, d, 0), FRESH);
  }

  lemma {:induction false} VariantRoundTrip(s: Schema, d: Data)
    requires s.Variant? && WellFormed(s) && Conforms(s, d)
    ensures Read(s, Write(s, d)) == Ok(d) <==> NullsTell(s, d) && Seen(s, d)
    decreases s, 0
  {
    if d.index > 0 {
      WritesNullIff(s.alts[d.index - 1], d.val);
      RoundTripIff(s.alts[d.index - 1], d.val);
      var i := MatchAlt(s.alts, KindOf(Write(s, d)));
      assert i == d.index;
    }
  }

  lemma {:induction false} RangeRoundTrip(s: Schema, d: Data)
    requires s.Range? && WellFormed(s) && Conforms(s, d)
    ensures Read(s, Write(s, d)) == Ok(d) <==> NullsTell(s, d) && Seen(s, d)
    decreases s, 0
  {
    forall i | 0 <= i < |d.elems|
      ensures Read(s.elem, Write(s.elem, d.elems[i])) == Ok(d.elems[i]) <==>
        NullsTell(s.elem, d.elems[i]) && Seen(s.elem, d.elems[i])
    {
      RoundTripIff(s.elem, d.elems[i]);
    }
    ReadElemsIff(s, Write(s, d).elems, d.elems);
  }

  lemma {:induction false} TupleRoundTrip(s: Schema, d: Data)
    requires s.Tuple? && WellFormed(s) && Conforms(s, d)
    ensures Read(s, Write(s, d)) == Ok(d) <==> NullsTell(s, d) && Seen(s, d)
    decreases s, 0
  {
    forall i | 0 <= i < |s.elems|
      ensures Read(s.elems[i], Write(s.elems[i], d.elems[i])) == Ok(d.elems[i]) <==>
        NullsTell(s.elems[i], d.elems[i]) && Seen(s.elems[i], d.elems[i])
    {
      RoundTripIff(s.elems[i], d.elems[i]);
    }
    ReadPartsIff(s, Write(s, d).elems, 0, d.elems);
  }

  /** The same for objects, read from any document that agrees with what was written, with fields in any order and
      unknown ones between them, and from wherever the finder is. */
  lemma {:induction false} ObjRoundTrip(s: Schema, d: Data, doc: seq<(string, Tree)>, c: Cursor)
    requires s.Obj? && WellFormed(s) && Conforms(s, d) && Agrees(s, d, doc) && Fits(c, |doc|)
    ensures ReadObj(s, doc, c).0 == Ok(d) <==> NullsTell(s, d) && SeenIn(s, d, doc, c)
    decreases s, 0
  {
    forall i | 0 <= i < |s.flds|
      ensures FieldReads(s, doc, c, i, d.parts[i]) <==>
        NullsTell(SchemaOf(s.flds[i]), d.parts[i]) && SeenPart(s, d, doc, c, i)
    {
      FieldRoundTrip(s, d, doc, c, i);
    }
    ReadObjIff(s, doc, c, d.parts);
  }

  lemma {:induction false} FieldRoundTrip(s: Schema, d: Data, doc: seq<(string, Tree)>, c: Cursor, i: nat)
    requires s.Obj? && WellFormed(s) && Conforms(s, d) && Agrees(s, d, doc) && Fits(c, |doc|) && i < |s.flds|
    ensures FieldReads(s, doc, c, i, d.parts[i]) <==>
      NullsTell(SchemaOf(s.flds[i]), d.parts[i]) && SeenPart(s, d, doc, c, i)
    decreases s, 0, 0
  {
    var f, p := s.flds[i], d.parts[i];
    forall k | k in KeysOf(f) ensures Once(doc, k) && Lookup(doc, k) == Lookup(WriteField(f, p), k) {
      KeyIn(s, 0, i, k);
      FoundWhereWritten(s, d, 0, i, k);
    }
    match f
    case Keyed(k, fs) =>
      assert k in KeysOf(f);
      ViewLookup(doc, Start(c, |doc|), k);
      if Missing(fs) == Some(p) || Empty(fs, p) { DefaultsTell(fs, p); }
      if !Empty(fs, p) { RoundTripIff(fs, p); }
    case Nested(o) =>
      ObjRoundTrip(o, p, doc, At(s, doc, c, i));
  }

  /** What a missing field becomes has nothing in it that could be misread. */
  lemma {:induction false} DefaultsTell(s: Schema, d: Data)
    requires Conforms(s, d) && (Missing(s) == Some(d) || Empty(s, d))
    ensures NullsTell(s, d) && Seen(s, d) && (Empty(s, d) ==> Missing(s) == Some(d))
  {
  }

  // ----- one nested object

  /** No object holds more than one nested object. */
  ghost predicate Linear(s: Schema) {
    match s
    case Num => true
    case Str(_) => true
    case Nothing => true
    case Opt(_, inner) => Linear(inner)
    case Variant(_, _, alts) => forall i :: 0 <= i < |alts| ==> Linear(alts[i])
    case Range(_, elem) => Linear(elem)
    case Tuple(_, elems) => forall i :: 0 <= i < |elems| ==> Linear(elems[i])
    case Obj(flds) =>
      && (forall i, j :: 0 <= i < j < |flds| && flds[i].Nested? ==> flds[j].Keyed?)
      && (forall i :: 0 <= i < |flds| ==> Linear(SchemaOf(flds[i])))
  }

  /** Then nothing is skipped before the last loop. */
  lemma {:induction false} WholeAt(s: Schema, doc: seq<(string, Tree)>, c: Cursor, i: nat)
    requires s.Obj? && Fits(c, |doc|) && Whole(c, |doc|) && i <= |s.flds|
    requires forall k :: 0 <= k < i ==> s.flds[k].Keyed?
    ensures Whole(At(s, doc, c, i), |doc|)
  {
    KeyedStays(s, doc, i, AfterKeyed(s, doc, c));
    if AnyKeyed(s.flds) { WholePass(OwnKeys(s.flds), doc, Start(c, |doc|)); }
  }

  lemma {:induction false} KeyedStays(s: Schema, doc: seq<(string, Tree)>, i: nat, c: Cursor)
    requires s.Obj? && Fits(c, |doc|) && i <= |s.flds| && forall k :: 0 <= k < i ==> s.flds[k].Keyed?
    ensures AfterNested(s, doc, i, c) == c
    decreases i
  {
    if i > 0 { KeyedStays(s, doc, i - 1, c); }
  }

  lemma {:induction false} LinearSeenIn(s: Schema, d: Data, doc: seq<(string, Tree)>, c: Cursor)
    requires s.Obj? && WellFormed(s) && Linear(s) && Conforms(s, d) && Fits(c, |doc|) && Whole(c, |doc|)
    requires forall k :: k in FlatKeys(s, 0) ==> Once(doc, k)
    ensures SeenIn(s, d, doc, c)
    decreases s, 0
  {
    forall i | 0 <= i < |s.flds| ensures SeenPart(s, d, doc, c, i) {
      forall k | k in KeysOf(s.flds[i]) ensures Once(doc, k) { KeyIn(s, 0, i, k); }
      match s.flds[i]
      case Keyed(k, fs) =>
        assert k in KeysOf(s.flds[i]);
        WholeLookup(doc, c, k);
        LinearSeen(fs, d.parts[i]);
      case Nested(o) =>
        WholeAt(s, doc, c, i);
        LinearSeenIn(o, d.parts[i], doc, At(s, doc, c, i));
    }
  }

  lemma {:induction false} LinearSeen(s: Schema, d: Data)
    requires WellFormed(s) && Linear(s) && Conforms(s, d)
    ensures Seen(s, d)
    decreases s, 1
  {
    match s
    case Num =>
    case Str(_) =>
    case Nothing =>
    case Opt(_, inner) => if d.opt.Some? { LinearSeen(inner, d.opt.value); }
    case Variant(_, _, alts) => if d.index > 0 { LinearSeen(alts[d.index - 1], d.val); }
    case Range(_, elem) =>
      forall i | 0 <= i < |d.elems| ensures Seen(elem, d.elems[i]) { LinearSeen(elem, d.elems[i]); }
    case Tuple(_, elems) =>
      forall i | 0 <= i < |elems| ensures Seen(elems[i], d.elems[i]) { LinearSeen(elems[i], d.elems[i]); }
    case Obj(_) =>
      forall k | k in FlatKeys(s, 0) ensures Once(WriteFields(s, d, 0), k) { WrittenOnce(s, d, 0, k); }
      LinearSeenIn(s, d, WriteFields(s, d, 0), FRESH);
  }

  /** So for every schema in which no object holds two nested ones, every value is restored exactly when every
      `null` in it tells what it stands for. */
  lemma {:induction false} LinearRoundTripIff(s: Schema, d: Data)
    requires WellFormed(s) && Linear(s) && Conforms(s, d)
    ensures Read(s, Write(s, d)) == Ok(d) <==> NullsTell(s, d)
  {
    RoundTripIff(s, d);
    LinearSeen(s, d);
  }

  /** For such schemas reading depends on what the document says about each known key, if it says it once: not on
      the order of the fields, nor on unknown ones. */
  lemma {:induction false} OrderIrrelevant(s: Schema, doc: seq<(string, Tree)>, c: Cursor,
      doc': seq<(string, Tree)>, c': Cursor, parts: seq<Data>)
    requires s.Obj? && WellFormed(s) && Linear(s) && Fits(c, |doc|) && Fits(c', |doc'|)
    requires Whole(c, |doc|) && Whole(c', |doc'|)
    requires forall k :: k in FlatKeys(s, 0) ==> Once(doc, k) && Once(doc', k) && Lookup(doc, k) == Lookup(doc', k)
    ensures ReadObj(s, doc, c).0 == Ok(DObj(parts)) <==> ReadObj(s, doc', c').0 == Ok(DObj(parts))
    decreases s
  {
    ReadObjIff(s, doc, c, parts);
    ReadObjIff(s, doc', c', parts);
    if |parts| == |s.flds| {
      forall i | 0 <= i < |s.flds|
        ensures FieldReads(s, doc, c, i, parts[i]) <==> FieldReads(s, doc', c', i, parts[i])
      {
        SamePart(s, doc, c, doc', c', i, parts[i]);
      }
    }
  }

  lemma {:induction false} SamePart(s: Schema, doc: seq<(string, Tree)>, c: Cursor,
      doc': seq<(string, Tree)>, c': Cursor, i: nat, d: Data)
    requires s.Obj? && WellFormed(s) && Linear(s) && Fits(c, |doc|) && Fits(c', |doc'|) && i < |s.flds|
    requires Whole(c, |doc|) && Whole(c', |doc'|)
    requires forall k :: k in FlatKeys(s, 0) ==> Once(doc, k) && Once(doc', k) && Lookup(doc, k) == Lookup(doc', k)
    ensures FieldReads(s, doc, c, i, d) <==> FieldReads(s, doc', c', i, d)
    decreases s, 0
  {
    forall k | k in KeysOf(s.flds[i])
      ensures Once(doc, k) && Once(doc', k) && Lookup(doc, k) == Lookup(doc', k)
    {
      KeyIn(s, 0, i, k);
    }
    match s.flds[i]
    case Keyed(k, _) => assert k in KeysOf(s.flds[i]); SameKeyed(s, doc, c, doc', c', i, d);
    case Nested(o) =>
      WholeAt(s, doc, c, i);
      WholeAt(s, doc', c', i);
      if d.DObj? { OrderIrrelevant(o, doc, At(s, doc, c, i), doc', At(s, doc', c', i), d.parts); }
  }

  lemma {:induction false} SameKeyed(s: Schema, doc: seq<(string, Tree)>, c: Cursor,
      doc': seq<(string, Tree)>, c': Cursor, i: nat, d: Data)
    requires s.Obj? && Fits(c, |doc|) && Fits(c', |doc'|) && i < |s.flds| && s.flds[i].Keyed?
    requires Whole(c, |doc|) && Whole(c', |doc'|)
    requires var k := s.flds[i].key; Once(doc, k) && Once(doc', k) && Lookup(doc, k) == Lookup(doc', k)
    ensures FieldReads(s, doc, c, i, d) <==> FieldReads(s, doc', c', i, d)
  {
    WholeLookup(doc, c, s.flds[i].key);
    WholeLookup(doc', c', s.flds[i].key);
  }

  /** An engaged optional of an empty optional comes back empty. */
  lemma {:induction false} HiddenNull()
    ensures var s, d := Opt(false, Opt(false, Num)), DOpt(Some(DOpt(None)));
      WellFormed(s) && Conforms(s, d) && Read(s, Write(s, d)) == Ok(DOpt(None)) && DOpt(None) != d
  {
    var inner := DOpt(None);
    assert Conforms(Opt(false, Num), inner);
  }

  /** A range that is a plain member may be missing, one that goes through `jarr_of` may not. */
  lemma {:induction false} MissingRange(k: string, elem: Schema)
    ensures ReadObj(Obj([Keyed(k, Range(true, elem))]), [], FRESH).0 == Ok(DObj([DSeq([])]))
    ensures ReadObj(Obj([Keyed(k, Range(false, elem))]), [], FRESH).0 == Err(FieldNotFound)
  {
    var p, q := Obj([Keyed(k, Range(true, elem))]), Obj([Keyed(k, Range(false, elem))]);
    var none: seq<Option<Data>> := [None];
    assert seq(1, _ => None) == none && p.flds[0].Keyed? && q.flds[0].Keyed?;
    var c := Next(FRESH, 0).0;
    assert Scan(p, [], none, FRESH) == Scan(q, [], none, FRESH) == (Ok(none), c);
    var noData: seq<Data> := [];
    assert [DSeq([])] + noData == [DSeq([])] && [DNothing] + noData == [DNothing];
    assert Fill(p.flds, none, 1) == Ok(noData) && Fill(p.flds, none, 0) == Ok([DSeq([])]);
    assert Fill(q.flds, none, 0) == Err(FieldNotFound);
    assert ReadNested(p, [], 1, c).0 == Ok(noData) && ReadNested(p, [], 0, c).0 == Ok([DNothing]);
    assert Merge(p.flds, [DSeq([])], [DNothing]) == [DSeq([])];
  }

  // ----- the reported number of fields

  /** Every part left out is one that the count leaves out as well. */
  ghost predicate Counted(s: Schema, d: Data)
    requires s.Obj? && Conforms(s, d)
  {
    forall i :: 0 <= i < |s.flds| ==>
      match s.flds[i]
      case Keyed(_, fs) => Empty(fs, d.parts[i]) ==> fs.plain
      case Nested(o) => Counted(o, d.parts[i])
  }

  /** The reported count is never too small, and is the number of fields written exactly when no empty part
      goes through `joptional` or `jvariant_t`. */
  lemma {:induction false} CountIff(s: Schema, d: Data)
    requires s.Obj? && Conforms(s, d)
    ensures CountFields(s, d, 0) >= |WriteFields(s, d, 0)|
    ensures CountFields(s, d, 0) == |WriteFields(s, d, 0)| <==> Counted(s, d)
    decreases s, 1, 0
  {
    CountFrom(s, d, 0);
  }

  lemma {:induction false} CountFrom(s: Schema, d: Data, i: nat)
    requires s.Obj? && Conforms(s, d) && i <= |s.flds|
    ensures CountFields(s, d, i) >= |WriteFields(s, d, i)|
    ensures CountFields(s, d, i) == |WriteFields(s, d, i)| <==>
      forall k :: i <= k < |s.flds| ==>
        match s.flds[k]
        case Keyed(_, fs) => Empty(fs, d.parts[k]) ==> fs.plain
        case Nested(o) => Counted(o, d.parts[k])
    decreases s, 0, |s.flds| - i
  {
    if i < |s.flds| {
      CountFrom(s, d, i + 1);
      if s.flds[i].Nested? { CountIff(s.flds[i].obj, d.parts[i]); }
    }
  }

  /** An empty `joptional` is counted and not written. */
  lemma {:induction false} CountTooLarge(k: string)
    ensures var s, d := Obj([Keyed(k, Opt(false, Num))]), DObj([DOpt(None)]);
      Conforms(s, d) && CountFields(s, d, 0) == 1 && WriteFields(s, d, 0) == []
  {
    var s, d := Obj([Keyed(k, Opt(false, Num))]), DObj([DOpt(None)]);
    assert CountFields(s, d, 1) == 0 && WriteFields(s, d, 1) == [];
  }
}
