/** What the reader makes of any tree, whether the writer made it or not: said without running the reader. */
module JserAdmits {
  import opened Base
  import opened Sequences
  import opened JserFinder
  import opened Jser
  import opened JserObjects
  import opened JserRoundTrip

  // ----- the meaning of a tree

  /** What a part becomes without a field. */
  predicate Absent(s: Schema, d: Data) {
    match s
    case Str(plain) => plain && d == DStr("")
    case Opt(_, _) => d == DOpt(None)
    case Variant(_, nullable, _) => nullable && d == DVariant(0, DNothing)
    case Range(plain, _) => plain && d == DSeq([])
    case _ => false
  }

  /** The tree `j` stands for `d`. */
  ghost predicate Means(s: Schema, j: Tree, d: Data)
    decreases s, 2
  {
    match s
    case Num => j.JNum? && d == DNum(j.n)
    case Str(_) => j.JStr? && d == DStr(j.str)
    case Nothing => d == DNothing
    case Opt(_, inner) => if j.JNull? then d == DOpt(None) else d.DOpt? && d.opt.Some? && Means(inner, j, d.opt.value)
    case Variant(_, nullable, alts) =>
      if j.JNull? then nullable && d == DVariant(0, DNothing)
      else (
        && d.DVariant? && 0 < d.index <= |alts| && AltKind(alts[d.index - 1]) == Some(KindOf(j))
        && Means(alts[d.index - 1], j, d.val))
    case Range(_, elem) =>
      && j.JArr? && d.DSeq? && |d.elems| == |j.elems|
      && forall i :: 0 <= i < |j.elems| ==> Means(elem, j.elems[i], d.elems[i])
    case Tuple(exact, elems) =>
      && j.JArr? && d.DSeq? && |d.elems| == |elems| <= |j.elems| && (exact ==> |j.elems| == |elems|)
      && forall i :: 0 <= i < |elems| ==> Means(elems[i], j.elems[i], d.elems[i])
    case Obj(_) => j.JObj? && MeansIn(s, j.flds, FRESH, d)
  }

  /** The document stands for the object `d`, with the finder at `c`. */
  ghost predicate MeansIn(s: Schema, doc: seq<(string, Tree)>, c: Cursor, d: Data)
    requires s.Obj? && Fits(c, |doc|)
    decreases s, 1
  {
    d.DObj? && |d.parts| == |s.flds| && forall i :: 0 <= i < |s.flds| ==> PartMeans(s, doc, c, i, d.parts[i])
  }

  /** A keyed part is the first field of its key among those the loop meets; a nested object is made of the fields
      of the same document. */
  ghost predicate PartMeans(s: Schema, doc: seq<(string, Tree)>, c: Cursor, i: nat, d: Data)
    requires s.Obj? && Fits(c, |doc|) && i < |s.flds|
    decreases s, 0
  {
    match s.flds[i]
    case Keyed(k, fs) =>
      (match Lookup(View(doc, Start(c, |doc|)), k) case Some(j) => Means(fs, j, d) case None => Absent(fs, d))
    case Nested(o) => o.Obj? && MeansIn(o, doc, At(s, doc, c, i), d)
  }

  /** On every tree: the reader returns this value exactly when the tree stands for it. */
  lemma {:induction false} MeansIff(s: Schema, j: Tree, d: Data)
    requires WellFormed(s)
    ensures Read(s, j) == Ok(d) <==> Means(s, j, d)
    decreases s, 2
  {
    match s
    case Num =>
    case Str(_) =>
    case Nothing =>
    case Opt(_, inner) => if d.DOpt? && d.opt.Some? { MeansIff(inner, j, d.opt.value); }
    case Variant(_, _, _) => VariantMeans(s, j, d);
    case Range(_, _) => if j.JArr? && d.DSeq? { RangeMeans(s, j, d); }
    case Tuple(_, _) => if j.JArr? && d.DSeq? { TupleMeans(s, j, d); }
    case Obj(_) => if j.JObj? { ObjMeans(s, j.flds, FRESH, d); }
  }

  lemma {:induction false} VariantMeans(s: Schema, j: Tree, d: Data)
    requires WellFormed(s) && s.Variant?
    ensures Read(s, j) == Ok(d) <==> Means(s, j, d)
    decreases s, 1
  {
    var i := MatchAlt(s.alts, KindOf(j));
    if !j.JNull? && i > 0 && d.DVariant? && d.index == i { MeansIff(s.alts[i - 1], j, d.val); }
  }

  lemma {:induction false} RangeMeans(s: Schema, j: Tree, d: Data)
    requires WellFormed(s) && s.Range? && j.JArr? && d.DSeq?
    ensures Read(s, j) == Ok(d) <==> Means(s, j, d)
    decreases s, 1
  {
    ReadElemsIff(s, j.elems, d.elems);
    if |d.elems| == |j.elems| {
      forall i | 0 <= i < |j.elems|
        ensures Read(s.elem, j.elems[i]) == Ok(d.elems[i]) <==> Means(s.elem, j.elems[i], d.elems[i])
      {
        MeansIff(s.elem, j.elems[i], d.elems[i]);
      }
    }
  }

  lemma {:induction false} TupleMeans(s: Schema, j: Tree, d: Data)
    requires WellFormed(s) && s.Tuple? && j.JArr? && d.DSeq?
    ensures Read(s, j) == Ok(d) <==> Means(s, j, d)
    decreases s, 1
  {
    ReadPartsIff(s, j.elems, 0, d.elems);
    if |d.elems| == |s.elems| <= |j.elems| {
      forall i | 0 <= i < |s.elems|
        ensures Read(s.elems[i], j.elems[i]) == Ok(d.elems[i]) <==> Means(s.elems[i], j.elems[i], d.elems[i])
      {
        MeansIff(s.elems[i], j.elems[i], d.elems[i]);
      }
    }
  }

  /** The same of objects, from wherever the finder is. */
  lemma {:induction false} ObjMeans(s: Schema, doc: seq<(string, Tree)>, c: Cursor, d: Data)
    requires s.Obj? && WellFormed(s) && Fits(c, |doc|)
    ensures ReadObj(s, doc, c).0 == Ok(d) <==> MeansIn(s, doc, c, d)
    decreases s, 1
  {
    if d.DObj? {
      ReadObjIff(s, doc, c, d.parts);
      if |d.parts| == |s.flds| {
        forall i | 0 <= i < |s.flds|
          ensures FieldReads(s, doc, c, i, d.parts[i]) <==> PartMeans(s, doc, c, i, d.parts[i])
        {
          FieldMeans(s, doc, c, i, d.parts[i]);
        }
      }
    }
  }

  lemma {:induction false} FieldMeans(s: Schema, doc: seq<(string, Tree)>, c: Cursor, i: nat, d: Data)
    requires s.Obj? && WellFormed(s) && Fits(c, |doc|) && i < |s.flds|
    ensures FieldReads(s, doc, c, i, d) <==> PartMeans(s, doc, c, i, d)
    decreases s, 0
  {
    match s.flds[i]
    case Keyed(k, fs) =>
      var found := Lookup(View(doc, Start(c, |doc|)), k);
      if found.Some? { MeansIff(fs, found.value, d); } else { assert Missing(fs) == Some(d) <==> Absent(fs, d); }
    case Nested(o) => ObjMeans(o, doc, At(s, doc, c, i), d);
  }

  /** In an object without nested ones the first field of each key counts, wherever it stands. */
  lemma {:induction false} PlainObjMeans(s: Schema, doc: seq<(string, Tree)>, parts: seq<Data>)
    requires s.Obj? && WellFormed(s) && forall i :: 0 <= i < |s.flds| ==> s.flds[i].Keyed?
    ensures Read(s, JObj(doc)) == Ok(DObj(parts)) <==>
      |parts| == |s.flds| && forall i :: 0 <= i < |s.flds| ==> KeyMeans(s.flds[i], doc, parts[i])
  {
    MeansIff(s, JObj(doc), DObj(parts));
    FreshMeetsAll(doc);
    if |parts| == |s.flds| {
      assert forall i :: 0 <= i < |s.flds| ==> (PartMeans(s, doc, FRESH, i, parts[i]) <==>
        KeyMeans(s.flds[i], doc, parts[i]));
    }
  }

  ghost predicate KeyMeans(f: Field, doc: seq<(string, Tree)>, d: Data)
    requires f.Keyed?
  {
    match Lookup(doc, f.key) case Some(j) => Means(f.s, j, d) case None => Absent(f.s, d)
  }

  // ----- soundness

  /** What is read is a value of the schema. */
  lemma {:induction false} MeansConforms(s: Schema, j: Tree, d: Data)
    requires WellFormed(s) && Means(s, j, d)
    ensures Conforms(s, d)
    decreases s, 2
  {
    match s
    case Num =>
    case Str(_) =>
    case Nothing =>
    case Opt(_, inner) => if d.opt.Some? { MeansConforms(inner, j, d.opt.value); }
    case Variant(_, _, alts) => if d.index > 0 { MeansConforms(alts[d.index - 1], j, d.val); }
    case Range(_, elem) =>
      forall i | 0 <= i < |d.elems| ensures Conforms(elem, d.elems[i]) { MeansConforms(elem, j.elems[i], d.elems[i]); }
    case Tuple(_, elems) =>
      forall i | 0 <= i < |elems| ensures Conforms(elems[i], d.elems[i]) {
        MeansConforms(elems[i], j.elems[i], d.elems[i]);
      }
    case Obj(_) => ObjConforms(s, j.flds, FRESH, d);
  }

  lemma {:induction false} ObjConforms(s: Schema, doc: seq<(string, Tree)>, c: Cursor, d: Data)
    requires s.Obj? && WellFormed(s) && Fits(c, |doc|) && MeansIn(s, doc, c, d)
    ensures Conforms(s, d)
    decreases s, 1
  {
    forall i | 0 <= i < |s.flds|
      ensures match s.flds[i]
        case Keyed(_, fs) => Conforms(fs, d.parts[i])
        case Nested(o) => o.Obj? && Conforms(o, d.parts[i])
    {
      assert PartMeans(s, doc, c, i, d.parts[i]);
      match s.flds[i]
      case Keyed(k, fs) =>
        var found := Lookup(View(doc, Start(c, |doc|)), k);
        if found.Some? { MeansConforms(fs, found.value, d.parts[i]); }
      case Nested(o) => ObjConforms(o, doc, At(s, doc, c, i), d.parts[i]);
    }
  }

  /** Whatever the reader accepts becomes a value of the schema, which could be written again. */
  lemma {:induction false} ReadConforms(s: Schema, j: Tree, d: Data)
    requires WellFormed(s) && Read(s, j) == Ok(d)
    ensures Conforms(s, d)
  {
    MeansIff(s, j, d);
    MeansConforms(s, j, d);
  }

  /** Schemas in which nothing of a tree may be ignored: no objects, nothing read without a look at it, and no
      tuples that may be longer. */
  ghost predicate KeepsAll(s: Schema) {
    match s
    case Num => true
    case Str(_) => true
    case Nothing => false
    case Opt(_, inner) => KeepsAll(inner)
    case Variant(_, _, alts) => forall i :: 0 <= i < |alts| ==> KeepsAll(alts[i])
    case Range(_, elem) => KeepsAll(elem)
    case Tuple(exact, elems) => exact && forall i :: 0 <= i < |elems| ==> KeepsAll(elems[i])
    case Obj(_) => false
  }

  /** There, writing what was read gives the tree back. */
  lemma {:induction false} WriteAfterRead(s: Schema, j: Tree, d: Data)
    requires WellFormed(s) && KeepsAll(s) && Read(s, j) == Ok(d)
    ensures Conforms(s, d) && Write(s, d) == j
  {
    MeansIff(s, j, d);
    MeansConforms(s, j, d);
    WritesMeant(s, j, d);
  }

  lemma {:induction false} WritesMeant(s: Schema, j: Tree, d: Data)
    requires KeepsAll(s) && Conforms(s, d) && Means(s, j, d)
    ensures Write(s, d) == j
    decreases s
  {
    match s
    case Num =>
    case Str(_) =>
    case Opt(_, inner) => if d.opt.Some? { WritesMeant(inner, j, d.opt.value); }
    case Variant(_, _, alts) => if d.index > 0 { WritesMeant(alts[d.index - 1], j, d.val); }
    case Range(_, elem) =>
      forall i | 0 <= i < |d.elems| ensures Write(elem, d.elems[i]) == j.elems[i] {
        WritesMeant(elem, j.elems[i], d.elems[i]);
      }
      assert Write(s, d).elems == j.elems;
    case Tuple(_, elems) =>
      forall i | 0 <= i < |elems| ensures Write(elems[i], d.elems[i]) == j.elems[i] {
        WritesMeant(elems[i], j.elems[i], d.elems[i]);
      }
      assert Write(s, d).elems == j.elems;
  }

  // ----- what is accepted

  predicate MayLack(s: Schema) {
    s.Opt? || (s.Variant? && s.nullable) || ((s.Str? || s.Range?) && s.plain)
  }

  /** The tree has the kinds, lengths, alternatives and keys that the schema asks for. */
  ghost predicate Admits(s: Schema, j: Tree)
    decreases s, 2
  {
    match s
    case Num => j.JNum?
    case Str(_) => j.JStr?
    case Nothing => true
    case Opt(_, inner) => j.JNull? || Admits(inner, j)
    case Variant(_, nullable, alts) =>
      if j.JNull? then nullable
      else exists i :: 0 <= i < |alts| && AltKind(alts[i]) == Some(KindOf(j)) && Admits(alts[i], j)
    case Range(_, elem) => j.JArr? && forall i :: 0 <= i < |j.elems| ==> Admits(elem, j.elems[i])
    case Tuple(exact, elems) =>
      && j.JArr? && |elems| <= |j.elems| && (exact ==> |j.elems| == |elems|)
      && forall i :: 0 <= i < |elems| ==> Admits(elems[i], j.elems[i])
    case Obj(_) => j.JObj? && AdmitsIn(s, j.flds, FRESH)
  }

  ghost predicate AdmitsIn(s: Schema, doc: seq<(string, Tree)>, c: Cursor)
    requires s.Obj? && Fits(c, |doc|)
    decreases s, 1
  {
    forall i :: 0 <= i < |s.flds| ==> PartAdmits(s, doc, c, i)
  }

  ghost predicate PartAdmits(s: Schema, doc: seq<(string, Tree)>, c: Cursor, i: nat)
    requires s.Obj? && Fits(c, |doc|) && i < |s.flds|
    decreases s, 0
  {
    match s.flds[i]
    case Keyed(k, fs) =>
      (match Lookup(View(doc, Start(c, |doc|)), k) case Some(j) => Admits(fs, j) case None => MayLack(fs))
    case Nested(o) => o.Obj? && AdmitsIn(o, doc, At(s, doc, c, i))
  }

  /** What a tree with a meaning has. */
  lemma {:induction false} MeantAdmitted(s: Schema, j: Tree, d: Data)
    requires Means(s, j, d)
    ensures Admits(s, j)
    decreases s, 2
  {
    match s
    case Num =>
    case Str(_) =>
    case Nothing =>
    case Opt(_, inner) => if !j.JNull? { MeantAdmitted(inner, j, d.opt.value); }
    case Variant(_, _, alts) =>
      if !j.JNull? {
        MeantAdmitted(alts[d.index - 1], j, d.val);
      }
    case Range(_, elem) =>
      forall i | 0 <= i < |j.elems| ensures Admits(elem, j.elems[i]) { MeantAdmitted(elem, j.elems[i], d.elems[i]); }
    case Tuple(_, elems) =>
      forall i | 0 <= i < |elems| ensures Admits(elems[i], j.elems[i]) {
        MeantAdmitted(elems[i], j.elems[i], d.elems[i]);
      }
    case Obj(_) => ObjAdmitted(s, j.flds, FRESH, d);
  }

  lemma {:induction false} ObjAdmitted(s: Schema, doc: seq<(string, Tree)>, c: Cursor, d: Data)
    requires s.Obj? && Fits(c, |doc|) && MeansIn(s, doc, c, d)
    ensures AdmitsIn(s, doc, c)
    decreases s, 1
  {
    forall i | 0 <= i < |s.flds| ensures PartAdmits(s, doc, c, i) {
      assert PartMeans(s, doc, c, i, d.parts[i]);
      match s.flds[i]
      case Keyed(k, fs) =>
        var found := Lookup(View(doc, Start(c, |doc|)), k);
        if found.Some? { MeantAdmitted(fs, found.value, d.parts[i]); }
      case Nested(o) => ObjAdmitted(o, doc, At(s, doc, c, i), d.parts[i]);
    }
  }

  /** And one that has it has a meaning. */
  lemma {:induction false} Meaning(s: Schema, j: Tree) returns (d: Data)
    requires WellFormed(s) && Admits(s, j)
    ensures Means(s, j, d)
    decreases s, 2
  {
    match s
    case Num => d := DNum(j.n);
    case Str(_) => d := DStr(j.str);
    case Nothing => d := DNothing;
    case Opt(_, inner) =>
      if j.JNull? { d := DOpt(None); } else { var v := Meaning(inner, j); d := DOpt(Some(v)); }
    case Variant(_, _, alts) =>
      if j.JNull? {
        d := DVariant(0, DNothing);
      } else {
        var i :| 0 <= i < |alts| && AltKind(alts[i]) == Some(KindOf(j)) && Admits(alts[i], j);
        var v := Meaning(alts[i], j);
        d := DVariant(i + 1, v);
      }
    case Range(_, elem) => var ds := ElemsMeaning(s, j.elems); d := DSeq(ds);
    case Tuple(_, elems) => var ds := PartsMeaning(s, j.elems, |elems|); d := DSeq(ds);
    case Obj(flds) => var ds := FieldsMeaning(s, j.flds, FRESH, |flds|); d := DObj(ds);
  }

  lemma {:induction false} ElemsMeaning(s: Schema, js: seq<Tree>) returns (ds: seq<Data>)
    requires WellFormed(s) && s.Range? && forall i :: 0 <= i < |js| ==> Admits(s.elem, js[i])
    ensures |ds| == |js| && forall i :: 0 <= i < |js| ==> Means(s.elem, js[i], ds[i])
    decreases s, 1, |js|
  {
    ds := [];
    for k := 0 to |js|
      invariant |ds| == k && forall i :: 0 <= i < k ==> Means(s.elem, js[i], ds[i])
    {
      var d := Meaning(s.elem, js[k]);
      ds := ds + [d];
    }
  }

  lemma {:induction false} PartsMeaning(s: Schema, js: seq<Tree>, n: nat) returns (ds: seq<Data>)
    requires WellFormed(s) && s.Tuple? && n == |s.elems| <= |js|
    requires forall i :: 0 <= i < n ==> Admits(s.elems[i], js[i])
    ensures |ds| == n && forall i :: 0 <= i < n ==> Means(s.elems[i], js[i], ds[i])
    decreases s, 1, n
  {
    ds := [];
    for k := 0 to n
      invariant |ds| == k && forall i :: 0 <= i < k ==> Means(s.elems[i], js[i], ds[i])
    {
      var d := Meaning(s.elems[k], js[k]);
      ds := ds + [d];
    }
  }

  lemma {:induction false} FieldsMeaning(s: Schema, doc: seq<(string, Tree)>, c: Cursor, n: nat)
    returns (ds: seq<Data>)
    requires WellFormed(s) && s.Obj? && Fits(c, |doc|) && n == |s.flds| && AdmitsIn(s, doc, c)
    ensures |ds| == n && forall i :: 0 <= i < n ==> PartMeans(s, doc, c, i, ds[i])
    decreases s, 1, n
  {
    ds := [];
    for k := 0 to n
      invariant |ds| == k && forall i :: 0 <= i < k ==> PartMeans(s, doc, c, i, ds[i])
    {
      var d := PartMeaning(s, doc, c, k);
      ds := ds + [d];
    }
  }

  lemma {:induction false} PartMeaning(s: Schema, doc: seq<(string, Tree)>, c: Cursor, i: nat) returns (d: Data)
    requires WellFormed(s) && s.Obj? && Fits(c, |doc|) && i < |s.flds| && PartAdmits(s, doc, c, i)
    ensures PartMeans(s, doc, c, i, d)
    decreases s, 0
  {
    match s.flds[i]
    case Keyed(k, fs) =>
      var found := Lookup(View(doc, Start(c, |doc|)), k);
      if found.Some? { d := Meaning(fs, found.value); } else { d := Missing(fs).value; }
    case Nested(o) =>
      var ds := FieldsMeaning(o, doc, At(s, doc, c, i), |o.flds|);
      d := DObj(ds);
  }

  /** On every tree: the reader succeeds exactly if the tree has what the schema asks for. */
  lemma {:induction false} AdmitsIff(s: Schema, j: Tree)
    requires WellFormed(s)
    ensures Read(s, j).Ok? <==> Admits(s, j)
  {
    if Read(s, j).Ok? {
      MeansIff(s, j, Read(s, j).value);
      MeantAdmitted(s, j, Read(s, j).value);
    }
    if Admits(s, j) {
      var d := Meaning(s, j);
      MeansIff(s, j, d);
    }
  }

  // ----- what is told otherwise

  /** The field of this key among the object's own. */
  function KeyAt(flds: seq<Field>, key: string): (i: nat)
    ensures i <= |flds| && (i < |flds| ==> flds[i].Keyed? && flds[i].key == key)
    ensures forall k :: 0 <= k < i ==> !(flds[k].Keyed? && flds[k].key == key)
  {
    if flds == [] || (flds[0].Keyed? && flds[0].key == key) then 0
    else
      assert forall k :: 0 <= k < |flds| - 1 ==> flds[k + 1] == flds[1..][k];
      1 + KeyAt(flds[1..], key)
  }

  /** The tree is turned down with `e`: for the first thing in it that is wrong. */
  ghost predicate Fails(s: Schema, j: Tree, e: JErr)
    decreases s, 3, 0
  {
    match s
    case Num => !j.JNum? && e == IncorrectType
    case Str(_) => !j.JStr? && e == IncorrectType
    case Nothing => false
    case Opt(_, inner) => !j.JNull? && Fails(inner, j, e)
    case Variant(_, nullable, alts) =>
      if j.JNull? then !nullable && e == NonNullableField
      else if forall i :: 0 <= i < |alts| ==> AltKind(alts[i]) != Some(KindOf(j)) then e == IncorrectType
      else exists i :: 0 <= i < |alts| && AltKind(alts[i]) == Some(KindOf(j)) && Fails(alts[i], j, e)
    case Range(_, elem) =>
      if !j.JArr? then e == IncorrectType
      else
        exists k :: 0 <= k < |j.elems| && Fails(elem, j.elems[k], e) &&
          forall i :: 0 <= i < k ==> Admits(elem, j.elems[i])
    case Tuple(exact, elems) =>
      if !j.JArr? then e == IncorrectType
      else if forall i :: 0 <= i < |elems| ==> PartOk(s, j.elems, i) then
        exact && |j.elems| > |elems| && e == InvalidElmCnt
      else
        exists k :: 0 <= k < |elems| && TupleFails(s, j.elems, k, e) &&
          forall i :: 0 <= i < k ==> PartOk(s, j.elems, i)
    case Obj(_) => if !j.JObj? then e == IncorrectType else FailsIn(s, j.flds, FRESH, e)
  }

  ghost predicate PartOk(s: Schema, js: seq<Tree>, k: nat)
    requires s.Tuple? && k < |s.elems|
  {
    k < |js| && Admits(s.elems[k], js[k])
  }

  ghost predicate TupleFails(s: Schema, js: seq<Tree>, k: nat, e: JErr)
    requires s.Tuple? && k < |s.elems|
    decreases s, 0, 0
  {
    if k < |js| then Fails(s.elems[k], js[k], e) else e == OutOfBound
  }

  /** An object: the first field met that belongs to it and is bad, or else a field it must have and has not, or else
      the first nested object that is bad. */
  ghost predicate FailsIn(s: Schema, doc: seq<(string, Tree)>, c: Cursor, e: JErr)
    requires s.Obj? && Fits(c, |doc|)
    decreases s, 2, 0
  {
    var met := View(doc, Start(c, |doc|));
    if exists i :: 0 <= i < |s.flds| && PresentAndBad(s.flds[i], met) then FirstBad(s, met, {}, e)
    else if exists i :: 0 <= i < |s.flds| && LacksField(s.flds[i], met) then e == FieldNotFound
    else
      exists i :: 0 <= i < |s.flds| && NestedFails(s, doc, c, i, e) &&
        forall k :: 0 <= k < i && s.flds[k].Nested? ==> PartAdmits(s, doc, c, k)
  }

  ghost predicate PresentAndBad(f: Field, met: seq<(string, Tree)>) {
    f.Keyed? && Lookup(met, f.key).Some? && !Admits(f.s, Lookup(met, f.key).value)
  }

  ghost predicate LacksField(f: Field, met: seq<(string, Tree)>) {
    f.Keyed? && Lookup(met, f.key).None? && !MayLack(f.s)
  }

  ghost predicate NestedFails(s: Schema, doc: seq<(string, Tree)>, c: Cursor, i: nat, e: JErr)
    requires s.Obj? && Fits(c, |doc|) && i < |s.flds|
    decreases s, 1, 0
  {
    s.flds[i].Nested? && s.flds[i].obj.Obj? && FailsIn(s.flds[i].obj, doc, At(s, doc, c, i), e)
  }

  /** Of the fields met, each key counts when it comes first. */
  ghost predicate FirstBad(s: Schema, met: seq<(string, Tree)>, seen: set<string>, e: JErr)
    requires s.Obj?
    decreases s, 1, |met|
  {
    met != [] &&
    var (k, j) := met[0];
    var i := KeyAt(s.flds, k);
    if i == |s.flds| || k in seen then FirstBad(s, met[1..], seen, e)
    else if Admits(s.flds[i].s, j) then FirstBad(s, met[1..], seen + {k}, e)
    else Fails(s.flds[i].s, j, e)
  }

  /** On every tree: the error is that of the first thing that is wrong. */
  lemma {:induction false} FailsWith(s: Schema, j: Tree)
    requires WellFormed(s) && Read(s, j).Err?
    ensures Fails(s, j, Read(s, j).error)
    decreases s, 5, 0
  {
    match s
    case Num =>
    case Str(_) =>
    case Opt(_, inner) => FailsWith(inner, j);
    case Variant(_, _, alts) =>
      var i := MatchAlt(alts, KindOf(j));
      if !j.JNull? && i > 0 { FailsWith(alts[i - 1], j); }
    case Range(_, elem) => if j.JArr? { var k := ElemsFail(s, j.elems, Read(s, j).error); }
    case Tuple(_, _) => if j.JArr? { TupleFailsWith(s, j); }
    case Obj(_) => if j.JObj? { ObjFails(s, j.flds, FRESH); }
  }

  lemma {:induction false} ElemsFail(s: Schema, js: seq<Tree>, e: JErr) returns (k: nat)
    requires WellFormed(s) && s.Range? && ReadElems(s, js) == Err(e)
    ensures k < |js| && Fails(s.elem, js[k], e) && forall i :: 0 <= i < k ==> Admits(s.elem, js[i])
    decreases s, 3, |js|
  {
    AdmitsIff(s.elem, js[0]);
    if Read(s.elem, js[0]).Err? {
      FailsWith(s.elem, js[0]);
      k := 0;
    } else {
      k := ElemsFail(s, js[1..], e);
      assert forall i :: 0 < i < |js| ==> js[i] == js[1..][i - 1];
      k := k + 1;
    }
  }

  lemma {:induction false} PartsFail(s: Schema, js: seq<Tree>, i: nat, e: JErr) returns (k: nat)
    requires WellFormed(s) && s.Tuple? && i <= |s.elems| && ReadParts(s, js, i) == Err(e)
    ensures i <= k < |s.elems| && TupleFails(s, js, k, e)
    ensures !PartOk(s, js, k) && forall m :: i <= m < k ==> PartOk(s, js, m)
    decreases s, 3, |s.elems| - i
  {
    if i >= |js| {
      k := i;
    } else {
      AdmitsIff(s.elems[i], js[i]);
      if Read(s.elems[i], js[i]).Err? {
        FailsWith(s.elems[i], js[i]);
        k := i;
      } else {
        k := PartsFail(s, js, i + 1, e);
      }
    }
  }

  lemma {:induction false} PartsAdmitted(s: Schema, js: seq<Tree>, i: nat)
    requires WellFormed(s) && s.Tuple? && i <= |s.elems| && ReadParts(s, js, i).Ok?
    ensures forall m :: i <= m < |s.elems| ==> PartOk(s, js, m)
    decreases |s.elems| - i
  {
    if i < |s.elems| {
      AdmitsIff(s.elems[i], js[i]);
      PartsAdmitted(s, js, i + 1);
    }
  }

  lemma {:induction false} TupleFailsWith(s: Schema, j: Tree)
    requires WellFormed(s) && s.Tuple? && j.JArr? && Read(s, j).Err?
    ensures Fails(s, j, Read(s, j).error)
    decreases s, 4, 0
  {
    if ReadParts(s, j.elems, 0).Ok? {
      PartsAdmitted(s, j.elems, 0);
    } else {
      var k := PartsFail(s, j.elems, 0, Read(s, j).error);
      assert TupleFails(s, j.elems, k, Read(s, j).error);
    }
  }

  // ----- objects that are turned down

  /** A key has been seen exactly if the slot of its field is taken. */
  ghost predicate Taken(flds: seq<Field>, got: seq<Option<Data>>, seen: set<string>) {
    |got| == |flds| && forall i :: 0 <= i < |flds| && flds[i].Keyed? ==> (got[i].Some? <==> flds[i].key in seen)
  }

  lemma {:induction false} KeyFound(flds: seq<Field>, got: seq<Option<Data>>, seen: set<string>, key: string)
    requires OwnKeysDistinct(flds) && Taken(flds, got, seen)
    ensures FindField(flds, got, key) < |flds| <==> KeyAt(flds, key) < |flds| && key !in seen
    ensures FindField(flds, got, key) < |flds| ==> FindField(flds, got, key) == KeyAt(flds, key)
  {
  }

  lemma {:induction false} CollectFails(s: Schema, met: seq<(string, Tree)>, got: seq<Option<Data>>, seen: set<string>,
      e: JErr) returns (i: nat)
    requires s.Obj? && WellFormed(s) && OwnKeysDistinct(s.flds) && Taken(s.flds, got, seen)
    requires Collect(s, met, got) == Err(e)
    ensures FirstBad(s, met, seen, e)
    ensures i < |s.flds| && PresentAndBad(s.flds[i], met) && s.flds[i].key !in seen
    decreases s, 3, |met|
  {
    var k, j, rest := met[0].0, met[0].1, met[1..];
    KeyFound(s.flds, got, seen, k);
    i := FindField(s.flds, got, k);
    if i == |s.flds| {
      i := CollectFails(s, rest, got, seen, e);
    } else {
      AdmitsIff(s.flds[i].s, j);
      if Read(s.flds[i].s, j).Err? {
        FailsWith(s.flds[i].s, j);
      } else {
        i := CollectFails(s, rest, got[i := Some(Read(s.flds[i].s, j).value)], seen + {k}, e);
      }
    }
  }

  lemma {:induction false} FillFails(flds: seq<Field>, got: seq<Option<Data>>, i: nat, e: JErr) returns (k: nat)
    requires |flds| == |got| && i <= |flds| && Fill(flds, got, i) == Err(e)
    ensures e == FieldNotFound && k < |flds| && flds[k].Keyed? && got[k].None? && !MayLack(flds[k].s)
    decreases |flds| - i
  {
    if flds[i].Keyed? && got[i].None? && Missing(flds[i].s).None? {
      k := i;
    } else {
      k := FillFails(flds, got, i + 1, e);
    }
  }

  lemma {:induction false} NestedAdmits(s: Schema, doc: seq<(string, Tree)>, i: nat, c: Cursor) returns (d: Data)
    requires s.Obj? && WellFormed(s) && i < |s.flds| && Fits(c, |doc|)
    requires s.flds[i].Nested? ==> ReadObj(s.flds[i].obj, doc, AfterNested(s, doc, i, c)).0.Ok?
    ensures NestedReads(s, doc, i, c, d) && (s.flds[i].Keyed? ==> d == DNothing)
    ensures s.flds[i].Nested? ==> AdmitsIn(s.flds[i].obj, doc, AfterNested(s, doc, i, c))
  {
    d := DNothing;
    if s.flds[i].Nested? {
      d := ReadObj(s.flds[i].obj, doc, AfterNested(s, doc, i, c)).0.value;
      ObjMeans(s.flds[i].obj, doc, AfterNested(s, doc, i, c), d);
      ObjAdmitted(s.flds[i].obj, doc, AfterNested(s, doc, i, c), d);
    }
  }

  ghost predicate FromFieldOn(s: Schema, doc: seq<(string, Tree)>, i: nat, c: Cursor, e: JErr) {
    && s.Obj? && WellFormed(s) && i <= |s.flds| && Fits(c, |doc|)
    && ReadNested(s, doc, i, AfterNested(s, doc, i, c)).0 == Err(e)
  }

  lemma {:induction false} NestedHead(s: Schema, doc: seq<(string, Tree)>, i: nat, c: Cursor, e: JErr)
    returns (bad: bool)
    requires FromFieldOn(s, doc, i, c, e)
    ensures i < |s.flds| && (s.flds[i].Nested? ==> s.flds[i].obj.Obj? && WellFormed(s.flds[i].obj))
    ensures bad ==> s.flds[i].Nested? && ReadObj(s.flds[i].obj, doc, AfterNested(s, doc, i, c)).0 == Err(e)
    ensures !bad ==> FromFieldOn(s, doc, i + 1, c, e)
    ensures !bad ==> NestedGood(s, doc, i, c)
  {
    var f := s.flds[i];
    bad := f.Nested? && ReadObj(f.obj, doc, AfterNested(s, doc, i, c)).0.Err?;
    if !bad {
      var d := NestedAdmits(s, doc, i, c);
      NestedStep(s, doc, i, c, d);
    }
  }

  /** The first nested object that is bad, from field `i` on, with `c` where the keyed fields left the finder. */
  ghost predicate BadAt(s: Schema, doc: seq<(string, Tree)>, i: nat, c: Cursor, e: JErr, k: nat) {
    && s.Obj? && Fits(c, |doc|) && i <= k < |s.flds| && NestedBad(s, doc, k, c, e)
    && forall m :: i <= m < k ==> NestedGood(s, doc, m, c)
  }

  ghost predicate NestedBad(s: Schema, doc: seq<(string, Tree)>, k: nat, c: Cursor, e: JErr)
    requires s.Obj? && Fits(c, |doc|) && k < |s.flds|
  {
    s.flds[k].Nested? && s.flds[k].obj.Obj? && FailsIn(s.flds[k].obj, doc, AfterNested(s, doc, k, c), e)
  }

  ghost predicate NestedGood(s: Schema, doc: seq<(string, Tree)>, k: nat, c: Cursor)
    requires s.Obj? && Fits(c, |doc|) && k < |s.flds|
  {
    s.flds[k].Nested? ==> s.flds[k].obj.Obj? && AdmitsIn(s.flds[k].obj, doc, AfterNested(s, doc, k, c))
  }

  lemma {:induction false} NestedFailsAt(s: Schema, doc: seq<(string, Tree)>, i: nat, c: Cursor, e: JErr)
    returns (k: nat)
    requires FromFieldOn(s, doc, i, c, e)
    ensures BadAt(s, doc, i, c, e, k)
    decreases s, 3, |s.flds| - i
  {
    var bad := NestedHead(s, doc, i, c, e);
    if bad {
      ObjFails(s.flds[i].obj, doc, AfterNested(s, doc, i, c));
      k := i;
    } else {
      k := NestedFailsAt(s, doc, i + 1, c, e);
    }
  }

  lemma {:induction false} NoneBad(s: Schema, doc: seq<(string, Tree)>, c: Cursor, got: seq<Option<Data>>)
    requires s.Obj? && WellFormed(s) && Fits(c, |doc|) && FirstLoop(s, doc, c, got)
    ensures forall i :: 0 <= i < |s.flds| ==> !PresentAndBad(s.flds[i], View(doc, Start(c, |doc|)))
    ensures forall i :: 0 <= i < |s.flds| && s.flds[i].Keyed? ==>
      (got[i].None? <==> Lookup(View(doc, Start(c, |doc|)), s.flds[i].key).None?)
  {
    var met := View(doc, Start(c, |doc|));
    forall i | 0 <= i < |s.flds| ensures !PresentAndBad(s.flds[i], met) {
      assert SlotIs(s.flds[i], met, None, got[i]);
      if s.flds[i].Keyed? && Lookup(met, s.flds[i].key).Some? {
        AdmitsIff(s.flds[i].s, Lookup(met, s.flds[i].key).value);
      }
    }
    assert forall i :: 0 <= i < |s.flds| ==> SlotIs(s.flds[i], met, None, got[i]);
  }

  /** The same of objects, from wherever the finder is. */
  lemma {:induction false} ObjFails(s: Schema, doc: seq<(string, Tree)>, c: Cursor)
    requires s.Obj? && WellFormed(s) && Fits(c, |doc|) && ReadObj(s, doc, c).0.Err?
    ensures FailsIn(s, doc, c, ReadObj(s, doc, c).0.error)
    decreases s, 4, 0
  {
    var e, met := ReadObj(s, doc, c).0.error, View(doc, Start(c, |doc|));
    var (got, c1) := Keyeds(s, doc, c);
    OwnDistinct(s, 0);
    KeyedsAre(s, doc, c);
    if got.Err? {
      var none: seq<Option<Data>> := seq(|s.flds|, _ => None);
      ScanCollects(s, doc, none, Start(c, |doc|));
      var i := CollectFails(s, met, none, {}, e);
    } else {
      NoneBad(s, doc, c, got.value);
      if Fill(s.flds, got.value, 0).Err? {
        var k := FillFails(s.flds, got.value, 0, e);
        assert LacksField(s.flds[k], met);
      } else {
        NestedFailIn(s, doc, c, got.value, e);
      }
    }
  }

  lemma {:induction false} NestedFailIn(s: Schema, doc: seq<(string, Tree)>, c: Cursor, got: seq<Option<Data>>, e: JErr)
    requires s.Obj? && WellFormed(s) && Fits(c, |doc|) && FirstLoop(s, doc, c, got) && Fill(s.flds, got, 0).Ok?
    requires ReadNested(s, doc, 0, AfterKeyed(s, doc, c)).0 == Err(e)
    ensures FailsIn(s, doc, c, e)
    decreases s, 3, |s.flds| + 1
  {
    NoneBad(s, doc, c, got);
    FillIs(s.flds, got, 0);
    var met := View(doc, Start(c, |doc|));
    forall i | 0 <= i < |s.flds| ensures !LacksField(s.flds[i], met) {
      assert Filled(s.flds[i], got[i]).Some?;
    }
    var k := NestedFailsAt(s, doc, 0, AfterKeyed(s, doc, c), e);
    assert NestedBad(s, doc, k, AfterKeyed(s, doc, c), e) && NestedFails(s, doc, c, k, e);
    forall m | 0 <= m < k && s.flds[m].Nested? ensures PartAdmits(s, doc, c, m) {
      assert NestedGood(s, doc, m, AfterKeyed(s, doc, c));
    }
  }
}
