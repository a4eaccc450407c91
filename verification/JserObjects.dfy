/** What reading an object with the shared finder means, whatever the order of its fields. */
module JserObjects {
  import opened Base
  import opened Sequences
  import opened JserFinder
  import opened Jser

  // ----- what reading an object means, whatever the order of its fields

  /** The first field of this key. */
  function Lookup(doc: seq<(string, Tree)>, key: string): Option<Tree> {
    if doc == [] then None else if doc[0].0 == key then Some(doc[0].1) else Lookup(doc[1..], key)
  }

  ghost predicate OwnKeysDistinct(flds: seq<Field>) {
    forall i, j :: 0 <= i < j < |flds| && flds[i].Keyed? && flds[j].Keyed? ==> flds[i].key != flds[j].key
  }

  /** What scanning the document does to the slot of one field. */
  ghost predicate SlotIs(f: Field, doc: seq<(string, Tree)>, before: Option<Data>, after: Option<Data>) {
    if f.Nested? || before.Some? then after == before
    else match Lookup(doc, f.key)
      case None => after.None?
      case Some(j) => after.Some? && Read(f.s, j) == Ok(after.value)
  }

  ghost predicate Readable(f: Field, doc: seq<(string, Tree)>, before: Option<Data>) {
    f.Keyed? && before.None? && Lookup(doc, f.key).Some? ==> Read(f.s, Lookup(doc, f.key).value).Ok?
  }

  lemma {:induction false} UnmatchedZero(flds: seq<Field>, got: seq<Option<Data>>)
    requires |flds| == |got|
    ensures Unmatched(flds, got) == 0 <==> forall i :: 0 <= i < |flds| && flds[i].Keyed? ==> got[i].Some?
  {
    if flds != [] {
      UnmatchedZero(flds[1..], got[1..]);
      assert forall i :: 0 <= i < |flds| - 1 ==> flds[i + 1] == flds[1..][i] && got[i + 1] == got[1..][i];
    }
  }

  /** What a loop does with the fields it meets. */
  function Collect(s: Schema, met: seq<(string, Tree)>, got: seq<Option<Data>>): (r: Result<seq<Option<Data>>, JErr>)
    requires s.Obj? && |got| == |s.flds|
    ensures r.Ok? ==> |r.value| == |s.flds|
    decreases |met|
  {
    if met == [] || Unmatched(s.flds, got) == 0 then Ok(got)
    else
      var i := FindField(s.flds, got, met[0].0);
      if i == |s.flds| then Collect(s, met[1..], got)
      else
        match Read(s.flds[i].s, met[0].1)
        case Err(e) => Err(e)
        case Ok(d) => Collect(s, met[1..], got[i := Some(d)])
  }

  lemma {:induction false} ScanCollects(s: Schema, doc: seq<(string, Tree)>, got: seq<Option<Data>>, c: Cursor)
    requires s.Obj? && |got| == |s.flds| && Fits(c, |doc|) && c.j <= c.n
    ensures Scan(s, doc, got, c).0 == Collect(s, View(doc, c), got)
    decreases Left(c, |doc|)
  {
    if Unmatched(s.flds, got) != 0 {
      var (c', f) := Next(c, |doc|);
      if f.Some? {
        assert View(doc, c) == [doc[f.value]] + View(doc, c');
        assert View(doc, c)[1..] == View(doc, c');
        var i := FindField(s.flds, got, doc[f.value].0);
        if i == |s.flds| {
          ScanCollects(s, doc, got, c');
        } else {
          var d := Read(s.flds[i].s, doc[f.value].1);
          if d.Ok? { ScanCollects(s, doc, got[i := Some(d.value)], c'); }
        }
      }
    }
  }

  lemma {:induction false} CollectIs(s: Schema, met: seq<(string, Tree)>, got: seq<Option<Data>>)
    requires s.Obj? && |got| == |s.flds| && OwnKeysDistinct(s.flds)
    ensures var r := Collect(s, met, got);
      && (r.Ok? ==> forall i :: 0 <= i < |got| ==> SlotIs(s.flds[i], met, got[i], r.value[i]))
      && ((forall i :: 0 <= i < |got| ==> Readable(s.flds[i], met, got[i])) ==> r.Ok?)
    decreases |met|
  {
    UnmatchedZero(s.flds, got);
    if met != [] && Unmatched(s.flds, got) != 0 {
      var i, rest := FindField(s.flds, got, met[0].0), met[1..];
      if i == |s.flds| {
        CollectIs(s, rest, got);
        assert forall k :: 0 <= k < |got| && Readable(s.flds[k], met, got[k]) ==> Readable(s.flds[k], rest, got[k]);
      } else {
        var d := Read(s.flds[i].s, met[0].1);
        if d.Ok? {
          var got' := got[i := Some(d.value)];
          CollectIs(s, rest, got');
          assert forall k :: 0 <= k < |got| && Readable(s.flds[k], met, got[k]) ==> Readable(s.flds[k], rest, got'[k]);
        } else {
          assert !Readable(s.flds[i], met, got[i]);
        }
      }
    }
  }

  /** The value a slot ends up with, if any. */
  function Filled(f: Field, slot: Option<Data>): Option<Data> {
    if f.Nested? then Some(DNothing) else if slot.Some? then slot else Missing(f.s)
  }

  lemma {:induction false} FillIs(flds: seq<Field>, got: seq<Option<Data>>, i: nat)
    requires |flds| == |got| && i <= |flds|
    ensures var r := Fill(flds, got, i);
      && (r.Ok? ==> forall k :: i <= k < |flds| ==> Filled(flds[k], got[k]) == Some(r.value[k - i]))
      && ((forall k :: i <= k < |flds| ==> Filled(flds[k], got[k]).Some?) ==> r.Ok?)
    decreases |flds| - i
  {
    if i < |flds| { FillIs(flds, got, i + 1); }
  }

  // ----- keys

  lemma {:induction false} KeysSplit(s: Schema, i: nat)
    requires s.Obj? && i < |s.flds| && Distinct(FlatKeys(s, i))
    ensures Distinct(KeysOf(s.flds[i])) && Distinct(FlatKeys(s, i + 1))
    ensures forall k :: k in KeysOf(s.flds[i]) ==> k !in FlatKeys(s, i + 1)
  {
    var a, b := KeysOf(s.flds[i]), FlatKeys(s, i + 1);
    var ab := a + b;
    assert FlatKeys(s, i) == ab;
    assert forall p :: 0 <= p < |a| ==> ab[p] == a[p];
    assert forall p :: 0 <= p < |b| ==> ab[|a| + p] == b[p];
  }

  lemma {:induction false} KeyIn(s: Schema, i: nat, j: nat, k: string)
    requires s.Obj? && i <= j < |s.flds| && k in KeysOf(s.flds[j])
    ensures k in FlatKeys(s, i)
    decreases j - i
  {
    if i < j { KeyIn(s, i + 1, j, k); }
  }

  lemma {:induction false} OwnDistinct(s: Schema, i: nat)
    requires s.Obj? && i <= |s.flds| && Distinct(FlatKeys(s, i))
    ensures forall p, q :: i <= p < q < |s.flds| && s.flds[p].Keyed? && s.flds[q].Keyed? ==>
      s.flds[p].key != s.flds[q].key
    decreases |s.flds| - i
  {
    if i < |s.flds| {
      KeysSplit(s, i);
      OwnDistinct(s, i + 1);
      forall q | i < q < |s.flds| && s.flds[i].Keyed? && s.flds[q].Keyed? ensures s.flds[i].key != s.flds[q].key {
        KeyIn(s, i + 1, q, s.flds[q].key);
      }
    }
  }

  // ----- where the finder goes

  /** The keys that are still waited for. */
  function Waiting(flds: seq<Field>, got: seq<Option<Data>>): set<string>
    requires |flds| == |got|
  {
    set i | 0 <= i < |flds| && flds[i].Keyed? && got[i].None? :: flds[i].key
  }

  /** A loop for these keys alone: where it leaves the finder when every value can be read. */
  function Pass(waiting: set<string>, doc: seq<(string, Tree)>, c: Cursor): (r: Cursor)
    requires Fits(c, |doc|) && c.j <= c.n
    ensures Fits(r, |doc|)
    decreases Left(c, |doc|)
  {
    if waiting == {} then c
    else
      match Next(c, |doc|)
      case (c', None) => c'
      case (c', Some(i)) => Pass(waiting - {doc[i].0}, doc, c')
  }

  lemma {:induction false} ScanPasses(s: Schema, doc: seq<(string, Tree)>, got: seq<Option<Data>>, c: Cursor)
    requires s.Obj? && |got| == |s.flds| && OwnKeysDistinct(s.flds) && Fits(c, |doc|) && c.j <= c.n
    requires Scan(s, doc, got, c).0.Ok?
    ensures Scan(s, doc, got, c).1 == Pass(Waiting(s.flds, got), doc, c)
    decreases Left(c, |doc|)
  {
    WaitingNone(s.flds, got);
    if Unmatched(s.flds, got) != 0 {
      var (c', f) := Next(c, |doc|);
      if f.Some? {
        var key := doc[f.value].0;
        var i := FindField(s.flds, got, key);
        if i == |s.flds| {
          assert Waiting(s.flds, got) - {key} == Waiting(s.flds, got);
          ScanPasses(s, doc, got, c');
        } else {
          var got' := got[i := Some(Read(s.flds[i].s, doc[f.value].1).value)];
          assert Waiting(s.flds, got) - {key} == Waiting(s.flds, got');
          ScanPasses(s, doc, got', c');
        }
      }
    }
  }

  lemma {:induction false} WaitingNone(flds: seq<Field>, got: seq<Option<Data>>)
    requires |flds| == |got|
    ensures Unmatched(flds, got) == 0 <==> Waiting(flds, got) == {}
  {
    UnmatchedZero(flds, got);
    if i :| 0 <= i < |flds| && flds[i].Keyed? && got[i].None? { assert flds[i].key in Waiting(flds, got); }
  }

  function OwnKeys(flds: seq<Field>): set<string> { set i | 0 <= i < |flds| && flds[i].Keyed? :: flds[i].key }

  /** Where the finder is when the keyed fields have been looked for, the nested objects among the first `i` fields
      have been read, and the whole object has. It depends on keys alone. */
  function AfterKeyed(s: Schema, doc: seq<(string, Tree)>, c: Cursor): (r: Cursor)
    requires s.Obj? && Fits(c, |doc|)
    ensures Fits(r, |doc|)
  {
    if AnyKeyed(s.flds) then Pass(OwnKeys(s.flds), doc, Start(c, |doc|)) else c
  }

  function AfterNested(s: Schema, doc: seq<(string, Tree)>, i: nat, c: Cursor): (r: Cursor)
    requires s.Obj? && i <= |s.flds| && Fits(c, |doc|)
    ensures Fits(r, |doc|)
    decreases s, 0, i
  {
    if i == 0 then c
    else
      var before := AfterNested(s, doc, i - 1, c);
      if s.flds[i - 1].Keyed? || !s.flds[i - 1].obj.Obj? then before else After(s.flds[i - 1].obj, doc, before)
  }

  function After(s: Schema, doc: seq<(string, Tree)>, c: Cursor): (r: Cursor)
    requires s.Obj? && Fits(c, |doc|)
    ensures Fits(r, |doc|)
    decreases s, 1
  {
    Skip(AfterNested(s, doc, |s.flds|, AfterKeyed(s, doc, c)), |doc|)
  }

  /** Where the nested object at field `i` finds the finder. */
  function At(s: Schema, doc: seq<(string, Tree)>, c: Cursor, i: nat): (r: Cursor)
    requires s.Obj? && i <= |s.flds| && Fits(c, |doc|)
    ensures Fits(r, |doc|)
  {
    AfterNested(s, doc, i, AfterKeyed(s, doc, c))
  }

  // ----- what reading an object means

  /** One part on its own: the first field of its key among those the loop meets, what it becomes without one, or
      a nested object, from where the finder is by then. */
  ghost predicate FieldReads(s: Schema, doc: seq<(string, Tree)>, c: Cursor, i: nat, d: Data)
    requires s.Obj? && i < |s.flds| && Fits(c, |doc|)
  {
    match s.flds[i]
    case Keyed(k, fs) =>
      (match Lookup(View(doc, Start(c, |doc|)), k)
       case Some(j) => Read(fs, j) == Ok(d)
       case None => Missing(fs) == Some(d))
    case Nested(o) => o.Obj? && ReadObj(o, doc, At(s, doc, c, i)).0 == Ok(d)
  }

  /** The first loop of an object: what it finds, and where it leaves the finder. */
  ghost predicate FirstLoop(s: Schema, doc: seq<(string, Tree)>, c: Cursor, got: seq<Option<Data>>)
    requires s.Obj? && Fits(c, |doc|)
  {
    |got| == |s.flds| && forall i :: 0 <= i < |got| ==> SlotIs(s.flds[i], View(doc, Start(c, |doc|)), None, got[i])
  }

  /** `ReadObj` up to the nested objects. */
  function Keyeds(s: Schema, doc: seq<(string, Tree)>, c: Cursor): (r: (Result<seq<Option<Data>>, JErr>, Cursor))
    requires s.Obj? && Fits(c, |doc|)
    ensures Fits(r.1, |doc|) && (r.0.Ok? ==> |r.0.value| == |s.flds|)
  {
    var none := seq(|s.flds|, _ => None);
    if AnyKeyed(s.flds) then Scan(s, doc, none, Start(c, |doc|)) else (Ok(none), c)
  }

  lemma {:induction false} KeyedsAre(s: Schema, doc: seq<(string, Tree)>, c: Cursor)
    requires s.Obj? && Fits(c, |doc|) && OwnKeysDistinct(s.flds)
    ensures var (r, c1) := Keyeds(s, doc, c);
      && (r.Ok? ==> FirstLoop(s, doc, c, r.value) && c1 == AfterKeyed(s, doc, c))
      && ((forall i :: 0 <= i < |s.flds| ==> Readable(s.flds[i], View(doc, Start(c, |doc|)), None)) ==> r.Ok?)
  {
    if AnyKeyed(s.flds) {
      var none: seq<Option<Data>> := seq(|s.flds|, _ => None);
      ScanCollects(s, doc, none, Start(c, |doc|));
      CollectIs(s, View(doc, Start(c, |doc|)), none);
      if Scan(s, doc, none, Start(c, |doc|)).0.Ok? {
        ScanPasses(s, doc, none, Start(c, |doc|));
        assert Waiting(s.flds, none) == OwnKeys(s.flds);
      }
    }
  }

  /** Reading leaves the finder where its keys lead it. */
  lemma {:induction false} ReadsTo(s: Schema, doc: seq<(string, Tree)>, c: Cursor)
    requires s.Obj? && WellFormed(s) && Fits(c, |doc|) && ReadObj(s, doc, c).0.Ok?
    ensures ReadObj(s, doc, c).1 == After(s, doc, c)
    decreases s, 1, 0
  {
    OwnDistinct(s, 0);
    KeyedsAre(s, doc, c);
    NestedTo(s, doc, 0, AfterKeyed(s, doc, c));
  }

  lemma {:induction false} NestedTo(s: Schema, doc: seq<(string, Tree)>, i: nat, c: Cursor)
    requires s.Obj? && WellFormed(s) && i <= |s.flds| && Fits(c, |doc|)
    requires ReadNested(s, doc, i, AfterNested(s, doc, i, c)).0.Ok?
    ensures ReadNested(s, doc, i, AfterNested(s, doc, i, c)).1 == AfterNested(s, doc, |s.flds|, c)
    decreases s, 0, |s.flds| - i
  {
    if i < |s.flds| {
      if s.flds[i].Nested? { ReadsTo(s.flds[i].obj, doc, AfterNested(s, doc, i, c)); }
      NestedTo(s, doc, i + 1, c);
    }
  }

  ghost predicate NestedReads(s: Schema, doc: seq<(string, Tree)>, i: nat, c: Cursor, d: Data)
    requires s.Obj? && i < |s.flds| && Fits(c, |doc|)
  {
    s.flds[i].Nested? ==>
      s.flds[i].obj.Obj? && ReadObj(s.flds[i].obj, doc, AfterNested(s, doc, i, c)).0 == Ok(d)
  }

  function Cons(d: Data, rest: Result<seq<Data>, JErr>): Result<seq<Data>, JErr> {
    match rest case Ok(ds) => Ok([d] + ds) case Err(e) => Err(e)
  }

  /** One nested object, and then the others. */
  lemma {:induction false} NestedStep(s: Schema, doc: seq<(string, Tree)>, i: nat, c: Cursor, d: Data)
    requires s.Obj? && WellFormed(s) && i < |s.flds| && Fits(c, |doc|) && (s.flds[i].Keyed? ==> d == DNothing)
    requires NestedReads(s, doc, i, c, d)
    ensures ReadNested(s, doc, i, AfterNested(s, doc, i, c)).0 ==
      Cons(d, ReadNested(s, doc, i + 1, AfterNested(s, doc, i + 1, c)).0)
  {
    if s.flds[i].Nested? { ReadsTo(s.flds[i].obj, doc, AfterNested(s, doc, i, c)); }
  }

  lemma {:induction false} NestedSplit(s: Schema, doc: seq<(string, Tree)>, i: nat, c: Cursor)
    returns (d: Data, rest: seq<Data>)
    requires s.Obj? && WellFormed(s) && i < |s.flds| && Fits(c, |doc|)
    requires ReadNested(s, doc, i, AfterNested(s, doc, i, c)).0.Ok?
    ensures NestedReads(s, doc, i, c, d)
    ensures ReadNested(s, doc, i + 1, AfterNested(s, doc, i + 1, c)).0 == Ok(rest)
    ensures ReadNested(s, doc, i, AfterNested(s, doc, i, c)).0 == Ok([d] + rest)
  {
    d := if s.flds[i].Keyed? then DNothing else ReadObj(s.flds[i].obj, doc, AfterNested(s, doc, i, c)).0.value;
    NestedStep(s, doc, i, c, d);
    rest := ReadNested(s, doc, i + 1, AfterNested(s, doc, i + 1, c)).0.value;
  }

  /** What the nested objects from field `i` on are read to. */
  ghost predicate NestedList(s: Schema, doc: seq<(string, Tree)>, i: nat, c: Cursor, ds: seq<Data>)
    requires s.Obj? && i <= |s.flds| && Fits(c, |doc|)
    decreases |ds|
  {
    if i == |s.flds| then ds == []
    else ds != [] && NestedReads(s, doc, i, c, ds[0]) && NestedList(s, doc, i + 1, c, ds[1..])
  }

  lemma {:induction false} NestedAre(s: Schema, doc: seq<(string, Tree)>, i: nat, c: Cursor) returns (ds: seq<Data>)
    requires s.Obj? && WellFormed(s) && i <= |s.flds| && Fits(c, |doc|)
    requires ReadNested(s, doc, i, AfterNested(s, doc, i, c)).0.Ok?
    ensures ReadNested(s, doc, i, AfterNested(s, doc, i, c)).0 == Ok(ds) && NestedList(s, doc, i, c, ds)
    decreases |s.flds| - i
  {
    if i < |s.flds| {
      var d, rest := NestedSplit(s, doc, i, c);
      var rest' := NestedAre(s, doc, i + 1, c);
      ds := [d] + rest;
      assert ds[1..] == rest';
    } else {
      ds := [];
    }
  }

  lemma {:induction false} ListedAt(s: Schema, doc: seq<(string, Tree)>, i: nat, c: Cursor, ds: seq<Data>, k: nat)
    requires s.Obj? && i <= k < |s.flds| && Fits(c, |doc|) && NestedList(s, doc, i, c, ds)
    ensures k - i < |ds| && NestedReads(s, doc, k, c, ds[k - i])
    decreases |ds|
  {
    if i < k { ListedAt(s, doc, i + 1, c, ds[1..], k); }
  }

  lemma {:induction false} NestedOk(s: Schema, doc: seq<(string, Tree)>, i: nat, c: Cursor, parts: seq<Data>)
    requires s.Obj? && WellFormed(s) && i <= |s.flds| == |parts| && Fits(c, |doc|)
    requires forall k :: 0 <= k < |s.flds| ==> NestedReads(s, doc, k, c, parts[k])
    ensures ReadNested(s, doc, i, AfterNested(s, doc, i, c)).0.Ok?
    decreases |s.flds| - i
  {
    if i < |s.flds| {
      NestedOk(s, doc, i + 1, c, parts);
      OneMoreOk(s, doc, i, c, parts[i]);
    }
  }

  lemma {:induction false} OneMoreOk(s: Schema, doc: seq<(string, Tree)>, i: nat, c: Cursor, d: Data)
    requires s.Obj? && WellFormed(s) && i < |s.flds| && Fits(c, |doc|) && NestedReads(s, doc, i, c, d)
    requires ReadNested(s, doc, i + 1, AfterNested(s, doc, i + 1, c)).0.Ok?
    ensures ReadNested(s, doc, i, AfterNested(s, doc, i, c)).0.Ok?
  {
    NestedStep(s, doc, i, c, if s.flds[i].Keyed? then DNothing else d);
  }

  lemma {:induction false} NestedAll(s: Schema, doc: seq<(string, Tree)>, c: Cursor, parts: seq<Data>)
    requires s.Obj? && WellFormed(s) && |s.flds| == |parts| && Fits(c, |doc|)
    requires forall k :: 0 <= k < |s.flds| ==> NestedReads(s, doc, k, c, parts[k])
    ensures var r := ReadNested(s, doc, 0, c).0;
      r.Ok? && forall k :: 0 <= k < |s.flds| && s.flds[k].Nested? ==> r.value[k] == parts[k]
  {
    NestedOk(s, doc, 0, c, parts);
    var ds := NestedAre(s, doc, 0, c);
    forall k | 0 <= k < |s.flds| && s.flds[k].Nested? ensures ds[k] == parts[k] {
      ListedAt(s, doc, 0, c, ds, k);
      assert NestedReads(s, doc, k, c, parts[k]);
    }
  }

  /** Reading an object succeeds with these parts exactly when each part on its own reads so. */
  lemma {:induction false} ReadObjIff(s: Schema, doc: seq<(string, Tree)>, c: Cursor, parts: seq<Data>)
    requires s.Obj? && WellFormed(s) && Fits(c, |doc|)
    ensures ReadObj(s, doc, c).0 == Ok(DObj(parts)) <==>
      |parts| == |s.flds| && forall i :: 0 <= i < |s.flds| ==> FieldReads(s, doc, c, i, parts[i])
  {
    if ReadObj(s, doc, c).0 == Ok(DObj(parts)) {
      ReadsEach(s, doc, c, parts);
    }
    if |parts| == |s.flds| && forall i :: 0 <= i < |s.flds| ==> FieldReads(s, doc, c, i, parts[i]) {
      EachReads(s, doc, c, parts);
    }
  }

  /** The steps of `ReadObj`. */
  lemma {:induction false} ReadObjSteps(s: Schema, doc: seq<(string, Tree)>, c: Cursor, parts: seq<Data>)
    requires s.Obj? && Fits(c, |doc|)
    ensures ReadObj(s, doc, c).0 == Ok(DObj(parts)) <==>
      var (got, c1) := Keyeds(s, doc, c);
      && got.Ok? && Fill(s.flds, got.value, 0).Ok? && ReadNested(s, doc, 0, c1).0.Ok?
      && parts == Merge(s.flds, Fill(s.flds, got.value, 0).value, ReadNested(s, doc, 0, c1).0.value)
  {
  }

  lemma {:induction false} KeyedReads(s: Schema, doc: seq<(string, Tree)>, c: Cursor, i: nat, slot: Option<Data>,
      d: Data)
    requires s.Obj? && i < |s.flds| && Fits(c, |doc|) && s.flds[i].Keyed?
    requires SlotIs(s.flds[i], View(doc, Start(c, |doc|)), None, slot)
    ensures FieldReads(s, doc, c, i, d) <==> Filled(s.flds[i], slot) == Some(d)
  {
  }

  lemma {:induction false} ReadsEach(s: Schema, doc: seq<(string, Tree)>, c: Cursor, parts: seq<Data>)
    requires s.Obj? && WellFormed(s) && Fits(c, |doc|) && ReadObj(s, doc, c).0 == Ok(DObj(parts))
    ensures |parts| == |s.flds| && forall i :: 0 <= i < |s.flds| ==> FieldReads(s, doc, c, i, parts[i])
  {
    OwnDistinct(s, 0);
    KeyedsAre(s, doc, c);
    ReadObjSteps(s, doc, c, parts);
    var got := Keyeds(s, doc, c).0.value;
    FillIs(s.flds, got, 0);
    var ds := NestedAre(s, doc, 0, AfterKeyed(s, doc, c));
    forall i | 0 <= i < |s.flds| ensures FieldReads(s, doc, c, i, parts[i]) {
      if s.flds[i].Keyed? {
        KeyedReads(s, doc, c, i, got[i], parts[i]);
      } else {
        ListedAt(s, doc, 0, AfterKeyed(s, doc, c), ds, i);
      }
    }
  }

  /** If each part reads, the first loop finds what it should. */
  lemma {:induction false} FindsEach(s: Schema, doc: seq<(string, Tree)>, c: Cursor, parts: seq<Data>)
    requires s.Obj? && WellFormed(s) && Fits(c, |doc|)
    requires |parts| == |s.flds| && forall i :: 0 <= i < |s.flds| ==> FieldReads(s, doc, c, i, parts[i])
    ensures var (got, c1) := Keyeds(s, doc, c);
      && got.Ok? && c1 == AfterKeyed(s, doc, c) && Fill(s.flds, got.value, 0).Ok?
      && forall i :: 0 <= i < |s.flds| && s.flds[i].Keyed? ==> Fill(s.flds, got.value, 0).value[i] == parts[i]
  {
    OwnDistinct(s, 0);
    KeyedsAre(s, doc, c);
    var view := View(doc, Start(c, |doc|));
    assert forall i :: 0 <= i < |s.flds| ==> FieldReads(s, doc, c, i, parts[i]) ==> Readable(s.flds[i], view, None);
    var got := Keyeds(s, doc, c).0.value;
    forall i | 0 <= i < |s.flds| && s.flds[i].Keyed? ensures Filled(s.flds[i], got[i]) == Some(parts[i]) {
      KeyedReads(s, doc, c, i, got[i], parts[i]);
    }
    FillIs(s.flds, got, 0);
    assert forall i :: 0 <= i < |s.flds| ==> Filled(s.flds[i], got[i]).Some?;
  }

  lemma {:induction false} EachReads(s: Schema, doc: seq<(string, Tree)>, c: Cursor, parts: seq<Data>)
    requires s.Obj? && WellFormed(s) && Fits(c, |doc|)
    requires |parts| == |s.flds| && forall i :: 0 <= i < |s.flds| ==> FieldReads(s, doc, c, i, parts[i])
    ensures ReadObj(s, doc, c).0 == Ok(DObj(parts))
  {
    FindsEach(s, doc, c, parts);
    var c1 := AfterKeyed(s, doc, c);
    forall i | 0 <= i < |s.flds| ensures NestedReads(s, doc, i, c1, parts[i]) {
      assert FieldReads(s, doc, c, i, parts[i]);
    }
    NestedAll(s, doc, c1, parts);
    var filled, nested := Fill(s.flds, Keyeds(s, doc, c).0.value, 0).value, ReadNested(s, doc, 0, c1).0.value;
    assert Merge(s.flds, filled, nested) == parts;
    ReadObjSteps(s, doc, c, parts);
  }
}
