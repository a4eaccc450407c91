/** The loops of the `jser` reader and writer, proved against `Jser`. */
module JserReader {
  import opened Base
  import opened JserFinder
  import opened Jser
  import opened JserObjects

  method ReadVal(s: Schema, j: Tree) returns (r: Result<Data, JErr>)
    ensures r == Read(s, j)
    decreases s, 4, 0
  {
    match s {
      case Num => r := if j.JNum? then Ok(DNum(j.n)) else Err(IncorrectType);
      case Str(_) => r := if j.JStr? then Ok(DStr(j.str)) else Err(IncorrectType);
      case Nothing => r := Ok(DNothing);
      case Opt(_, inner) =>
        if j.JNull? { return Ok(DOpt(None)); }
        var v := ReadVal(inner, j);
        r := match v case Ok(d) => Ok(DOpt(Some(d))) case Err(e) => Err(e);
      case Variant(_, nullable, alts) =>
        if j.JNull? { return if nullable then Ok(DVariant(0, DNothing)) else Err(NonNullableField); }
        var i := MatchAlt(alts, KindOf(j));
        if i == 0 { return Err(IncorrectType); }
        var v := ReadVal(alts[i - 1], j);
        r := match v case Ok(d) => Ok(DVariant(i, d)) case Err(e) => Err(e);
      case Range(_, _) =>
        if !j.JArr? { return Err(IncorrectType); }
        r := ReadArrOf(s, j.elems);
      case Tuple(_, _) =>
        if !j.JArr? { return Err(IncorrectType); }
        r := ReadTuple(s, j.elems);
      case Obj(_) =>
        if !j.JObj? { return Err(IncorrectType); }
        r := ReadDocument(s, j.flds);
    }
  }

  /** A value of its own gets a finder of its own. */
  method ReadDocument(s: Schema, doc: seq<(string, Tree)>) returns (r: Result<Data, JErr>)
    requires s.Obj?
    ensures r == ReadObj(s, doc, FRESH).0
    decreases s, 3, 1
  {
    var it := new LoopIter(|doc|);
    r := ReadObject(s, doc, it);
  }

  /** `d` followed by what the rest yields. */
  function Append(d: seq<Data>, rest: Result<seq<Data>, JErr>): Result<seq<Data>, JErr> {
    match rest case Ok(ds) => Ok(d + ds) case Err(e) => Err(e)
  }

  lemma {:induction false} AppendStep(d: seq<Data>, v: Data, rest: Result<seq<Data>, JErr>)
    ensures Append([], rest) == rest
    ensures Append(d, Append([v], rest)) == Append(d + [v], rest)
  {
    if rest.Ok? {
      assert [] + rest.value == rest.value;
      assert d + ([v] + rest.value) == d + [v] + rest.value;
    }
  }

  method ReadArrOf(s: Schema, js: seq<Tree>) returns (r: Result<Data, JErr>)
    requires s.Range?
    ensures r == match ReadElems(s, js) case Ok(ds) => Ok(DSeq(ds)) case Err(e) => Err(e)
    decreases s, 1, 0
  {
    var d, i := [], 0;
    assert js[0..] == js;
    AppendStep([], DNothing, ReadElems(s, js));
    while i < |js|
      invariant 0 <= i <= |js|
      invariant ReadElems(s, js) == Append(d, ReadElems(s, js[i..]))
    {
      var v := ReadVal(s.elem, js[i]);
      if v.Err? { return Err(v.error); }
      assert js[i..][1..] == js[i + 1..];
      AppendStep(d, v.value, ReadElems(s, js[i + 1..]));
      d := d + [v.value];
      i := i + 1;
    }
    assert d + [] == d;
    return Ok(DSeq(d));
  }

  method ReadTuple(s: Schema, js: seq<Tree>) returns (r: Result<Data, JErr>)
    requires s.Tuple?
    ensures r == match ReadParts(s, js, 0)
      case Ok(ds) => if s.exact && |js| > |s.elems| then Err(InvalidElmCnt) else Ok(DSeq(ds))
      case Err(e) => Err(e)
    decreases s, 1, 0
  {
    var d, i := [], 0;
    AppendStep([], DNothing, ReadParts(s, js, 0));
    while i < |s.elems|
      invariant 0 <= i <= |s.elems|
      invariant ReadParts(s, js, 0) == Append(d, ReadParts(s, js, i))
    {
      if i >= |js| { return Err(OutOfBound); }
      var v := ReadVal(s.elems[i], js[i]);
      if v.Err? { return Err(v.error); }
      AppendStep(d, v.value, ReadParts(s, js, i + 1));
      d := d + [v.value];
      i := i + 1;
    }
    assert d + [] == d;
    if s.exact && |js| > |s.elems| { return Err(InvalidElmCnt); }
    return Ok(DSeq(d));
  }

  lemma {:induction false} UnmatchedSet(flds: seq<Field>, got: seq<Option<Data>>, i: nat, d: Data)
    requires |flds| == |got| && i < |flds| && flds[i].Keyed? && got[i].None?
    ensures Unmatched(flds, got[i := Some(d)]) == Unmatched(flds, got) - 1
  {
    if i > 0 {
      assert got[i := Some(d)][1..] == got[1..][i - 1 := Some(d)];
      UnmatchedSet(flds[1..], got[1..], i - 1, d);
    } else {
      assert got[0 := Some(d)][1..] == got[1..];
    }
  }

  /** `read_jobj`, with a finder that may have been used for other objects of the same document. */
  method ReadObject(s: Schema, doc: seq<(string, Tree)>, it: LoopIter) returns (r: Result<Data, JErr>)
    requires s.Obj? && it.size == |doc| && Fits(it.State(), |doc|)
    modifies it
    ensures r == ReadObj(s, doc, old(it.State())).0
    ensures Fits(it.State(), |doc|) && (r.Ok? ==> it.State() == ReadObj(s, doc, old(it.State())).1)
    decreases s, 3, 0
  {
    var got: seq<Option<Data>> := seq(|s.flds|, _ => None);
    if AnyKeyed(s.flds) {
      var found := ForeachFound(s, doc, it);
      if found.Err? { return Err(found.error); }
      got := found.value;
    }
    var filled := FillMissing(s.flds, got);
    if filled.Err? { return Err(filled.error); }
    var parts := ReadNestedObjs(s, doc, filled.value, it);
    if parts.Err? { return Err(parts.error); }
    it.SkipRemains();
    return Ok(DObj(parts.value));
  }

  /** The nested objects, with the same finder, put beside the keyed parts. */
  method ReadNestedObjs(s: Schema, doc: seq<(string, Tree)>, keyed: seq<Data>, it: LoopIter)
    returns (r: Result<seq<Data>, JErr>)
    requires s.Obj? && |keyed| == |s.flds| && it.size == |doc| && Fits(it.State(), |doc|)
    modifies it
    ensures r == match ReadNested(s, doc, 0, old(it.State())).0
      case Ok(nested) => Ok(Merge(s.flds, keyed, nested))
      case Err(e) => Err(e)
    ensures Fits(it.State(), |doc|) && (r.Ok? ==> it.State() == ReadNested(s, doc, 0, old(it.State())).1)
    decreases s, 2, 0
  {
    var parts, i := keyed, 0;
    ghost var whole := ReadNested(s, doc, 0, it.State());
    ghost var nested: seq<Data> := [];
    AppendStep([], DNothing, whole.0);
    while i < |s.flds|
      invariant 0 <= i <= |s.flds| && |parts| == |s.flds| && |nested| == i && Fits(it.State(), |doc|)
      invariant whole.0 == Append(nested, ReadNested(s, doc, i, it.State()).0)
      invariant whole.0.Ok? ==> whole.1 == ReadNested(s, doc, i, it.State()).1
      invariant forall k :: 0 <= k < i ==> parts[k] == if s.flds[k].Keyed? then keyed[k] else nested[k]
      invariant forall k :: i <= k < |s.flds| ==> parts[k] == keyed[k]
    {
      var d := DNothing;
      ghost var c := it.State();
      if s.flds[i].Nested? && s.flds[i].obj.Obj? {
        var v := ReadObject(s.flds[i].obj, doc, it);
        if v.Err? { return Err(v.error); }
        d := v.value;
      }
      AppendStep(nested, d, ReadNested(s, doc, i + 1, it.State()).0);
      nested := nested + [d];
      parts := if s.flds[i].Nested? then parts[i := d] else parts;
      i := i + 1;
    }
    assert nested + [] == nested;
    assert parts == Merge(s.flds, keyed, nested);
    return Ok(parts);
  }

  /** Calls back for each field the finder meets that some field of the schema is still waiting for, and stops as
      soon as none is. */
  method ForeachFound(s: Schema, doc: seq<(string, Tree)>, it: LoopIter) returns (r: Result<seq<Option<Data>>, JErr>)
    requires s.Obj? && it.size == |doc| && Fits(it.State(), |doc|)
    modifies it
    ensures (r, it.State()) == Scan(s, doc, seq(|s.flds|, _ => None), Start(old(it.State()), |doc|))
    ensures Fits(it.State(), |doc|)
    decreases s, 1, 0
  {
    it.StartLoop();
    var got: seq<Option<Data>> := seq(|s.flds|, _ => None);
    ghost var whole := Scan(s, doc, got, it.State());
    var unmatched := Unmatched(s.flds, got);
    while unmatched > 0
      invariant |got| == |s.flds| && unmatched == Unmatched(s.flds, got)
      invariant Fits(it.State(), |doc|) && it.j <= it.n
      invariant whole == Scan(s, doc, got, it.State())
      decreases Left(it.State(), |doc|)
    {
      var f := it.NextField();
      if f.None? { return Ok(got); }
      var (key, jv) := doc[f.value];
      var i := 0;
      while i < |s.flds| && !(s.flds[i].Keyed? && s.flds[i].key == key && got[i].None?)
        invariant 0 <= i <= |s.flds|
        invariant forall k :: 0 <= k < i ==> !(s.flds[k].Keyed? && s.flds[k].key == key && got[k].None?)
      {
        i := i + 1;
      }
      assert i == FindField(s.flds, got, key);
      if i < |s.flds| {
        var v := ReadVal(s.flds[i].s, jv);
        if v.Err? { return Err(v.error); }
        UnmatchedSet(s.flds, got, i, v.value);
        got := got[i := Some(v.value)];
        unmatched := unmatched - 1;
      }
    }
    return Ok(got);
  }

  /** Clears what may be missing and counts down; anything left over is an error. */
  method FillMissing(flds: seq<Field>, found: seq<Option<Data>>) returns (r: Result<seq<Data>, JErr>)
    requires |flds| == |found|
    ensures r == Fill(flds, found, 0)
  {
    var got, unmatched, i := found, Unmatched(flds, found), 0;
    while i < |flds|
      invariant 0 <= i <= |flds| && |got| == |flds| && unmatched == Unmatched(flds, got)
      invariant forall k :: 0 <= k < i && flds[k].Keyed? ==> got[k] == Filled(flds[k], found[k])
      invariant forall k :: i <= k < |flds| ==> got[k] == found[k]
    {
      if flds[i].Keyed? && got[i].None? && Missing(flds[i].s).Some? {
        UnmatchedSet(flds, got, i, Missing(flds[i].s).value);
        got := got[i := Missing(flds[i].s)];
        unmatched := unmatched - 1;
      }
      i := i + 1;
    }
    UnmatchedZero(flds, got);
    FillIs(flds, found, 0);
    FillFails(flds, found, 0);
    if unmatched > 0 {
      assert exists k :: 0 <= k < |flds| && flds[k].Keyed? && Filled(flds[k], found[k]).None?;
      return Err(FieldNotFound);
    }
    assert forall k :: 0 <= k < |flds| ==> Filled(flds[k], found[k]).Some?;
    ghost var filled := Fill(flds, found, 0).value;
    r := Ok(seq(|flds|, k requires 0 <= k < |flds| => if flds[k].Nested? then DNothing else got[k].value));
    assert r.value == filled;
  }

  lemma {:induction false} FillFails(flds: seq<Field>, got: seq<Option<Data>>, i: nat)
    requires |flds| == |got| && i <= |flds|
    ensures Fill(flds, got, i).Err? ==> Fill(flds, got, i).error == FieldNotFound
    decreases |flds| - i
  {
    if i < |flds| { FillFails(flds, got, i + 1); }
  }

  // ----- the writer

  /** `write_jval`. */
  method WriteVal(s: Schema, d: Data) returns (j: Tree)
    requires Conforms(s, d)
    ensures j == Write(s, d)
    decreases s, 1
  {
    match s {
      case Num => j := JNum(d.n);
      case Str(_) => j := JStr(d.str);
      case Nothing => j := JNull;
      case Opt(_, inner) => if d.opt.Some? { j := WriteVal(inner, d.opt.value); } else { j := JNull; }
      case Variant(_, _, alts) => if d.index == 0 { j := JNull; } else { j := WriteVal(alts[d.index - 1], d.val); }
      case Range(_, _) => j := WriteArr(s, d);
      case Tuple(_, _) => j := WriteArr(s, d);
      case Obj(_) =>
        var out, _ := WriteJFlds(s, d);
        j := JObj(out);
    }
  }

  /** The element loop of `write_jarr_of` and `write_jtuple`. */
  method WriteArr(s: Schema, d: Data) returns (j: Tree)
    requires (s.Range? || s.Tuple?) && Conforms(s, d)
    ensures j == Write(s, d)
    decreases s, 0
  {
    var out: seq<Tree> := [];
    for i := 0 to |d.elems|
      invariant |out| == i && forall k :: 0 <= k < i ==> out[k] == Write(s, d).elems[k]
    {
      var e := WriteVal(if s.Range? then s.elem else s.elems[i], d.elems[i]);
      out := out + [e];
    }
    assert out == Write(s, d).elems;
    j := JArr(out);
  }

  /** `write_jflds`: the fields written and the number of fields reported. */
  method WriteJFlds(s: Schema, d: Data) returns (out: seq<(string, Tree)>, cnt: nat)
    requires s.Obj? && Conforms(s, d)
    ensures out == WriteFields(s, d, 0) && cnt == CountFields(s, d, 0)
    decreases s, 0
  {
    out, cnt := [], 0;
    var i := 0;
    while i < |s.flds|
      invariant 0 <= i <= |s.flds|
      invariant WriteFields(s, d, 0) == out + WriteFields(s, d, i)
      invariant CountFields(s, d, 0) == cnt + CountFields(s, d, i)
    {
      var more, n := WriteOne(s.flds[i], d.parts[i]);
      assert out + (more + WriteFields(s, d, i + 1)) == out + more + WriteFields(s, d, i + 1);
      out, cnt := out + more, cnt + n;
      i := i + 1;
    }
  }

  method WriteOne(f: Field, d: Data) returns (out: seq<(string, Tree)>, cnt: nat)
    requires match f case Keyed(_, fs) => Conforms(fs, d) case Nested(o) => o.Obj? && Conforms(o, d)
    ensures out == WriteField(f, d) && cnt == CountField(f, d)
    decreases f
  {
    match f {
      case Nested(o) => out, cnt := WriteJFlds(o, d);
      case Keyed(k, fs) =>
        if Empty(fs, d) { return [], if fs.plain then 0 else 1; }
        var j := WriteVal(fs, d);
        return [(k, j)], 1;
    }
  }
}
