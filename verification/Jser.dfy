/** `jser`: schemas as data, what the writer makes of a value, and what the reader makes of a tree. */
module Jser {
  import opened Base
  import opened Sequences
  import opened JserFinder

  /** `plain` parts are selected without a converter: only these (and optionals and variants) may be absent
      from an object when it is read, and only these are not counted when an object leaves them out. */
  datatype Schema =
    | Num
    | Str(plain: bool)
    | Nothing
    | Opt(plain: bool, inner: Schema)
    | Variant(plain: bool, nullable: bool, alts: seq<Schema>)
    | Range(plain: bool, elem: Schema)
    | Tuple(exact: bool, elems: seq<Schema>)
    | Obj(flds: seq<Field>)

  /** A keyed field, or an object whose fields are merged into the one around it (`jnested`). */
  datatype Field = Keyed(key: string, s: Schema) | Nested(obj: Schema)

  /** `index` 0 of a variant is the empty alternative. */
  datatype Data =
    | DNum(n: int)
    | DStr(str: string)
    | DNothing
    | DOpt(opt: Option<Data>)
    | DVariant(index: nat, val: Data)
    | DSeq(elems: seq<Data>)
    | DObj(parts: seq<Data>)

  datatype Tree =
    | JNull
    | JNum(n: int)
    | JStr(str: string)
    | JArr(elems: seq<Tree>)
    | JObj(flds: seq<(string, Tree)>)

  datatype JErr = OutOfBound | FieldNotFound | NonNullableField | InvalidElmCnt | IncorrectType

  /** `get_jval_matched_type` tells these apart. */
  datatype Kind = KNull | KNum | KStr | KArr | KObj

  function KindOf(j: Tree): Kind {
    match j
    case JNull => KNull
    case JNum(_) => KNum
    case JStr(_) => KStr
    case JArr(_) => KArr
    case JObj(_) => KObj
  }

  /** What the tree of an alternative will be; optionals and variants are not supported there. */
  function AltKind(s: Schema): Option<Kind> {
    match s
    case Num => Some(KNum)
    case Str(_) => Some(KStr)
    case Range(_, _) => Some(KArr)
    case Tuple(_, _) => Some(KArr)
    case Obj(_) => Some(KObj)
    case _ => None
  }

  // ----- schemas and the data they describe

  function KeysOf(f: Field): seq<string>
    decreases f, 0
  {
    match f
    case Keyed(k, _) => [k]
    case Nested(o) => if o.Obj? then FlatKeys(o, 0) else []
  }

  /** The keys of an object from field `i` on, those of its nested ones among them. */
  function FlatKeys(s: Schema, i: nat): seq<string>
    requires s.Obj? && i <= |s.flds|
    decreases s, |s.flds| - i
  {
    if i == |s.flds| then [] else KeysOf(s.flds[i]) + FlatKeys(s, i + 1)
  }

  /** What the library demands of a schema: alternatives that can be told apart, and unique keys. */
  ghost predicate WellFormed(s: Schema) {
    match s
    case Num => true
    case Str(_) => true
    case Nothing => true
    case Opt(_, inner) => WellFormed(inner)
    case Variant(plain, nullable, alts) =>
      && (plain ==> nullable)
      && (forall i :: 0 <= i < |alts| ==> WellFormed(alts[i]) && AltKind(alts[i]).Some?)
      && (forall i, j :: 0 <= i < j < |alts| ==> AltKind(alts[i]) != AltKind(alts[j]))
    case Range(_, elem) => WellFormed(elem)
    case Tuple(_, elems) => forall i :: 0 <= i < |elems| ==> WellFormed(elems[i])
    case Obj(flds) =>
      && Distinct(FlatKeys(s, 0))
      && (forall i :: 0 <= i < |flds| ==>
            match flds[i] case Keyed(_, fs) => WellFormed(fs) case Nested(o) => o.Obj? && WellFormed(o))
  }

  ghost predicate Conforms(s: Schema, d: Data) {
    match s
    case Num => d.DNum?
    case Str(_) => d.DStr?
    case Nothing => d.DNothing?
    case Opt(_, inner) => d.DOpt? && (d.opt.Some? ==> Conforms(inner, d.opt.value))
    case Variant(_, nullable, alts) =>
      && d.DVariant? && d.index <= |alts|
      && (if d.index == 0 then nullable && d.val == DNothing else Conforms(alts[d.index - 1], d.val))
    case Range(_, elem) => d.DSeq? && forall i :: 0 <= i < |d.elems| ==> Conforms(elem, d.elems[i])
    case Tuple(_, elems) =>
      d.DSeq? && |d.elems| == |elems| && forall i :: 0 <= i < |elems| ==> Conforms(elems[i], d.elems[i])
    case Obj(flds) =>
      && d.DObj? && |d.parts| == |flds|
      && (forall i :: 0 <= i < |flds| ==>
            match flds[i]
            case Keyed(_, fs) => Conforms(fs, d.parts[i])
            case Nested(o) => o.Obj? && Conforms(o, d.parts[i]))
  }

  // ----- writing

  /** An empty optional or variant: `null` in an array, left out of an object. */
  predicate Empty(s: Schema, d: Data) {
    match s
    case Opt(_, _) => d.DOpt? && d.opt.None?
    case Variant(_, _, _) => d.DVariant? && d.index == 0
    case _ => false
  }

  /** `write_jval`. */
  function Write(s: Schema, d: Data): Tree
    requires Conforms(s, d)
    decreases s, 1, 0
  {
    match s
    case Num => JNum(d.n)
    case Str(_) => JStr(d.str)
    case Nothing => JNull
    case Opt(_, inner) => if d.opt.Some? then Write(inner, d.opt.value) else JNull
    case Variant(_, _, alts) => if d.index == 0 then JNull else Write(alts[d.index - 1], d.val)
    case Range(_, elem) => JArr(seq(|d.elems|, i requires 0 <= i < |d.elems| => Write(elem, d.elems[i])))
    case Tuple(_, elems) => JArr(seq(|elems|, i requires 0 <= i < |elems| => Write(elems[i], d.elems[i])))
    case Obj(flds) => JObj(WriteFields(s, d, 0))
  }

  function WriteField(f: Field, d: Data): seq<(string, Tree)>
    requires match f case Keyed(_, fs) => Conforms(fs, d) case Nested(o) => o.Obj? && Conforms(o, d)
    decreases f, 0
  {
    match f
    case Keyed(k, fs) => if Empty(fs, d) then [] else [(k, Write(fs, d))]
    case Nested(o) => WriteFields(o, d, 0)
  }

  /** `write_jflds`, from field `i` on. */
  function WriteFields(s: Schema, d: Data, i: nat): seq<(string, Tree)>
    requires s.Obj? && Conforms(s, d) && i <= |s.flds|
    decreases s, 0, |s.flds| - i
  {
    if i == |s.flds| then [] else WriteField(s.flds[i], d.parts[i]) + WriteFields(s, d, i + 1)
  }

  function CountField(f: Field, d: Data): nat
    requires match f case Keyed(_, fs) => Conforms(fs, d) case Nested(o) => o.Obj? && Conforms(o, d)
    decreases f, 0
  {
    match f
    case Keyed(_, fs) => if (fs.Opt? || fs.Variant?) && fs.plain && Empty(fs, d) then 0 else 1
    case Nested(o) => CountFields(o, d, 0)
  }

  /** The number of fields `write_jflds` reports, which becomes the size in a msgpack map header. */
  function CountFields(s: Schema, d: Data, i: nat): nat
    requires s.Obj? && Conforms(s, d) && i <= |s.flds|
    decreases s, |s.flds| - i
  {
    if i == |s.flds| then 0 else CountField(s.flds[i], d.parts[i]) + CountFields(s, d, i + 1)
  }

  // ----- reading

  /** What a part becomes when its field is not there. */
  function Missing(s: Schema): Option<Data> {
    match s
    case Str(plain) => if plain then Some(DStr("")) else None
    case Opt(_, _) => Some(DOpt(None))
    case Variant(_, nullable, _) => if nullable then Some(DVariant(0, DNothing)) else None
    case Range(plain, _) => if plain then Some(DSeq([])) else None
    case _ => None
  }

  /** The first alternative of this kind, counted from 1; 0 if there is none. */
  function MatchAlt(alts: seq<Schema>, k: Kind): (i: nat)
    ensures i <= |alts|
    ensures i > 0 ==> AltKind(alts[i - 1]) == Some(k) && forall j :: 0 <= j < i - 1 ==> AltKind(alts[j]) != Some(k)
    ensures i == 0 ==> forall j :: 0 <= j < |alts| ==> AltKind(alts[j]) != Some(k)
  {
    if alts == [] then 0
    else if AltKind(alts[0]) == Some(k) then 1
    else
      var i := MatchAlt(alts[1..], k);
      assert forall j :: 0 <= j < |alts| - 1 ==> alts[j + 1] == alts[1..][j];
      if i == 0 then 0 else i + 1
  }

  /** `read_jval`. */
  function Read(s: Schema, j: Tree): Result<Data, JErr>
    decreases s, 4, 0
  {
    match s
    case Num => if j.JNum? then Ok(DNum(j.n)) else Err(IncorrectType)
    case Str(_) => if j.JStr? then Ok(DStr(j.str)) else Err(IncorrectType)
    case Nothing => Ok(DNothing)
    case Opt(_, inner) =>
      if j.JNull? then Ok(DOpt(None))
      else (match Read(inner, j) case Ok(d) => Ok(DOpt(Some(d))) case Err(e) => Err(e))
    case Variant(_, nullable, alts) =>
      if j.JNull? then (if nullable then Ok(DVariant(0, DNothing)) else Err(NonNullableField))
      else
        var i := MatchAlt(alts, KindOf(j));
        if i == 0 then Err(IncorrectType)
        else (match Read(alts[i - 1], j) case Ok(d) => Ok(DVariant(i, d)) case Err(e) => Err(e))
    case Range(_, _) =>
      if !j.JArr? then Err(IncorrectType)
      else (match ReadElems(s, j.elems) case Ok(ds) => Ok(DSeq(ds)) case Err(e) => Err(e))
    case Tuple(exact, elems) =>
      if !j.JArr? then Err(IncorrectType)
      else (match ReadParts(s, j.elems, 0)
            case Ok(ds) => if exact && |j.elems| > |elems| then Err(InvalidElmCnt) else Ok(DSeq(ds))
            case Err(e) => Err(e))
    case Obj(_) => if !j.JObj? then Err(IncorrectType) else ReadObj(s, j.flds, FRESH).0
  }

  /** `read_jarr_of`: every element, until one fails. */
  function ReadElems(s: Schema, js: seq<Tree>): (r: Result<seq<Data>, JErr>)
    requires s.Range?
    decreases s, 0, |js|
  {
    if js == [] then Ok([])
    else
      match Read(s.elem, js[0])
      case Err(e) => Err(e)
      case Ok(d) => (match ReadElems(s, js[1..]) case Ok(ds) => Ok([d] + ds) case Err(e) => Err(e))
  }

  /** `read_jtuple`, from part `i` on. */
  function ReadParts(s: Schema, js: seq<Tree>, i: nat): (r: Result<seq<Data>, JErr>)
    requires s.Tuple? && i <= |s.elems|
    decreases s, 0, |s.elems| - i
  {
    if i == |s.elems| then Ok([])
    else if i >= |js| then Err(OutOfBound)
    else
      match Read(s.elems[i], js[i])
      case Err(e) => Err(e)
      case Ok(d) => (match ReadParts(s, js, i + 1) case Ok(ds) => Ok([d] + ds) case Err(e) => Err(e))
  }

  predicate AnyKeyed(flds: seq<Field>) { exists i :: 0 <= i < |flds| && flds[i].Keyed? }

  /** `read_jobj`: the keyed fields in the order the finder meets them, then those that are missing, then the nested
      objects, with the same finder. The result, and where the finder is left. */
  function ReadObj(s: Schema, doc: seq<(string, Tree)>, c: Cursor): (r: (Result<Data, JErr>, Cursor))
    requires s.Obj? && Fits(c, |doc|)
    ensures Fits(r.1, |doc|)
    decreases s, 3, 0
  {
    var none := seq(|s.flds|, _ => None);
    var (found, c1) := if AnyKeyed(s.flds) then Scan(s, doc, none, Start(c, |doc|)) else (Ok(none), c);
    match found
    case Err(e) => (Err(e), c1)
    case Ok(got) =>
      match Fill(s.flds, got, 0)
      case Err(e) => (Err(e), c1)
      case Ok(filled) =>
        match ReadNested(s, doc, 0, c1)
        case (Err(e), c2) => (Err(e), c2)
        case (Ok(nested), c2) => (Ok(DObj(Merge(s.flds, filled, nested))), Skip(c2, |doc|))
  }

  /** The first keyed field of this key that has not been found yet. */
  function FindField(flds: seq<Field>, got: seq<Option<Data>>, key: string): (i: nat)
    requires |flds| == |got|
    ensures i <= |flds|
    ensures i < |flds| ==> flds[i].Keyed? && flds[i].key == key && got[i].None?
    ensures forall j :: 0 <= j < i ==> !(flds[j].Keyed? && flds[j].key == key && got[j].None?)
  {
    if flds == [] then 0
    else if flds[0].Keyed? && flds[0].key == key && got[0].None? then 0
    else
      assert forall j :: 0 <= j < |flds| - 1 ==> flds[j + 1] == flds[1..][j] && got[j + 1] == got[1..][j];
      1 + FindField(flds[1..], got[1..], key)
  }

  /** How many keyed fields have not been found yet. */
  function Unmatched(flds: seq<Field>, got: seq<Option<Data>>): nat
    requires |flds| == |got|
  {
    if flds == [] then 0
    else (if flds[0].Keyed? && got[0].None? then 1 else 0) + Unmatched(flds[1..], got[1..])
  }

  /** `foreach_found_jval`, in a loop of the finder: stops as soon as every keyed field was found. */
  function Scan(s: Schema, doc: seq<(string, Tree)>, got: seq<Option<Data>>, c: Cursor)
    : (r: (Result<seq<Option<Data>>, JErr>, Cursor))
    requires s.Obj? && |got| == |s.flds| && Fits(c, |doc|) && c.j <= c.n
    ensures Fits(r.1, |doc|) && (r.0.Ok? ==> |r.0.value| == |s.flds|)
    decreases s, 1, Left(c, |doc|)
  {
    if Unmatched(s.flds, got) == 0 then (Ok(got), c)
    else
      match Next(c, |doc|)
      case (c', None) => (Ok(got), c')
      case (c', Some(n)) =>
        var i := FindField(s.flds, got, doc[n].0);
        if i == |s.flds| then Scan(s, doc, got, c')
        else
          match Read(s.flds[i].s, doc[n].1)
          case Err(e) => (Err(e), c')
          case Ok(d) => Scan(s, doc, got[i := Some(d)], c')
  }

  /** The fields that were not found, from `i` on. */
  function Fill(flds: seq<Field>, got: seq<Option<Data>>, i: nat): (r: Result<seq<Data>, JErr>)
    requires |flds| == |got| && i <= |flds|
    ensures r.Ok? ==> |r.value| == |flds| - i
    decreases |flds| - i
  {
    if i == |flds| then Ok([])
    else
      var d := if flds[i].Nested? then Some(DNothing) else if got[i].Some? then got[i] else Missing(flds[i].s);
      if d.None? then Err(FieldNotFound)
      else (match Fill(flds, got, i + 1) case Ok(ds) => Ok([d.value] + ds) case Err(e) => Err(e))
  }

  function ReadNested(s: Schema, doc: seq<(string, Tree)>, i: nat, c: Cursor)
    : (r: (Result<seq<Data>, JErr>, Cursor))
    requires s.Obj? && i <= |s.flds| && Fits(c, |doc|)
    ensures Fits(r.1, |doc|) && (r.0.Ok? ==> |r.0.value| == |s.flds| - i)
    decreases s, 2, |s.flds| - i
  {
    if i == |s.flds| then (Ok([]), c)
    else
      var (first, c1) := if s.flds[i].Keyed? || !s.flds[i].obj.Obj? then (Ok(DNothing), c)
        else ReadObj(s.flds[i].obj, doc, c);
      match first
      case Err(e) => (Err(e), c1)
      case Ok(d) =>
        match ReadNested(s, doc, i + 1, c1)
        case (Err(e), c2) => (Err(e), c2)
        case (Ok(ds), c2) => (Ok([d] + ds), c2)
  }

  function Merge(flds: seq<Field>, keyed: seq<Data>, nested: seq<Data>): seq<Data>
    requires |flds| == |keyed| == |nested|
  {
    seq(|flds|, i requires 0 <= i < |flds| => if flds[i].Keyed? then keyed[i] else nested[i])
  }
}
