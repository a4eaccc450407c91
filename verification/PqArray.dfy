/** The binary wire format of one-dimensional PostgreSQL arrays: the parameter writer and the result reader. */
module PqArray {
  import opened Base

  type byte = x: int | 0 <= x < 256

  // ----- integers

  /** `store_be` of `x` truncated to `w` bytes, two's complement. */
  function StoreBe(w: nat, x: int): (b: seq<byte>)
    ensures |b| == w
  {
    if w == 0 then [] else StoreBe(w - 1, x / 256) + [x % 256]
  }

  /** `load_be` into a signed integer as wide as the bytes. */
  function LoadBe(b: seq<byte>): int
    requires |b| > 0
  {
    if |b| == 1 then (if b[0] < 128 then b[0] else b[0] - 256)
    else LoadBe(b[..|b| - 1]) * 256 + b[|b| - 1]
  }

  /** Half the number of values of a `w`-byte integer. */
  function Half(w: nat): (h: int)
    requires w > 0
    ensures h > 0
  {
    if w == 1 then 128 else 256 * Half(w - 1)
  }

  lemma {:induction false} LoadAfterStore(w: nat, x: int)
    requires w > 0 && -Half(w) <= x < Half(w)
    ensures LoadBe(StoreBe(w, x)) == x
  {
    if w == 1 {
      assert StoreBe(0, x / 256) == [];
      assert StoreBe(1, x) == [x % 256];
    } else {
      LoadAfterStore(w - 1, x / 256);
      assert StoreBe(w, x)[..w - 1] == StoreBe(w - 1, x / 256);
    }
  }

  lemma {:induction false} StoreAfterLoad(b: seq<byte>)
    requires |b| > 0
    ensures StoreBe(|b|, LoadBe(b)) == b
    ensures -Half(|b|) <= LoadBe(b) < Half(|b|)
  {
    if |b| == 1 {
      assert StoreBe(0, LoadBe(b) / 256) == [];
    } else {
      StoreAfterLoad(b[..|b| - 1]);
    }
  }

  function Int32(x: int): (b: seq<byte>)
    ensures |b| == 4
  {
    StoreBe(4, x)
  }

  const INT32_END: int := 0x8000_0000

  lemma {:induction false} Int32RoundTrip(x: int)
    requires 0 <= x < INT32_END
    ensures LoadBe(Int32(x)) == x
  {
    assert Half(2) == 256 * 128 && Half(3) == 256 * Half(2) && Half(4) == 256 * Half(3);
    LoadAfterStore(4, x);
  }

  // ----- what is written

  /** dimension count, has-null flag, element oid, element count, index of the first element. */
  function Header(elmOid: int, count: nat): (b: seq<byte>)
    ensures |b| == 20
  {
    Int32(1) + Int32(0) + Int32(elmOid) + Int32(count) + Int32(1)
  }

  function Frames(elms: seq<seq<byte>>): seq<byte> {
    if elms == [] then [] else Int32(|elms[0]|) + elms[0] + Frames(elms[1..])
  }

  function Encoded(elmOid: int, elms: seq<seq<byte>>): seq<byte> { Header(elmOid, |elms|) + Frames(elms) }

  function TotalSize(elms: seq<seq<byte>>): nat {
    if elms == [] then 0 else |elms[0]| + TotalSize(elms[1..])
  }

  lemma {:induction false} FramesAppend(elms: seq<seq<byte>>, e: seq<byte>)
    ensures Frames(elms + [e]) == Frames(elms) + Int32(|e|) + e
    ensures TotalSize(elms + [e]) == TotalSize(elms) + |e|
  {
    if elms == [] {
      assert (elms + [e])[1..] == [];
    } else {
      assert (elms + [e])[1..] == elms[1..] + [e];
      FramesAppend(elms[1..], e);
    }
  }

  lemma {:induction false} FramesSize(elms: seq<seq<byte>>)
    ensures |Frames(elms)| == 4 * |elms| + TotalSize(elms)
  {
    if elms != [] { FramesSize(elms[1..]); }
  }

  /** Copies bytes at the write pointer and advances it. */
  method Put(buf: array<byte>, d: nat, bs: seq<byte>) returns (d': nat)
    requires d + |bs| <= buf.Length
    modifies buf
    ensures d' == d + |bs| && buf[..d'] == old(buf[..d]) + bs
  {
    for k := 0 to |bs|
      invariant buf[..d + k] == old(buf[..d]) + bs[..k]
    {
      buf[d + k] := bs[k];
    }
    d' := d + |bs|;
  }

  lemma {:induction false} FramesPrefix(elms: seq<seq<byte>>, k: nat)
    requires k <= |elms|
    ensures |Frames(elms[..k])| <= |Frames(elms)|
  {
    if k > 0 {
      assert elms[..k][1..] == elms[1..][..k - 1];
      FramesPrefix(elms[1..], k - 1);
    }
  }

  /** The five fields of the header, each at its place. */
  lemma {:induction false} HeaderFields(elmOid: int, count: nat, rest: seq<byte>)
    requires 0 <= elmOid < INT32_END && count < INT32_END
    ensures var b := Header(elmOid, count) + rest;
      && LoadBe(b[0..4]) == 1 && LoadBe(b[4..8]) == 0 && LoadBe(b[8..12]) == elmOid
      && LoadBe(b[12..16]) == count && LoadBe(b[16..20]) == 1 && b[20..] == rest
  {
    Int32RoundTrip(0);
    Int32RoundTrip(1);
    Int32RoundTrip(elmOid);
    Int32RoundTrip(count);
    FiveFields(Int32(1), Int32(0), Int32(elmOid), Int32(count), Int32(1), rest);
  }

  lemma {:induction false} FiveFields(a: seq<byte>, b: seq<byte>, c: seq<byte>, d: seq<byte>, e: seq<byte>,
      rest: seq<byte>)
    requires |a| == |b| == |c| == |d| == |e| == 4
    ensures var s := a + b + c + d + e + rest;
      s[0..4] == a && s[4..8] == b && s[8..12] == c && s[12..16] == d && s[16..20] == e && s[20..] == rest
  {
  }

  method PutHeader(buf: array<byte>, elmOid: int, count: nat) returns (d: nat)
    requires buf.Length >= 20
    modifies buf
    ensures d == 20 && buf[..d] == Header(elmOid, count)
  {
    d := Put(buf, 0, Int32(1));
    d := Put(buf, d, Int32(0));
    d := Put(buf, d, Int32(elmOid));
    d := Put(buf, d, Int32(count));
    d := Put(buf, d, Int32(1));
  }

  method PutElm(buf: array<byte>, d: nat, e: seq<byte>) returns (d': nat)
    requires d + 4 + |e| <= buf.Length
    modifies buf
    ensures d' == d + 4 + |e| && buf[..d'] == old(buf[..d]) + (Int32(|e|) + e)
  {
    d' := Put(buf, d, Int32(|e|));
    d' := Put(buf, d', e);
  }

  /** The next frame fits, and comes after the ones before it. */
  lemma {:induction false} NextFrame(h: seq<byte>, elms: seq<seq<byte>>, i: nat)
    requires i < |elms|
    ensures |Frames(elms[..i])| + 4 + |elms[i]| == |Frames(elms[..i + 1])| <= |Frames(elms)|
    ensures h + Frames(elms[..i]) + (Int32(|elms[i]|) + elms[i]) == h + Frames(elms[..i + 1])
  {
    FramesPrefix(elms, i + 1);
    assert elms[..i + 1] == elms[..i] + [elms[i]];
    FramesAppend(elms[..i], elms[i]);
  }

  method Size(elms: seq<seq<byte>>) returns (n: nat)
    ensures n == TotalSize(elms)
  {
    n := 0;
    for i := 0 to |elms|
      invariant n == TotalSize(elms[..i])
    {
      assert elms[..i + 1] == elms[..i] + [elms[i]];
      FramesAppend(elms[..i], elms[i]);
      n := n + |elms[i]|;
    }
    assert elms[..|elms|] == elms;
  }

  /** `arr1d_pq_param_writer::operator()`: sizes the buffer first, and then fills it exactly. */
  method Write(elmOid: int, elms: seq<seq<byte>>) returns (buf: array<byte>)
    ensures fresh(buf) && buf[..] == Encoded(elmOid, elms)
    ensures 0 <= elmOid < INT32_END && |elms| < INT32_END ==>
      && LoadBe(buf[0..4]) == 1 && LoadBe(buf[4..8]) == 0 && LoadBe(buf[8..12]) == elmOid
      && LoadBe(buf[12..16]) == |elms| && LoadBe(buf[16..20]) == 1
  {
    var n := Size(elms);
    buf := new byte[20 + |elms| * 4 + n];
    FramesSize(elms);
    ghost var h := Header(elmOid, |elms|);
    var d := PutHeader(buf, elmOid, |elms|);
    assert h + Frames(elms[..0]) == h;
    assert 20 + |Frames(elms)| == buf.Length;
    for i := 0 to |elms|
      invariant d == 20 + |Frames(elms[..i])| <= buf.Length
      invariant buf[..d] == h + Frames(elms[..i])
    {
      NextFrame(h, elms, i);
      d := PutElm(buf, d, elms[i]);
    }
    assert elms[..|elms|] == elms;
    assert buf[..d] == buf[..];
    if 0 <= elmOid < INT32_END && |elms| < INT32_END { WireHeader(buf[..], elmOid, elms); }
  }

  /** The header of a message that was written, field by field. */
  lemma {:induction false} WireHeader(b: seq<byte>, elmOid: int, elms: seq<seq<byte>>)
    requires 0 <= elmOid < INT32_END && |elms| < INT32_END && b == Encoded(elmOid, elms)
    ensures |b| >= 20 && LoadBe(b[0..4]) == 1 && LoadBe(b[4..8]) == 0 && LoadBe(b[8..12]) == elmOid
    ensures LoadBe(b[12..16]) == |elms| && LoadBe(b[16..20]) == 1
  {
    HeaderFields(elmOid, |elms|, Frames(elms));
  }

  // ----- what is read

  const BOOL: int := 16
  const CHAR: int := 18
  const NAME: int := 19
  const INT8: int := 20
  const INT2: int := 21
  const INT4: int := 23
  const TEXT: int := 25
  const JSON: int := 114
  const FLOAT4: int := 700
  const FLOAT8: int := 701
  const XML: int := 142
  const BPCHAR: int := 1042
  const VARCHAR: int := 1043

  predicate IsTextual(oid: int) { oid in {CHAR, NAME, TEXT, JSON, XML, BPCHAR, VARCHAR} }

  predicate IsArray(oid: int) {
    oid in {1000, 1005, 1007, 1016, 1021, 1022, 1231, 1002, 1009, 1014, 1015, 1001, 199, 3807}
  }

  /** How an element is read: its oid and its bytes to a value or an error. */
  type Reader<!E> = (int, seq<byte>) -> Result<E, Errc>

  /** The elements of an array, from the bytes after the header. `read_int32` wants more bytes to follow the
      four it reads. */
  function DecodeElms<E>(b: seq<byte>, oid: int, count: nat, f: Reader<E>): Result<seq<E>, Errc>
    decreases count
  {
    if count == 0 then (if b == [] then Ok([]) else Err(SizeMismatch))
    else if |b| <= 4 then Err(SizeMismatch)
    else
      var en := LoadBe(b[..4]);
      if en < 0 || 4 + en > |b| then Err(InvalidSize)
      else match f(oid, b[4..4 + en])
        case Err(e) => Err(e)
        case Ok(v) =>
          match DecodeElms(b[4 + en..], oid, count - 1, f)
          case Err(e) => Err(e)
          case Ok(vs) => Ok([v] + vs)
  }

  /** `fixed` is the length of a range that cannot grow. */
  function Decode<E>(t: int, b: seq<byte>, fixed: Option<nat>, f: Reader<E>): Result<seq<E>, Errc> {
    if !IsArray(t) then Err(TypeMismatch)
    else if |b| < 20 then Err(SizeMismatch)
    else
      var dimCnt, elmOid, elmCnt := LoadBe(b[..4]), LoadBe(b[8..12]), LoadBe(b[12..16]);
      if dimCnt != 1 || elmOid < 0 || elmCnt < 0 then Err(InvalidInput)
      else if fixed.Some? && elmCnt != fixed.value then Err(SizeMismatch)
      else DecodeElms(b[20..], elmOid, elmCnt, f)
  }

  /** `dsk_from_pq_binary` for ranges: one pointer moves over the buffer and never leaves it. */
  method Read<E>(t: int, b: seq<byte>, fixed: Option<nat>, f: Reader<E>) returns (r: Result<seq<E>, Errc>)
    ensures r == Decode(t, b, fixed, f)
  {
    if !IsArray(t) {
      return Err(TypeMismatch);
    }
    if |b| < 20 {
      return Err(SizeMismatch);
    }
    var dimCnt, elmOid, elmCnt := LoadBe(b[..4]), LoadBe(b[8..12]), LoadBe(b[12..16]);
    if dimCnt != 1 || elmOid < 0 || elmCnt < 0 {
      return Err(InvalidInput);
    }
    if fixed.Some? && elmCnt != fixed.value {
      return Err(SizeMismatch);
    }
    r := ReadElms(b, elmOid, elmCnt, f);
  }

  method ReadElms<E>(b: seq<byte>, elmOid: int, elmCnt: nat, f: Reader<E>) returns (r: Result<seq<E>, Errc>)
    requires |b| >= 20
    ensures r == DecodeElms(b[20..], elmOid, elmCnt, f)
  {
    var d := 20;
    var v: seq<E> := [];
    ghost var whole := DecodeElms(b[20..], elmOid, elmCnt, f);
    ghost var rest := whole;
    PrependNone(whole);
    for i := 0 to elmCnt
      invariant 20 <= d <= |b|
      invariant rest == DecodeElms(b[d..], elmOid, elmCnt - i, f) && whole == Prepend(v, rest)
    {
      OneFrame(b, d, elmOid, elmCnt - i, f);
      if d + 4 >= |b| {
        return Err(SizeMismatch);
      }
      var en := LoadBe(b[d..d + 4]);
      d := d + 4;
      if en < 0 || d + en > |b| {
        return Err(InvalidSize);
      }
      var ev := f(elmOid, b[d..d + en]);
      if ev.Err? {
        return Err(ev.error);
      }
      d := d + en;
      rest := DecodeElms(b[d..], elmOid, elmCnt - i - 1, f);
      PrependMore(v, ev.value, rest);
      v := v + [ev.value];
    }
    assert v + [] == v;
    return if d != |b| then Err(SizeMismatch) else Ok(v);
  }

  /** One element at position `d`. */
  lemma {:induction false} OneFrame<E>(b: seq<byte>, d: nat, oid: int, n: nat, f: Reader<E>)
    requires d <= |b| && n > 0
    ensures DecodeElms(b[d..], oid, n, f) ==
      if d + 4 >= |b| then Err(SizeMismatch)
      else
        var en := LoadBe(b[d..d + 4]);
        if en < 0 || d + 4 + en > |b| then Err(InvalidSize)
        else match f(oid, b[d + 4..d + 4 + en])
          case Err(e) => Err(e)
          case Ok(v) => Prepend([v], DecodeElms(b[d + 4 + en..], oid, n - 1, f))
  {
    if d + 4 < |b| {
      assert b[d..][..4] == b[d..d + 4];
      var en := LoadBe(b[d..d + 4]);
      if 0 <= en <= |b| - d - 4 {
        assert b[d..][4..4 + en] == b[d + 4..d + 4 + en] && b[d..][4 + en..] == b[d + 4 + en..];
      }
    }
  }

  lemma {:induction false} PrependNone<E>(r: Result<seq<E>, Errc>)
    ensures Prepend([], r) == r
  {
    if r.Ok? { assert [] + r.value == r.value; }
  }

  function Prepend<E>(v: seq<E>, r: Result<seq<E>, Errc>): Result<seq<E>, Errc> {
    match r case Err(e) => Err(e) case Ok(vs) => Ok(v + vs)
  }

  lemma {:induction false} PrependMore<E>(v: seq<E>, e: E, r: Result<seq<E>, Errc>)
    ensures Prepend(v, Prepend([e], r)) == Prepend(v + [e], r)
  {
    if r.Ok? { assert v + ([e] + r.value) == v + [e] + r.value; }
  }

  // ----- round trip and tiling

  /** All elements read as the given values, and the sizes fit their four bytes. */
  ghost predicate ReadsAs<E>(oid: int, elms: seq<seq<byte>>, f: Reader<E>, vs: seq<E>) {
    && |elms| == |vs| < INT32_END
    && forall k :: 0 <= k < |elms| ==> |elms[k]| < INT32_END && f(oid, elms[k]) == Ok(vs[k])
  }

  /** The last element, if there is one, has a byte. */
  predicate LastNonEmpty(elms: seq<seq<byte>>) { elms != [] ==> elms[|elms| - 1] != [] }

  lemma {:induction false} ElmsRoundTrip<E>(oid: int, elms: seq<seq<byte>>, f: Reader<E>, vs: seq<E>)
    requires ReadsAs(oid, elms, f, vs)
    ensures DecodeElms(Frames(elms), oid, |elms|, f) == if LastNonEmpty(elms) then Ok(vs) else Err(SizeMismatch)
  {
    if elms != [] {
      var b, rest := Frames(elms), Frames(elms[1..]);
      Int32RoundTrip(|elms[0]|);
      assert b[..4] == Int32(|elms[0]|) && b[4..4 + |elms[0]|] == elms[0] && b[4 + |elms[0]|..] == rest;
      ElmsRoundTrip(oid, elms[1..], f, vs[1..]);
      if |elms| == 1 {
        assert rest == [];
      } else {
        FramesSize(elms[1..]);
        assert elms[1..][|elms| - 2] == elms[|elms| - 1];
      }
      assert vs == [vs[0]] + vs[1..];
    }
  }

  /** Reading back what was written gives the same elements exactly when the last one is not empty; with an
      empty last element the strict bound of `read_int32` turns the message down. */
  lemma {:induction false} RoundTripIff<E>(t: int, elmOid: int, elms: seq<seq<byte>>, fixed: Option<nat>,
      f: Reader<E>, vs: seq<E>)
    requires IsArray(t) && 0 <= elmOid < INT32_END && ReadsAs(elmOid, elms, f, vs)
    requires fixed.Some? ==> fixed.value == |elms|
    ensures Decode(t, Encoded(elmOid, elms), fixed, f) == if LastNonEmpty(elms) then Ok(vs) else Err(SizeMismatch)
  {
    HeaderFields(elmOid, |elms|, Frames(elms));
    ElmsRoundTrip(elmOid, elms, f, vs);
  }

  lemma {:induction false} Int32Bytes(b: seq<byte>)
    requires |b| == 4
    ensures Int32(LoadBe(b)) == b && LoadBe(b) < INT32_END
  {
    StoreAfterLoad(b);
    assert Half(2) == 256 * 128 && Half(3) == 256 * Half(2) && Half(4) == 256 * Half(3);
  }

  lemma {:induction false} FrameCut(b: seq<byte>, en: nat)
    requires |b| > 4 && LoadBe(b[..4]) == en && 4 + en <= |b|
    ensures b == Int32(en) + b[4..4 + en] + b[4 + en..] && en < INT32_END
  {
    Int32Bytes(b[..4]);
  }

  lemma {:induction false} ElmsTile<E>(b: seq<byte>, oid: int, count: nat, f: Reader<E>) returns (elms: seq<seq<byte>>)
    requires DecodeElms(b, oid, count, f).Ok? && count < INT32_END
    ensures |elms| == count && b == Frames(elms) && LastNonEmpty(elms)
    ensures ReadsAs(oid, elms, f, DecodeElms(b, oid, count, f).value)
    decreases count
  {
    if count == 0 {
      return [];
    }
    var en := LoadBe(b[..4]);
    FrameCut(b, en);
    var e, tail := b[4..4 + en], b[4 + en..];
    var rest := ElmsTile(tail, oid, count - 1, f);
    elms := [e] + rest;
    assert elms[1..] == rest;
    if rest == [] {
      assert tail == [];
    } else {
      assert elms[|elms| - 1] == rest[|rest| - 1];
    }
  }

  /** On arbitrary bytes: the reader succeeds only on an array type, a 20-byte header announcing one dimension
      and some count, and exactly that many frames that tile the rest of the buffer. */
  lemma {:induction false} SuccessMeansTiled<E>(t: int, b: seq<byte>, fixed: Option<nat>, f: Reader<E>)
    returns (elms: seq<seq<byte>>)
    requires Decode(t, b, fixed, f).Ok?
    ensures IsArray(t) && |b| >= 20 && b[..4] == Int32(1) && b[12..16] == Int32(|elms|) && 0 <= LoadBe(b[8..12])
    ensures b[20..] == Frames(elms) && LastNonEmpty(elms) && (fixed.Some? ==> |elms| == fixed.value)
    ensures ReadsAs(LoadBe(b[8..12]), elms, f, Decode(t, b, fixed, f).value)
  {
    Int32Bytes(b[..4]);
    Int32Bytes(b[12..16]);
    elms := ElmsTile(b[20..], LoadBe(b[8..12]), LoadBe(b[12..16]), f);
  }

  // ----- text and integer arrays

  const ARR_TEXT: int := 1009

  /** `dsk_from_pq_binary` for byte strings. */
  function TextReader(): Reader<seq<byte>> {
    (oid: int, b: seq<byte>) => if IsTextual(oid) then Ok(b) else Err(TypeMismatch)
  }

  /** An array of strings survives exactly when it is empty or its last string is not. */
  lemma {:induction false} TextArrayRoundTripIff(strs: seq<seq<byte>>)
    requires |strs| < INT32_END && forall k :: 0 <= k < |strs| ==> |strs[k]| < INT32_END
    ensures Decode(ARR_TEXT, Encoded(TEXT, strs), None, TextReader()) == Ok(strs) <==> LastNonEmpty(strs)
  {
    RoundTripIff(ARR_TEXT, TEXT, strs, None, TextReader(), strs);
  }

  /** The smallest array that does not survive: one empty string. */
  lemma {:induction false} OneEmptyString()
    ensures Decode(ARR_TEXT, Encoded(TEXT, [[]]), None, TextReader()) == Err(SizeMismatch)
  {
    RoundTripIff(ARR_TEXT, TEXT, [[]], None, TextReader(), [[]]);
  }

  /** The integer types of C++ that can be elements. */
  datatype IntType = I8 | U8 | I16 | U16 | I32 | U32 | I64 {
    /** Bytes of the type itself. */
    function Size(): nat {
      match this case I8 => 1 case U8 => 1 case I16 => 2 case U16 => 2 case I32 => 4 case U32 => 4 case I64 => 8
    }

    predicate Holds(x: int) {
      if this in {U8, U16, U32} then 0 <= x < 2 * Half(Size()) else -1 * Half(Size()) <= x < Half(Size())
    }

    /** `arithmetic_pq_param_info`: the width on the wire, and the oids. */
    function Width(): nat {
      match this case I8 => 2 case U8 => 2 case I16 => 2 case U16 => 4 case I32 => 4 case U32 => 8 case I64 => 8
    }

    function ElmOid(): int { if Width() == 2 then INT2 else if Width() == 4 then INT4 else INT8 }

    function ArrOid(): int { if Width() == 2 then 1005 else if Width() == 4 then 1007 else 1016 }
  }

  function OidWidth(oid: int): nat {
    if oid in {BOOL, CHAR} then 1 else if oid == INT2 then 2 else if oid == INT4 then 4 else 8
  }

  /** `dsk_from_pq_binary` for integers: the oid gives the width, and the value must fit the target. How a
      floating point element turns into an integer is the parameter `fp`. */
  function ReadInt(t: IntType, fp: Reader<int>, oid: int, b: seq<byte>): Result<int, Errc> {
    if oid == BOOL || oid == CHAR || oid == INT2 || oid == INT4 || oid == INT8 then
      if |b| != OidWidth(oid) then Err(SizeMismatch)
      else if !t.Holds(LoadBe(b)) then Err(BadNumCast)
      else Ok(LoadBe(b))
    else if oid == FLOAT4 || oid == FLOAT8 then fp(oid, b)
    else Err(TypeMismatch)
  }

  function IntReader(t: IntType, fp: Reader<int>): Reader<int> { (oid: int, b: seq<byte>) => ReadInt(t, fp, oid, b) }

  function IntElms(t: IntType, xs: seq<int>): (elms: seq<seq<byte>>)
    ensures |elms| == |xs|
  {
    seq(|xs|, k requires 0 <= k < |xs| => StoreBe(t.Width(), xs[k]))
  }

  lemma {:induction false} Halves()
    ensures Half(2) == 0x8000 && Half(4) == 0x8000_0000 && Half(8) == 0x8000_0000_0000_0000
  {
    assert Half(3) == 256 * Half(2) && Half(4) == 256 * Half(3) && Half(5) == 256 * Half(4);
    assert Half(6) == 256 * Half(5) && Half(7) == 256 * Half(6) && Half(8) == 256 * Half(7);
  }

  /** Integer arrays survive for every element type and every value it can hold. */
  lemma {:induction false} IntArrayRoundTrip(t: IntType, fp: Reader<int>, xs: seq<int>)
    requires |xs| < INT32_END && forall k :: 0 <= k < |xs| ==> t.Holds(xs[k])
    ensures Decode(t.ArrOid(), Encoded(t.ElmOid(), IntElms(t, xs)), None, IntReader(t, fp)) == Ok(xs)
  {
    Halves();
    var elms := IntElms(t, xs);
    forall k | 0 <= k < |xs| ensures IntReader(t, fp)(t.ElmOid(), elms[k]) == Ok(xs[k]) {
      LoadAfterStore(t.Width(), xs[k]);
      assert OidWidth(t.ElmOid()) == t.Width() == |elms[k]|;
    }
    RoundTripIff(t.ArrOid(), t.ElmOid(), elms, None, IntReader(t, fp), xs);
  }
}
