/** The wire format of arrays, byte by byte, and what the reader makes of any bytes at all. */
module PqWire {
  import opened Base
  import opened PqArray

  // ----- byte order

  function Pow256(k: nat): (p: int)
    ensures p > 0
  {
    if k == 0 then 1 else 256 * Pow256(k - 1)
  }

  /** The most significant byte first. */
  function Unsigned(b: seq<byte>): int {
    if b == [] then 0 else b[0] * Pow256(|b| - 1) + Unsigned(b[1..])
  }

  lemma {:induction false} UnsignedSnoc(b: seq<byte>, x: byte)
    ensures Unsigned(b + [x]) == Unsigned(b) * 256 + x
  {
    if b == [] {
      assert Unsigned([x]) == x * Pow256(0) + Unsigned([]);
    } else {
      var n := |b|;
      assert (b + [x])[1..] == b[1..] + [x];
      UnsignedSnoc(b[1..], x);
      assert b[0] * Pow256(n) == b[0] * Pow256(n - 1) * 256;
    }
  }

  /** `load_be` takes the bytes by their places, as two's complement. */
  lemma {:induction false} BigEndian(b: seq<byte>)
    requires |b| > 0
    ensures LoadBe(b) == Unsigned(b) - (if b[0] >= 128 then Pow256(|b|) else 0)
  {
    if |b| == 1 {
      assert b == [] + [b[0]];
      UnsignedSnoc([], b[0]);
      assert Pow256(1) == 256 * Pow256(0);
    } else {
      var h := b[..|b| - 1];
      assert b == h + [b[|b| - 1]];
      UnsignedSnoc(h, b[|b| - 1]);
      BigEndian(h);
    }
  }

  // ----- where the elements are

  lemma {:induction false} FramesSplit(xs: seq<seq<byte>>, ys: seq<seq<byte>>)
    ensures Frames(xs + ys) == Frames(xs) + Frames(ys)
  {
    if xs == [] {
      assert xs + ys == ys;
    } else {
      assert (xs + ys)[1..] == xs[1..] + ys;
      FramesSplit(xs[1..], ys);
    }
  }

  /** Element `k` starts behind the header and the elements before it: four bytes of size, and then its own. */
  lemma {:induction false} WireElm(elmOid: int, elms: seq<seq<byte>>, k: nat)
    requires k < |elms| && |elms[k]| < INT32_END
    ensures var b, p := Encoded(elmOid, elms), 20 + 4 * k + TotalSize(elms[..k]);
      p + 4 + |elms[k]| <= |b| && LoadBe(b[p..p + 4]) == |elms[k]| && b[p + 4..p + 4 + |elms[k]|] == elms[k]
  {
    var head, tail := elms[..k], elms[k + 1..];
    assert elms == head + ([elms[k]] + tail);
    FramesSplit(head, [elms[k]] + tail);
    FramesSize(head);
    assert ([elms[k]] + tail)[1..] == tail;
    Int32RoundTrip(|elms[k]|);
    FrameAt(Header(elmOid, |elms|) + Frames(head), Int32(|elms[k]|), elms[k], Frames(tail));
    assert Encoded(elmOid, elms) == Header(elmOid, |elms|) + Frames(head) + (Int32(|elms[k]|) + elms[k] + Frames(tail));
  }

  lemma {:induction false} FrameAt(h: seq<byte>, size: seq<byte>, e: seq<byte>, tail: seq<byte>)
    requires |size| == 4
    ensures var b, p := h + (size + e + tail), |h|;
      p + 4 + |e| <= |b| && b[p..p + 4] == size && b[p + 4..p + 4 + |e|] == e
  {
  }

  /** Nothing follows the last element. */
  lemma {:induction false} WireSize(elmOid: int, elms: seq<seq<byte>>)
    ensures |Encoded(elmOid, elms)| == 20 + 4 * |elms| + TotalSize(elms)
  {
    FramesSize(elms);
  }

  // ----- what the reader answers

  /** The header of an array with this many elements, whatever its null flag and first index say. */
  predicate Announces(t: int, b: seq<byte>, count: nat) {
    IsArray(t) && |b| >= 20 && LoadBe(b[..4]) == 1 && LoadBe(b[8..12]) >= 0 && LoadBe(b[12..16]) == count
  }

  /** On arbitrary bytes: the reader returns these values exactly when the header announces as many elements,
      frames of elements that read to them tile the rest, and the last element is not empty. */
  lemma {:induction false} TiledMeansSuccess<E>(t: int, b: seq<byte>, fixed: Option<nat>, f: Reader<E>,
      elms: seq<seq<byte>>, vs: seq<E>)
    requires Announces(t, b, |elms|) && b[20..] == Frames(elms) && ReadsAs(LoadBe(b[8..12]), elms, f, vs)
    ensures Decode(t, b, fixed, f) == Ok(vs) <==>
      LastNonEmpty(elms) && (fixed.Some? ==> fixed.value == |elms|)
  {
    ElmsRoundTrip(LoadBe(b[8..12]), elms, f, vs);
  }

  /** A good element with something behind it. */
  lemma {:induction false} OneGood<E>(g: seq<byte>, v: E, rest: seq<byte>, oid: int, count: nat, f: Reader<E>)
    requires |g| < INT32_END && f(oid, g) == Ok(v) && count > 0 && |g + rest| > 0
    ensures DecodeElms(Int32(|g|) + g + rest, oid, count, f) == Prepend([v], DecodeElms(rest, oid, count - 1, f))
  {
    var b := Int32(|g|) + g + rest;
    Int32RoundTrip(|g|);
    assert b == Int32(|g|) + (g + rest);
    assert b[..4] == Int32(|g|);
    assert b[4..4 + |g|] == g && b[4 + |g|..] == rest;
  }

  /** The frames that are found to be good first, and the rest. */
  lemma {:induction false} AfterGood<E>(good: seq<seq<byte>>, vs: seq<E>, tail: seq<byte>, oid: int, count: nat,
      f: Reader<E>)
    requires |good| <= count && ReadsAs(oid, good, f, vs) && |tail| > 0
    ensures DecodeElms(Frames(good) + tail, oid, count, f) == Prepend(vs, DecodeElms(tail, oid, count - |good|, f))
  {
    if good == [] {
      assert Frames(good) + tail == tail;
      PrependNone(DecodeElms(tail, oid, count, f));
    } else {
      var rest := Frames(good[1..]) + tail;
      assert Frames(good) + tail == Int32(|good[0]|) + good[0] + rest;
      OneGood(good[0], vs[0], rest, oid, count, f);
      AfterGood(good[1..], vs[1..], tail, oid, count - 1, f);
      PrependBoth(vs, DecodeElms(tail, oid, count - |good|, f));
    }
  }

  lemma {:induction false} PrependBoth<E>(vs: seq<E>, r: Result<seq<E>, Errc>)
    requires vs != []
    ensures Prepend([vs[0]], Prepend(vs[1..], r)) == Prepend(vs, r)
  {
    if r.Ok? { assert [vs[0]] + (vs[1..] + r.value) == vs + r.value; }
  }

  /** What is wrong with the next element, if anything is. */
  function FirstFault<E>(tail: seq<byte>, oid: int, f: Reader<E>): Option<Errc> {
    if |tail| < 5 then Some(SizeMismatch)
    else
      var size := LoadBe(tail[..4]);
      if size < 0 || size > |tail| - 4 then Some(InvalidSize)
      else match f(oid, tail[4..4 + size]) case Err(e) => Some(e) case Ok(_) => None
  }

  /** The first bad element decides, behind any number of good ones; and so do bytes left over after the last. */
  lemma {:induction false} FirstFaultDecides<E>(t: int, b: seq<byte>, count: nat, fixed: Option<nat>, f: Reader<E>,
      good: seq<seq<byte>>, vs: seq<E>, tail: seq<byte>)
    requires Announces(t, b, count) && (fixed.Some? ==> fixed.value == count) && |good| <= count && tail != []
    requires b[20..] == Frames(good) + tail && ReadsAs(LoadBe(b[8..12]), good, f, vs)
    ensures |good| == count ==> Decode(t, b, fixed, f) == Err(SizeMismatch)
    ensures |good| < count && FirstFault(tail, LoadBe(b[8..12]), f).Some? ==>
      Decode(t, b, fixed, f) == Err(FirstFault(tail, LoadBe(b[8..12]), f).value)
  {
    AfterGood(good, vs, tail, LoadBe(b[8..12]), count, f);
  }

  /** What the header alone is turned down for, in this order. */
  lemma {:induction false} HeaderFaults<E>(t: int, b: seq<byte>, n: nat, fixed: Option<nat>, f: Reader<E>)
    ensures var r := Decode(t, b, fixed, f);
      && (!IsArray(t) ==> r == Err(TypeMismatch))
      && (IsArray(t) && |b| < 20 ==> r == Err(SizeMismatch))
      && (IsArray(t) && |b| >= 20 && (LoadBe(b[..4]) != 1 || LoadBe(b[8..12]) < 0 || LoadBe(b[12..16]) < 0) ==>
            r == Err(InvalidInput))
      && (Announces(t, b, n) && fixed.Some? && fixed.value != n ==> r == Err(SizeMismatch))
  {
  }

  // ----- integers as elements

  /** The width that an integer oid means on the wire. */
  predicate IsInt(oid: int, width: nat) {
    || (oid in {16, 18} && width == 1) || (oid == 21 && width == 2)
    || (oid == 23 && width == 4) || (oid == 20 && width == 8)
  }

  /** On arbitrary bytes: an integer is read exactly if the bytes are as many as the oid says, they are the
      big-endian form of it, and the target can hold it. */
  lemma {:induction false} ReadsIntIff(t: IntType, fp: Reader<int>, oid: int, width: nat, b: seq<byte>, x: int)
    requires IsInt(oid, width)
    ensures ReadInt(t, fp, oid, b) == Ok(x) <==>
      |b| == width && t.Holds(x) && -Half(width) <= x < Half(width) && b == StoreBe(width, x)
    ensures ReadInt(t, fp, oid, b).Err? ==>
      ReadInt(t, fp, oid, b).error == if |b| == width then BadNumCast else SizeMismatch
  {
    if |b| == width {
      StoreAfterLoad(b);
      if -Half(width) <= x < Half(width) { LoadAfterStore(width, x); }
    }
  }

  /** The values of each type, in numbers. */
  lemma {:induction false} HoldsIff(t: IntType, x: int)
    ensures t.Holds(x) <==>
      match t
      case I8 => -128 <= x <= 127
      case U8 => 0 <= x <= 255
      case I16 => -32768 <= x <= 32767
      case U16 => 0 <= x <= 65535
      case I32 => -2147483648 <= x <= 2147483647
      case U32 => 0 <= x <= 4294967295
      case I64 => -9223372036854775808 <= x <= 9223372036854775807
  {
    Halves();
    assert Half(1) == 128;
  }

  /** A type is sent in the fewest bytes, out of two, four and eight, in which a signed integer holds all its values,
      and under the oids of that width. */
  lemma {:induction false} WidthIsLeast(t: IntType) returns (x: int)
    ensures (t.Width(), t.ElmOid(), t.ArrOid()) in {(2, 21, 1005), (4, 23, 1007), (8, 20, 1016)}
    ensures forall y :: t.Holds(y) ==> -Half(t.Width()) <= y < Half(t.Width())
    ensures t.Width() > 2 ==> t.Holds(x) && x >= Half(t.Width() / 2)
  {
    Halves();
    x := if t in {U8, U16, U32} then 2 * Half(t.Size()) - 1 else Half(t.Size()) - 1;
  }
}
