/** `http_content_type`: the parser of Content-Type values, its specification, and what it makes of values
    printed after sections 8.3.1 and 5.6.6 of RFC 9110. */
module ContentType {
  import opened Base

  const LWS: set<char> := {' ', '\t'}

  predicate IsLws(c: char) { c == ' ' || c == '\t' }

  /** `find_first_of` (`among`) and `find_first_not_of` (not `among`). */
  function Find(s: string, cs: set<char>, among: bool, from: nat): (r: Option<nat>)
    ensures r.Some? ==> from <= r.value < |s| && (s[r.value] in cs) == among
    decreases |s| - from
  {
    if from >= |s| then None else if (s[from] in cs) == among then Some(from) else Find(s, cs, among, from + 1)
  }

  /** It is the first one. */
  lemma {:induction false} FindSkips(s: string, cs: set<char>, among: bool, from: nat)
    ensures var r := Find(s, cs, among, from);
      forall k :: from <= k < (if r.Some? then r.value else |s|) ==> (s[k] in cs) != among
    decreases |s| - from
  {
    if from < |s| && (s[from] in cs) != among { FindSkips(s, cs, among, from + 1); }
  }

  /** `substr`, one character at a time. */
  function Substr(s: string, b: nat, e: nat): (r: string)
    requires b <= e <= |s|
    ensures |r| == e - b && forall k {:trigger r[k]} :: 0 <= k < |r| ==> r[k] == s[b + k]
    decreases e - b
  {
    if b == e then [] else [s[b]] + Substr(s, b + 1, e)
  }

  function ToLower(c: char): char {
    if 'A' <= c <= 'Z' then c + ' ' else c
  }

  function Lower(s: string): (r: string)
    ensures |r| == |s|
  {
    seq(|s|, i requires 0 <= i < |s| => ToLower(s[i]))
  }

  /** The first position that is not blank, and the end of the last one that is not. */
  function SkipLws(s: string, b: nat, e: nat): (r: nat)
    requires b <= e <= |s|
    ensures b <= r <= e && (r < e ==> !IsLws(s[r]))
    decreases e - b
  {
    if b < e && IsLws(s[b]) then SkipLws(s, b + 1, e) else b
  }

  function BackLws(s: string, b: nat, e: nat): (r: nat)
    requires b <= e <= |s|
    ensures b <= r <= e && (b < r ==> !IsLws(s[r - 1]))
    decreases e - b
  {
    if b < e && IsLws(s[e - 1]) then BackLws(s, b, e - 1) else e
  }

  /** Drops backslashes and takes what follows them as it is; a last one is kept. */
  function Unescape(s: string, b: nat, e: nat): string
    requires b <= e <= |s|
    decreases e - b
  {
    if b == e then []
    else if s[b] == '\\' && b + 1 < e then [s[b + 1]] + Unescape(s, b + 2, e)
    else [s[b]] + Unescape(s, b + 1, e)
  }

  datatype Param = Param(name: string, value: string)

  /** `end` is where the next `;` is looked for, if there is more. */
  datatype Parsed = Parsed(param: Option<Param>, end: Option<nat>)

  function EndOr(s: string, end: Option<nat>): nat {
    if end.Some? then end.value else |s|
  }

  /** The text of a value that starts at `v`, and where it ends. */
  function ReadValue(s: string, v: nat): (r: (string, Option<nat>))
    requires v < |s|
    ensures r.1.Some? ==> v <= r.1.value < |s|
  {
    if s[v] != '"' then
      var end := Find(s, {';'}, true, v);
      (Substr(s, v, BackLws(s, v, EndOr(s, end))), end)
    else
      var end := Find(s, {'"'}, true, v + 1);
      var b := SkipLws(s, v + 1, EndOr(s, end));
      (Unescape(s, b, BackLws(s, b, EndOr(s, end))), end)
  }

  function NextSemicolon(s: string, from: Option<nat>): (r: Option<nat>)
    ensures r.Some? ==> from.Some? && from.value <= r.value < |s| && s[r.value] == ';'
  {
    if from.Some? then Find(s, {';'}, true, from.value) else None
  }

  /** One turn of the parameter loop, from the `;` at `offset`. */
  function ReadParam(s: string, offset: nat): (r: Parsed)
    requires offset < |s| && s[offset] == ';'
    ensures r.end.Some? ==> offset < r.end.value < |s| && s[r.end.value] == ';'
  {
    var n := Find(s, LWS, false, offset + 1);
    if n.None? then Parsed(None, None)
    else
      var e := Find(s, {';', '='}, true, n.value);
      if e.None? then Parsed(None, None)
      else if s[e.value] == ';' then Parsed(None, e)
      else
        var v := Find(s, LWS, false, e.value + 1);
        if v.None? then Parsed(None, None)
        else if s[v.value] == ';' then Parsed(None, v)
        else
          var (text, end) := ReadValue(s, v.value);
          Parsed(Some(Param(Substr(s, n.value, e.value), text)), NextSemicolon(s, end))
  }

  /** All parameters from the `;` at `offset` on. */
  function Params(s: string, offset: nat): seq<Param>
    requires offset < |s| && s[offset] == ';'
    decreases |s| - offset
  {
    var r := ReadParam(s, offset);
    (if r.param.Some? then [r.param.value] else []) + (if r.end.Some? then Params(s, r.end.value) else [])
  }

  datatype Content = Content(mime: string, charset: string, boundary: string)

  function Take(c: Content, p: Param): Content {
    if c.charset == "" && Lower(p.name) == "charset" then c.(charset := Lower(p.value))
    else if c.boundary == "" && Lower(p.name) == "boundary" then c.(boundary := p.value)
    else c
  }

  function TakeAll(c: Content, ps: seq<Param>): Content
    decreases |ps|
  {
    if ps == [] then c else TakeAll(Take(c, ps[0]), ps[1..])
  }

  /** A type and a subtype, of which at least one is not just a star. */
  predicate Acceptable(mime: string) {
    var q := Find(mime, {'/'}, true, 0);
    q.Some? && q.value > 0 && q.value + 1 < |mime| && mime != "*/*"
  }

  function ParseOne(c: Content, s: string): Content {
    var b := Find(s, LWS, false, 0);
    if b.None? then c
    else
      var e := Find(s, {' ', '\t', ';', '('}, true, b.value);
      var mime := Substr(s, b.value, EndOr(s, e));
      if !Acceptable(mime) then c
      else
        var o := if e.Some? then Find(s, {';'}, true, e.value) else None;
        var c' := c.(mime := Lower(mime));
        if o.None? then c' else TakeAll(c', Params(s, o.value))
  }

  function ParseAll(c: Content, values: seq<string>): Content
    decreases |values|
  {
    if values == [] then c else ParseAll(ParseOne(c, values[0]), values[1..])
  }

  lemma {:induction false} TakeAllConcat(c: Content, a: seq<Param>, b: seq<Param>)
    ensures TakeAll(c, a + b) == TakeAll(TakeAll(c, a), b)
    decreases |a|
  {
    if a == [] {
      assert a + b == b;
    } else {
      assert (a + b)[1..] == a[1..] + b;
      TakeAllConcat(Take(c, a[0]), a[1..], b);
    }
  }

  class HttpContentType {
    var mime: string
    var charset: string
    var boundary: string

    function Abs(): Content
      reads this
    {
      Content(mime, charset, boundary)
    }

    constructor ()
      ensures Abs() == Content("", "", "")
    {
      mime, charset, boundary := "", "", "";
    }

    method ParseFields(values: seq<string>)
      modifies this
      ensures Abs() == ParseAll(old(Abs()), values)
    {
      var i := 0;
      assert values[0..] == values;
      while i < |values|
        invariant 0 <= i <= |values|
        invariant ParseAll(old(Abs()), values) == ParseAll(Abs(), values[i..])
      {
        assert values[i..][1..] == values[i + 1..];
        Parse(values[i]);
        i := i + 1;
      }
    }

    /** The loop advances at every turn, and its three assertions hold. */
    method Parse(s: string)
      modifies this
      ensures Abs() == ParseOne(old(Abs()), s)
    {
      var mimeBeg := Find(s, LWS, false, 0);
      if mimeBeg.None? { return; }
      var mimeEnd := Find(s, {' ', '\t', ';', '('}, true, mimeBeg.value);
      var mv := Substr(s, mimeBeg.value, EndOr(s, mimeEnd));
      if !Acceptable(mv) { return; }
      mime := Lower(mv);
      if mimeEnd.None? { return; }
      var first := Find(s, {';'}, true, mimeEnd.value);
      if first.None? { return; }

      ParseParams(s, first.value);
    }

    /** The parameter loop: the offset grows at every turn, and what it stands on is always a `;`. */
    method ParseParams(s: string, first: nat)
      requires first < |s| && s[first] == ';'
      modifies this
      ensures Abs() == TakeAll(old(Abs()), Params(s, first))
    {
      ghost var seen: seq<Param> := [];
      var offset := first;
      assert seen + Params(s, offset) == Params(s, first);
      while true
        invariant offset < |s| && s[offset] == ';'
        invariant seen + Params(s, offset) == Params(s, first)
        invariant Abs() == TakeAll(old(Abs()), seen)
        decreases |s| - offset
      {
        assert ';' == s[offset];
        var param, end := NextParam(s, offset);
        ghost var more := if param.Some? then [param.value] else [];
        if param.Some? {
          if charset == "" && Lower(param.value.name) == "charset" {
            charset := Lower(param.value.value);
          } else if boundary == "" && Lower(param.value.name) == "boundary" {
            boundary := param.value.value;
          }
        }
        ghost var rest := if end.Some? then Params(s, end.value) else [];
        assert Params(s, offset) == more + rest;
        TakeAllConcat(old(Abs()), seen, more);
        Associative(seen, more, rest);
        seen := seen + more;
        if end.None? { return; }
        offset := end.value;
      }
    }
  }

  lemma {:induction false} Associative(a: seq<Param>, b: seq<Param>, c: seq<Param>)
    ensures a + (b + c) == a + b + c && a + [] == a && a + b + [] == a + b
  {
  }

  /** One turn, up to the next `;`. */
  method NextParam(s: string, offset: nat) returns (param: Option<Param>, end: Option<nat>)
    requires offset < |s| && s[offset] == ';'
    ensures Parsed(param, end) == ReadParam(s, offset)
  {
    var nameBeg := Find(s, LWS, false, offset + 1);
    if nameBeg.None? { return None, None; }
    var nameEnd := Find(s, {';', '='}, true, nameBeg.value);
    if nameEnd.None? { return None, None; }
    if s[nameEnd.value] == ';' { return None, nameEnd; }
    assert '=' == s[nameEnd.value];
    var vbeg := Find(s, LWS, false, nameEnd.value + 1);
    if vbeg.None? { return None, None; }
    if s[vbeg.value] == ';' { return None, vbeg; }
    var value, vend := Value(s, vbeg.value);
    param := Some(Param(Substr(s, nameBeg.value, nameEnd.value), value));
    end := NextSemicolon(s, vend);
  }

  method Value(s: string, v: nat) returns (value: string, end: Option<nat>)
    requires v < |s|
    ensures (value, end) == ReadValue(s, v)
  {
    if s[v] != '"' {
      end := Find(s, {';'}, true, v);
      var vend := TrimEnd(s, v, EndOr(s, end));
      return Substr(s, v, vend), end;
    }
    assert '"' == s[v];
    end := Find(s, {'"'}, true, v + 1);
    FindSkips(s, {'"'}, true, v + 1);
    var vend: nat := EndOr(s, end);
    var vbeg: nat := v + 1;
    while vbeg < vend && IsLws(s[vbeg])
      invariant v + 1 <= vbeg <= vend
      invariant SkipLws(s, v + 1, vend) == SkipLws(s, vbeg, vend)
    {
      vbeg := vbeg + 1;
    }
    vend := TrimEnd(s, vbeg, vend);
    value := CopyUnescaped(s, vbeg, vend);
  }

  method TrimEnd(s: string, b: nat, e: nat) returns (r: nat)
    requires b <= e <= |s|
    ensures r == BackLws(s, b, e)
  {
    r := e;
    while b < r && IsLws(s[r - 1])
      invariant b <= r <= e
      invariant BackLws(s, b, e) == BackLws(s, b, r)
    {
      r := r - 1;
    }
  }

  lemma {:induction false} PushFront(value: string, c: char, rest: string)
    ensures value + ([c] + rest) == value + [c] + rest
  {
  }

  /** The text ends before the first quote, so the test for one never stops this loop. */
  method CopyUnescaped(s: string, b: nat, e: nat) returns (value: string)
    requires b <= e <= |s| && forall k :: b <= k < e ==> s[k] != '"'
    ensures value == Unescape(s, b, e)
  {
    value := "";
    var v := b;
    while v < e && s[v] != '"'
      invariant b <= v <= e
      invariant value + Unescape(s, v, e) == Unescape(s, b, e)
    {
      if s[v] == '\\' && v + 1 < e {
        v := v + 1;
      }
      PushFront(value, s[v], Unescape(s, v + 1, e));
      value := value + [s[v]];
      v := v + 1;
    }
    assert value + [] == value;
  }
}
