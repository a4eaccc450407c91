/** What parsing makes of a printed Content-Type value. */
module ContentTypeTheorems {
  import opened Base
  import opened ContentType

  /** A parameter value as section 5.6.6 of RFC 9110 allows it to be written. */
  datatype Printed = AsToken(v: string) | AsQuoted(v: string)

  /** What stands between two semicolons, apart from blanks: nothing or a name alone, a name and an equals sign
      without a value, or a whole parameter. The parser also allows blanks in front of the value (`pad`). */
  datatype Body = Bare(name: string) | NoValue(name: string) | Valued(name: string, pad: string, value: Printed)

  /** Blanks behind the semicolon, the body, and blanks in front of the next semicolon. */
  datatype Item = Item(gap: string, body: Body, after: string)

  function EscapeChar(c: char): string {
    if c == '\\' || c == '"' then ['\\', c] else [c]
  }

  /** A quoted-string: backslashes and quotes become quoted-pairs (section 5.6.4). */
  function Escape(v: string): string {
    if v == [] then [] else EscapeChar(v[0]) + Escape(v[1..])
  }

  function PrintValue(p: Printed): string {
    match p case AsToken(v) => v case AsQuoted(v) => "\"" + (Escape(v) + "\"")
  }

  function PrintBody(b: Body): string {
    match b
    case Bare(name) => name
    case NoValue(name) => name + "="
    case Valued(name, pad, value) => name + ("=" + (pad + PrintValue(value)))
  }

  function PrintItem(i: Item): string { ";" + (i.gap + (PrintBody(i.body) + i.after)) }

  function PrintItems(items: seq<Item>): string {
    if items == [] then [] else PrintItem(items[0]) + PrintItems(items[1..])
  }

  function Printing(items: seq<Item>): string { PrintItems(items) }

  /** The parameters that have a value. */
  function Meant(items: seq<Item>): seq<Param> {
    if items == [] then []
    else if items[0].body.Valued? then [Param(items[0].body.name, items[0].body.value.v)] + Meant(items[1..])
    else Meant(items[1..])
  }

  // ----- text at a position

  /** `x` stands at `o`. */
  ghost predicate Has(s: string, o: nat, x: string) {
    o + |x| <= |s| && HasFrom(s, o, x, 0)
  }

  ghost predicate HasFrom(s: string, o: nat, x: string, k: nat)
    requires k <= |x| && o + |x| <= |s|
    decreases |x| - k
  {
    k == |x| || (s[o + k] == x[k] && HasFrom(s, o, x, k + 1))
  }

  lemma {:induction false} FromAt(s: string, o: nat, x: string, j: nat, k: nat)
    requires j <= k < |x| && o + |x| <= |s| && HasFrom(s, o, x, j)
    ensures s[o + k] == x[k]
    decreases k - j
  {
    if j < k { FromAt(s, o, x, j + 1, k); }
  }

  lemma {:induction false} HasAt(s: string, o: nat, x: string, k: nat)
    requires Has(s, o, x) && k < |x|
    ensures s[o + k] == x[k]
  {
    FromAt(s, o, x, 0, k);
  }

  lemma {:induction false} MakesHas(s: string, o: nat, x: string, j: nat)
    requires j <= |x| && o + |x| <= |s| && forall k {:trigger x[k]} :: j <= k < |x| ==> s[o + k] == x[k]
    ensures HasFrom(s, o, x, j)
    decreases |x| - j
  {
    if j < |x| {
      assert s[o + j] == x[j];
      MakesHas(s, o, x, j + 1);
    }
  }

  lemma {:induction false} HasBoth(s: string, o: nat, a: string, b: string)
    requires Has(s, o, a + b)
    ensures Has(s, o, a) && Has(s, o + |a|, b)
  {
    HasLeft(s, o, a + b, a, b);
    HasRight(s, o, a + b, a, b);
  }

  lemma {:induction false} HasLeft(s: string, o: nat, x: string, a: string, b: string)
    requires Has(s, o, x) && x == a + b
    ensures Has(s, o, a)
  {
    forall k {:trigger a[k]} | 0 <= k < |a| ensures s[o + k] == a[k] { HasAt(s, o, x, k); }
    MakesHas(s, o, a, 0);
  }

  lemma {:induction false} HasRight(s: string, o: nat, x: string, a: string, b: string)
    requires Has(s, o, x) && x == a + b
    ensures Has(s, o + |a|, b)
  {
    forall k {:trigger b[k]} | 0 <= k < |b| ensures s[o + |a| + k] == b[k] { HasAt(s, o, x, |a| + k); }
    MakesHas(s, o + |a|, b, 0);
  }

  lemma {:induction false} HasSubstr(s: string, o: nat, x: string)
    requires Has(s, o, x)
    ensures Substr(s, o, o + |x|) == x
  {
    forall k | 0 <= k < |x| ensures Substr(s, o, o + |x|)[k] == x[k] { HasAt(s, o, x, k); }
  }

  // ----- searching

  lemma {:induction false} FindIs(s: string, cs: set<char>, among: bool, from: nat, i: nat)
    requires from <= i < |s| && (s[i] in cs) == among && forall k :: from <= k < i ==> (s[k] in cs) != among
    ensures Find(s, cs, among, from) == Some(i)
    decreases i - from
  {
    if from < i { FindIs(s, cs, among, from + 1, i); }
  }

  lemma {:induction false} FindNone(s: string, cs: set<char>, among: bool, from: nat)
    requires forall k :: from <= k < |s| ==> (s[k] in cs) != among
    ensures Find(s, cs, among, from) == None
    decreases |s| - from
  {
    if from < |s| { FindNone(s, cs, among, from + 1); }
  }

  /** Text without such characters, and then one of them or the end. */
  lemma {:induction false} FindsEnd(s: string, cs: set<char>, from: nat, x: string)
    requires Has(s, from, x) && forall k :: 0 <= k < |x| ==> x[k] !in cs
    requires from + |x| < |s| ==> s[from + |x|] in cs
    ensures Find(s, cs, true, from) == NextAt(s, from + |x|)
  {
    forall k | from <= k < from + |x| ensures s[k] !in cs { HasAt(s, from, x, k - from); }
    if from + |x| < |s| { FindIs(s, cs, true, from, from + |x|); } else { FindNone(s, cs, true, from); }
  }

  function NextAt(s: string, w: nat): Option<nat> { if w < |s| then Some(w) else None }

  lemma {:induction false} SkipIs(s: string, b: nat, e: nat, i: nat)
    requires b <= i <= e <= |s| && (i < e ==> !IsLws(s[i])) && forall k :: b <= k < i ==> IsLws(s[k])
    ensures SkipLws(s, b, e) == i
    decreases i - b
  {
    if b < i { SkipIs(s, b + 1, e, i); }
  }

  lemma {:induction false} BackIs(s: string, b: nat, e: nat, i: nat)
    requires b <= i <= e <= |s| && (b < i ==> !IsLws(s[i - 1])) && forall k :: i <= k < e ==> IsLws(s[k])
    ensures BackLws(s, b, e) == i
    decreases e - i
  {
    if i < e { BackIs(s, b, e - 1, i); }
  }

  // ----- quoted strings

  lemma {:induction false} EscapeConcat(a: string, b: string)
    ensures Escape(a + b) == Escape(a) + Escape(b)
    decreases |a|
  {
    if a == [] {
      assert a + b == b;
    } else {
      assert (a + b)[1..] == a[1..] + b;
      EscapeConcat(a[1..], b);
    }
  }

  lemma {:induction false} EscapeLws(v: string)
    requires Blank(v)
    ensures Escape(v) == v
  {
    if v != [] { EscapeLws(v[1..]); }
  }

  lemma {:induction false} EscapeNoQuote(v: string)
    requires NoQuote(v)
    ensures NoQuote(Escape(v))
  {
    if v != [] { EscapeNoQuote(v[1..]); }
  }

  /** Escaping leaves the ends blank or not blank. */
  lemma {:induction false} EscapeEnds(v: string)
    requires v != []
    ensures Escape(v) != [] && IsLws(Escape(v)[0]) == IsLws(v[0])
    ensures IsLws(Escape(v)[|Escape(v)| - 1]) == IsLws(v[|v| - 1])
  {
    var a, c := v[..|v| - 1], v[|v| - 1];
    assert v == a + [c];
    EscapeConcat(a, [c]);
    assert Escape([c]) == EscapeChar(c) by { assert [c][1..] == []; }
  }

  /** The first character and the rest of an escaped value. */
  lemma {:induction false} EscapePieces(s: string, b: nat, v: string) returns (t: string)
    requires v != [] && Has(s, b, Escape(v))
    ensures v == [v[0]] + t && Has(s, b + |EscapeChar(v[0])|, Escape(t))
    ensures |Escape(v)| == |EscapeChar(v[0])| + |Escape(t)|
    ensures forall e :: b + |Escape(v)| <= e <= |s| ==>
      Unescape(s, b, e) == [v[0]] + Unescape(s, b + |EscapeChar(v[0])|, e)
  {
    t := v[1..];
    HasBoth(s, b, EscapeChar(v[0]), Escape(t));
    forall e | b + |Escape(v)| <= e <= |s|
      ensures Unescape(s, b, e) == [v[0]] + Unescape(s, b + |EscapeChar(v[0])|, e)
    {
      UnescapeHead(s, b, e, v[0]);
    }
  }

  lemma {:induction false} UnescapeHead(s: string, b: nat, e: nat, c: char)
    requires Has(s, b, EscapeChar(c)) && b + |EscapeChar(c)| <= e <= |s|
    ensures Unescape(s, b, e) == [c] + Unescape(s, b + |EscapeChar(c)|, e)
  {
    var x := EscapeChar(c);
    HasAt(s, b, x, 0);
    if |x| == 2 { HasAt(s, b, x, 1); }
  }

  /** Unescaping undoes escaping. */
  lemma {:induction false} UnescapeIs(s: string, b: nat, v: string)
    requires Has(s, b, Escape(v))
    ensures Unescape(s, b, b + |Escape(v)|) == v
    decreases |v|
  {
    if v != [] {
      var t := EscapePieces(s, b, v);
      UnescapeIs(s, b + |EscapeChar(v[0])|, t);
    }
  }

  /** One character of a quoted-string: itself, or a quoted-pair (section 5.6.4 of RFC 9110), which may be made of
      any character. */
  datatype Piece = Itself(c: char) | Pair(c: char)

  function PrintPieces(ps: seq<Piece>): string {
    if ps == [] then [] else (if ps[0].Pair? then ['\\', ps[0].c] else [ps[0].c]) + PrintPieces(ps[1..])
  }

  function Chars(ps: seq<Piece>): string {
    if ps == [] then [] else [ps[0].c] + Chars(ps[1..])
  }

  /** Every quoted-pair becomes its character, and everything else stays as it is. */
  lemma {:induction false} UnescapesPairs(s: string, b: nat, ps: seq<Piece>)
    requires Has(s, b, PrintPieces(ps)) && forall k :: 0 <= k < |ps| && ps[k].Itself? ==> ps[k].c != '\\'
    ensures Unescape(s, b, b + |PrintPieces(ps)|) == Chars(ps)
    decreases |ps|
  {
    if ps != [] {
      var head, rest := if ps[0].Pair? then ['\\', ps[0].c] else [ps[0].c], PrintPieces(ps[1..]);
      HasBoth(s, b, head, rest);
      HasAt(s, b, head, 0);
      if ps[0].Pair? { HasAt(s, b, head, 1); }
      UnescapesPairs(s, b + |head|, ps[1..]);
    }
  }

  /** A backslash that escapes nothing is kept. */
  lemma {:induction false} UnescapeLoneBackslash(s: string, b: nat, v: string)
    requires Has(s, b, Escape(v)) && b + |Escape(v)| < |s| && s[b + |Escape(v)|] == '\\'
    ensures Unescape(s, b, b + |Escape(v)| + 1) == v + "\\"
    decreases |v|
  {
    if v == [] {
      assert Unescape(s, b, b + 1) == [s[b]] + [];
    } else {
      var t := EscapePieces(s, b, v);
      UnescapeLoneBackslash(s, b + |EscapeChar(v[0])|, t);
      assert [v[0]] + (t + "\\") == [v[0]] + t + "\\";
    }
  }

  predicate Blank(v: string) { forall k :: 0 <= k < |v| ==> IsLws(v[k]) }

  predicate NoQuote(v: string) { forall k :: 0 <= k < |v| ==> v[k] != '"' }

  /** Blanks in front of something else, or of nothing. */
  lemma {:induction false} SkipsTo(s: string, b: nat, l: string, x: string, e: nat)
    requires Has(s, b, l) && Has(s, b + |l|, x) && b + |l| + |x| <= e <= |s| && (x == [] ==> e == b + |l|)
    requires Blank(l)
    requires x != [] ==> !IsLws(x[0])
    ensures SkipLws(s, b, e) == b + |l|
  {
    forall k | b <= k < b + |l| ensures IsLws(s[k]) { HasAt(s, b, l, k - b); }
    if x != [] { HasAt(s, b + |l|, x, 0); }
    SkipIs(s, b, e, b + |l|);
  }

  lemma {:induction false} BacksTo(s: string, b: nat, x: string, r: string)
    requires Has(s, b, x) && Has(s, b + |x|, r)
    requires Blank(r)
    requires x != [] ==> !IsLws(x[|x| - 1])
    ensures BackLws(s, b, b + |x| + |r|) == b + |x|
  {
    var m := b + |x|;
    forall k | m <= k < m + |r| ensures IsLws(s[k]) { HasAt(s, m, r, k - m); }
    if x != [] { HasAt(s, b, x, |x| - 1); }
    BackIs(s, b, m + |r|, m);
  }

  /** A value as blanks, the rest without blanks at its ends, and blanks. */
  ghost predicate Parts(v: string, l: string, m: string, r: string) {
    && v == l + (m + r) && Blank(l) && Blank(r)
    && (m == [] ==> r == []) && (m != [] ==> !IsLws(m[0]) && !IsLws(m[|m| - 1]))
  }

  lemma {:induction false} SplitLeft(v: string) returns (l: string, x: string)
    ensures v == l + x && Blank(l) && (x != [] ==> !IsLws(x[0]))
  {
    if v != [] && IsLws(v[0]) {
      l, x := SplitLeft(v[1..]);
      l := [v[0]] + l;
    } else {
      l, x := [], v;
    }
  }

  lemma {:induction false} SplitRight(v: string) returns (m: string, r: string)
    ensures v == m + r && Blank(r) && (m != [] ==> !IsLws(m[|m| - 1]))
    decreases |v|
  {
    if v != [] && IsLws(v[|v| - 1]) {
      m, r := SplitRight(v[..|v| - 1]);
      r := r + [v[|v| - 1]];
    } else {
      m, r := v, [];
    }
  }

  lemma {:induction false} Split(v: string) returns (l: string, m: string, r: string)
    ensures Parts(v, l, m, r)
  {
    var x: string;
    l, x := SplitLeft(v);
    m, r := SplitRight(x);
    if m != [] { assert m[0] == x[0]; } else { assert x == r; }
  }

  lemma {:induction false} SplitQuote(v: string) returns (a: string, b: string)
    requires !NoQuote(v)
    ensures v == a + (['"'] + b) && NoQuote(a)
  {
    if v[0] == '"' {
      a, b := [], v[1..];
    } else {
      a, b := SplitQuote(v[1..]);
      a := [v[0]] + a;
    }
  }

  /** Where the rest of an escaped value stands, as text that unescapes to it. */
  lemma {:induction false} QuotedPieces(s: string, b: nat, v: string, l: string, m: string, r: string)
    returns (x: string)
    requires Has(s, b, Escape(v)) && Parts(v, l, m, r)
    ensures Has(s, b, l) && Has(s, b + |l|, x) && Has(s, b + |l| + |x|, r) && |Escape(v)| == |l| + |x| + |r|
    ensures (x == [] ==> r == []) && (x != [] ==> !IsLws(x[0]) && !IsLws(x[|x| - 1]))
    ensures Unescape(s, b + |l|, b + |l| + |x|) == m
  {
    x := EscapeTrimmed(m);
    EscapeParts(v, l, m, r);
    ThreePieces(s, b, Escape(v), l, x, r);
    UnescapeIs(s, b + |l|, m);
  }

  lemma {:induction false} EscapeParts(v: string, l: string, m: string, r: string)
    requires Parts(v, l, m, r)
    ensures Escape(v) == l + (Escape(m) + r)
  {
    EscapeConcat(l, m + r);
    EscapeConcat(m, r);
    EscapeLws(l);
    EscapeLws(r);
  }

  lemma {:induction false} ThreePieces(s: string, b: nat, y: string, l: string, x: string, r: string)
    requires Has(s, b, y) && y == l + (x + r)
    ensures Has(s, b, l) && Has(s, b + |l|, x) && Has(s, b + |l| + |x|, r) && |y| == |l| + |x| + |r|
  {
    HasBoth(s, b, l, x + r);
    HasBoth(s, b + |l|, x, r);
  }

  lemma {:induction false} EscapeTrimmed(m: string) returns (x: string)
    requires m != [] ==> !IsLws(m[0]) && !IsLws(m[|m| - 1])
    ensures x == Escape(m) && (x == [] <==> m == []) && (x != [] ==> !IsLws(x[0]) && !IsLws(x[|x| - 1]))
  {
    x := Escape(m);
    if m != [] { EscapeEnds(m); }
  }

  lemma {:induction false} TrimsAround(s: string, b: nat, l: string, x: string, r: string)
    requires Has(s, b, l) && Has(s, b + |l|, x) && Has(s, b + |l| + |x|, r)
    requires Blank(l) && Blank(r) && (x == [] ==> r == []) && (x != [] ==> !IsLws(x[0]) && !IsLws(x[|x| - 1]))
    ensures SkipLws(s, b, b + |l| + |x| + |r|) == b + |l|
    ensures BackLws(s, b + |l|, b + |l| + |x| + |r|) == b + |l| + |x|
  {
    SkipsTo(s, b, l, x, b + |l| + |x| + |r|);
    BacksTo(s, b + |l|, x, r);
  }

  /** `v` stands at `p` as a quoted-string that ends before `w`. */
  ghost predicate HasQuoted(s: string, p: nat, v: string, w: nat) {
    && w == p + |Escape(v)| + 2 && w <= |s|
    && s[p] == '"' && Has(s, p + 1, Escape(v)) && s[w - 1] == '"'
  }

  lemma {:induction false} ClosesAt(s: string, p: nat, v: string, w: nat)
    requires HasQuoted(s, p, v, w) && NoQuote(v)
    ensures Find(s, {'"'}, true, p + 1) == Some(w - 1)
  {
    EscapeNoQuote(v);
    FindsEnd(s, {'"'}, p + 1, Escape(v));
  }

  lemma {:induction false} TrimmedPieces(s: string, p: nat, v: string, w: nat, l: string, m: string, r: string)
    returns (x: string)
    requires HasQuoted(s, p, v, w) && Parts(v, l, m, r)
    ensures Has(s, p + 1, l) && Has(s, p + 1 + |l|, x) && Has(s, p + 1 + |l| + |x|, r)
    ensures (x == [] ==> r == []) && (x != [] ==> !IsLws(x[0]) && !IsLws(x[|x| - 1]))
    ensures w == p + 2 + |l| + |x| + |r| && Unescape(s, p + 1 + |l|, p + 1 + |l| + |x|) == m
  {
    x := QuotedPieces(s, p + 1, v, l, m, r);
  }

  /** Without a quote in it, a value loses the blanks around it and nothing else. */
  lemma {:induction false} ReadsTrimmed(s: string, p: nat, v: string, w: nat, l: string, m: string, r: string)
    requires HasQuoted(s, p, v, w) && NoQuote(v) && Parts(v, l, m, r)
    ensures ReadValue(s, p) == (m, Some(w - 1))
  {
    ClosesAt(s, p, v, w);
    var x := TrimmedPieces(s, p, v, w, l, m, r);
    TrimsAround(s, p + 1, l, x, r);
  }

  /** A quoted-string that is not closed is read to the end of the text, and nothing follows it. */
  lemma {:induction false} ReadsUnclosed(s: string, p: nat, v: string, l: string, m: string, r: string)
    requires p < |s| && s[p] == '"' && Has(s, p + 1, Escape(v)) && p + 1 + |Escape(v)| == |s|
    requires NoQuote(v) && Parts(v, l, m, r)
    ensures ReadValue(s, p) == (m, None) && NextSemicolon(s, ReadValue(s, p).1) == None
  {
    EscapeNoQuote(v);
    FindsEnd(s, {'"'}, p + 1, Escape(v));
    var x := QuotedPieces(s, p + 1, v, l, m, r);
    TrimsAround(s, p + 1, l, x, r);
  }

  lemma {:induction false} CutPieces(s: string, p: nat, l: string, m: string, b: string)
    requires Has(s, p, Escape(l + (m + (['"'] + b)))) && Blank(l)
    ensures Has(s, p, l) && Has(s, p + |l|, Escape(m))
    ensures var q := p + |l| + |Escape(m)|;
      && q + 1 < |s| && s[q] == '\\' && s[q + 1] == '"' && Has(s, q + 2, Escape(b))
      && |Escape(l + (m + (['"'] + b)))| == |l| + |Escape(m)| + 2 + |Escape(b)|
  {
    var tail := Escape(['"'] + b);
    EscapeConcat(l, m + (['"'] + b));
    EscapeConcat(m, ['"'] + b);
    EscapeLws(l);
    HasBoth(s, p, l, Escape(m) + tail);
    HasBoth(s, p + |l|, Escape(m), tail);
    HasAt(s, p + |l| + |Escape(m)|, tail, 0);
    HasAt(s, p + |l| + |Escape(m)|, tail, 1);
    assert tail == EscapeChar('"') + Escape(b) by { assert (['"'] + b)[1..] == b; }
    HasRight(s, p + |l| + |Escape(m)|, tail, EscapeChar('"'), Escape(b));
  }

  lemma {:induction false} StopsAtQuote(s: string, b: nat, l: string, x: string)
    requires Has(s, b, l) && Has(s, b + |l|, x) && NoQuote(l) && NoQuote(x)
    requires var q := b + |l| + |x|; q + 1 < |s| && s[q] == '\\' && s[q + 1] == '"'
    ensures Find(s, {'"'}, true, b) == Some(b + |l| + |x| + 1)
  {
    forall k | b <= k < b + |l| ensures s[k] != '"' { HasAt(s, b, l, k - b); }
    forall k | b + |l| <= k < b + |l| + |x| ensures s[k] != '"' { HasAt(s, b + |l|, x, k - (b + |l|)); }
    FindIs(s, {'"'}, true, b, b + |l| + |x| + 1);
  }

  lemma {:induction false} CutSkips(s: string, b: nat, l: string, m: string)
    requires Has(s, b, l) && Has(s, b + |l|, Escape(m)) && Blank(l) && (m != [] ==> !IsLws(m[0]))
    requires b + |l| + |Escape(m)| < |s| && s[b + |l| + |Escape(m)|] == '\\'
    ensures SkipLws(s, b, b + |l| + |Escape(m)| + 1) == b + |l|
  {
    var e := b + |l| + |Escape(m)| + 1;
    if m == [] {
      forall k | b <= k < b + |l| ensures IsLws(s[k]) { HasAt(s, b, l, k - b); }
      SkipIs(s, b, e, b + |l|);
    } else {
      EscapeEnds(m);
      SkipsTo(s, b, l, Escape(m), e);
    }
  }

  lemma {:induction false} CutShort(s: string, b: nat, l: string, m: string)
    requires Has(s, b, l) && Has(s, b + |l|, Escape(m)) && Blank(l) && (m != [] ==> !IsLws(m[0]))
    requires b + |l| + |Escape(m)| < |s| && s[b + |l| + |Escape(m)|] == '\\'
    ensures var e, x := b + |l| + |Escape(m)| + 1, b + |l|;
      SkipLws(s, b, e) == x && BackLws(s, x, e) == e && Unescape(s, x, e) == m + "\\"
  {
    var e := b + |l| + |Escape(m)| + 1;
    CutSkips(s, b, l, m);
    BackIs(s, b + |l|, e, e);
    UnescapeLoneBackslash(s, b + |l|, m);
  }

  /** With a quote in it, a value is read up to there: the backslash in front of the quote is kept, and parsing
      goes on from the quote. */
  lemma {:induction false} ReadsCutShort(s: string, p: nat, w: nat, l: string, m: string, b: string)
    requires HasQuoted(s, p, l + (m + (['"'] + b)), w)
    requires NoQuote(l) && NoQuote(m) && Blank(l) && (m != [] ==> !IsLws(m[0]))
    ensures ReadValue(s, p) == (m + "\\", Some(p + |l| + |Escape(m)| + 2))
    ensures p + |l| + |Escape(m)| + 2 < w - 1
  {
    CutPieces(s, p + 1, l, m, b);
    EscapeNoQuote(m);
    ReadsUpToQuote(s, p, l, m);
  }

  lemma {:induction false} ReadsUpToQuote(s: string, p: nat, l: string, m: string)
    requires p < |s| && s[p] == '"' && Has(s, p + 1, l) && Has(s, p + 1 + |l|, Escape(m))
    requires var q := p + 1 + |l| + |Escape(m)|; q + 1 < |s| && s[q] == '\\' && s[q + 1] == '"'
    requires NoQuote(l) && NoQuote(Escape(m)) && Blank(l) && (m != [] ==> !IsLws(m[0]))
    ensures ReadValue(s, p) == (m + "\\", Some(p + |l| + |Escape(m)| + 2))
  {
    StopsAtQuote(s, p + 1, l, Escape(m));
    CutShort(s, p + 1, l, m);
  }

  predicate NoSemicolon(v: string) { forall k :: 0 <= k < |v| ==> v[k] != ';' }

  lemma {:induction false} NoSemicolonIn(v: string, a: string, b: string)
    requires v == a + b
    ensures NoSemicolon(v) <==> NoSemicolon(a) && NoSemicolon(b)
  {
    assert forall k :: 0 <= k < |a| ==> v[k] == a[k];
    assert forall k :: 0 <= k < |b| ==> v[|a| + k] == b[k];
  }

  lemma {:induction false} EscapeSemicolon(v: string)
    ensures NoSemicolon(Escape(v)) <==> NoSemicolon(v)
  {
    if v != [] {
      EscapeSemicolon(v[1..]);
      NoSemicolonIn(Escape(v), EscapeChar(v[0]), Escape(v[1..]));
      NoSemicolonIn(v, [v[0]], v[1..]);
    }
  }

  lemma {:induction false} SemicolonWithin(s: string, o: nat, x: string, w: nat)
    requires o > 0 && Has(s, o, x) && w == o + |x| + 1 <= |s| && s[o - 1] == '"' && s[w - 1] == '"'
    ensures var next := Find(s, {';'}, true, o - 1); (next.Some? && next.value < w) <==> !NoSemicolon(x)
  {
    var next := Find(s, {';'}, true, o - 1);
    FindSkips(s, {';'}, true, o - 1);
    if !NoSemicolon(x) {
      var k :| 0 <= k < |x| && x[k] == ';';
      HasAt(s, o, x, k);
      assert s[o + k] in {';'};
    } else if next.Some? && next.value < w {
      HasAt(s, o, x, next.value - o);
    }
  }

  /** Parsing goes on inside the quoted text exactly if a semicolon follows the quote there. */
  lemma {:induction false} GoesOnInsideIff(s: string, p: nat, w: nat, l: string, m: string, b: string)
    requires HasQuoted(s, p, l + (m + (['"'] + b)), w)
    requires NoQuote(l) && NoQuote(m) && Blank(l) && (m != [] ==> !IsLws(m[0]))
    ensures var next := NextSemicolon(s, ReadValue(s, p).1); (next.Some? && next.value < w) <==> !NoSemicolon(b)
  {
    ReadsCutShort(s, p, w, l, m, b);
    CutPieces(s, p + 1, l, m, b);
    EscapeSemicolon(b);
    SemicolonWithin(s, p + |l| + |Escape(m)| + 3, Escape(b), w);
  }

  predicate Intact(v: string) {
    NoQuote(v) && (v != [] ==> !IsLws(v[0]) && !IsLws(v[|v| - 1]))
  }

  /** A quoted value comes back exactly when it has no quote in it and no blank at either end. */
  lemma {:induction false} QuotedRoundTripIff(s: string, p: nat, v: string, w: nat)
    requires HasQuoted(s, p, v, w)
    ensures ReadValue(s, p).0 == v <==> Intact(v)
    ensures Intact(v) ==> ReadValue(s, p).1 == Some(w - 1)
  {
    if NoQuote(v) {
      var l, m, r := Split(v);
      ReadsTrimmed(s, p, v, w, l, m, r);
      IntactIff(v, l, m, r);
    } else {
      var l, m, b := SplitAtQuote(v);
      ReadsCutShort(s, p, w, l, m, b);
      NotCutShort(v, l, m, b);
    }
  }

  lemma {:induction false} SplitAtQuote(v: string) returns (l: string, m: string, b: string)
    requires !NoQuote(v)
    ensures v == l + (m + (['"'] + b)) && NoQuote(l) && NoQuote(m) && Blank(l) && (m != [] ==> !IsLws(m[0]))
  {
    var a: string;
    a, b := SplitQuote(v);
    l, m := SplitLeft(a);
    assert forall k :: 0 <= k < |l| ==> a[k] == l[k];
    assert forall k :: 0 <= k < |m| ==> a[|l| + k] == m[k];
  }

  lemma {:induction false} IntactIff(v: string, l: string, m: string, r: string)
    requires Parts(v, l, m, r) && NoQuote(v)
    ensures m == v <==> Intact(v)
  {
    if m == v {
      assert |l| == |r| == 0;
    } else if v != [] {
      if l != [] { assert v[0] == l[0]; } else { assert r != []; assert v[|v| - 1] == r[|r| - 1]; }
    }
  }

  lemma {:induction false} NotCutShort(v: string, l: string, m: string, b: string)
    requires v == l + (m + (['"'] + b))
    ensures m + "\\" != v
  {
    assert v[|l| + |m|] == '"';
    if l == [] && b == [] { assert (m + "\\")[|m|] == '\\'; }
  }

  // ----- whole values

  predicate Token(v: string) {
    v != [] && v[0] != '"' && !IsLws(v[0]) && !IsLws(v[|v| - 1]) && NoSemicolon(v)
  }

  predicate Name(name: string) {
    && (forall k :: 0 <= k < |name| ==> name[k] !in {';', '='})
    && (name != [] ==> !IsLws(name[0]))
  }

  /** Blanks, names without `;` and `=`, and tokens or any quoted-strings. */
  predicate WellNamed(i: Item) {
    && Blank(i.gap) && Blank(i.after) && Name(i.body.name)
    && (i.body.Valued? ==> Blank(i.body.pad) && (i.body.value.AsToken? ==> Token(i.body.value.v)))
  }

  /** If the value is quoted, it can be read back. */
  predicate Survives(p: Printed) { p.AsQuoted? ==> Intact(p.v) }

  /** The text ends at `w`, or the next parameter starts there. */
  predicate Ends(s: string, w: nat) { w == |s| || (w < |s| && s[w] == ';') }

  /** Blanks, and then a semicolon or the end. */
  lemma {:induction false} BlanksEnd(s: string, b: nat, l: string)
    requires Has(s, b, l) && Blank(l) && Ends(s, b + |l|)
    ensures Find(s, LWS, false, b) == NextAt(s, b + |l|)
  {
    forall k | b <= k < b + |l| ensures s[k] in LWS { HasAt(s, b, l, k - b); }
    if b + |l| < |s| { FindIs(s, LWS, false, b, b + |l|); } else { FindNone(s, LWS, false, b); }
  }

  lemma {:induction false} BlanksThen(s: string, b: nat, l: string)
    requires Has(s, b, l) && Blank(l) && b + |l| < |s| && s[b + |l|] !in LWS
    ensures Find(s, LWS, false, b) == Some(b + |l|)
  {
    forall k | b <= k < b + |l| ensures s[k] in LWS { HasAt(s, b, l, k - b); }
    FindIs(s, LWS, false, b, b + |l|);
  }

  /** Text and then blanks, without any of these characters, up to one of them or the end. */
  lemma {:induction false} FindsBehind(s: string, cs: set<char>, p: nat, x: string, l: string)
    requires Has(s, p, x) && Has(s, p + |x|, l) && Blank(l) && ' ' !in cs && '\t' !in cs
    requires forall k :: 0 <= k < |x| ==> x[k] !in cs
    requires var w := p + |x| + |l|; w < |s| ==> s[w] in cs
    ensures Find(s, cs, true, p) == NextAt(s, p + |x| + |l|)
  {
    var w := p + |x| + |l|;
    forall k | p <= k < p + |x| ensures s[k] !in cs { HasAt(s, p, x, k - p); }
    forall k | p + |x| <= k < w ensures s[k] !in cs { HasAt(s, p + |x|, l, k - (p + |x|)); }
    if w < |s| { FindIs(s, cs, true, p, w); } else { FindNone(s, cs, true, p); }
  }

  lemma {:induction false} ReadsToken(s: string, p: nat, v: string, after: string)
    requires Has(s, p, v) && Has(s, p + |v|, after) && Token(v) && Blank(after) && Ends(s, p + |v| + |after|)
    ensures ReadValue(s, p) == (v, NextAt(s, p + |v| + |after|))
  {
    FindsBehind(s, {';'}, p, v, after);
    HasAt(s, p, v, 0);
    HasSubstr(s, p, v);
    BacksTo(s, p, v, after);
  }

  /** A printed value stands at `p` and ends before `w`. */
  ghost predicate HasValue(s: string, p: nat, value: Printed, w: nat) {
    match value
    case AsToken(v) => Has(s, p, v) && w == p + |v|
    case AsQuoted(v) => HasQuoted(s, p, v, w)
  }

  lemma {:induction false} ReadsValue(s: string, p: nat, value: Printed, w: nat, after: string)
    requires HasValue(s, p, value, w) && (value.AsToken? ==> Token(value.v))
    requires Has(s, w, after) && Blank(after) && Ends(s, w + |after|)
    ensures ReadValue(s, p).0 == value.v <==> Survives(value)
    ensures Survives(value) ==> NextSemicolon(s, ReadValue(s, p).1) == NextAt(s, w + |after|)
  {
    match value
    case AsToken(v) => ReadsToken(s, p, v, after);
    case AsQuoted(v) =>
      QuotedRoundTripIff(s, p, v, w);
      if Intact(v) { BehindQuoted(s, w, after); }
  }

  lemma {:induction false} BehindQuoted(s: string, w: nat, after: string)
    requires 0 < w <= |s| && s[w - 1] == '"' && Has(s, w, after) && Blank(after) && Ends(s, w + |after|)
    ensures Find(s, {';'}, true, w - 1) == NextAt(s, w + |after|)
  {
    FindsBehind(s, {';'}, w, [], after);
  }

  /** The name and the equals sign. */
  lemma {:induction false} FindsName(s: string, o: nat, gap: string, name: string)
    requires Has(s, o + 1, gap) && Has(s, o + 1 + |gap|, name)
    requires var e := o + 1 + |gap| + |name|; e < |s| && s[e] == '='
    requires Blank(gap) && Name(name)
    ensures var n, e := o + 1 + |gap|, o + 1 + |gap| + |name|;
      && Find(s, LWS, false, o + 1) == Some(n) && Find(s, {';', '='}, true, n) == Some(e)
      && Substr(s, n, e) == name
  {
    var n := o + 1 + |gap|;
    if name != [] { HasAt(s, n, name, 0); }
    BlanksThen(s, o + 1, gap);
    FindsEnd(s, {';', '='}, n, name);
    HasSubstr(s, n, name);
  }

  /** The value starts right after the blanks behind the equals sign. */
  lemma {:induction false} FindsValue(s: string, e: nat, pad: string, value: Printed, w: nat)
    requires Has(s, e, pad) && Blank(pad)
    requires HasValue(s, e + |pad|, value, w) && (value.AsToken? ==> Token(value.v))
    ensures var v := e + |pad|; v < |s| && Find(s, LWS, false, e) == Some(v) && s[v] != ';'
  {
    if value.AsToken? { HasAt(s, e + |pad|, value.v, 0); }
    BlanksThen(s, e, pad);
  }

  function ValueLength(p: Printed): nat {
    match p case AsToken(v) => |v| case AsQuoted(v) => |Escape(v)| + 2
  }

  function BodyLength(b: Body): nat {
    match b
    case Bare(name) => |name|
    case NoValue(name) => |name| + 1
    case Valued(name, pad, value) => |name| + 1 + |pad| + ValueLength(value)
  }

  /** Where the body of what stands at `o` starts and ends, where its equals sign and its value would be, and where
      the next semicolon is. */
  function BodyFrom(o: nat, i: Item): nat { o + 1 + |i.gap| }

  function BodyEnd(o: nat, i: Item): nat { BodyFrom(o, i) + BodyLength(i.body) }

  function EqualsAt(o: nat, i: Item): nat { BodyFrom(o, i) + |i.body.name| }

  function ValueFrom(o: nat, i: Item): nat
    requires i.body.Valued?
  {
    EqualsAt(o, i) + 1 + |i.body.pad|
  }

  function ItemEnd(o: nat, i: Item): nat { BodyEnd(o, i) + |i.after| }

  /** A printed body stands at `p`. */
  ghost predicate HasBody(s: string, p: nat, b: Body) {
    var e := p + |b.name|;
    && Has(s, p, b.name)
    && (!b.Bare? ==> e < |s| && s[e] == '=')
    && (b.Valued? ==> Has(s, e + 1, b.pad) && HasValue(s, e + 1 + |b.pad|, b.value, p + BodyLength(b)))
  }

  /** A printed item stands at `o`. */
  ghost predicate HasItem(s: string, o: nat, i: Item) {
    && o < |s| && s[o] == ';' && Has(s, o + 1, i.gap) && HasBody(s, BodyFrom(o, i), i.body)
    && Has(s, BodyEnd(o, i), i.after)
  }

  lemma {:induction false} FindsParts(s: string, o: nat, i: Item)
    requires HasItem(s, o, i) && WellNamed(i) && i.body.Valued?
    ensures var n, e, v := BodyFrom(o, i), EqualsAt(o, i), ValueFrom(o, i);
      && o < n <= e < v < |s| && s[o] == ';' && s[e] == '=' && s[v] != ';'
      && Find(s, LWS, false, o + 1) == Some(n) && Find(s, {';', '='}, true, n) == Some(e)
      && Substr(s, n, e) == i.body.name && Find(s, LWS, false, e + 1) == Some(v)
  {
    FindsName(s, o, i.gap, i.body.name);
    FindsValue(s, EqualsAt(o, i) + 1, i.body.pad, i.body.value, BodyEnd(o, i));
  }

  lemma {:induction false} ReadsValueOf(s: string, o: nat, i: Item)
    requires HasItem(s, o, i) && Ends(s, ItemEnd(o, i)) && WellNamed(i) && i.body.Valued? && ValueFrom(o, i) < |s|
    ensures ReadValue(s, ValueFrom(o, i)).0 == i.body.value.v <==> Survives(i.body.value)
    ensures Survives(i.body.value) ==>
      NextSemicolon(s, ReadValue(s, ValueFrom(o, i)).1) == NextAt(s, ItemEnd(o, i))
  {
    ReadsValue(s, ValueFrom(o, i), i.body.value, BodyEnd(o, i), i.after);
  }

  /** Of one printed parameter the name is read back, and the value exactly if it survives. */
  lemma {:induction false} ReadsItem(s: string, o: nat, i: Item)
    requires HasItem(s, o, i) && Ends(s, ItemEnd(o, i)) && WellNamed(i) && i.body.Valued?
    ensures ReadParam(s, o).param.Some? && ReadParam(s, o).param.value.name == i.body.name
    ensures ReadParam(s, o).param.value.value == i.body.value.v <==> Survives(i.body.value)
    ensures Survives(i.body.value) ==> ReadParam(s, o).end == NextAt(s, ItemEnd(o, i))
  {
    FindsParts(s, o, i);
    ReadsValueOf(s, o, i);
    var (v, end) := ReadValue(s, ValueFrom(o, i));
    ReadParamIs(s, o, BodyFrom(o, i), EqualsAt(o, i), ValueFrom(o, i), i.body.name, v, NextSemicolon(s, end));
  }

  lemma {:induction false} ReadParamIs(s: string, o: nat, n: nat, e: nat, v: nat, name: string, text: string,
      next: Option<nat>)
    requires o < n <= e < v < |s| && s[o] == ';' && s[e] == '=' && s[v] != ';'
    requires Find(s, LWS, false, o + 1) == Some(n) && Find(s, {';', '='}, true, n) == Some(e)
    requires Find(s, LWS, false, e + 1) == Some(v)
    requires Substr(s, n, e) == name && ReadValue(s, v).0 == text
    requires NextSemicolon(s, ReadValue(s, v).1) == next
    ensures ReadParam(s, o) == Parsed(Some(Param(name, text)), next)
  {
  }

  /** What has no value is skipped, up to the next semicolon. */
  lemma {:induction false} SkipsItem(s: string, o: nat, i: Item)
    requires HasItem(s, o, i) && Ends(s, ItemEnd(o, i)) && WellNamed(i) && !i.body.Valued?
    ensures ReadParam(s, o) == Parsed(None, NextAt(s, ItemEnd(o, i)))
  {
    match i.body
    case NoValue(name) =>
      FindsName(s, o, i.gap, name);
      BlanksEnd(s, BodyEnd(o, i), i.after);
    case Bare(name) => SkipsBare(s, o, i.gap, name, i.after);
  }

  lemma {:induction false} SkipsBare(s: string, o: nat, gap: string, name: string, after: string)
    requires o < |s| && s[o] == ';' && Has(s, o + 1, gap) && Has(s, o + 1 + |gap|, name)
    requires Has(s, o + 1 + |gap| + |name|, after) && Ends(s, o + 1 + |gap| + |name| + |after|)
    requires Blank(gap) && Blank(after) && Name(name)
    ensures ReadParam(s, o) == Parsed(None, NextAt(s, o + 1 + |gap| + |name| + |after|))
  {
    var n, w := o + 1 + |gap|, o + 1 + |gap| + |name| + |after|;
    if name == [] {
      TwoBlanks(s, o + 1, gap, after);
      if w < |s| { FindIs(s, {';', '='}, true, w, w); }
    } else {
      HasAt(s, n, name, 0);
      BlanksThen(s, o + 1, gap);
      FindsBehind(s, {';', '='}, n, name, after);
    }
  }

  lemma {:induction false} TwoBlanks(s: string, b: nat, l: string, r: string)
    requires Has(s, b, l) && Has(s, b + |l|, r) && Blank(l) && Blank(r) && Ends(s, b + |l| + |r|)
    ensures Find(s, LWS, false, b) == NextAt(s, b + |l| + |r|)
  {
    var w := b + |l| + |r|;
    forall k | b <= k < b + |l| ensures s[k] in LWS { HasAt(s, b, l, k - b); }
    forall k | b + |l| <= k < w ensures s[k] in LWS { HasAt(s, b + |l|, r, k - (b + |l|)); }
    if w < |s| { FindIs(s, LWS, false, b, w); } else { FindNone(s, LWS, false, b); }
  }

  /** Printed items stand at `o`, up to the end. */
  ghost predicate HasItems(s: string, o: nat, items: seq<Item>)
    decreases |items|
  {
    if items == [] then o == |s|
    else HasItem(s, o, items[0]) && Ends(s, ItemEnd(o, items[0])) && HasItems(s, ItemEnd(o, items[0]), items[1..])
  }

  ghost predicate ItemsStand(s: string, o: nat, items: seq<Item>) { HasItems(s, o, items) && Ends(s, o) }

  lemma {:induction false} ParamsFrom(s: string, o: nat, p: Param, next: Option<nat>)
    requires o < |s| && s[o] == ';' && ReadParam(s, o) == Parsed(Some(p), next)
    ensures next.Some? ==> next.value < |s| && s[next.value] == ';' && Params(s, o) == [p] + Params(s, next.value)
    ensures next.None? ==> Params(s, o) == [p]
  {
  }

  lemma {:induction false} ParamsBehind(s: string, o: nat, next: Option<nat>)
    requires o < |s| && s[o] == ';' && ReadParam(s, o) == Parsed(None, next)
    ensures next.Some? ==> next.value < |s| && s[next.value] == ';' && Params(s, o) == Params(s, next.value)
    ensures next.None? ==> Params(s, o) == []
  {
    if next.Some? { assert [] + Params(s, next.value) == Params(s, next.value); }
  }

  predicate AllSurvive(items: seq<Item>) {
    forall k :: 0 <= k < |items| && items[k].body.Valued? ==> Survives(items[k].body.value)
  }

  /** Whatever is in front, the parameters that have a value are read back one by one, exactly if all their values
      survive; what has none is skipped, wherever it stands. */
  lemma {:induction false} ReadsItemsIff(s: string, o: nat, items: seq<Item>)
    requires HasItems(s, o, items) && items != [] && forall k :: 0 <= k < |items| ==> WellNamed(items[k])
    ensures o < |s| && s[o] == ';' && (Params(s, o) == Meant(items) <==> AllSurvive(items))
    decreases |items|
  {
    var i, w := items[0], ItemEnd(o, items[0]);
    AllSurviveSplit(items);
    if items[1..] != [] { ReadsItemsIff(s, w, items[1..]); }
    if i.body.Valued? {
      ReadsItem(s, o, i);
      OneMore(s, o, ReadParam(s, o), i, w, items[1..]);
    } else {
      SkipsItem(s, o, i);
      ParamsBehind(s, o, NextAt(s, w));
    }
  }

  lemma {:induction false} OneMore(s: string, o: nat, r: Parsed, i: Item, w: nat, items: seq<Item>)
    requires o < |s| && s[o] == ';' && r == ReadParam(s, o) && r.param.Some? && i.body.Valued? && Ends(s, w)
    requires r.param.value.name == i.body.name && (r.param.value.value == i.body.value.v <==> Survives(i.body.value))
    requires Survives(i.body.value) ==> r.end == NextAt(s, w)
    requires (items == []) == (w == |s|)
    requires items != [] ==> w < |s| && s[w] == ';' && (Params(s, w) == Meant(items) <==> AllSurvive(items))
    ensures Params(s, o) == Meant([i] + items) <==> Survives(i.body.value) && AllSurvive(items)
  {
    ParamsFrom(s, o, r.param.value, r.end);
    assert ([i] + items)[1..] == items;
    if !Survives(i.body.value) {
      assert Params(s, o)[0] != Meant([i] + items)[0];
    } else if items != [] {
      SameHead(r.param.value, Params(s, w), Meant(items));
    }
  }

  lemma {:induction false} AllSurviveSplit(items: seq<Item>)
    requires items != []
    ensures items == [items[0]] + items[1..]
    ensures AllSurvive(items) <==>
      (items[0].body.Valued? ==> Survives(items[0].body.value)) && AllSurvive(items[1..])
  {
    assert forall k :: 1 <= k < |items| ==> items[k] == items[1..][k - 1];
  }

  lemma {:induction false} SameHead(p: Param, a: seq<Param>, b: seq<Param>)
    ensures [p] + a == [p] + b <==> a == b
  {
    if [p] + a == [p] + b { assert a == ([p] + a)[1..] && b == ([p] + b)[1..]; }
  }

  lemma {:induction false} PrintsValue(s: string, p: nat, value: Printed)
    requires Has(s, p, PrintValue(value))
    ensures HasValue(s, p, value, p + ValueLength(value)) && |PrintValue(value)| == ValueLength(value)
  {
    if value.AsQuoted? {
      var x, q := Escape(value.v), "\"";
      HasBoth(s, p, q, x + q);
      HasBoth(s, p + 1, x, q);
      HasAt(s, p, q, 0);
      HasAt(s, p + 1 + |x|, q, 0);
    }
  }

  lemma {:induction false} PrintsBody(s: string, p: nat, b: Body)
    requires Has(s, p, PrintBody(b))
    ensures HasBody(s, p, b) && |PrintBody(b)| == BodyLength(b)
  {
    match b
    case Bare(_) => {}
    case NoValue(name) => NameAndEquals(s, p, name, "=", "");
    case Valued(name, pad, value) =>
      NameAndEquals(s, p, name, "=" + (pad + PrintValue(value)), pad + PrintValue(value));
      HasBoth(s, p + |name| + 1, pad, PrintValue(value));
      PrintsValue(s, p + |name| + 1 + |pad|, value);
  }

  lemma {:induction false} NameAndEquals(s: string, p: nat, name: string, more: string, rest: string)
    requires Has(s, p, name + more) && more == "=" + rest
    ensures Has(s, p, name) && p + |name| < |s| && s[p + |name|] == '=' && Has(s, p + |name| + 1, rest)
  {
    HasBoth(s, p, name, more);
    HasBoth(s, p + |name|, "=", rest);
    HasAt(s, p + |name|, more, 0);
  }

  lemma {:induction false} PrintsItem(s: string, o: nat, i: Item)
    requires Has(s, o, PrintItem(i))
    ensures HasItem(s, o, i) && o + |PrintItem(i)| == ItemEnd(o, i)
  {
    var semi, body := ";", PrintBody(i.body);
    HasBoth(s, o, semi, i.gap + (body + i.after));
    HasAt(s, o, semi, 0);
    HasBoth(s, o + 1, i.gap, body + i.after);
    HasBoth(s, o + 1 + |i.gap|, body, i.after);
    PrintsBody(s, o + 1 + |i.gap|, i.body);
  }

  lemma {:induction false} PrintsItems(s: string, o: nat, items: seq<Item>)
    requires Has(s, o, PrintItems(items)) && o + |PrintItems(items)| == |s|
    ensures HasItems(s, o, items) && Ends(s, o)
    decreases |items|
  {
    if items != [] {
      FirstItem(s, o, items);
      PrintsItems(s, ItemEnd(o, items[0]), items[1..]);
      MoreItems(s, o, items);
    }
  }

  lemma {:induction false} FirstItem(s: string, o: nat, items: seq<Item>)
    requires items != [] && Has(s, o, PrintItems(items)) && o + |PrintItems(items)| == |s|
    ensures HasItem(s, o, items[0]) && Has(s, ItemEnd(o, items[0]), PrintItems(items[1..]))
    ensures ItemEnd(o, items[0]) + |PrintItems(items[1..])| == |s|
  {
    FirstAndRest(s, o, PrintItems(items), PrintItem(items[0]), PrintItems(items[1..]));
    PrintsItem(s, o, items[0]);
  }

  lemma {:induction false} FirstAndRest(s: string, o: nat, x: string, a: string, b: string)
    requires Has(s, o, x) && x == a + b && o + |x| == |s|
    ensures Has(s, o, a) && Has(s, o + |a|, b) && o + |a| + |b| == |s|
  {
    HasBoth(s, o, a, b);
  }

  lemma {:induction false} MoreItems(s: string, o: nat, items: seq<Item>)
    requires items != [] && HasItem(s, o, items[0])
    requires HasItems(s, ItemEnd(o, items[0]), items[1..]) && Ends(s, ItemEnd(o, items[0]))
    ensures HasItems(s, o, items) && Ends(s, o)
  {
  }

  /** The value of the first parameter of this name that has one. */
  function FirstOf(ps: seq<Param>, name: string): string {
    if ps == [] then ""
    else if Lower(ps[0].name) == name && ps[0].value != "" then ps[0].value
    else FirstOf(ps[1..], name)
  }

  /** The first charset and the first boundary count, in whatever case their names are written. */
  lemma {:induction false} FirstWins(c: Content, ps: seq<Param>)
    ensures var r := TakeAll(c, ps);
      && r.mime == c.mime
      && r.charset == (if c.charset != "" then c.charset else Lower(FirstOf(ps, "charset")))
      && r.boundary == (if c.boundary != "" then c.boundary else FirstOf(ps, "boundary"))
    decreases |ps|
  {
    if ps != [] { FirstWins(Take(c, ps[0]), ps[1..]); }
  }

  predicate TypeName(t: string) {
    t != [] && forall k :: 0 <= k < |t| ==> t[k] !in {' ', '\t', ';', '(', '/'}
  }

  lemma {:induction false} NotAllStars(t: string, u: string)
    requires TypeName(t) && (t != "*" || u != "*")
    ensures t + "/" + u != "*/*"
  {
    var mime, stars := t + "/" + u, "*/*";
    if |t| == 1 && |u| == 1 {
      assert mime[0] == t[0] && mime[2] == u[0];
      assert stars[0] == '*' && stars[2] == '*';
    } else if |t| > 1 && |mime| == 3 {
      assert mime[1] == t[1] && stars[1] == '/';
    }
  }

  lemma {:induction false} MimeIs(t: string, u: string)
    requires TypeName(t) && TypeName(u) && (t != "*" || u != "*")
    ensures var mime := t + "/" + u;
      Acceptable(mime) && Unbroken(mime)
  {
    var mime := t + "/" + u;
    assert forall k :: 0 <= k < |t| ==> mime[k] == t[k];
    assert forall k :: |t| < k < |mime| ==> mime[k] == u[k - |t| - 1];
    FindIs(mime, {'/'}, true, 0, |t|);
    NotAllStars(t, u);
  }

  /** What may stand between the type and the first semicolon: blanks, or a comment. */
  predicate Lead(l: string) { NoSemicolon(l) && (l != [] ==> l[0] in {' ', '\t', '('}) }

  /** Text that can be a type: it is taken up to the first of these characters. */
  predicate Unbroken(mime: string) {
    mime != [] && forall k :: 0 <= k < |mime| ==> mime[k] !in {' ', '\t', ';', '('}
  }

  /** `front`, `mime` and `lead` stand at the start, and then a semicolon or the end. */
  ghost predicate HasType(s: string, front: string, mime: string, lead: string) {
    && Has(s, 0, front) && Has(s, |front|, mime) && Has(s, |front| + |mime|, lead)
    && Ends(s, |front| + |mime| + |lead|) && Blank(front) && Unbroken(mime) && Lead(lead)
  }

  lemma {:induction false} ReadsMime(s: string, front: string, mime: string, lead: string)
    requires HasType(s, front, mime, lead)
    ensures var b, e, k := |front|, |front| + |mime|, |front| + |mime| + |lead|;
      && Find(s, LWS, false, 0) == Some(b) && Find(s, {' ', '\t', ';', '('}, true, b) == NextAt(s, e)
      && Substr(s, b, e) == mime && (e < |s| ==> Find(s, {';'}, true, e) == NextAt(s, k)) && (e == |s| ==> k == |s|)
  {
    var b, e := |front|, |front| + |mime|;
    HasAt(s, b, mime, 0);
    BlanksThen(s, 0, front);
    if lead != [] { HasAt(s, e, lead, 0); }
    FindsEnd(s, {' ', '\t', ';', '('}, b, mime);
    HasSubstr(s, b, mime);
    FindsEnd(s, {';'}, e, lead);
  }

  /** What the parser makes of the parameters of a printed value. */
  function Heard(s: string, first: nat): seq<Param>
    requires Ends(s, first)
  {
    if first == |s| then [] else Params(s, first)
  }

  /** The type is taken exactly if it is acceptable, and only then are the parameters; otherwise everything stays
      as it was. */
  lemma {:induction false} ParsesAt(c: Content, s: string, front: string, mime: string, lead: string)
    requires HasType(s, front, mime, lead)
    ensures ParseOne(c, s) ==
      if Acceptable(mime) then TakeAll(c.(mime := Lower(mime)), Heard(s, |front| + |mime| + |lead|)) else c
  {
    ReadsMime(s, front, mime, lead);
  }

  lemma {:induction false} HearsIff(s: string, first: nat, items: seq<Item>)
    requires HasItems(s, first, items) && Ends(s, first) && forall k :: 0 <= k < |items| ==> WellNamed(items[k])
    ensures Heard(s, first) == Meant(items) <==> AllSurvive(items)
  {
    if items != [] { ReadsItemsIff(s, first, items); }
  }

  /** A type needs a slash, something on either side of the first one, and not just two stars. */
  lemma {:induction false} AcceptableIff(t: string, rest: string)
    requires '/' !in t && (rest != [] ==> rest[0] == '/')
    ensures Acceptable(t + rest) <==> t != [] && |rest| > 1 && t + rest != "*/*"
  {
    var mime := t + rest;
    assert forall k :: 0 <= k < |t| ==> mime[k] == t[k];
    if rest == [] {
      FindNone(mime, {'/'}, true, 0);
    } else {
      assert mime[|t|] == '/';
      FindIs(mime, {'/'}, true, 0, |t|);
    }
  }

  /** Capital letters become small ones, and nothing else changes. */
  lemma {:induction false} LowerIs(s: string, k: nat)
    requires k < |s|
    ensures var r := Lower(s);
      && r[k] !in "ABCDEFGHIJKLMNOPQRSTUVWXYZ"
      && (if 'A' <= s[k] <= 'Z' then r[k] as int - 'a' as int == s[k] as int - 'A' as int else r[k] == s[k])
  {
    var capitals := "ABCDEFGHIJKLMNOPQRSTUVWXYZ";
    assert forall i :: 0 <= i < |capitals| ==> 'A' <= capitals[i] <= 'Z';
  }

  /** `s` is blanks, the type, blanks or a comment, and items, printed one behind the other. */
  ghost predicate Shows(s: string, front: string, mime: string, lead: string, items: seq<Item>) {
    s == front + (mime + (lead + Printing(items)))
  }

  /** Parsing a printed value gives the lower-cased type, and the first charset and boundary of the parameters
      heard. These are the ones that were meant exactly if every quoted value survives. */
  lemma {:induction false} RoundTripIff(c: Content, s: string, front: string, t: string, u: string, lead: string,
      items: seq<Item>, mime: string)
    requires TypeName(t) && TypeName(u) && (t != "*" || u != "*") && Blank(front) && Lead(lead)
    requires forall k :: 0 <= k < |items| ==> WellNamed(items[k])
    requires mime == t + "/" + u && Shows(s, front, mime, lead, items)
    ensures ReadsAs(c, s, mime, |front| + |mime| + |lead|, items)
  {
    MimeIs(t, u);
    Prints(s, front, mime, lead, items);
    ReadsPrinting(c, s, front, mime, lead, items);
  }

  /** The type, and what is heard of the parameters from `first` on. */
  ghost predicate ReadsAs(c: Content, s: string, mime: string, first: nat, items: seq<Item>) {
    && Ends(s, first)
    && var r, ps := ParseOne(c, s), Heard(s, first);
    && r.mime == Lower(mime)
    && r.charset == (if c.charset != "" then c.charset else Lower(FirstOf(ps, "charset")))
    && r.boundary == (if c.boundary != "" then c.boundary else FirstOf(ps, "boundary"))
    && (ps == Meant(items) <==> AllSurvive(items))
  }

  lemma {:induction false} ReadsPrinting(c: Content, s: string, front: string, mime: string, lead: string,
      items: seq<Item>)
    requires HasType(s, front, mime, lead) && Acceptable(mime) && HasItems(s, |front| + |mime| + |lead|, items)
    requires forall k :: 0 <= k < |items| ==> WellNamed(items[k])
    ensures ReadsAs(c, s, mime, |front| + |mime| + |lead|, items)
  {
    var first := |front| + |mime| + |lead|;
    ParsesAt(c, s, front, mime, lead);
    HearsIff(s, first, items);
    FirstWins(c.(mime := Lower(mime)), Heard(s, first));
  }

  // ----- several fields

  /** The fields are parsed one after the other, each on top of what the ones before left. */
  lemma {:induction false} FieldsInTurn(c: Content, values: seq<string>, v: string)
    ensures ParseAll(c, []) == c && ParseAll(c, values + [v]) == ParseOne(ParseAll(c, values), v)
    decreases |values|
  {
    if values == [] {
      assert (values + [v])[1..] == [];
    } else {
      assert (values + [v])[1..] == values[1..] + [v];
      FieldsInTurn(ParseOne(c, values[0]), values[1..], v);
    }
  }

  // ----- what a quote lets in

  predicate Plain(v: string) { forall k :: 0 <= k < |v| ==> v[k] != '"' && v[k] != '\\' }

  lemma {:induction false} EscapePlain(v: string)
    requires Plain(v)
    ensures Escape(v) == v
  {
    if v != [] { EscapePlain(v[1..]); }
  }

  /** A value with a quote in it, and a printed parameter behind the quote. */
  predicate Wraps(v: string, m: string, inner: Item, b: string) {
    && v == m + (['"'] + (PrintItem(inner) + (";" + b)))
    && NoQuote(m) && (m != [] ==> !IsLws(m[0]))
    && inner.body.Valued? && WellNamed(inner) && Survives(inner.body.value) && Plain(PrintItem(inner))
  }

  /** A parameter that stands, printed, inside the quoted value of another one, after a quote, is read as a
      parameter of its own. */
  lemma {:induction false} ReadsInside(s: string, o: nat, i: Item, m: string, inner: Item, b: string)
    requires HasItem(s, o, i) && WellNamed(i) && i.body.Valued? && i.body.value.AsQuoted?
    requires Wraps(i.body.value.v, m, inner, b)
    ensures [Param(i.body.name, m + "\\"), Param(inner.body.name, inner.body.value.v)] <= Params(s, o)
  {
    var v := ValueFrom(o, i);
    var o', next := InnerStands(s, v, BodyEnd(o, i), i.body.value.v, m, inner, b);
    OuterIs(s, o, i, m + "\\", o');
    ParamsFrom(s, o, Param(i.body.name, m + "\\"), Some(o'));
    ParamsFrom(s, o', Param(inner.body.name, inner.body.value.v), next);
  }

  lemma {:induction false} OuterIs(s: string, o: nat, i: Item, text: string, next: nat)
    requires HasItem(s, o, i) && WellNamed(i) && i.body.Valued? && i.body.value.AsQuoted? && ValueFrom(o, i) < |s|
    requires ReadValue(s, ValueFrom(o, i)).0 == text
    requires NextSemicolon(s, ReadValue(s, ValueFrom(o, i)).1) == Some(next)
    ensures ReadParam(s, o) == Parsed(Some(Param(i.body.name, text)), Some(next))
  {
    FindsParts(s, o, i);
    ReadParamIs(s, o, BodyFrom(o, i), EqualsAt(o, i), ValueFrom(o, i), i.body.name, text, Some(next));
  }

  lemma {:induction false} InnerStands(s: string, p: nat, w: nat, v: string, m: string, inner: Item, b: string)
    returns (o: nat, next: Option<nat>)
    requires HasQuoted(s, p, v, w) && Wraps(v, m, inner, b)
    ensures ReadValue(s, p).0 == m + "\\" && NextSemicolon(s, ReadValue(s, p).1) == Some(o)
    ensures o < |s| && s[o] == ';'
    ensures ReadParam(s, o) == Parsed(Some(Param(inner.body.name, inner.body.value.v)), next)
  {
    o := BehindQuote(s, p, w, v, m, PrintItem(inner), b);
    next := ReadsPrinted(s, o, inner);
    FindIs(s, {';'}, true, o - 1, o);
  }

  lemma {:induction false} ReadsPrinted(s: string, o: nat, i: Item) returns (next: Option<nat>)
    requires Has(s, o, PrintItem(i)) && Ends(s, o + |PrintItem(i)|) && WellNamed(i)
    requires i.body.Valued? && Survives(i.body.value)
    ensures o < |s| && s[o] == ';' && ReadParam(s, o) == Parsed(Some(Param(i.body.name, i.body.value.v)), next)
  {
    PrintsItem(s, o, i);
    ReadsItem(s, o, i);
    next := ReadParam(s, o).end;
  }

  lemma {:induction false} BehindQuote(s: string, p: nat, w: nat, v: string, m: string, text: string, b: string)
    returns (o: nat)
    requires HasQuoted(s, p, v, w) && v == m + (['"'] + (text + (";" + b)))
    requires NoQuote(m) && (m != [] ==> !IsLws(m[0])) && Plain(text)
    ensures o > 0 && ReadValue(s, p) == (m + "\\", Some(o - 1)) && o - 1 < |s| && s[o - 1] == '"'
    ensures Has(s, o, text) && Ends(s, o + |text|)
  {
    o := p + |Escape(m)| + 3;
    assert v == [] + v;
    ReadsCutShort(s, p, w, [], m, text + (";" + b));
    CutPieces(s, p + 1, [], m, text + (";" + b));
    TextAndSemicolon(s, o, text, b);
  }

  lemma {:induction false} TextAndSemicolon(s: string, o: nat, text: string, b: string)
    requires Has(s, o, Escape(text + (";" + b))) && Plain(text)
    ensures Has(s, o, text) && Ends(s, o + |text|)
  {
    EscapeConcat(text, ";" + b);
    EscapePlain(text);
    HasBoth(s, o, text, Escape(";" + b));
    HasAt(s, o + |text|, Escape(";" + b), 0);
  }

  /** A parameter other than the charset, with a charset behind a quote in its value. */
  predicate Letting(i: Item, m: string, inner: Item, b: string) {
    && i.body.Valued? && i.body.value.AsQuoted? && Wraps(i.body.value.v, m, inner, b)
    && Lower(i.body.name) != "charset" && Lower(inner.body.name) == "charset" && inner.body.value.v != ""
  }

  lemma {:induction false} PrintedInside(s: string, first: nat, items: seq<Item>, m: string, inner: Item, b: string)
    requires HasItems(s, first, items) && items != [] && WellNamed(items[0]) && Letting(items[0], m, inner, b)
    ensures Ends(s, first) && FirstOf(Heard(s, first), "charset") == inner.body.value.v
  {
    ReadsInside(s, first, items[0], m, inner, b);
    SecondIsFirst(Params(s, first), inner.body.value.v);
  }

  /** Wherever it is read as the first parameter, it sets the charset. */
  ghost predicate SetsCharset(i: Item, v: string) {
    forall c: Content, s: string, mime: string, first: nat, items: seq<Item> ::
      ReadsAs(c, s, mime, first, items) && HasItems(s, first, items) && items != [] && items[0] == i && c.charset == ""
      ==> ParseOne(c, s).charset == v
  }

  /** So the value of another parameter may set the charset. */
  lemma {:induction false} HearsInside(i: Item, m: string, inner: Item, b: string, v: string)
    requires WellNamed(i) && Letting(i, m, inner, b) && v == Lower(inner.body.value.v)
    ensures SetsCharset(i, v)
  {
    forall c: Content, s: string, mime: string, first: nat, items: seq<Item> |
      ReadsAs(c, s, mime, first, items) && HasItems(s, first, items) && items != [] && items[0] == i && c.charset == ""
      ensures ParseOne(c, s).charset == v
    {
      PrintedInside(s, first, items, m, inner, b);
    }
  }

  /** In every printed value that starts with such a parameter. */
  lemma {:induction false} FirstSetsCharset(c: Content, s: string, front: string, t: string, u: string, lead: string,
      items: seq<Item>, mime: string, v: string)
    requires TypeName(t) && TypeName(u) && (t != "*" || u != "*") && Blank(front) && Lead(lead)
    requires forall k :: 0 <= k < |items| ==> WellNamed(items[k])
    requires mime == t + "/" + u && Shows(s, front, mime, lead, items)
    requires items != [] && SetsCharset(items[0], v) && c.charset == ""
    ensures ParseOne(c, s).charset == v
  {
    RoundTripIff(c, s, front, t, u, lead, items, mime);
    Prints(s, front, mime, lead, items);
  }

  /** A correctly printed boundary does so: `boundary="a\";charset=x;"`. */
  lemma {:induction false} BoundarySetsCharset()
    ensures WellNamed(Quoting()) && SetsCharset(Quoting(), "x")
  {
    var inner := Item("", Valued("charset", "", AsToken("x")), "");
    WrapsCharset();
    CharsetIs();
    HearsInside(Quoting(), "a", inner, "", "x");
  }

  function Quoting(): Item { Item("", Valued("boundary", "", AsQuoted("a\";charset=x;")), "") }

  lemma {:induction false} CharsetIs()
    ensures Lower("boundary") != "charset" && Lower("charset") == "charset" && Lower("x") == "x"
  {
    assert Lower("boundary")[0] == 'b' && "charset"[0] == 'c';
  }

  lemma {:induction false} WrapsCharset()
    ensures Wraps("a\";charset=x;", "a", Item("", Valued("charset", "", AsToken("x")), ""), "")
  {
    var inner := Item("", Valued("charset", "", AsToken("x")), "");
    assert PrintBody(inner.body) == "charset=x";
    assert PrintItem(inner) == ";charset=x";
    assert "a" + (['"'] + (";charset=x" + (";" + ""))) == "a\";charset=x;";
  }

  lemma {:induction false} SecondIsFirst(ps: seq<Param>, v: string)
    requires |ps| >= 2 && Lower(ps[0].name) != "charset" && Lower(ps[1].name) == "charset" && ps[1].value == v != ""
    ensures FirstOf(ps, "charset") == v
  {
    assert ps[1..][0] == ps[1];
  }

  lemma {:induction false} Prints(s: string, front: string, mime: string, lead: string, items: seq<Item>)
    requires Shows(s, front, mime, lead, items)
    ensures Has(s, 0, front) && Has(s, |front|, mime) && Has(s, |front| + |mime|, lead)
    ensures HasItems(s, |front| + |mime| + |lead|, items) && Ends(s, |front| + |mime| + |lead|)
  {
    var printed := Printing(items);
    MakesHas(s, 0, s, 0);
    TypeStands(s, s, front, mime + (lead + printed), mime, lead, printed);
    RestStands(s, s, front, mime + (lead + printed), mime, lead, printed, items);
  }

  lemma {:induction false} TypeStands(s: string, x: string, front: string, rest: string, mime: string, lead: string,
      printed: string)
    requires Has(s, 0, x) && |x| == |s| && x == front + rest && rest == mime + (lead + printed)
    ensures Has(s, 0, front) && Has(s, |front|, mime) && Has(s, |front| + |mime|, lead)
  {
    FrontAndRest(s, x, front, rest);
    ThreePieces(s, |front|, rest, mime, lead, printed);
  }

  lemma {:induction false} RestStands(s: string, x: string, front: string, rest: string, mime: string, lead: string,
      printed: string, items: seq<Item>)
    requires Has(s, 0, x) && |x| == |s| && x == front + rest
    requires rest == mime + (lead + printed) && printed == Printing(items)
    ensures ItemsStand(s, |front| + |mime| + |lead|, items)
  {
    FrontAndRest(s, x, front, rest);
    LastThree(s, |front|, rest, mime, lead, printed, items);
  }

  lemma {:induction false} FrontAndRest(s: string, x: string, a: string, b: string)
    requires Has(s, 0, x) && |x| == |s| && x == a + b
    ensures Has(s, 0, a) && Has(s, |a|, b) && |a| + |b| == |s|
  {
    HasBoth(s, 0, a, b);
  }

  lemma {:induction false} LastThree(s: string, o: nat, y: string, b: string, c: string, d: string, items: seq<Item>)
    requires Has(s, o, y) && o + |y| == |s| && y == b + (c + d) && d == Printing(items)
    ensures ItemsStand(s, o + |b| + |c|, items)
  {
    ThreePieces(s, o, y, b, c, d);
    PrintsItems(s, o + |b| + |c|, items);
  }
}
