/** RFC 8785 canonical JSON for flat objects of the values a journal envelope holds: sorted members
    (section 3.2.3) and plain decimal integers (section 3.2.2.3). */
module Jcs {
  import opened Prelude
  import Base64

  /** A byte string is written as Base64 text, a nil one as null. */
  datatype Json = Null | Bool(b: bool) | Number(n: nat) | Bytes(data: seq<Byte>)

  datatype Member = Member(key: string, value: Json)

  // ---- member order ----

  predicate Less(a: string, b: string) {
    b != "" && (a == "" || a[0] < b[0] || (a[0] == b[0] && Less(a[1..], b[1..])))
  }

  function Insert(m: Member, ms: seq<Member>): (r: seq<Member>)
    ensures multiset(r) == multiset(ms) + multiset{m}
  {
    if ms == [] then [m]
    else if Less(m.key, ms[0].key) then [m] + ms
    else
      assert ms == [ms[0]] + ms[1..];
      [ms[0]] + Insert(m, ms[1..])
  }

  function Sort(ms: seq<Member>): (r: seq<Member>)
    ensures multiset(r) == multiset(ms)
  {
    if ms == [] then []
    else
      assert ms == [ms[0]] + ms[1..];
      Insert(ms[0], Sort(ms[1..]))
  }

  ghost predicate Sorted(ms: seq<Member>) {
    forall i, j :: 0 <= i < j < |ms| ==> Less(ms[i].key, ms[j].key)
  }

  ghost predicate DistinctKeys(ms: seq<Member>) {
    forall i, j :: 0 <= i < j < |ms| ==> ms[i].key != ms[j].key
  }

  lemma {:induction false} LessTotal(a: string, b: string)
    ensures Less(a, b) || a == b || Less(b, a)
    ensures !(Less(a, b) && Less(b, a)) && (a == b ==> !Less(a, b))
  {
    if a != "" && b != "" && a[0] == b[0] {
      LessTotal(a[1..], b[1..]);
      assert a == [a[0]] + a[1..] && b == [b[0]] + b[1..];
    }
  }

  lemma {:induction false} LessTransitive(a: string, b: string, c: string)
    requires Less(a, b) && Less(b, c)
    ensures Less(a, c)
  {
    if a != "" && a[0] == b[0] && b[0] == c[0] {
      LessTransitive(a[1..], b[1..], c[1..]);
    }
  }

  lemma {:induction false} InsertSorted(m: Member, ms: seq<Member>)
    requires Sorted(ms) && forall i :: 0 <= i < |ms| ==> ms[i].key != m.key
    ensures Sorted(Insert(m, ms))
  {
    if ms != [] {
      LessTotal(m.key, ms[0].key);
      if Less(m.key, ms[0].key) {
        forall j | 0 <= j < |ms|
          ensures Less(m.key, ms[j].key)
        {
          if j > 0 { LessTransitive(m.key, ms[0].key, ms[j].key); }
        }
      } else {
        InsertSorted(m, ms[1..]);
        var r := Insert(m, ms[1..]);
        forall j | 0 <= j < |r|
          ensures Less(ms[0].key, r[j].key)
        {
          assert r[j] in multiset(r);
          assert r[j] == m || r[j] in ms[1..];
        }
      }
    }
  }

  lemma {:induction false} SortSorted(ms: seq<Member>)
    requires DistinctKeys(ms)
    ensures Sorted(Sort(ms))
  {
    if ms != [] {
      SortSorted(ms[1..]);
      var r := Sort(ms[1..]);
      forall i | 0 <= i < |r|
        ensures r[i].key != ms[0].key
      {
        assert r[i] in multiset(r);
        assert r[i] in ms[1..];
      }
      InsertSorted(ms[0], r);
    }
  }

  lemma SameHead(a: seq<Member>, b: seq<Member>)
    requires Sorted(a) && Sorted(b) && multiset(a) == multiset(b) && a != [] && b != []
    ensures a[0] == b[0]
  {
    assert a[0] in multiset(b) && b[0] in multiset(a);
    var i :| 0 <= i < |b| && b[i] == a[0];
    var j :| 0 <= j < |a| && a[j] == b[0];
    LessTotal(a[0].key, b[0].key);
  }

  lemma {:induction false} SortedUnique(a: seq<Member>, b: seq<Member>)
    requires Sorted(a) && Sorted(b) && multiset(a) == multiset(b)
    ensures a == b
  {
    assert |b| == |multiset(b)| == |multiset(a)| == |a|;
    if a != [] {
      SameHead(a, b);
      assert a == [a[0]] + a[1..] && b == [b[0]] + b[1..];
      assert multiset(a[1..]) == multiset(a) - multiset{a[0]};
      SortedUnique(a[1..], b[1..]);
    }
  }

  // ---- text ----

  function Digit(d: nat): char
    requires d < 10
  {
    (d + 48) as char
  }

  function Digits(n: nat): string {
    if n < 10 then [Digit(n)] else Digits(n / 10) + [Digit(n % 10)]
  }

  /** The decimal digits, one by one, and how they extend: what every digit string is, by recursion on n. */
  lemma DigitsLaw(n: nat)
    ensures n < 10 ==> Digits(n) == ["0123456789"[n]]
    ensures n >= 10 ==> Digits(n) == Digits(n / 10) + Digits(n % 10)
  {
  }

  function Render(v: Json): string {
    match v
    case Null => "null"
    case Bool(b) => if b then "true" else "false"
    case Number(n) => Digits(n)
    case Bytes(data) => "\"" + Base64.Encode(data) + "\""
  }

  function Key(key: string): string { "\"" + key + "\":" }

  function RenderMember(m: Member): string { Key(m.key) + Render(m.value) }

  function Join(ms: seq<Member>): string {
    if ms == [] then ""
    else if |ms| == 1 then RenderMember(ms[0])
    else RenderMember(ms[0]) + "," + Join(ms[1..])
  }

  /** Canonicalisation of an object whose members arrive in any order. */
  function Transform(ms: seq<Member>): string { "{" + Join(Sort(ms)) + "}" }

  /** The text of ms followed by end, bracketed the way a parser consumes it. */
  function Suffix(ms: seq<Member>, end: string): string
    requires ms != []
  {
    Key(ms[0].key) + (Render(ms[0].value) + (if |ms| == 1 then end else "," + Suffix(ms[1..], end)))
  }

  lemma Assoc(a: string, b: string, c: string)
    ensures (a + b) + c == a + (b + c)
  {
  }

  lemma {:induction false} JoinIsSuffix(ms: seq<Member>, end: string)
    requires ms != []
    ensures Join(ms) + end == Suffix(ms, end)
  {
    var key, value := Key(ms[0].key), Render(ms[0].value);
    if |ms| == 1 {
      Assoc(key, value, end);
    } else {
      JoinIsSuffix(ms[1..], end);
      calc {
        Join(ms) + end;
        ((key + value) + "," + Join(ms[1..])) + end;
        { Assoc((key + value) + ",", Join(ms[1..]), end); }
        ((key + value) + ",") + (Join(ms[1..]) + end);
        { Assoc(key + value, ",", Join(ms[1..]) + end); }
        (key + value) + ("," + (Join(ms[1..]) + end));
        { Assoc(key, value, "," + (Join(ms[1..]) + end)); }
        key + (value + ("," + Suffix(ms[1..], end)));
      }
    }
  }

  /** The canonical text of members given in sorted order. */
  lemma TransformSorted(ms: seq<Member>, sorted: seq<Member>)
    requires Sorted(sorted) && multiset(sorted) == multiset(ms) && sorted != []
    ensures Transform(ms) == "{" + Suffix(sorted, "}")
  {
    forall i, j | 0 <= i < j < |sorted|
      ensures sorted[i].key != sorted[j].key
    {
      LessTotal(sorted[i].key, sorted[j].key);
    }
    DistinctKeysPermute(sorted, ms);
    SortSorted(ms);
    SortedUnique(Sort(ms), sorted);
    JoinIsSuffix(sorted, "}");
    Assoc("{", Join(sorted), "}");
  }

  /** The canonical text depends on the members only, never on the order they were declared in. */
  lemma TransformIgnoresOrder(a: seq<Member>, b: seq<Member>)
    requires multiset(a) == multiset(b) && DistinctKeys(a)
    ensures Transform(a) == Transform(b)
  {
    DistinctKeysPermute(a, b);
    SortSorted(a);
    SortSorted(b);
    SortedUnique(Sort(a), Sort(b));
  }

  lemma DistinctKeysPermute(a: seq<Member>, b: seq<Member>)
    requires multiset(a) == multiset(b) && DistinctKeys(a)
    ensures DistinctKeys(b)
  {
    forall i, j | 0 <= i < j < |b|
      ensures b[i].key != b[j].key
    {
      assert b[i] in multiset(a) && b[j] in multiset(a);
      if b[i].key == b[j].key {
        assert b[i] == b[j];
        assert b == b[..i] + [b[i]] + b[i + 1..j] + [b[j]] + b[j + 1..];
        assert multiset(b)[b[i]] >= 2;
        AtMostOnce(a, b[i]);
      }
    }
  }

  lemma {:induction false} AtMostOnce(a: seq<Member>, m: Member)
    requires DistinctKeys(a)
    ensures multiset(a)[m] <= 1
  {
    if a != [] {
      assert a == [a[0]] + a[1..];
      AtMostOnce(a[1..], m);
      if m == a[0] { assert m !in a[1..]; }
    }
  }

  // ---- reading values back ----

  predicate IsDigit(c: char) { '0' <= c <= '9' }

  function NumberOf(d: string): nat
    requires forall i :: 0 <= i < |d| ==> IsDigit(d[i])
  {
    if d == "" then 0
    else
      assert IsDigit(d[|d| - 1]);
      10 * NumberOf(d[..|d| - 1]) + (d[|d| - 1] as int - 48)
  }

  lemma {:induction false} DigitsShape(n: nat)
    ensures var d := Digits(n);
            d != "" && (forall i :: 0 <= i < |d| ==> IsDigit(d[i])) && NumberOf(d) == n && (d[0] == '0' ==> n == 0)
  {
    if n >= 10 {
      DigitsShape(n / 10);
      assert Digits(n)[..|Digits(n)| - 1] == Digits(n / 10);
    }
  }

  lemma {:induction false} DigitsOfNumber(d: string)
    requires d != "" && (forall i :: 0 <= i < |d| ==> IsDigit(d[i])) && (|d| > 1 ==> d[0] != '0')
    ensures Digits(NumberOf(d)) == d
    ensures d[0] != '0' ==> NumberOf(d) > 0
  {
    var front := d[..|d| - 1];
    if front == "" {
      assert NumberOf(d[..0]) == 0;
    } else {
      DigitsOfNumber(front);
      assert front[0] == d[0];
    }
    assert d == front + [d[|d| - 1]];
  }

  /** How many leading characters satisfy p. */
  function Run(t: string, p: char -> bool): (n: nat)
    ensures n <= |t| && (forall i :: 0 <= i < n ==> p(t[i])) && (n < |t| ==> !p(t[n]))
  {
    if t != "" && p(t[0]) then 1 + Run(t[1..], p) else 0
  }

  lemma {:induction false} RunExact(a: string, b: string, p: char -> bool)
    requires (forall i :: 0 <= i < |a| ==> p(a[i])) && (b != "" ==> !p(b[0]))
    ensures Run(a + b, p) == |a|
  {
    if a == "" {
      assert a + b == b;
    } else {
      assert (a + b)[1..] == a[1..] + b;
      RunExact(a[1..], b, p);
    }
  }

  function Strip(literal: string, t: string): (r: Option<string>)
    ensures r.Some? ==> t == literal + r.value
  {
    if literal <= t then Some(t[|literal|..]) else None
  }

  lemma StripExact(literal: string, rest: string)
    ensures Strip(literal, literal + rest) == Some(rest)
  {
  }

  function ParseNumber(t: string): Option<(nat, string)> {
    var n := Run(t, IsDigit);
    if n == 0 || (n > 1 && t[0] == '0') then None else Some((NumberOf(t[..n]), t[n..]))
  }

  lemma ParseNumberExact(n: nat, rest: string)
    requires rest != "" ==> !IsDigit(rest[0])
    ensures ParseNumber(Render(Number(n)) + rest) == Some((n, rest))
  {
    DigitsShape(n);
    RunExact(Digits(n), rest, IsDigit);
    assert (Digits(n) + rest)[..|Digits(n)|] == Digits(n);
  }

  lemma ParsedNumber(t: string)
    requires ParseNumber(t).Some?
    ensures t == Render(Number(ParseNumber(t).value.0)) + ParseNumber(t).value.1
  {
    var n := Run(t, IsDigit);
    DigitsOfNumber(t[..n]);
    assert t == t[..n] + t[n..];
  }

  function BytesJson(data: Option<seq<Byte>>): Json {
    if data.None? then Null else Bytes(data.value)
  }

  function ParseBytes(t: string): Option<(Option<seq<Byte>>, string)> {
    if "null" <= t then Some((None, t[4..]))
    else
      var body :- Strip("\"", t);
      var n := Run(body, Base64.InAlphabet);
      var rest :- Strip("\"", body[n..]);
      var data :- Base64.Decode(body[..n]);
      Some((Some(data), rest))
  }

  lemma ParseBytesExact(data: Option<seq<Byte>>, rest: string)
    ensures ParseBytes(Render(BytesJson(data)) + rest) == Some((data, rest))
  {
    if data.Some? {
      var code := Base64.Encode(data.value);
      var t := Render(BytesJson(data)) + rest;
      assert t == "\"" + (code + ("\"" + rest));
      StripExact("\"", code + ("\"" + rest));
      Base64.EncodeAlphabet(data.value);
      RunExact(code, "\"" + rest, Base64.InAlphabet);
      assert (code + ("\"" + rest))[|code|..] == "\"" + rest;
      assert (code + ("\"" + rest))[..|code|] == code;
      StripExact("\"", rest);
      Base64.DecodeEncode(data.value);
    }
  }

  lemma QuotedSplit(t: string, body: string, n: nat, rest: string)
    requires t == "\"" + body && n <= |body| && body[n..] == "\"" + rest
    ensures t == "\"" + body[..n] + "\"" + rest
  {
    assert body == body[..n] + body[n..];
  }

  lemma ParsedBytes(t: string)
    requires ParseBytes(t).Some?
    ensures t == Render(BytesJson(ParseBytes(t).value.0)) + ParseBytes(t).value.1
  {
    if "null" <= t {
      assert t == "null" + t[4..];
    } else {
      var body := Strip("\"", t).value;
      var n := Run(body, Base64.InAlphabet);
      var code, rest := body[..n], Strip("\"", body[n..]).value;
      QuotedSplit(t, body, n, rest);
      Base64.EncodeDecode(code);
      assert Render(BytesJson(Base64.Decode(code))) == "\"" + code + "\"";
    }
  }

  function ParseBool(t: string): Option<(bool, string)> {
    if "true" <= t then Some((true, t[4..]))
    else
      var rest :- Strip("false", t);
      Some((false, rest))
  }

  lemma ParseBoolExact(b: bool, rest: string)
    ensures ParseBool(Render(Bool(b)) + rest) == Some((b, rest))
  {
    var t := Render(Bool(b)) + rest;
    assert t[0] == if b then 't' else 'f';
    assert t[|Render(Bool(b))|..] == rest;
  }

  lemma ParsedBool(t: string)
    requires ParseBool(t).Some?
    ensures t == Render(Bool(ParseBool(t).value.0)) + ParseBool(t).value.1
  {
  }
}
