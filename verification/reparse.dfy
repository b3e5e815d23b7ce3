/** A reader for the text `JSON.stringify` writes. Reading back what `Stringify` wrote
    recovers the value, so two values with the same text are the same value — which is
    what makes the search's text comparison a comparison of values. */
module Reparse {
  import opened Maybe
  import opened Text
  import opened Json

  // ---------------------------------------------------------------------------
  // Which values read back
  // ---------------------------------------------------------------------------

  /** The characters of a finite number as JavaScript renders it (`-1.5e-7`, `1e+21`). */
  predicate NumChar(c: char) {
    ('0' <= c <= '9') || c == '-' || c == '+' || c == '.' || c == 'e' || c == 'E'
  }

  /** The rendering of a finite number: a sign or digit first, number characters after. */
  predicate NumberToken(t: string) {
    && |t| > 0 && (('0' <= t[0] <= '9') || t[0] == '-')
    && forall i :: 0 <= i < |t| ==> NumChar(t[i])
  }

  /** Every number in `v` is finite. A number `JSON.parse` reads beyond the range of a
      double becomes `Infinity`, which `JSON.stringify` renders as `null`. */
  predicate Finite(v: Json) {
    match v
    case JNum(t) => NumberToken(t)
    case JArr(items) => forall j :: 0 <= j < |items| ==> Finite(items[j])
    case JObj(members) => forall j :: 0 <= j < |members| ==> Finite(members[j].1)
    case _ => true
  }

  /** What may follow a value inside the text: nothing, a comma or a closing bracket. */
  predicate Stop(s: string) {
    |s| == 0 || s[0] == ',' || s[0] == ']' || s[0] == '}'
  }

  // ---------------------------------------------------------------------------
  // The reader
  // ---------------------------------------------------------------------------

  /** The length of the run of number characters that starts `s`. */
  function NumSpan(s: string): (k: nat)
    ensures k <= |s|
    ensures forall i :: 0 <= i < k ==> NumChar(s[i])
    ensures k < |s| ==> !NumChar(s[k])
  {
    if |s| == 0 || !NumChar(s[0]) then 0 else 1 + NumSpan(s[1..])
  }

  function HexValue(c: char): nat {
    if '0' <= c <= '9' then c as int - '0' as int
    else if 'a' <= c <= 'f' then c as int - 'a' as int + 10
    else 0
  }

  /** Reads one character of a string literal's body, plain or escaped, and returns it
      with the text after it. */
  function ReadChar(s: string): (r: Option<(char, string)>)
    requires |s| > 0
    ensures r.Some? ==> |r.value.1| < |s|
  {
    if s[0] != '\\' then Some((s[0], s[1..]))
    else if |s| < 2 then None
    else if s[1] == 'b' then Some((0x08 as char, s[2..]))
    else if s[1] == 't' then Some((0x09 as char, s[2..]))
    else if s[1] == 'n' then Some((0x0A as char, s[2..]))
    else if s[1] == 'f' then Some((0x0C as char, s[2..]))
    else if s[1] == 'r' then Some((0x0D as char, s[2..]))
    else if s[1] == '"' || s[1] == '\\' then Some((s[1], s[2..]))
    else if s[1] == 'u' && |s| >= 6 && s[2] == '0' && s[3] == '0' then
      Some(((HexValue(s[4]) % 16 * 16 + HexValue(s[5]) % 16) as char, s[6..]))
    else None
  }

  /** Reads a string literal's body up to its closing quote, and returns the text with
      what follows the quote. */
  function ReadString(s: string): (r: Option<(string, string)>)
    decreases |s|
    ensures r.Some? ==> |r.value.1| < |s|
  {
    if |s| == 0 then None
    else if s[0] == '"' then Some(("", s[1..]))
    else match ReadChar(s)
      case None => None
      case Some(p) =>
        match ReadString(p.1)
        case None => None
        case Some(q) => Some(([p.0] + q.0, q.1))
  }

  /** Reads one value from the start of `s`, and returns it with the text after it. */
  function ReadValue(s: string): (r: Option<(Json, string)>)
    decreases |s|, 0
    ensures r.Some? ==> |r.value.1| < |s|
  {
    if |s| == 0 then None
    else if s[0] == 'n' then
      if |s| >= 4 && s[..4] == "null" then Some((JNull, s[4..])) else None
    else if s[0] == 't' then
      if |s| >= 4 && s[..4] == "true" then Some((JBool(true), s[4..])) else None
    else if s[0] == 'f' then
      if |s| >= 5 && s[..5] == "false" then Some((JBool(false), s[5..])) else None
    else if s[0] == '"' then
      match ReadString(s[1..])
      case None => None
      case Some(p) => Some((JStr(p.0), p.1))
    else if s[0] == '[' then
      if |s| >= 2 && s[1] == ']' then Some((JArr([]), s[2..]))
      else match ReadElements(s[1..])
        case None => None
        case Some(p) => Some((JArr(p.0), p.1))
    else if s[0] == '{' then
      if |s| >= 2 && s[1] == '}' then Some((JObj([]), s[2..]))
      else match ReadMembers(s[1..])
        case None => None
        case Some(p) => Some((JObj(p.0), p.1))
    else
      var k := NumSpan(s);
      if k == 0 then None else Some((JNum(s[..k]), s[k..]))
  }

  /** Reads the elements of an array, after its `[`, up to and past its `]`. */
  function ReadElements(s: string): (r: Option<(seq<Json>, string)>)
    decreases |s|, 1
    ensures r.Some? ==> |r.value.1| < |s|
  {
    match ReadValue(s)
    case None => None
    case Some(p) =>
      var rest := p.1;
      if |rest| > 0 && rest[0] == ']' then Some(([p.0], rest[1..]))
      else if |rest| > 0 && rest[0] == ',' then
        match ReadElements(rest[1..])
        case None => None
        case Some(q) => Some(([p.0] + q.0, q.1))
      else None
  }

  /** Reads the members of an object, after its `{`, up to and past its `}`. */
  function ReadMembers(s: string): (r: Option<(seq<(string, Json)>, string)>)
    decreases |s|, 1
    ensures r.Some? ==> |r.value.1| < |s|
  {
    if |s| == 0 || s[0] != '"' then None
    else match ReadString(s[1..])
      case None => None
      case Some(k) =>
        if |k.1| == 0 || k.1[0] != ':' then None
        else match ReadValue(k.1[1..])
          case None => None
          case Some(p) =>
            var rest := p.1;
            if |rest| > 0 && rest[0] == '}' then Some(([(k.0, p.0)], rest[1..]))
            else if |rest| > 0 && rest[0] == ',' then
              match ReadMembers(rest[1..])
              case None => None
              case Some(q) => Some(([(k.0, p.0)] + q.0, q.1))
            else None
  }

  // ---------------------------------------------------------------------------
  // Reading back what was written
  // ---------------------------------------------------------------------------

  lemma Assoc(a: string, b: string, c: string, d: string)
    ensures a + b + c + d == a + (b + c + d)
  {
  }

  lemma SliceHead<T>(xs: seq<T>, j: nat)
    requires j < |xs|
    ensures xs[j..] == [xs[j]] + xs[j + 1..]
  {
  }

  /** Dropping the one-character opening of `open + mid + close + s`. */
  lemma Enclosed(open: string, mid: string, close: string, s: string)
    requires |open| == 1 && |close| == 1
    ensures var t := open + mid + close + s;
      && t[0] == open[0] && t[1..] == mid + close + s
      && (|mid| == 0 ==> t[1] == close[0] && t[2..] == s)
  {
    var t := open + mid + close + s;
    assert t[1..] == mid + close + s;
    if |mid| == 0 {
      assert t[2..] == s;
    }
  }

  lemma Unwrap(open: string, mid: string, rest: string)
    requires |open| == 1
    ensures (open + mid + rest)[0] == open[0] && (open + mid + rest)[1..] == mid + rest
  {
    assert (open + mid + rest)[1..] == mid + rest;
  }

  /** Dropping the opening quote of a member's text. */
  lemma QuotedMember(e: string, x: string, after: string)
    ensures var t := "\"" + e + "\"" + ":" + x + after;
      t[0] == '"' && t[1..] == e + "\"" + (":" + x + after)
  {
    var t := "\"" + e + "\"" + ":" + x + after;
    assert t[1..] == e + "\"" + (":" + x + after);
  }

  lemma HexRoundTrip(d: nat)
    requires d < 16
    ensures HexValue(HexDigit(d)) == d
  {
  }

  /** Every escape `JSON.stringify` writes reads back as the character it stands for. */
  lemma ReadCharRoundTrip(c: char, s: string)
    ensures (EscapeChar(c) + s)[0] != '"'
    ensures ReadChar(EscapeChar(c) + s) == Some((c, s))
  {
    var u := c as int;
    var t := EscapeChar(c) + s;
    if u < 0x20 && u != 0x08 && u != 0x09 && u != 0x0A && u != 0x0C && u != 0x0D {
      HexRoundTrip(u / 16);
      HexRoundTrip(u % 16);
      assert t[..6] == "\\u00" + [HexDigit(u / 16), HexDigit(u % 16)];
      assert t[6..] == s;
    } else if u < 0x20 || c == '"' || c == '\\' {
      assert t[2..] == s;
    } else {
      assert t[1..] == s;
    }
  }

  /** A string's escaped body, its closing quote and what follows read back as the string
      and what follows. */
  lemma {:induction false} ReadStringRoundTrip(x: string, s: string)
    decreases |x|
    ensures ReadString(Escape(x) + "\"" + s) == Some((x, s))
  {
    if |x| == 0 {
      assert Escape(x) + "\"" + s == "\"" + s;
      Prefix("\"", s);
    } else {
      var rest := Escape(x[1..]) + "\"" + s;
      Assoc(EscapeChar(x[0]), Escape(x[1..]), "\"", s);
      ReadCharRoundTrip(x[0], rest);
      ReadStringRoundTrip(x[1..], s);
      assert [x[0]] + x[1..] == x;
    }
  }

  lemma NumSpanRoundTrip(t: string, s: string)
    requires NumberToken(t) && Stop(s)
    ensures NumSpan(t + s) == |t|
  {
    assert forall i :: 0 <= i < |t| ==> (t + s)[i] == t[i];
    if |s| > 0 {
      assert (t + s)[|t|] == s[0];
    }
  }

  /** The first character of a finite value's text says which kind of value it is. */
  lemma FirstChar(v: Json)
    requires Finite(v)
    ensures |Stringify(v)| > 0
    ensures var c := Stringify(v)[0];
      && (v.JNull? <==> c == 'n')
      && (v.JStr? <==> c == '"')
      && (v.JArr? <==> c == '[')
      && (v.JObj? <==> c == '{')
      && (v.JNum? <==> (('0' <= c <= '9') || c == '-'))
      && (v.JBool? <==> (c == 't' || c == 'f'))
  {
  }

  /** Reading the text of a finite value, followed by whatever may follow a value, gives
      back the value and the rest. */
  lemma {:induction false} ReadValueRoundTrip(v: Json, s: string)
    requires Finite(v) && Stop(s)
    decreases v, 2
    ensures ReadValue(Stringify(v) + s) == Some((v, s))
  {
    match v
    case JArr(_) => ArrayRoundTrip(v, s);
    case JObj(_) => ObjectRoundTrip(v, s);
    case _ => ScalarRoundTrip(v, s);
  }

  lemma ScalarRoundTrip(v: Json, s: string)
    requires Finite(v) && Stop(s) && !v.JArr? && !v.JObj?
    ensures ReadValue(Stringify(v) + s) == Some((v, s))
  {
    match v
    case JNull => Prefix("null", s);
    case JBool(b) => Prefix(if b then "true" else "false", s);
    case JNum(tok) => NumberRoundTrip(tok, s);
    case JStr(x) => StringRoundTrip(x, s);
  }

  /** `w + s` starts with `w`, and `s` follows it. */
  lemma Prefix(w: string, s: string)
    ensures |w + s| >= |w| && (w + s)[..|w|] == w && (w + s)[|w|..] == s
  {
    assert (w + s)[..|w|] == w;
    assert (w + s)[|w|..] == s;
  }

  lemma NumberRoundTrip(tok: string, s: string)
    requires NumberToken(tok) && Stop(s)
    ensures ReadValue(tok + s) == Some((JNum(tok), s))
  {
    NumSpanRoundTrip(tok, s);
    Prefix(tok, s);
  }

  lemma StringRoundTrip(x: string, s: string)
    requires Stop(s)
    ensures ReadValue(Quote(x) + s) == Some((JStr(x), s))
  {
    Enclosed("\"", Escape(x), "\"", s);
    ReadStringRoundTrip(x, s);
  }

  lemma {:induction false} ArrayRoundTrip(v: Json, s: string)
    requires v.JArr? && Finite(v) && Stop(s)
    decreases v, 1
    ensures ReadValue(Stringify(v) + s) == Some((v, s))
  {
    Enclosed("[", Children(v, 0), "]", s);
    if |v.items| == 0 {
      assert Children(v, 0) == "";
    } else {
      ElementsRoundTrip(v, 0, s);
      assert v.items[0..] == v.items;
      FirstChar(v.items[0]);
    }
  }

  lemma {:induction false} ObjectRoundTrip(v: Json, s: string)
    requires v.JObj? && Finite(v) && Stop(s)
    decreases v, 1
    ensures ReadValue(Stringify(v) + s) == Some((v, s))
  {
    Enclosed("{", Children(v, 0), "}", s);
    if |v.members| == 0 {
      assert Children(v, 0) == "";
    } else {
      MembersRoundTrip(v, 0, s);
      assert v.members[0..] == v.members;
    }
  }

  /** The text after the `j`-th child of `v` and before `s`: the closing bracket, or a
      comma and the children after it. */
  function After(v: Json, j: nat, close: string, s: string): string
    requires j < Arity(v)
  {
    if j + 1 == Arity(v) then close + s else "," + Children(v, j + 1) + close + s
  }

  lemma AfterNext(v: Json, j: nat, close: string, s: string)
    requires j + 1 < Arity(v) && |close| == 1
    ensures var a := After(v, j, close, s);
      |a| > 0 && a[0] == ',' && a[1..] == Children(v, j + 1) + close + s
  {
    Enclosed(",", Children(v, j + 1), close, s);
  }

  lemma ChildrenHead(v: Json, j: nat, close: string, s: string)
    requires j < Arity(v)
    ensures Children(v, j) + close + s == Member(v, j) + After(v, j, close, s)
  {
  }

  /** One step of `ReadElements`: a value, then `]` or a comma and more elements. */
  lemma ElementsStep(t: string, x: Json, after: string, more: seq<Json>, s: string)
    requires ReadValue(t) == Some((x, after))
    requires || (after == "]" + s && more == [])
             || (|after| > 0 && after[0] == ',' && ReadElements(after[1..]) == Some((more, s)))
    ensures ReadElements(t) == Some(([x] + more, s))
  {
    if after[0] == ']' {
      assert after[1..] == s;
      assert [x] + more == [x];
    }
  }

  /** `ReadElements` on the `j`-th element's text followed by `]` or by a comma and
      more elements. */
  lemma {:induction false} ReadElementsHead(v: Json, j: nat, more: seq<Json>, s: string)
    requires v.JArr? && Finite(v) && j < |v.items| && Stop(s)
    requires j + 1 == |v.items| ==> more == []
    requires j + 1 < |v.items| ==> ReadElements(Children(v, j + 1) + "]" + s) == Some((more, s))
    decreases v, 0, |v.items| - j, 0
    ensures ReadElements(Children(v, j) + "]" + s) == Some(([v.items[j]] + more, s))
  {
    var after := After(v, j, "]", s);
    ReadValueRoundTrip(v.items[j], after);
    if j + 1 < |v.items| {
      AfterNext(v, j, "]", s);
    }
    ElementsStep(Member(v, j) + after, v.items[j], after, more, s);
    ChildrenHead(v, j, "]", s);
  }

  /** The elements of a finite array from the `j`-th on, then `]`, read back as those
      elements. */
  lemma {:induction false} ElementsRoundTrip(v: Json, j: nat, s: string)
    requires v.JArr? && Finite(v) && j < |v.items| && Stop(s)
    decreases v, 0, |v.items| - j, 1
    ensures ReadElements(Children(v, j) + "]" + s) == Some((v.items[j..], s))
  {
    if j + 1 == |v.items| {
      ReadElementsHead(v, j, [], s);
      SliceHead(v.items, j);
    } else {
      ElementsRoundTrip(v, j + 1, s);
      ReadElementsHead(v, j, v.items[j + 1..], s);
      SliceHead(v.items, j);
    }
  }

  /** One step of `ReadMembers`: a quoted name, a colon, a value, then `}` or a comma
      and more members. */
  lemma MembersStep(t: string, name: string, tail: string, x: Json, after: string, more: seq<(string, Json)>, s: string)
    requires |t| > 0 && t[0] == '"' && ReadString(t[1..]) == Some((name, tail))
    requires |tail| > 0 && tail[0] == ':' && ReadValue(tail[1..]) == Some((x, after))
    requires || (after == "}" + s && more == [])
             || (|after| > 0 && after[0] == ',' && ReadMembers(after[1..]) == Some((more, s)))
    ensures ReadMembers(t) == Some(([(name, x)] + more, s))
  {
    if after[0] == '}' {
      assert after[1..] == s;
      assert [(name, x)] + more == [(name, x)];
    }
  }

  /** `ReadMembers` on the `j`-th member's text followed by `}` or by a comma and more
      members. */
  lemma {:induction false} ReadMembersHead(v: Json, j: nat, more: seq<(string, Json)>, s: string)
    requires v.JObj? && Finite(v) && j < |v.members| && Stop(s)
    requires j + 1 == |v.members| ==> more == []
    requires j + 1 < |v.members| ==> ReadMembers(Children(v, j + 1) + "}" + s) == Some((more, s))
    decreases v, 0, |v.members| - j, 0
    ensures ReadMembers(Children(v, j) + "}" + s) == Some(([v.members[j]] + more, s))
  {
    var (name, x) := v.members[j];
    var after := After(v, j, "}", s);
    var tail := ":" + Stringify(x) + after;
    var t := Member(v, j) + after;
    assert Member(v, j) == "\"" + Escape(name) + "\"" + ":" + Stringify(x);
    QuotedMember(Escape(name), Stringify(x), after);
    ReadStringRoundTrip(name, tail);
    Unwrap(":", Stringify(x), after);
    ReadValueRoundTrip(x, after);
    if j + 1 < |v.members| {
      AfterNext(v, j, "}", s);
    }
    MembersStep(t, name, tail, x, after, more, s);
    ChildrenHead(v, j, "}", s);
  }

  /** The members of a finite object from the `j`-th on, then `}`, read back as those
      members. */
  lemma {:induction false} MembersRoundTrip(v: Json, j: nat, s: string)
    requires v.JObj? && Finite(v) && j < |v.members| && Stop(s)
    decreases v, 0, |v.members| - j, 1
    ensures ReadMembers(Children(v, j) + "}" + s) == Some((v.members[j..], s))
  {
    if j + 1 == |v.members| {
      ReadMembersHead(v, j, [], s);
      SliceHead(v.members, j);
    } else {
      MembersRoundTrip(v, j + 1, s);
      ReadMembersHead(v, j, v.members[j + 1..], s);
      SliceHead(v.members, j);
    }
  }

  /** Finite values with the same `JSON.stringify` text are equal. */
  lemma StringifyInjective(a: Json, b: Json)
    requires Finite(a) && Finite(b)
    ensures Stringify(a) == Stringify(b) <==> a == b
  {
    ReadValueRoundTrip(a, "");
    ReadValueRoundTrip(b, "");
    assert Stringify(a) + "" == Stringify(a) && Stringify(b) + "" == Stringify(b);
  }

  /** Without finiteness the text does not determine the value: a number beyond the
      range of a double is written like `null`. */
  lemma OverflowWrittenAsNull()
    ensures Stringify(JNum("null")) == Stringify(JNull) && JNum("null") != JNull
  {
  }
}
