/**
  The fingerprint of a decoded call: `JSON.stringify` of its parameters as a list of
  `{k: name, v: value}` objects, every name and value being a string. Strings are quoted as
  QuoteJSONString in section 24.5.2.2 of ECMA-262 (10th edition, 2019) prescribes; because a Dafny
  `char` is a Unicode scalar value, the lone-surrogate case of that algorithm cannot arise here.
*/
module Fingerprint {
  import opened Wrappers
  import opened Text

  /** One parameter as it enters the fingerprint: (name, value). */
  type Pair = (string, string)

  /** A lower-case hexadecimal digit. */
  function HexDigit(n: nat): (ch: char)
    requires n < 16
  {
    if n < 10 then ('0' as int + n) as char else ('a' as int + n - 10) as char
  }

  predicate IsHexDigit(ch: char)
  {
    '0' <= ch <= '9' || 'a' <= ch <= 'f'
  }

  function HexValue(ch: char): (n: nat)
    ensures n < 16
  {
    if '0' <= ch <= '9' then ch as int - '0' as int
    else if 'a' <= ch <= 'f' then ch as int - 'a' as int + 10
    else 0
  }

  /** How one character is written inside a JSON string literal. */
  function EscapeChar(c: char): (e: string)
    ensures 1 <= |e| && e[0] != '"'
  {
    if c == '"' then "\\\""
    else if c == '\\' then "\\\\"
    else if c as int == 0x08 then "\\b"
    else if c as int == 0x09 then "\\t"
    else if c as int == 0x0A then "\\n"
    else if c as int == 0x0C then "\\f"
    else if c as int == 0x0D then "\\r"
    else if c as int < 0x20 then "\\u00" + [HexDigit(c as int / 16), HexDigit(c as int % 16)]
    else [c]
  }

  function Escape(s: string): string
  {
    if s == [] then [] else EscapeChar(s[0]) + Escape(s[1..])
  }

  /** `JSON.stringify(s)` for a string `s`. */
  function Quote(s: string): string
  {
    "\"" + Escape(s) + "\""
  }

  /** `JSON.stringify({k: p.0, v: p.1})`. */
  function Object(p: Pair): string
  {
    "{\"k\":" + Quote(p.0) + ",\"v\":" + Quote(p.1) + "}"
  }

  /** The serialised objects of the list, in order. */
  function Objects(ps: seq<Pair>): (objs: seq<string>)
    ensures |objs| == |ps|
  {
    seq(|ps|, i requires 0 <= i < |ps| => Object(ps[i]))
  }

  /** `JSON.stringify(ps.map(p => ({k: p.0, v: p.1})))`: the fingerprint. */
  function Stringify(ps: seq<Pair>): string
  {
    "[" + Join(Objects(ps), ",") + "]"
  }

  /** Reads one possibly escaped character at the front of `t`: the character and how many were consumed. */
  function UnescapeHead(t: string): (r: Option<(char, nat)>)
    ensures r.Some? ==> 1 <= r.value.1 <= |t|
  {
    if |t| == 0 then None
    else if t[0] != '\\' then Some((t[0], 1))
    else if |t| < 2 then None
    else if t[1] == '"' then Some(('"', 2))
    else if t[1] == '\\' then Some(('\\', 2))
    else if t[1] == 'b' then Some((0x08 as char, 2))
    else if t[1] == 't' then Some((0x09 as char, 2))
    else if t[1] == 'n' then Some((0x0A as char, 2))
    else if t[1] == 'f' then Some((0x0C as char, 2))
    else if t[1] == 'r' then Some((0x0D as char, 2))
    else if t[1] == 'u' && |t| >= 6 && t[2] == '0' && t[3] == '0' && IsHexDigit(t[4]) && IsHexDigit(t[5]) then
      Some(((HexValue(t[4]) * 16 + HexValue(t[5])) as char, 6))
    else None
  }

  lemma HexRoundTrip(n: nat)
    requires n < 16
    ensures IsHexDigit(HexDigit(n)) && HexValue(HexDigit(n)) == n
  {
  }

  /** Reading back one escaped character gives the character and consumes exactly its escape. */
  lemma UnescapeEscapeChar(c: char, rest: string)
    ensures UnescapeHead(EscapeChar(c) + rest) == Some((c, |EscapeChar(c)|))
  {
    var e := EscapeChar(c);
    var t := e + rest;
    assert t[..|e|] == e;
    if c != '"' && c != '\\' && c as int !in {0x08, 0x09, 0x0A, 0x0C, 0x0D} && c as int < 0x20 {
      var n := c as int;
      HexRoundTrip(n / 16);
      HexRoundTrip(n % 16);
      assert t[4] == HexDigit(n / 16) && t[5] == HexDigit(n % 16);
      assert (HexValue(t[4]) * 16 + HexValue(t[5])) == n;
    }
  }

  lemma EscapeCons(s: string, rest: string)
    requires s != []
    ensures Escape(s) + rest == EscapeChar(s[0]) + (Escape(s[1..]) + rest)
  {
  }

  /** Two equal texts that start with escaped characters start with the same character, and the rests are equal. */
  lemma EscapeCharPrefixFree(x: char, y: char, u: string, v: string)
    requires EscapeChar(x) + u == EscapeChar(y) + v
    ensures x == y && u == v
  {
    UnescapeEscapeChar(x, u);
    UnescapeEscapeChar(y, v);
    DropPrefix(EscapeChar(x), u, v);
  }

  /** An escaped text followed by a quote starts with that quote exactly when the text is empty. */
  lemma EscapeFirst(s: string, r: string)
    ensures (Escape(s) + ("\"" + r))[0] == '"' <==> s == []
  {
    if s != [] {
      EscapeCons(s, "\"" + r);
    }
  }

  /**
    The escaped text of a string literal ends at the first unescaped quote: equal texts
    `Escape(a) "` then `r1` and `Escape(b) "` then `r2` have `a == b` and `r1 == r2`.
  */
  lemma {:induction false} EscapePrefixFree(a: string, b: string, r1: string, r2: string)
    requires Escape(a) + ("\"" + r1) == Escape(b) + ("\"" + r2)
    ensures a == b && r1 == r2
    decreases |a|
  {
    EscapeFirst(a, r1);
    EscapeFirst(b, r2);
    if a == [] {
      assert b == [] && Escape(a) == [] && Escape(b) == [];
      assert Escape(a) + ("\"" + r1) == "\"" + r1 && Escape(b) + ("\"" + r2) == "\"" + r2;
      DropPrefix("\"", r1, r2);
    } else {
      EscapeCons(a, "\"" + r1);
      EscapeCons(b, "\"" + r2);
      EscapeCharPrefixFree(a[0], b[0], Escape(a[1..]) + ("\"" + r1), Escape(b[1..]) + ("\"" + r2));
      EscapePrefixFree(a[1..], b[1..], r1, r2);
      assert a == [a[0]] + a[1..] && b == [b[0]] + b[1..];
    }
  }

  lemma DropPrefix(a: string, x: string, y: string)
    requires a + x == a + y
    ensures x == y
  {
    assert (a + x)[|a|..] == x;
    assert (a + y)[|a|..] == y;
  }

  /** `Quote(s) + r`, regrouped from the right. */
  lemma QuoteThen(s: string, r: string)
    ensures Quote(s) + r == "\"" + (Escape(s) + ("\"" + r))
  {
  }

  /** A quoted string is never a proper prefix of another: the quoted text and what follows are determined. */
  lemma QuotePrefixFree(a: string, b: string, r1: string, r2: string)
    requires Quote(a) + r1 == Quote(b) + r2
    ensures a == b && r1 == r2
  {
    QuoteThen(a, r1);
    QuoteThen(b, r2);
    DropPrefix("\"", Escape(a) + ("\"" + r1), Escape(b) + ("\"" + r2));
    EscapePrefixFree(a, b, r1, r2);
  }

  /** `Object(p) + r`, regrouped from the right. */
  lemma ObjectThen(p: Pair, r: string)
    ensures Object(p) + r == "{\"k\":" + (Quote(p.0) + (",\"v\":" + (Quote(p.1) + ("}" + r))))
  {
  }

  /** The same holds of one `{k, v}` object. */
  lemma ObjectPrefixFree(p: Pair, q: Pair, r1: string, r2: string)
    requires Object(p) + r1 == Object(q) + r2
    ensures p == q && r1 == r2
  {
    ObjectThen(p, r1);
    ObjectThen(q, r2);
    DropPrefix("{\"k\":", Quote(p.0) + (",\"v\":" + (Quote(p.1) + ("}" + r1))),
                           Quote(q.0) + (",\"v\":" + (Quote(q.1) + ("}" + r2))));
    QuotePrefixFree(p.0, q.0, ",\"v\":" + (Quote(p.1) + ("}" + r1)), ",\"v\":" + (Quote(q.1) + ("}" + r2)));
    DropPrefix(",\"v\":", Quote(p.1) + ("}" + r1), Quote(q.1) + ("}" + r2));
    QuotePrefixFree(p.1, q.1, "}" + r1, "}" + r2);
    DropPrefix("}", r1, r2);
  }

  /** The joined objects of a non-empty list, followed by `r`: the first object, then the rest. */
  lemma ObjectsThen(ps: seq<Pair>, r: string)
    requires |ps| >= 1
    ensures Join(Objects(ps), ",") + r ==
      Object(ps[0]) + (if |ps| == 1 then r else "," + (Join(Objects(ps[1..]), ",") + r))
  {
    JoinThen(Objects(ps), ",", r);
    assert Objects(ps)[1..] == Objects(ps[1..]);
  }

  /** The joined objects of a non-empty list start with a brace. */
  lemma ObjectsStartWithBrace(ps: seq<Pair>, r: string)
    requires |ps| >= 1
    ensures (Join(Objects(ps), ",") + r)[0] == '{'
  {
    var t := if |ps| == 1 then r else "," + (Join(Objects(ps[1..]), ",") + r);
    ObjectsThen(ps, r);
    ObjectThen(ps[0], t);
  }

  /** Two non-empty lists whose joined objects agree: the first pairs agree, and so does what follows. */
  lemma ObjectsCons(ps: seq<Pair>, qs: seq<Pair>)
    requires |ps| >= 1 && |qs| >= 1
    requires Join(Objects(ps), ",") + "]" == Join(Objects(qs), ",") + "]"
    ensures ps[0] == qs[0] && (|ps| == 1 <==> |qs| == 1)
    ensures |ps| > 1 ==> Join(Objects(ps[1..]), ",") + "]" == Join(Objects(qs[1..]), ",") + "]"
  {
    var t1 := if |ps| == 1 then "]" else "," + (Join(Objects(ps[1..]), ",") + "]");
    var t2 := if |qs| == 1 then "]" else "," + (Join(Objects(qs[1..]), ",") + "]");
    ObjectsThen(ps, "]");
    ObjectsThen(qs, "]");
    ObjectPrefixFree(ps[0], qs[0], t1, t2);
    assert t1[0] == t2[0];
    if |ps| > 1 && |qs| > 1 {
      DropPrefix(",", Join(Objects(ps[1..]), ",") + "]", Join(Objects(qs[1..]), ",") + "]");
    }
  }

  /** Lists of serialised objects, joined with commas and closed by a bracket, determine the lists. */
  lemma {:induction false} ElementsInjective(ps: seq<Pair>, qs: seq<Pair>)
    requires Join(Objects(ps), ",") + "]" == Join(Objects(qs), ",") + "]"
    ensures ps == qs
  {
    if |ps| == 0 || |qs| == 0 {
      if |ps| != 0 {
        ObjectsStartWithBrace(ps, "]");
      }
      if |qs| != 0 {
        ObjectsStartWithBrace(qs, "]");
      }
    } else {
      ObjectsCons(ps, qs);
      if |ps| > 1 {
        ElementsInjective(ps[1..], qs[1..]);
        assert ps == [ps[0]] + ps[1..];
        assert qs == [qs[0]] + qs[1..];
      }
    }
  }

  /** Two parameter lists have the same fingerprint exactly when they are equal. */
  lemma StringifyInjective(ps: seq<Pair>, qs: seq<Pair>)
    ensures Stringify(ps) == Stringify(qs) <==> ps == qs
  {
    if Stringify(ps) == Stringify(qs) {
      var e1, e2 := Join(Objects(ps), ","), Join(Objects(qs), ",");
      assert Stringify(ps) == "[" + (e1 + "]");
      assert Stringify(qs) == "[" + (e2 + "]");
      DropPrefix("[", e1 + "]", e2 + "]");
      ElementsInjective(ps, qs);
    }
  }
}
