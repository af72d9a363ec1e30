/** JSON.stringify of a string, and the order Array.prototype.sort puts strings in. */
module JsonText {
  import opened Basics
  import Hex

  function Escape(c: char): (s: string)
    ensures s != ""
  {
    if c == '"' then "\\\""
    else if c == '\\' then "\\\\"
    else if c as int == 8 then "\\b"
    else if c as int == 9 then "\\t"
    else if c as int == 10 then "\\n"
    else if c as int == 12 then "\\f"
    else if c as int == 13 then "\\r"
    else if c as int < 32 then "\\u00" + [Hex.HexChar(c as int / 16), Hex.HexChar(c as int % 16)]
    else [c]
  }

  function Escaped(s: string): string {
    if s == "" then "" else Escape(s[0]) + Escaped(s[1..])
  }

  function Quote(s: string): string { "\"" + Escaped(s) + "\"" }

  // ---- scanning back ---------------------------------------------------------------

  /** One character of a string body, escaped or plain, and what follows it; plain control characters are refused. */
  function Unescape(s: string): (r: Option<(char, string)>)
    requires s != ""
    ensures r.Some? ==> |r.value.1| < |s|
  {
    if s[0] as int < 32 then None
    else if s[0] != '\\' then Some((s[0], s[1..]))
    else if |s| < 2 then None
    else if s[1] == 'u' then
      if |s| < 6 || !(forall i | 2 <= i < 6 :: Hex.IsHexChar(s[i])) then None
      else
        var v := Hex.HexVal(s[2]) * 4096 + Hex.HexVal(s[3]) * 256 + Hex.HexVal(s[4]) * 16 + Hex.HexVal(s[5]);
        if v < 0xD800 then Some((v as char, s[6..])) else None
    else
      match s[1]
      case '"' => Some(('"', s[2..]))
      case '\\' => Some(('\\', s[2..]))
      case 'b' => Some((8 as char, s[2..]))
      case 't' => Some((9 as char, s[2..]))
      case 'n' => Some((10 as char, s[2..]))
      case 'f' => Some((12 as char, s[2..]))
      case 'r' => Some((13 as char, s[2..]))
      case _ => None
  }

  /** The rest of a string whose opening quote has been read. */
  function Unquote(s: string): (r: Option<(string, string)>)
    ensures r.Some? ==> |r.value.1| < |s|
    decreases |s|
  {
    if s == "" then None
    else if s[0] == '"' then Some(("", s[1..]))
    else
      var c := Unescape(s);
      if c.None? then None
      else
        var tail := Unquote(c.value.1);
        if tail.None? then None else Some(([c.value.0] + tail.value.0, tail.value.1))
  }

  lemma UnescapeEscaped(c: char, rest: string)
    ensures Unescape(Escape(c) + rest) == Some((c, rest))
    ensures (Escape(c) + rest)[0] != '"'
  {
    var e := Escape(c);
    var s := e + rest;
    if c as int >= 32 && c != '"' && c != '\\' {
      assert s[1..] == rest;
    } else if e[1] != 'u' {
      assert s[2..] == rest;
    } else {
      assert e == ['\\', 'u', '0', '0', Hex.HexChar(c as int / 16), Hex.HexChar(c as int % 16)];
      assert s[6..] == rest;
      assert s[2] == '0' && s[3] == '0' && s[4] == e[4] && s[5] == e[5];
    }
  }

  lemma {:induction false} UnquoteEscaped(t: string, rest: string)
    ensures Unquote(Escaped(t) + "\"" + rest) == Some((t, rest))
  {
    var s := Escaped(t) + "\"" + rest;
    if t == "" {
      assert s == "\"" + rest;
    } else {
      var tail := Escaped(t[1..]) + "\"" + rest;
      UnquoteEscaped(t[1..], rest);
      assert s == Escape(t[0]) + tail;
      UnescapeEscaped(t[0], tail);
      assert [t[0]] + t[1..] == t;
    }
  }

  // ---- no text is shorter ------------------------------------------------------------

  lemma UnescapeTakes(s: string)
    requires s != "" && s[0] != '"' && Unescape(s).Some?
    ensures var (c, rest) := Unescape(s).value; |Escape(c)| <= |s| - |rest|
  {
  }

  /** However a string is spelled, it takes at least as many characters as its canonical text. */
  lemma {:induction false} EscapedIsShortest(s: string)
    requires Unquote(s).Some?
    ensures var (t, rest) := Unquote(s).value; |Escaped(t)| + 1 <= |s| - |rest|
    decreases |s|
  {
    if s[0] != '"' {
      var (c, tail) := Unescape(s).value;
      var (t, rest) := Unquote(tail).value;
      UnescapeTakes(s);
      EscapedIsShortest(tail);
      assert ([c] + t)[1..] == t;
    }
  }

  /** Only a character that stands for itself may be an upper-case letter: escapes are in lower case. */
  lemma EscapesAreLowerCase(c: char)
    ensures forall x | x in Escape(c) :: x == c || Hex.Lower(x) == x
  {
    if c as int < 32 {
      assert Hex.Lower(Hex.HexChar(c as int / 16)) == Hex.HexChar(c as int / 16);
      assert Hex.Lower(Hex.HexChar(c as int % 16)) == Hex.HexChar(c as int % 16);
    }
  }

  // ---- the order of keys --------------------------------------------------------------

  /** Ranks characters as UTF-16 code units do: those beyond U+FFFF start with a surrogate, before U+E000. */
  function Rank(c: char): int {
    var v := c as int;
    if v >= 0x10000 then v - 0x10000 + 0xD800
    else if v >= 0xE000 then v + 0x200000
    else v
  }

  predicate Before(a: string, b: string) {
    b != "" && (a == "" || Rank(a[0]) < Rank(b[0]) || (a[0] == b[0] && Before(a[1..], b[1..])))
  }

  lemma RankInjective(c: char, d: char)
    requires Rank(c) == Rank(d)
    ensures c == d
  {
  }

  lemma {:induction false} BeforeTotal(a: string, b: string)
    ensures a == b || Before(a, b) || Before(b, a)
  {
    if a != "" && b != "" {
      if a[0] == b[0] {
        BeforeTotal(a[1..], b[1..]);
        assert a == [a[0]] + a[1..] && b == [b[0]] + b[1..];
      } else if Rank(a[0]) == Rank(b[0]) {
        RankInjective(a[0], b[0]);
      }
    }
  }

  lemma {:induction false} BeforeTransitive(a: string, b: string, c: string)
    requires Before(a, b) && Before(b, c)
    ensures Before(a, c)
  {
    if a != "" && a[0] == b[0] == c[0] && Before(a[1..], b[1..]) && Before(b[1..], c[1..]) {
      BeforeTransitive(a[1..], b[1..], c[1..]);
    }
  }

  lemma {:induction false} BeforeIrreflexive(a: string)
    ensures !Before(a, a)
  {
    if a != "" { BeforeIrreflexive(a[1..]); }
  }

  lemma BeforeAsymmetric(a: string, b: string)
    requires Before(a, b)
    ensures !Before(b, a) && a != b
  {
    BeforeIrreflexive(a);
    if Before(b, a) { BeforeTransitive(a, b, a); }
  }

  // ---- that this is the order of the code units -----------------------------------------

  /** The UTF-16 code units of a text. */
  function CodeUnits(s: string): (units: seq<int>)
    ensures forall i | 0 <= i < |units| :: 0 <= units[i] < 0x10000
  {
    if s == "" then []
    else
      var v := s[0] as int;
      (if v < 0x10000 then [v] else [0xD800 + (v - 0x10000) / 0x400, 0xDC00 + (v - 0x10000) % 0x400])
        + CodeUnits(s[1..])
  }

  predicate UnitsBefore(a: seq<int>, b: seq<int>) {
    b != [] && (a == [] || a[0] < b[0] || (a[0] == b[0] && UnitsBefore(a[1..], b[1..])))
  }

  /** `Before` on characters is exactly the lexicographic order of UTF-16 code units. */
  lemma {:induction false} BeforeIsCodeUnitOrder(a: string, b: string)
    ensures Before(a, b) <==> UnitsBefore(CodeUnits(a), CodeUnits(b))
  {
    var ua, ub := CodeUnits(a), CodeUnits(b);
    if a != "" && b != "" {
      var ta, tb := CodeUnits(a[1..]), CodeUnits(b[1..]);
      BeforeIsCodeUnitOrder(a[1..], b[1..]);
      var va, vb := a[0] as int, b[0] as int;
      if va < 0x10000 { assert ua[1..] == ta; } else { assert ua[1..][1..] == ta; }
      if vb < 0x10000 { assert ub[1..] == tb; } else { assert ub[1..][1..] == tb; }
    }
  }
}
