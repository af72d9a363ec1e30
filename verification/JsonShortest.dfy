/** The canonical text is the shortest that its value can be read from: nothing in it is redundant. */
module JsonShortest {
  import opened Basics
  import opened Numbers
  import opened JsonText
  import opened Json
  import opened JsonDecode
  import opened JsonSame

  // ---- how long a canonical text is ------------------------------------------------------

  function TextSize(v: JsValue): nat
    decreases Size(v)
  {
    match v
    case Null => 4
    case Bool(b) => if b then 4 else 5
    case Number(num) => |Print(num)|
    case Str(text) => |Quote(text)|
    case Arr(es) => if es == [] then 2 else 1 + ElemsText(es)
    case Obj(fs) => if fs == [] then 2 else 1 + FieldsText(fs)
    case Unrepresentable => 0
  }

  /** Each element with the comma or the bracket after it. */
  function ElemsText(es: seq<JsValue>): nat
    decreases ElemsSize(es)
  {
    if es == [] then 0 else 1 + TextSize(es[0]) + ElemsText(es[1..])
  }

  function FieldsText(fs: seq<Field>): nat
    decreases FieldsSize(fs)
  {
    if fs == [] then 0 else 2 + |Quote(fs[0].key)| + TextSize(fs[0].val) + FieldsText(fs[1..])
  }

  lemma {:induction false} InsertText(f: Field, fs: seq<Field>)
    ensures FieldsText(Insert(f, fs)) == 2 + |Quote(f.key)| + TextSize(f.val) + FieldsText(fs)
  {
    hide TextSize, Quote;
    var r := Insert(f, fs);
    if fs == [] || Before(f.key, fs[0].key) {
      assert r[1..] == fs;
    } else {
      InsertText(f, fs[1..]);
      assert r[1..] == Insert(f, fs[1..]);
    }
  }

  lemma {:induction false} SortedText(fs: seq<Field>)
    ensures FieldsText(Sorted(fs)) == FieldsText(fs)
  {
    hide TextSize, Quote;
    if fs != [] {
      SortedText(fs[1..]);
      InsertText(fs[0], Sorted(fs[1..]));
    }
  }

  /** The characters of all parts, each with one more for its comma. */
  function PartsText(parts: seq<string>): nat {
    if parts == [] then 0 else 1 + |parts[0]| + PartsText(parts[1..])
  }

  lemma {:induction false} CommaTailText(parts: seq<string>)
    ensures |CommaTail(parts)| == PartsText(parts)
  {
    if parts != [] { CommaTailText(parts[1..]); }
  }

  lemma JoinText(parts: seq<string>)
    ensures |Join(parts)| + 1 == if parts == [] then 1 else PartsText(parts)
  {
    if parts != [] { CommaTailText(parts[1..]); }
  }

  lemma {:induction false} EncodedSize(v: JsValue)
    requires Encode(v).Some?
    ensures |Encode(v).value| == TextSize(v)
    decreases Size(v), 1
  {
    match v
    case Arr(es) =>
      EncodedElemsSize(es);
      JoinText(EncodeElems(es).value);
    case Obj(fs) =>
      EncodedFieldsSize(Sorted(fs));
      SortedText(fs);
      JoinText(EncodeFields(Sorted(fs)).value);
    case _ =>
  }

  lemma {:induction false} EncodedElemsSize(es: seq<JsValue>)
    requires EncodeElems(es).Some?
    ensures PartsText(EncodeElems(es).value) == ElemsText(es) && |EncodeElems(es).value| == |es|
    decreases ElemsSize(es), 0
  {
    if es != [] {
      EncodedSize(es[0]);
      EncodedElemsSize(es[1..]);
      assert EncodeElems(es).value[1..] == EncodeElems(es[1..]).value;
    }
  }

  lemma {:induction false} EncodedFieldsSize(fs: seq<Field>)
    requires EncodeFields(fs).Some?
    ensures PartsText(EncodeFields(fs).value) == FieldsText(fs) && |EncodeFields(fs).value| == |fs|
    decreases FieldsSize(fs), 0
  {
    if fs != [] {
      EncodedSize(fs[0].val);
      EncodedFieldsSize(fs[1..]);
      assert EncodeFields(fs).value[1..] == EncodeFields(fs[1..]).value;
    }
  }

  // ---- how much a text must hold -----------------------------------------------------------

  /** Whatever text a value is read from has at least the size of the value's canonical text. */
  lemma {:induction false} ParseTakes(s: string)
    requires ParseValue(s).Some?
    ensures var (v, rest) := ParseValue(s).value; Representable(v) && TextSize(v) <= |s| - |rest|
    decreases |s|, 1
  {
    hide Scan, Unquote, Print, Escaped;
    if s[0] == '"' {
      EscapedIsShortest(s[1..]);
    } else if s[0] == '[' {
      if |s| < 2 || s[1] != ']' { ElemsTake("," + s[1..]); }
    } else if s[0] == '{' {
      if |s| < 2 || s[1] != '}' { FieldsTake("," + s[1..]); }
    } else if s[0] != 'n' && s[0] != 't' && s[0] != 'f' {
      PrintIsShortest(s);
    }
  }

  lemma {:induction false} ElemsTake(s: string)
    requires ParseElems(s).Some?
    ensures var (es, rest) := ParseElems(s).value;
      && ElemsText(es) + 1 <= |s| - |rest| && (s[0] == ',' ==> es != [])
      && forall e | e in es :: Representable(e)
    decreases |s|, 0
  {
    if s[0] == ',' {
      var (v, tail) := ParseValue(s[1..]).value;
      var (es, rest) := ParseElems(tail).value;
      ParseTakes(s[1..]);
      ElemsTake(tail);
      assert ([v] + es)[1..] == es;
    }
  }

  lemma {:induction false} FieldsTake(s: string)
    requires ParseFields(s).Some?
    ensures var (fs, rest) := ParseFields(s).value;
      && FieldsText(fs) + 1 <= |s| - |rest| && (s[0] == ',' ==> fs != [])
      && forall f | f in fs :: Representable(f.val)
    decreases |s|, 0
  {
    if s[0] == ',' {
      var (key, after) := Unquote(s[2..]).value;
      var (v, tail) := ParseValue(after[1..]).value;
      var (fs, rest) := ParseFields(tail).value;
      EscapedIsShortest(s[2..]);
      ParseTakes(after[1..]);
      FieldsTake(tail);
      assert ([Field(key, v)] + fs)[1..] == fs;
    }
  }

  /** No text from which the same JSON value can be read is shorter than its canonical text. */
  lemma CanonicalIsShortest(v: JsValue, s: string)
    requires Valid(v) && Representable(v)
    requires ParseValue(s).Some? && ParseValue(s).value.1 == ""
    requires var w := ParseValue(s).value.0; Valid(w) && Same(v, w)
    ensures Encode(v).Some? && |Encode(v).value| <= |s|
  {
    hide *;
    var w := ParseValue(s).value.0;
    ParseTakes(s);
    CanonicalTextIsFaithful(v, w);
    EncodedSize(w);
  }

  /** An integer is printed as its digits, without sign, leading zeros, point or exponent beyond need. */
  lemma IntegersArePlain(n: nat)
    ensures var s := Encode(Number(IntNum(n)));
      && s.Some? && s.value != "" && AllDigits(s.value) && NatOf(s.value) == n
      && (s.value[0] == '0' ==> s.value == "0")
    ensures n > 0 ==> Encode(Number(IntNum(0 - n))) == Some("-" + Encode(Number(IntNum(n))).value)
  {
    hide Decimal, NatOf;
    NatOfDecimal(n);
    NoLeadingZero(n);
    assert Print(IntNum(n)) == Decimal(n);
    if n > 0 { assert Print(IntNum(0 - n)) == "-" + Decimal(n); }
  }
}
