/** A decoder that undoes the canonical text, and what it proves: equal texts mean equal values. */
module JsonDecode {
  import opened Basics
  import opened Numbers
  import opened JsonText
  import opened Json

  // ---- the decoder --------------------------------------------------------------------

  function ParseValue(s: string): (r: Option<(JsValue, string)>)
    ensures r.Some? ==> |r.value.1| < |s|
    decreases |s|, 1
  {
    if s == "" then None
    else if s[0] == 'n' then if "null" <= s then Some((Null, s[4..])) else None
    else if s[0] == 't' then if "true" <= s then Some((Bool(true), s[4..])) else None
    else if s[0] == 'f' then if "false" <= s then Some((Bool(false), s[5..])) else None
    else if s[0] == '"' then
      var t := Unquote(s[1..]);
      if t.None? then None else Some((Str(t.value.0), t.value.1))
    else if s[0] == '[' then
      if |s| >= 2 && s[1] == ']' then Some((Arr([]), s[2..]))
      else
        var es := ParseElems("," + s[1..]);
        if es.None? then None else Some((Arr(es.value.0), es.value.1))
    else if s[0] == '{' then
      if |s| >= 2 && s[1] == '}' then Some((Obj([]), s[2..]))
      else
        var fs := ParseFields("," + s[1..]);
        if fs.None? then None else Some((Obj(fs.value.0), fs.value.1))
    else
      var x := Scan(s);
      if x.None? then None else Some((Number(x.value.0), x.value.1))
  }

  /** Elements, each after a comma, up to the closing bracket. */
  function ParseElems(s: string): (r: Option<(seq<JsValue>, string)>)
    ensures r.Some? ==> |r.value.1| < |s|
    decreases |s|, 0
  {
    if s == "" then None
    else if s[0] == ']' then Some(([], s[1..]))
    else if s[0] != ',' then None
    else
      var v := ParseValue(s[1..]);
      if v.None? then None
      else
        var rest := ParseElems(v.value.1);
        if rest.None? then None else Some(([v.value.0] + rest.value.0, rest.value.1))
  }

  /** Members, each after a comma, up to the closing brace. */
  function ParseFields(s: string): (r: Option<(seq<Field>, string)>)
    ensures r.Some? ==> |r.value.1| < |s|
    decreases |s|, 0
  {
    if s == "" then None
    else if s[0] == '}' then Some(([], s[1..]))
    else if |s| < 2 || s[0] != ',' || s[1] != '"' then None
    else
      var key := Unquote(s[2..]);
      if key.None? || key.value.1 == "" || key.value.1[0] != ':' then None
      else
        var v := ParseValue(key.value.1[1..]);
        if v.None? then None
        else
          var rest := ParseFields(v.value.1);
          if rest.None? then None else Some(([Field(key.value.0, v.value.0)] + rest.value.0, rest.value.1))
  }

  // ---- canonical form --------------------------------------------------------------------

  /** The value with every object's keys in order. */
  function Canon(v: JsValue): JsValue
    decreases Size(v)
  {
    match v
    case Arr(es) => Arr(CanonElems(es))
    case Obj(fs) => Obj(CanonFields(Sorted(fs)))
    case _ => v
  }

  function CanonElems(es: seq<JsValue>): (r: seq<JsValue>)
    ensures |r| == |es|
    decreases ElemsSize(es)
  {
    if es == [] then [] else [Canon(es[0])] + CanonElems(es[1..])
  }

  function CanonFields(fs: seq<Field>): (r: seq<Field>)
    ensures |r| == |fs|
    decreases FieldsSize(fs)
  {
    if fs == [] then [] else [Field(fs[0].key, Canon(fs[0].val))] + CanonFields(fs[1..])
  }

  // ---- the decoder undoes the encoder -------------------------------------------------------

  lemma JoinIsTail(parts: seq<string>)
    requires parts != []
    ensures "," + Join(parts) == CommaTail(parts)
  {
  }

  /** The first character of a value's text: never a closing bracket. */
  lemma EncodeStarts(v: JsValue)
    requires Encode(v).Some?
    ensures var s := Encode(v).value; s != "" && s[0] != ']'
  {
  }

  lemma DecodeScalar(v: JsValue, rest: string)
    requires Valid(v) && Encode(v).Some? && !v.Arr? && !v.Obj? && !Continues(rest)
    ensures ParseValue(Encode(v).value + rest) == Some((v, rest))
  {
    hide Scan, Unquote, Escaped, Print, ParseElems, ParseFields, EncodeElems, EncodeFields, Sorted, Join;
    var s := Encode(v).value + rest;
    match v
    case Null => assert s[4..] == rest;
    case Bool(b) => if b { assert s[4..] == rest; } else { assert s[5..] == rest; }
    case Number(num) => ScanPrinted(num, rest);
    case Str(text) =>
      assert s[1..] == Escaped(text) + "\"" + rest;
      UnquoteEscaped(text, rest);
  }

  lemma {:induction false} DecodeEncode(v: JsValue, rest: string)
    requires Valid(v) && Encode(v).Some? && !Continues(rest)
    ensures ParseValue(Encode(v).value + rest) == Some((Canon(v), rest))
    decreases Size(v), 1
  {
    hide ParseValue, CommaTail, Join, Scan, Unquote, Quote, Print, EncodeElems, EncodeFields, Sorted, CanonElems,
      CanonFields;
    match v
    case Arr(es) =>
      var parts := EncodeElems(es).value;
      DecodeElems(es, rest);
      PartsStart(es, []);
      OpenArray(CanonElems(es), parts, rest);
    case Obj(fs) =>
      var sorted := Sorted(fs);
      var parts := EncodeFields(sorted).value;
      DecodeFields(sorted, rest);
      PartsStart([], sorted);
      OpenObject(CanonFields(sorted), parts, rest);
    case _ =>
      DecodeScalar(v, rest);
  }

  /** Reading an array or an object whose parts, each after a comma, read as told. */
  lemma OpenArray(es: seq<JsValue>, parts: seq<string>, rest: string)
    requires parts == [] ==> es == []
    requires parts != [] ==> parts[0] != "" && parts[0][0] != ']'
    requires ParseElems(CommaTail(parts) + "]" + rest) == Some((es, rest))
    ensures ParseValue("[" + Join(parts) + "]" + rest) == Some((Arr(es), rest))
  {
    hide Scan, Unquote, ParseElems, ParseFields;
    var s := "[" + Join(parts) + "]" + rest;
    if parts == [] {
      assert s == "[]" + rest && s[2..] == rest;
    } else {
      JoinIsTail(parts);
      assert s[1] == parts[0][0] by { JoinStarts(parts); }
      assert "," + s[1..] == CommaTail(parts) + "]" + rest;
    }
  }

  lemma OpenObject(fs: seq<Field>, parts: seq<string>, rest: string)
    requires parts == [] ==> fs == []
    requires parts != [] ==> parts[0] != "" && parts[0][0] != '}'
    requires ParseFields(CommaTail(parts) + "}" + rest) == Some((fs, rest))
    ensures ParseValue("{" + Join(parts) + "}" + rest) == Some((Obj(fs), rest))
  {
    hide Scan, Unquote, ParseElems, ParseFields;
    var s := "{" + Join(parts) + "}" + rest;
    if parts == [] {
      assert s == "{}" + rest && s[2..] == rest;
    } else {
      JoinIsTail(parts);
      assert s[1] == parts[0][0] by { JoinStarts(parts); }
      assert "," + s[1..] == CommaTail(parts) + "}" + rest;
    }
  }

  lemma JoinStarts(parts: seq<string>)
    requires parts != [] && parts[0] != ""
    ensures Join(parts) != "" && Join(parts)[0] == parts[0][0]
  {
  }

  /** The first part of an array or an object does not look like its end. */
  lemma PartsStart(es: seq<JsValue>, fs: seq<Field>)
    ensures es != [] && EncodeElems(es).Some? ==> EncodeElems(es).value[0] != "" && EncodeElems(es).value[0][0] != ']'
    ensures fs != [] && EncodeFields(fs).Some?
        ==> EncodeFields(fs).value[0] != "" && EncodeFields(fs).value[0][0] == '"'
  {
    if es != [] && EncodeElems(es).Some? { EncodeStarts(es[0]); }
  }

  lemma {:induction false} DecodeElems(es: seq<JsValue>, rest: string)
    requires (forall e | e in es :: Valid(e)) && EncodeElems(es).Some?
    ensures ParseElems(CommaTail(EncodeElems(es).value) + "]" + rest) == Some((CanonElems(es), rest))
    decreases ElemsSize(es), 0
  {
    hide ParseValue, Encode, Canon, Valid, Join;
    var parts := EncodeElems(es).value;
    var s := CommaTail(parts) + "]" + rest;
    if es == [] {
      assert s == "]" + rest;
    } else {
      var tail := CommaTail(parts[1..]) + "]" + rest;
      assert parts[1..] == EncodeElems(es[1..]).value;
      assert s == "," + (parts[0] + tail);
      TailStops(parts[1..], "]", rest);
      DecodeEncode(es[0], tail);
      DecodeElems(es[1..], rest);
    }
  }

  lemma TailStops(parts: seq<string>, close: string, rest: string)
    requires close == "]" || close == "}"
    ensures !Continues(CommaTail(parts) + close + rest)
  {
    var s := CommaTail(parts) + close + rest;
    if parts == [] { assert s == close + rest; }
  }

  lemma {:induction false} DecodeFields(fs: seq<Field>, rest: string)
    requires (forall f | f in fs :: Valid(f.val)) && EncodeFields(fs).Some?
    ensures ParseFields(CommaTail(EncodeFields(fs).value) + "}" + rest) == Some((CanonFields(fs), rest))
    decreases FieldsSize(fs), 0
  {
    var parts := EncodeFields(fs).value;
    var s := CommaTail(parts) + "}" + rest;
    if fs == [] {
      assert s == "}" + rest;
    } else {
      var tail := CommaTail(parts[1..]) + "}" + rest;
      var text := Encode(fs[0].val).value;
      assert parts[1..] == EncodeFields(fs[1..]).value;
      TailStops(parts[1..], "}", rest);
      assert s == "," + (Quote(fs[0].key) + ":" + text) + tail;
      hide ParseValue, CommaTail, Encode, EncodeFields, Unquote, Quote;
      OneMember(s, fs[0].key, text, tail);
      DecodeEncode(fs[0].val, tail);
      DecodeFields(fs[1..], rest);
    }
  }

  /** Reading one member: the comma, the quoted key, the colon, then the value's text. */
  lemma OneMember(s: string, key: string, text: string, tail: string)
    requires s == "," + (Quote(key) + ":" + text) + tail
    ensures |s| >= 2 && s[0] == ',' && s[1] == '"'
    ensures Unquote(s[2..]) == Some((key, ":" + (text + tail)))
    ensures (":" + (text + tail))[1..] == text + tail
  {
    assert s[2..] == Escaped(key) + "\"" + (":" + (text + tail));
    UnquoteEscaped(key, ":" + (text + tail));
  }
}
