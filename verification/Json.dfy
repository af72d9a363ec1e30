/** JSON values and their canonical text: canonicalize.ts. */
module Json {
  import opened Basics
  import opened Numbers
  import opened JsonText

  /** `Unrepresentable` stands for undefined, functions, symbols, bigints and non-finite numbers. */
  datatype JsValue =
    | Null
    | Bool(b: bool)
    | Number(num: Num)
    | Str(text: string)
    | Arr(elems: seq<JsValue>)
    | Obj(fields: seq<Field>)
    | Unrepresentable

  datatype Field = Field(key: string, val: JsValue)

  // ---- well-formed values ------------------------------------------------------------

  predicate DistinctKeys(fs: seq<Field>) {
    forall i, j | 0 <= i < j < |fs| :: fs[i].key != fs[j].key
  }

  predicate Valid(v: JsValue) {
    match v
    case Number(num) => WellFormed(num)
    case Arr(es) => forall e | e in es :: Valid(e)
    case Obj(fs) => DistinctKeys(fs) && forall f | f in fs :: Valid(f.val)
    case _ => true
  }

  /** Nothing in `v` that the encoder rejects. */
  predicate Representable(v: JsValue) {
    match v
    case Unrepresentable => false
    case Arr(es) => forall e | e in es :: Representable(e)
    case Obj(fs) => forall f | f in fs :: Representable(f.val)
    case _ => true
  }

  ghost function Size(v: JsValue): nat {
    match v
    case Arr(es) => 1 + ElemsSize(es)
    case Obj(fs) => 1 + FieldsSize(fs)
    case _ => 1
  }

  ghost function ElemsSize(es: seq<JsValue>): nat {
    if es == [] then 0 else 1 + Size(es[0]) + ElemsSize(es[1..])
  }

  ghost function FieldsSize(fs: seq<Field>): nat {
    if fs == [] then 0 else 1 + Size(fs[0].val) + FieldsSize(fs[1..])
  }

  // ---- sorted keys --------------------------------------------------------------------

  function Insert(f: Field, fs: seq<Field>): (r: seq<Field>)
    ensures |r| == |fs| + 1 && FieldsSize(r) == 1 + Size(f.val) + FieldsSize(fs)
    ensures forall x :: x in r <==> x == f || x in fs
  {
    if fs == [] || Before(f.key, fs[0].key) then [f] + fs
    else
      var r := [fs[0]] + Insert(f, fs[1..]);
      assert r[1..] == Insert(f, fs[1..]);
      assert fs == [fs[0]] + fs[1..];
      r
  }

  /** Object.keys(obj).sort(), with the values carried along. */
  function Sorted(fs: seq<Field>): (r: seq<Field>)
    ensures |r| == |fs| && FieldsSize(r) == FieldsSize(fs)
    ensures forall x :: x in r <==> x in fs
  {
    if fs == [] then []
    else
      assert fs == [fs[0]] + fs[1..];
      Insert(fs[0], Sorted(fs[1..]))
  }

  // ---- the encoder -----------------------------------------------------------------------

  /** Each part after a comma. */
  function CommaTail(parts: seq<string>): string {
    if parts == [] then "" else "," + parts[0] + CommaTail(parts[1..])
  }

  /** parts.join(",") */
  function Join(parts: seq<string>): string {
    if parts == [] then "" else parts[0] + CommaTail(parts[1..])
  }

  /** canonicalize; None where it throws. */
  function Encode(v: JsValue): (r: Option<string>)
    decreases Size(v)
  {
    match v
    case Null => Some("null")
    case Bool(b) => Some(if b then "true" else "false")
    case Number(num) => Some(Print(num))
    case Str(text) => Some(Quote(text))
    case Arr(es) =>
      var parts := EncodeElems(es);
      if parts.None? then None else Some("[" + Join(parts.value) + "]")
    case Obj(fs) =>
      var parts := EncodeFields(Sorted(fs));
      if parts.None? then None else Some("{" + Join(parts.value) + "}")
    case Unrepresentable => None
  }

  function EncodeElems(es: seq<JsValue>): (r: Option<seq<string>>)
    ensures r.Some? ==> |r.value| == |es|
    decreases ElemsSize(es)
  {
    if es == [] then Some([])
    else
      var first, rest := Encode(es[0]), EncodeElems(es[1..]);
      if first.None? || rest.None? then None else Some([first.value] + rest.value)
  }

  function EncodeFields(fs: seq<Field>): (r: Option<seq<string>>)
    ensures r.Some? ==> |r.value| == |fs|
    decreases FieldsSize(fs)
  {
    if fs == [] then Some([])
    else
      var first, rest := Encode(fs[0].val), EncodeFields(fs[1..]);
      if first.None? || rest.None? then None
      else Some([Quote(fs[0].key) + ":" + first.value] + rest.value)
  }

  /** The encoder throws exactly on values that hold something unrepresentable. */
  lemma {:induction false} EncodesIff(v: JsValue)
    ensures Encode(v).Some? <==> Representable(v)
    decreases Size(v)
  {
    match v
    case Arr(es) => ElemsEncodeIff(es);
    case Obj(fs) => FieldsEncodeIff(Sorted(fs));
    case _ =>
  }

  lemma {:induction false} ElemsEncodeIff(es: seq<JsValue>)
    ensures EncodeElems(es).Some? <==> forall e | e in es :: Representable(e)
    decreases ElemsSize(es)
  {
    if es != [] {
      assert es == [es[0]] + es[1..];
      EncodesIff(es[0]);
      ElemsEncodeIff(es[1..]);
    }
  }

  lemma {:induction false} FieldsEncodeIff(fs: seq<Field>)
    ensures EncodeFields(fs).Some? <==> forall f | f in fs :: Representable(f.val)
    decreases FieldsSize(fs)
  {
    if fs != [] {
      assert fs == [fs[0]] + fs[1..];
      EncodesIff(fs[0].val);
      FieldsEncodeIff(fs[1..]);
    }
  }

  // ---- canonicalize itself ------------------------------------------------------------------

  /** The recursive printer. */
  method Canonicalize(v: JsValue) returns (r: Option<string>)
    ensures r == Encode(v)
    decreases Size(v), 1
  {
    match v
    case Arr(es) =>
      var parts := CanonicalElems(es);
      r := if parts.None? then None else Some("[" + Join(parts.value) + "]");
    case Obj(fs) =>
      var parts := CanonicalFields(Sorted(fs));
      r := if parts.None? then None else Some("{" + Join(parts.value) + "}");
    case _ =>
      r := Encode(v);
  }

  /** v.map((el) => encode(el)) */
  method CanonicalElems(es: seq<JsValue>) returns (r: Option<seq<string>>)
    ensures r == EncodeElems(es)
    decreases ElemsSize(es), 2
  {
    var parts: seq<string> := [];
    assert es[0..] == es;
    PrependNothing(EncodeElems(es));
    for i := 0 to |es|
      invariant EncodeElems(es) == Prepend(parts, EncodeElems(es[i..]))
    {
      ElemInside(es, i);
      NextElem(parts, es[i..]);
      assert es[i..][1..] == es[i + 1..];
      hide EncodeElems, Prepend;
      var part := Canonicalize(es[i]);
      if part.None? { return None; }
      parts := parts + [part.value];
    }
    assert es[|es|..] == [] && parts + [] == parts;
    r := Some(parts);
  }

  /** The loop over the sorted keys that pushes onto `parts`. */
  method CanonicalFields(fs: seq<Field>) returns (r: Option<seq<string>>)
    ensures r == EncodeFields(fs)
    decreases FieldsSize(fs), 2
  {
    var parts: seq<string> := [];
    assert fs[0..] == fs;
    PrependNothing(EncodeFields(fs));
    for i := 0 to |fs|
      invariant EncodeFields(fs) == Prepend(parts, EncodeFields(fs[i..]))
    {
      FieldInside(fs, i);
      NextField(parts, fs[i..]);
      assert fs[i..][1..] == fs[i + 1..];
      hide EncodeFields, Prepend;
      var part := Canonicalize(fs[i].val);
      if part.None? { return None; }
      parts := parts + [Quote(fs[i].key) + ":" + part.value];
    }
    assert fs[|fs|..] == [] && parts + [] == parts;
    r := Some(parts);
  }

  lemma PrependNothing(rest: Option<seq<string>>)
    ensures Prepend([], rest) == rest
  {
    if rest.Some? { assert [] + rest.value == rest.value; }
  }

  lemma NextElem(parts: seq<string>, es: seq<JsValue>)
    requires es != []
    ensures var part := Encode(es[0]);
      Prepend(parts, EncodeElems(es)) == if part.None? then None
        else Prepend(parts + [part.value], EncodeElems(es[1..]))
  {
    var part, rest := Encode(es[0]), EncodeElems(es[1..]);
    if part.Some? && rest.Some? {
      assert parts + ([part.value] + rest.value) == (parts + [part.value]) + rest.value;
    }
  }

  lemma NextField(parts: seq<string>, fs: seq<Field>)
    requires fs != []
    ensures var part := Encode(fs[0].val);
      Prepend(parts, EncodeFields(fs)) ==
      if part.None? then None else Prepend(parts + [Quote(fs[0].key) + ":" + part.value], EncodeFields(fs[1..]))
  {
    var part, rest := Encode(fs[0].val), EncodeFields(fs[1..]);
    if part.Some? && rest.Some? {
      var text := Quote(fs[0].key) + ":" + part.value;
      assert parts + ([text] + rest.value) == (parts + [text]) + rest.value;
    }
  }

  ghost function Prepend(parts: seq<string>, rest: Option<seq<string>>): Option<seq<string>> {
    if rest.None? then None else Some(parts + rest.value)
  }

  lemma {:induction false} ElemInside(es: seq<JsValue>, i: nat)
    requires i < |es|
    ensures Size(es[i]) < ElemsSize(es)
  {
    if i > 0 { ElemInside(es[1..], i - 1); }
  }

  lemma {:induction false} FieldInside(fs: seq<Field>, i: nat)
    requires i < |fs|
    ensures Size(fs[i].val) < FieldsSize(fs)
  {
    if i > 0 { FieldInside(fs[1..], i - 1); }
  }
}
