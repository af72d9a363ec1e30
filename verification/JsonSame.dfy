/** Canonical text is faithful: equal texts are equal values up to the order of object keys. */
module JsonSame {
  import opened Basics
  import opened JsonText
  import opened Json
  import opened JsonDecode

  /** The same JSON value, whatever the order of keys in its objects. */
  ghost predicate Same(v: JsValue, w: JsValue)
    decreases v
  {
    match v
    case Arr(es) => w.Arr? && |es| == |w.elems| && forall i | 0 <= i < |es| :: Same(es[i], w.elems[i])
    case Obj(fs) =>
      w.Obj? && (forall f | f in fs :: Occurs(f, w.fields)) && (forall g | g in w.fields :: Recurs(fs, g))
    case _ => v == w
  }

  /** `gs` has a member with the key of `f` and the same value. */
  ghost predicate Occurs(f: Field, gs: seq<Field>)
    decreases f
  {
    exists g :: g in gs && f.key == g.key && Same(f.val, g.val)
  }

  /** `fs` has a member with the key of `g` and the same value. */
  ghost predicate Recurs(fs: seq<Field>, g: Field)
    decreases fs
  {
    exists f :: f in fs && f.key == g.key && Same(f.val, g.val)
  }

  // ---- sorting by key ----------------------------------------------------------------

  ghost predicate Strict(fs: seq<Field>) {
    forall i, j | 0 <= i < j < |fs| :: Before(fs[i].key, fs[j].key)
  }

  lemma FrontStrict(f: Field, fs: seq<Field>)
    requires Strict(fs) && (fs != [] ==> Before(f.key, fs[0].key))
    ensures Strict([f] + fs)
  {
    hide Before;
    forall j | 0 < j < |fs| ensures Before(f.key, fs[j].key) { BeforeTransitive(f.key, fs[0].key, fs[j].key); }
  }

  lemma {:induction false} InsertStrict(f: Field, fs: seq<Field>)
    requires Strict(fs) && forall x | x in fs :: x.key != f.key
    ensures Strict(Insert(f, fs))
  {
    hide Before;
    if fs == [] || Before(f.key, fs[0].key) {
      FrontStrict(f, fs);
    } else {
      BeforeTotal(f.key, fs[0].key);
      InsertStrict(f, fs[1..]);
      var rest := Insert(f, fs[1..]);
      assert rest[0] in rest;
      FrontStrict(fs[0], rest);
    }
  }

  lemma {:induction false} SortedStrict(fs: seq<Field>)
    requires DistinctKeys(fs)
    ensures Strict(Sorted(fs))
  {
    if fs != [] {
      SortedStrict(fs[1..]);
      InsertStrict(fs[0], Sorted(fs[1..]));
    }
  }

  lemma TailMembers(a: seq<Field>)
    requires Strict(a) && a != []
    ensures forall x :: x in a[1..] <==> x in a && x != a[0]
  {
    assert a == [a[0]] + a[1..];
    BeforeIrreflexive(a[0].key);
    forall i | 0 <= i < |a[1..]| ensures a[1..][i] != a[0] {
      assert Before(a[0].key, a[i + 1].key);
    }
  }

  /** A strictly sorted list is determined by its members. */
  lemma {:induction false} StrictUnique(a: seq<Field>, b: seq<Field>)
    requires Strict(a) && Strict(b) && forall x :: x in a <==> x in b
    ensures a == b
  {
    if a == [] {
      assert b == [] by { assert forall i | 0 <= i < |b| :: b[i] in b; }
    } else {
      assert a[0] in b;
      var j :| 0 <= j < |b| && b[j] == a[0];
      var i :| 0 <= i < |a| && a[i] == b[0] by { assert b[0] in a; }
      if j > 0 && i > 0 { BeforeAsymmetric(a[0].key, a[i].key); }
      if i == 0 { if j > 0 { BeforeIrreflexive(a[0].key); } }
      assert a[0] == b[0];
      TailMembers(a);
      TailMembers(b);
      StrictUnique(a[1..], b[1..]);
      assert a == [a[0]] + a[1..] && b == [b[0]] + b[1..];
    }
  }

  lemma {:induction false} CanonFieldsAt(fs: seq<Field>, i: nat)
    requires i < |fs|
    ensures CanonFields(fs)[i] == Field(fs[i].key, Canon(fs[i].val))
  {
    if i > 0 { CanonFieldsAt(fs[1..], i - 1); }
  }

  lemma {:induction false} CanonElemsAt(es: seq<JsValue>, i: nat)
    requires i < |es|
    ensures CanonElems(es)[i] == Canon(es[i])
  {
    if i > 0 { CanonElemsAt(es[1..], i - 1); }
  }

  function Keyed(f: Field): Field { Field(f.key, Canon(f.val)) }

  /** `x` is a member of `fs` with its value in canonical form. */
  ghost predicate FromMember(x: Field, fs: seq<Field>) { exists f :: f in fs && x == Keyed(f) }

  /** The members of an object's canonical form, and their order. */
  lemma CanonMembers(fs: seq<Field>)
    requires DistinctKeys(fs)
    ensures forall x :: x in CanonFields(Sorted(fs)) <==> FromMember(x, fs)
    ensures Strict(CanonFields(Sorted(fs)))
  {
    var sorted := Sorted(fs);
    var canon := CanonFields(sorted);
    SortedStrict(fs);
    forall i | 0 <= i < |sorted| { CanonFieldsAt(sorted, i); }
    forall x ensures x in canon <==> FromMember(x, fs) {
      if x in canon {
        var i :| 0 <= i < |canon| && canon[i] == x;
        assert sorted[i] in fs && x == Keyed(sorted[i]);
      }
      if f :| f in fs && x == Keyed(f) {
        assert f in sorted;
        var i :| 0 <= i < |sorted| && sorted[i] == f;
        assert canon[i] == x;
      }
    }
  }

  // ---- canonical form decides sameness ---------------------------------------------------

  lemma {:induction false} CanonIff(v: JsValue, w: JsValue)
    requires Valid(v) && Valid(w)
    ensures Canon(v) == Canon(w) <==> Same(v, w)
    decreases v
  {
    if v.Arr? && w.Arr? {
      ArraysIff(v, w);
    } else if v.Obj? && w.Obj? {
      ObjectsIff(v, w);
    }
  }

  lemma {:induction false} ArraysIff(v: JsValue, w: JsValue)
    requires v.Arr? && w.Arr? && Valid(v) && Valid(w)
    ensures Canon(v) == Canon(w) <==> Same(v, w)
    decreases v, 0
  {
    var a, b := CanonElems(v.elems), CanonElems(w.elems);
    forall i | 0 <= i < |v.elems| { CanonElemsAt(v.elems, i); }
    forall i | 0 <= i < |w.elems| { CanonElemsAt(w.elems, i); }
    forall i | 0 <= i < |v.elems| && |v.elems| == |w.elems| ensures a[i] == b[i] <==> Same(v.elems[i], w.elems[i]) {
      CanonIff(v.elems[i], w.elems[i]);
    }
  }

  /** Each member of `fs` stands, in canonical form, among those of `gs`. */
  ghost predicate Included(fs: seq<Field>, gs: seq<Field>) {
    forall f | f in fs :: FromMember(Keyed(f), gs)
  }

  lemma {:induction false} ObjectsIff(v: JsValue, w: JsValue)
    requires v.Obj? && w.Obj? && Valid(v) && Valid(w)
    ensures Canon(v) == Canon(w) <==> Same(v, w)
    decreases v, 0
  {
    var fs, gs := v.fields, w.fields;
    forall f, g | f in fs && g in gs ensures Canon(f.val) == Canon(g.val) <==> Same(f.val, g.val) {
      CanonIff(f.val, g.val);
    }
    forall f | f in fs { OccursIff(f, gs); }
    forall g | g in gs { RecursIff(fs, g); }
    CanonObjects(fs, gs);
  }

  lemma OccursIff(f: Field, gs: seq<Field>)
    requires forall g | g in gs :: Canon(f.val) == Canon(g.val) <==> Same(f.val, g.val)
    ensures Occurs(f, gs) <==> FromMember(Keyed(f), gs)
  {
    hide Canon, Same;
    if Occurs(f, gs) {
      var g :| g in gs && f.key == g.key && Same(f.val, g.val);
      assert Keyed(f) == Keyed(g);
    }
    if g :| g in gs && Keyed(f) == Keyed(g) {
      assert Same(f.val, g.val);
    }
  }

  lemma RecursIff(fs: seq<Field>, g: Field)
    requires forall f | f in fs :: Canon(f.val) == Canon(g.val) <==> Same(f.val, g.val)
    ensures Recurs(fs, g) <==> FromMember(Keyed(g), fs)
  {
    hide Canon, Same;
    if Recurs(fs, g) {
      var f :| f in fs && f.key == g.key && Same(f.val, g.val);
      assert Keyed(g) == Keyed(f);
    }
    if f :| f in fs && Keyed(g) == Keyed(f) {
      assert Same(f.val, g.val);
    }
  }

  lemma CanonObjects(fs: seq<Field>, gs: seq<Field>)
    requires DistinctKeys(fs) && DistinctKeys(gs)
    ensures CanonFields(Sorted(fs)) == CanonFields(Sorted(gs)) <==> Included(fs, gs) && Included(gs, fs)
  {
    hide Canon, CanonFields, Sorted, DistinctKeys, Strict, Keyed;
    var a, b := CanonFields(Sorted(fs)), CanonFields(Sorted(gs));
    CanonMembers(fs);
    CanonMembers(gs);
    if Included(fs, gs) && Included(gs, fs) {
      StrictUnique(a, b);
    }
    if a == b {
      forall f | f in fs ensures FromMember(Keyed(f), gs) { assert FromMember(Keyed(f), fs); }
      forall g | g in gs ensures FromMember(Keyed(g), fs) { assert FromMember(Keyed(g), gs); }
    }
  }

  // ---- equal canonical forms print alike ------------------------------------------------------

  lemma {:induction false} CanonPrints(v: JsValue, w: JsValue)
    requires Canon(v) == Canon(w)
    ensures Encode(v) == Encode(w)
    decreases Size(v)
  {
    match v
    case Arr(es) => ElemsPrint(es, w.elems);
    case Obj(fs) => FieldsPrint(Sorted(fs), Sorted(w.fields));
    case _ =>
  }

  lemma {:induction false} ElemsPrint(es: seq<JsValue>, ds: seq<JsValue>)
    requires CanonElems(es) == CanonElems(ds)
    ensures EncodeElems(es) == EncodeElems(ds)
    decreases ElemsSize(es)
  {
    if es != [] {
      assert CanonElems(es)[0] == CanonElems(ds)[0];
      CanonPrints(es[0], ds[0]);
      assert CanonElems(es[1..]) == CanonElems(es)[1..] && CanonElems(ds[1..]) == CanonElems(ds)[1..];
      ElemsPrint(es[1..], ds[1..]);
    }
  }

  lemma {:induction false} FieldsPrint(fs: seq<Field>, gs: seq<Field>)
    requires CanonFields(fs) == CanonFields(gs)
    ensures EncodeFields(fs) == EncodeFields(gs)
    decreases FieldsSize(fs)
  {
    if fs != [] {
      assert CanonFields(fs)[0] == CanonFields(gs)[0];
      CanonPrints(fs[0].val, gs[0].val);
      assert CanonFields(fs[1..]) == CanonFields(fs)[1..] && CanonFields(gs[1..]) == CanonFields(gs)[1..];
      FieldsPrint(fs[1..], gs[1..]);
    }
  }

  // ---- the theorem ------------------------------------------------------------------------------

  /** canonicalize gives two values the same text exactly when they are the same JSON value. */
  lemma CanonicalTextIsFaithful(v: JsValue, w: JsValue)
    requires Valid(v) && Valid(w) && Representable(v) && Representable(w)
    ensures Encode(v).Some? && Encode(w).Some?
    ensures Encode(v) == Encode(w) <==> Same(v, w)
  {
    EncodesIff(v);
    EncodesIff(w);
    CanonIff(v, w);
    if Encode(v) == Encode(w) {
      DecodeEncode(v, "");
      DecodeEncode(w, "");
    }
    if Same(v, w) { CanonPrints(v, w); }
  }

  /** Decoding a canonical text gives the same value back, keys in order. */
  lemma CanonicalRoundTrip(v: JsValue)
    requires Valid(v) && Representable(v)
    ensures Encode(v).Some? && ParseValue(Encode(v).value) == Some((Canon(v), "")) && Same(v, Canon(v))
  {
    EncodesIff(v);
    DecodeEncode(v, "");
    assert Encode(v).value + "" == Encode(v).value;
    SameAsCanon(v);
  }

  lemma {:induction false} SameAsCanon(v: JsValue)
    requires Valid(v)
    ensures Same(v, Canon(v))
    decreases v
  {
    if v.Obj? { assert Canon(v) == Obj(CanonFields(Sorted(v.fields))); }
    match v
    case Arr(es) =>
      forall i | 0 <= i < |es| ensures Same(es[i], Canon(v).elems[i]) {
        CanonElemsAt(es, i);
        SameAsCanon(es[i]);
      }
    case Obj(fs) =>
      var gs := CanonFields(Sorted(fs));
      CanonMembers(fs);
      forall f | f in fs ensures Same(f.val, Canon(f.val)) { SameAsCanon(f.val); }
      hide Canon, CanonFields, Sorted, DistinctKeys;
      forall f | f in fs ensures Occurs(f, gs) {
        assert FromMember(Keyed(f), fs);
      }
      forall g | g in gs ensures Recurs(fs, g) {
        var f :| f in fs && g == Keyed(f);
      }
    case _ =>
  }
}
