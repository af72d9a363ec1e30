/** The texts that are hashed and signed, spelled out character by character. */
module Spelling {
  import opened Basics
  import opened Numbers
  import opened JsonText
  import opened Json
  import opened JsonSame
  import opened Tallies
  import opened Wire
  import opened Board

  // ---- objects in key order --------------------------------------------------------------------

  /** `"key":text` */
  function Member(key: string, text: string): string { Quote(key) + ":" + text }

  /** Members between braces, with commas between them. */
  function Braced(members: seq<string>): string { "{" + Join(members) + "}" }

  /** Texts between brackets, with commas between them. */
  function Bracketed(parts: seq<string>): string { "[" + Join(parts) + "]" }

  /** The field prints as this member. */
  predicate Prints(f: Field, member: string) { Encode(f.val).Some? && member == Member(f.key, Encode(f.val).value) }

  lemma {:induction false} FieldsText(fs: seq<Field>, members: seq<string>)
    requires |fs| == |members| && forall i | 0 <= i < |fs| :: Prints(fs[i], members[i])
    ensures EncodeFields(fs) == Some(members)
  {
    hide Encode;
    if fs != [] {
      assert Prints(fs[0], members[0]);
      assert forall i | 0 <= i < |fs[1..]| :: fs[1..][i] == fs[i + 1] && members[1..][i] == members[i + 1];
      FieldsText(fs[1..], members[1..]);
      assert members == [members[0]] + members[1..];
    }
  }

  /** An object's text lists its members in key order, in whatever order it holds them. */
  lemma ObjectText(fs: seq<Field>, gs: seq<Field>, members: seq<string>)
    requires Fine(Obj(fs)) && Strict(gs) && forall x :: x in fs <==> x in gs
    requires |gs| == |members| && forall i | 0 <= i < |gs| :: Prints(gs[i], members[i])
    ensures Encode(Obj(fs)) == Some(Braced(members))
  {
    hide Strict, EncodeFields, Join, Prints;
    SortedStrict(fs);
    StrictUnique(Sorted(fs), gs);
    FieldsText(gs, members);
  }

  lemma {:induction false} ElemsText(es: seq<JsValue>, parts: seq<string>)
    requires |es| == |parts| && forall i | 0 <= i < |es| :: Encode(es[i]) == Some(parts[i])
    ensures EncodeElems(es) == Some(parts)
  {
    hide Encode;
    if es != [] {
      assert forall i | 0 <= i < |es[1..]| :: es[1..][i] == es[i + 1] && parts[1..][i] == parts[i + 1];
      ElemsText(es[1..], parts[1..]);
      assert parts == [parts[0]] + parts[1..];
    }
  }

  lemma ArrayText(es: seq<JsValue>, parts: seq<string>)
    requires |es| == |parts| && forall i | 0 <= i < |es| :: Encode(es[i]) == Some(parts[i])
    ensures Encode(Arr(es)) == Some(Bracketed(parts))
  {
    hide EncodeElems, Join;
    ElemsText(es, parts);
  }

  lemma JoinMore(s: string, parts: seq<string>)
    requires parts != []
    ensures Join([s] + parts) == s + "," + Join(parts)
  {
    var rest := parts[1..];
    assert ([s] + parts)[1..] == parts;
    assert CommaTail(parts) == "," + parts[0] + CommaTail(rest);
    assert s + ("," + parts[0] + CommaTail(rest)) == s + "," + (parts[0] + CommaTail(rest));
  }

  lemma JoinOne(s: string)
    ensures Join([s]) == s
  {
    assert [s][1..] == [] && CommaTail([]) == "" && s + "" == s;
  }

  // ---- plain strings and lists -----------------------------------------------------------------

  predicate Plain(s: string) { forall i | 0 <= i < |s| :: s[i] as int >= 32 && s[i] != '"' && s[i] != '\\' }

  lemma {:induction false} PlainQuoted(s: string)
    requires Plain(s)
    ensures Escaped(s) == s && Quote(s) == "\"" + s + "\""
  {
    if s != "" {
      PlainQuoted(s[1..]);
      assert s == [s[0]] + s[1..];
    }
  }

  /** The integers, comma-separated, in brackets. */
  function IntsText(s: seq<int>): string {
    Bracketed(seq(|s|, i requires 0 <= i < |s| => Print(IntNum(s[i]))))
  }

  lemma IntsEncoded(s: seq<int>)
    ensures Encode(Ints(s)) == Some(IntsText(s))
  {
    hide Print, IntNum, Join;
    ArrayText(Ints(s).elems, seq(|s|, i requires 0 <= i < |s| => Print(IntNum(s[i]))));
  }

  /** The strings, quoted, comma-separated, in brackets. */
  function StrsText(s: seq<string>): string { Bracketed(seq(|s|, i requires 0 <= i < |s| => Quote(s[i]))) }

  lemma StrsEncoded(s: seq<string>)
    ensures Encode(Strs(s)) == Some(StrsText(s))
  {
    hide Quote, Join;
    ArrayText(Strs(s).elems, seq(|s|, i requires 0 <= i < |s| => Quote(s[i])));
  }

  function NullableText(s: Option<string>): string { if s.Some? then Quote(s.value) else "null" }

  lemma ScalarsPrint(key: string, text: string, i: int, s: Option<string>, list: seq<int>)
    ensures Prints(Field(key, Str(text)), Member(key, Quote(text)))
    ensures Prints(Field(key, Int(i)), Member(key, Print(IntNum(i))))
    ensures Prints(Field(key, StrOrNull(s)), Member(key, NullableText(s)))
    ensures Prints(Field(key, Ints(list)), Member(key, IntsText(list)))
  {
    IntsEncoded(list);
    hide Quote, Print, IntNum, IntsText, Ints;
  }

  lemma ValuePrints(key: string, v: JsValue, text: string)
    requires Encode(v) == Some(text)
    ensures Prints(Field(key, v), Member(key, text))
  {
    hide Encode;
  }

  // ---- ballots ------------------------------------------------------------------------------

  /** The members of a ballot, in key order. */
  function PayloadMembers(p: Payload): seq<string> {
    match p
    case Single(c) => [Member("choice", Print(IntNum(c))), Member("kind", Quote("single"))]
    case Approval(cs) => [Member("choices", IntsText(cs)), Member("kind", Quote("approval"))]
    case Ranked(r) => [Member("kind", Quote("ranked")), Member("ranking", IntsText(r))]
    case Quadratic(vs) => [Member("kind", Quote("quadratic")), Member("votes", IntsText(vs))]
    case Survey(cs) => [Member("choices", IntsText(cs)), Member("kind", Quote("survey"))]
    case Abstain => [Member("kind", Quote("abstain"))]
  }

  /** The fields of a ballot, in key order. */
  function PayloadInOrder(p: Payload): seq<Field> {
    match p
    case Single(c) => [Field("choice", Int(c)), Field("kind", Str("single"))]
    case Approval(cs) => [Field("choices", Ints(cs)), Field("kind", Str("approval"))]
    case Ranked(r) => [Field("kind", Str("ranked")), Field("ranking", Ints(r))]
    case Quadratic(vs) => [Field("kind", Str("quadratic")), Field("votes", Ints(vs))]
    case Survey(cs) => [Field("choices", Ints(cs)), Field("kind", Str("survey"))]
    case Abstain => [Field("kind", Str("abstain"))]
  }

  lemma PayloadOrder(p: Payload)
    ensures Strict(PayloadInOrder(p)) && PayloadJson(p).Obj?
    ensures forall x :: x in PayloadJson(p).fields <==> x in PayloadInOrder(p)
  {
    hide Int, Ints;
  }

  lemma PayloadPrints(p: Payload)
    ensures |PayloadInOrder(p)| == |PayloadMembers(p)|
    ensures forall i | 0 <= i < |PayloadInOrder(p)| :: Prints(PayloadInOrder(p)[i], PayloadMembers(p)[i])
  {
    hide Int, Ints, Prints, Member, Print, Quote, IntsText, IntNum;
    match p
    case Single(c) => ScalarsPrint("choice", "", c, None, []); ScalarsPrint("kind", "single", 0, None, []);
    case Approval(cs) => ScalarsPrint("choices", "", 0, None, cs); ScalarsPrint("kind", "approval", 0, None, []);
    case Ranked(r) => ScalarsPrint("ranking", "", 0, None, r); ScalarsPrint("kind", "ranked", 0, None, []);
    case Quadratic(vs) => ScalarsPrint("votes", "", 0, None, vs); ScalarsPrint("kind", "quadratic", 0, None, []);
    case Survey(cs) => ScalarsPrint("choices", "", 0, None, cs); ScalarsPrint("kind", "survey", 0, None, []);
    case Abstain => ScalarsPrint("kind", "abstain", 0, None, []);
  }

  /** The text of a ballot. */
  lemma PayloadSpelled(p: Payload)
    ensures Encode(PayloadJson(p)) == Some(Braced(PayloadMembers(p)))
  {
    hide *;
    PayloadIsFine(p);
    PayloadOrder(p);
    PayloadPrints(p);
    IsObject(PayloadJson(p));
    ObjectText(PayloadJson(p).fields, PayloadInOrder(p), PayloadMembers(p));
  }

  lemma IsObject(v: JsValue)
    ensures v.Obj? ==> v == Obj(v.fields)
  {
  }

  // ---- leaves, roots and receipts ---------------------------------------------------------------

  lemma LeafParts(id: string, n: int, p: Payload, serial: Option<string>)
    ensures LeafText(id, n, p, serial) == "tessera:leaf:v1\n" + CanonText(LeafJson(id, n, p, serial))
    ensures LeafJson(id, n, p, serial)
      == Obj([Field("decisionId", Str(id)), Field("logSeq", Int(n)), Field("payload", PayloadJson(p)),
              Field("serial", StrOrNull(serial))])
    ensures Strict(LeafJson(id, n, p, serial).fields)
  {
    hide CanonText, PayloadJson, StrOrNull, Int;
  }

  /** The text of a public ballot leaf. */
  lemma LeafSpelled(id: string, n: int, p: Payload, serial: Option<string>)
    ensures LeafText(id, n, p, serial) == "tessera:leaf:v1\n" + Braced([
      Member("decisionId", Quote(id)), Member("logSeq", Print(IntNum(n))),
      Member("payload", Braced(PayloadMembers(p))), Member("serial", NullableText(serial))])
  {
    var fs := [Field("decisionId", Str(id)), Field("logSeq", Int(n)), Field("payload", PayloadJson(p)),
               Field("serial", StrOrNull(serial))];
    hide *;
    LeafIsFine(id, n, p, serial);
    LeafParts(id, n, p, serial);
    PayloadSpelled(p);
    ScalarsPrint("decisionId", id, 0, None, []);
    ScalarsPrint("logSeq", "", n, None, []);
    ValuePrints("payload", PayloadJson(p), Braced(PayloadMembers(p)));
    ScalarsPrint("serial", "", 0, serial, []);
    ObjectText(fs, fs, [Member("decisionId", Quote(id)), Member("logSeq", Print(IntNum(n))),
      Member("payload", Braced(PayloadMembers(p))), Member("serial", NullableText(serial))]);
    CanonTextIs(LeafJson(id, n, p, serial));
  }

  lemma RootFields(root: string, size: int, id: string)
    ensures RootJson(root, size, id)
      == Obj([Field("root", Str(root)), Field("treeSize", Int(size)), Field("decisionId", Str(id))])
    ensures Strict([Field("decisionId", Str(id)), Field("root", Str(root)), Field("treeSize", Int(size))])
  {
    hide Int;
  }

  /** The text that a signed root signs. */
  lemma RootSpelled(root: string, size: int, id: string)
    ensures CanonText(RootJson(root, size, id)) == Braced([
      Member("decisionId", Quote(id)), Member("root", Quote(root)), Member("treeSize", Print(IntNum(size)))])
  {
    var f, g, h := Field("decisionId", Str(id)), Field("root", Str(root)), Field("treeSize", Int(size));
    hide *;
    RootIsFine(root, size, id);
    RootFields(root, size, id);
    ScalarsPrint("decisionId", id, 0, None, []);
    ScalarsPrint("root", root, 0, None, []);
    ScalarsPrint("treeSize", "", size, None, []);
    ObjectText([g, h, f], [f, g, h], [
      Member("decisionId", Quote(id)), Member("root", Quote(root)), Member("treeSize", Print(IntNum(size)))]);
    CanonTextIs(RootJson(root, size, id));
  }

  lemma ReceiptFields(leaf: string, position: int, root: string)
    ensures ReceiptJson(leaf, position, root)
      == Obj([Field("ballotHash", Str(leaf)), Field("logPosition", Int(position)), Field("runningRoot", Str(root))])
    ensures Strict(ReceiptJson(leaf, position, root).fields)
  {
    hide Int;
  }

  /** The text that a receipt signs. */
  lemma ReceiptSpelled(leaf: string, position: int, root: string)
    ensures CanonText(ReceiptJson(leaf, position, root)) == Braced([
      Member("ballotHash", Quote(leaf)), Member("logPosition", Print(IntNum(position))),
      Member("runningRoot", Quote(root))])
  {
    var fs := [Field("ballotHash", Str(leaf)), Field("logPosition", Int(position)), Field("runningRoot", Str(root))];
    hide *;
    ReceiptIsFine(leaf, position, root);
    ReceiptFields(leaf, position, root);
    ScalarsPrint("ballotHash", leaf, 0, None, []);
    ScalarsPrint("logPosition", "", position, None, []);
    ScalarsPrint("runningRoot", root, 0, None, []);
    ObjectText(fs, fs, [Member("ballotHash", Quote(leaf)), Member("logPosition", Print(IntNum(position))),
      Member("runningRoot", Quote(root))]);
    CanonTextIs(ReceiptJson(leaf, position, root));
  }
}
