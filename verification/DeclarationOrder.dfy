/**
 Payloads whose text is the same for both orders of `serde_json::Map`. Two structs declare
 their members out of key order, and only they can tell the orders apart.
 */
module DeclarationOrder {
  import opened Wrappers
  import opened JsonTree
  import opened Canonical
  import opened Serializers
  import opened MapOrders
  import P = Payload

  /** Declared as Address, Name, Memo, AssetLabel, BadgeText: no later key may sort earlier. */
  predicate AddressInOrder(a: P.AddressBody) {
    || (a.name == "" && a.memo.None?)
    || (a.assetLabel == "" && a.badgeText.None? && (a.name == "" || a.memo.None?))
  }

  /** Declared as Amount, Abbreviation. */
  predicate AmountInOrder(a: P.AmountBody) {
    a.abbreviation.None?
  }

  predicate FieldInOrder(f: P.Field) {
    match f
    case AddressV2(_, body) => AddressInOrder(body)
    case Amount(_, body) => AmountInOrder(body)
    case PreviewLayout(_, body) => PreviewInOrder(body)
    case ListLayout(_, body) => ListInOrder(body)
    case _ => true
  }

  predicate PreviewInOrder(p: P.PreviewBody) {
    (p.condensed.Some? ==> ListInOrder(p.condensed.value)) && (p.expanded.Some? ==> ListInOrder(p.expanded.value))
  }

  predicate ListInOrder(l: P.ListBody) {
    forall i :: 0 <= i < |l.fields| ==> FieldInOrder(l.fields[i].field)
  }

  predicate PayloadInOrder(p: P.SignablePayload) {
    forall i :: 0 <= i < |p.fields| ==> FieldInOrder(p.fields[i])
  }

  // ----- comparing trees built with the two orders

  ghost predicate SameShape(x: seq<Member>, y: seq<Member>) {
    |x| == |y| && forall i :: 0 <= i < |x| ==> x[i].key == y[i].key
  }

  lemma BTreeSame(x: seq<Member>, y: seq<Member>)
    requires Distinct(x) && SameShape(x, y)
    ensures BTree(x) == BTree(y) <==> x == y
  {
    if BTree(x) == BTree(y) {
      BTreeAscending(x);
      BTreeAscending(y);
      forall i | 0 <= i < |x| ensures x[i] == y[i] {
        ToMapAt(x, i);
        ToMapAt(y, i);
      }
    }
  }

  /** A canonical tree is collected to itself by either kind of map. */
  lemma CanonicalCollects(order: MapOrder, j: Json)
    requires IsCanonical(j)
    ensures ToValue(order, j) == j
  {
    ToKeyOrdered(j);
    SortOfCanonical(j);
    CanonicalIsWellFormed(j);
    ToInsertionOrdered(j);
  }

  lemma CanonicalAddress(a: P.AddressBody)
    ensures IsCanonical(Object(AddressMembers(a))) <==> AddressInOrder(a)
  {
    var ms := AddressMembers(a);
    if AddressInOrder(a) {
      assert Ascending(ms);
    } else {
      assert !Less(ms[1].key, ms[2].key);
    }
  }

  lemma CanonicalAmount(a: P.AmountBody)
    ensures IsCanonical(Object(AmountMembers(a))) <==> AmountInOrder(a)
  {
    if a.abbreviation.Some? {
      var ms := AmountMembers(a);
      assert !Less(ms[0].key, ms[1].key);
    }
  }

  // ----- level by level: same tree exactly when in order

  lemma ListSame(l: P.ListBody)
    ensures ListTree(InsertionOrdered, l) == ListTree(KeyOrdered, l) <==> ListInOrder(l)
    decreases l
  {
    var x := AnnotatedTrees(InsertionOrdered, l.fields);
    var y := AnnotatedTrees(KeyOrdered, l.fields);
    forall i | 0 <= i < |l.fields| ensures x[i] == y[i] <==> FieldInOrder(l.fields[i].field) {
      AnnotatedSame(l.fields[i]);
    }
    assert ListTree(InsertionOrdered, l) == ListTree(KeyOrdered, l) <==> x == y by {
      assert ListTree(InsertionOrdered, l).members[0] == Member("Fields", Array(x));
      assert ListTree(KeyOrdered, l).members[0] == Member("Fields", Array(y));
    }
  }

  lemma OptionalListSame(l: Option<P.ListBody>)
    ensures OptionalList(InsertionOrdered, l) == OptionalList(KeyOrdered, l) <==> (l.Some? ==> ListInOrder(l.value))
    decreases l
  {
    if l.Some? {
      ListSame(l.value);
      ListTreeWellFormed(InsertionOrdered, l.value);
      ToInsertionOrdered(ListTree(InsertionOrdered, l.value));
      CanonicalList(l.value);
      CanonicalCollects(KeyOrdered, ListTree(KeyOrdered, l.value));
    }
  }

  lemma OptionalTextSame(t: Option<string>)
    ensures OptionalText(InsertionOrdered, t) == OptionalText(KeyOrdered, t)
  {
    if t.Some? {
      CanonicalText(t.value);
      CanonicalCollects(InsertionOrdered, TextTree(t.value));
      CanonicalCollects(KeyOrdered, TextTree(t.value));
    }
  }

  lemma AppendSame(x: seq<Member>, y: seq<Member>, s: seq<Member>, t: seq<Member>)
    requires SameShape(x, y)
    ensures x + s == y + t <==> x == y && s == t
  {
    assert (x + s)[..|x|] == x && (x + s)[|x|..] == s;
    assert (y + t)[..|y|] == y && (y + t)[|y|..] == t;
  }

  lemma OptionalShape(key: string, x: Option<Json>, y: Option<Json>)
    requires x.Some? == y.Some?
    ensures SameShape(OptionalJson(key, x), OptionalJson(key, y))
    ensures OptionalJson(key, x) == OptionalJson(key, y) <==> x == y
  {
    if x.Some? {
      assert OptionalJson(key, x)[0].value == x.value && OptionalJson(key, y)[0].value == y.value;
    }
  }

  lemma MembersSame(c: Option<Json>, c': Option<Json>, e: Option<Json>, e': Option<Json>, s: Option<Json>, t: Option<Json>)
    requires c.Some? == c'.Some? && e.Some? == e'.Some?
    ensures SameShape(PreviewMembers(c, e, s, t), PreviewMembers(c', e', s, t))
    ensures PreviewMembers(c, e, s, t) == PreviewMembers(c', e', s, t) <==> c == c' && e == e'
  {
    var x, x' := OptionalJson("Condensed", c), OptionalJson("Condensed", c');
    var y, y' := OptionalJson("Expanded", e), OptionalJson("Expanded", e');
    var z, w := OptionalJson("Subtitle", s), OptionalJson("Title", t);
    OptionalShape("Condensed", c, c');
    OptionalShape("Expanded", e, e');
    AppendSame(x, x', y, y');
    AppendSame(x + y, x' + y', z, z);
    AppendSame(x + y + z, x' + y' + z, w, w);
  }

  lemma PreviewEntriesSame(p: P.PreviewBody)
    ensures Distinct(PreviewEntries(InsertionOrdered, p))
    ensures SameShape(PreviewEntries(InsertionOrdered, p), PreviewEntries(KeyOrdered, p))
    ensures PreviewEntries(InsertionOrdered, p) == PreviewEntries(KeyOrdered, p) <==> PreviewInOrder(p)
    decreases p, 0
  {
    OptionalListSame(p.condensed);
    OptionalListSame(p.expanded);
    OptionalTextSame(p.subtitle);
    OptionalTextSame(p.title);
    MembersDistinct(OptionalList(InsertionOrdered, p.condensed), OptionalList(InsertionOrdered, p.expanded),
                    OptionalText(InsertionOrdered, p.subtitle), OptionalText(InsertionOrdered, p.title));
    MembersSame(OptionalList(InsertionOrdered, p.condensed), OptionalList(KeyOrdered, p.condensed),
                OptionalList(InsertionOrdered, p.expanded), OptionalList(KeyOrdered, p.expanded),
                OptionalText(KeyOrdered, p.subtitle), OptionalText(KeyOrdered, p.title));
  }

  lemma PreviewSame(p: P.PreviewBody)
    ensures PreviewTree(InsertionOrdered, p) == PreviewTree(KeyOrdered, p) <==> PreviewInOrder(p)
    decreases p, 1
  {
    PreviewEntriesSame(p);
    BTreeSame(PreviewEntries(InsertionOrdered, p), PreviewEntries(KeyOrdered, p));
  }

  lemma BodySame(f: P.Field)
    ensures ToValue(InsertionOrdered, BodyTree(InsertionOrdered, f)) == ToValue(KeyOrdered, BodyTree(KeyOrdered, f))
       <==> FieldInOrder(f)
    decreases f, 0
  {
    BodyTreeWellFormed(InsertionOrdered, f);
    ToInsertionOrdered(BodyTree(InsertionOrdered, f));
    ToKeyOrdered(BodyTree(KeyOrdered, f));
    SortFixpoints(BodyTree(KeyOrdered, f));
    match f
    case AddressV2(_, body) => CanonicalAddress(body);
    case Amount(_, body) => CanonicalAmount(body);
    case AmountV2(_, body) => BTreeCanonical(AmountMembers(body));
    case PreviewLayout(_, body) =>
      CanonicalPreview(body);
      PreviewSame(body);
    case ListLayout(_, body) =>
      CanonicalList(body);
      ListSame(body);
    case Text(_, text) => CanonicalText(text);
    case TextV2(_, text) => CanonicalText(text);
    case _ => PlainBodyCanonical(f);
  }

  lemma PlainBodyCanonical(f: P.Field)
    requires f.Address? || f.Number? || f.Divider? || f.Unknown?
    ensures IsCanonical(BodyTree(KeyOrdered, f))
  {
  }

  lemma EntriesSame(f: P.Field)
    ensures SameShape(Entries(InsertionOrdered, f), Entries(KeyOrdered, f))
    ensures Entries(InsertionOrdered, f) == Entries(KeyOrdered, f) <==> FieldInOrder(f)
    decreases f, 1
  {
    BodySame(f);
    assert Entries(InsertionOrdered, f)[3].value == ToValue(InsertionOrdered, BodyTree(InsertionOrdered, f));
    assert Entries(KeyOrdered, f)[3].value == ToValue(KeyOrdered, BodyTree(KeyOrdered, f));
  }

  lemma AnnotationsSame(a: P.AnnotatedField)
    ensures Annotations(InsertionOrdered, a) == Annotations(KeyOrdered, a)
  {
    OptionalTextSame(a.staticAnnotation);
    if a.dynamicAnnotation.Some? {
      CanonicalDynamic(a.dynamicAnnotation.value);
      CanonicalCollects(InsertionOrdered, DynamicTree(a.dynamicAnnotation.value));
      CanonicalCollects(KeyOrdered, DynamicTree(a.dynamicAnnotation.value));
    }
  }

  lemma AnnotatedSame(a: P.AnnotatedField)
    ensures AnnotatedTree(InsertionOrdered, a) == AnnotatedTree(KeyOrdered, a) <==> FieldInOrder(a.field)
    decreases a
  {
    EntriesSame(a.field);
    AnnotationsSame(a);
    AnnotatedTreeFlat(InsertionOrdered, a);
    AnnotatedTreeFlat(KeyOrdered, a);
    AnnotatedDistinct(InsertionOrdered, a);
    BTreeSame(AnnotatedEntries(InsertionOrdered, a), AnnotatedEntries(KeyOrdered, a));
    AppendSame(Entries(InsertionOrdered, a.field), Entries(KeyOrdered, a.field),
               Annotations(KeyOrdered, a), Annotations(KeyOrdered, a));
  }

  lemma FieldSame(f: P.Field)
    ensures FieldTree(InsertionOrdered, f) == FieldTree(KeyOrdered, f) <==> FieldInOrder(f)
  {
    EntriesSame(f);
    EntriesDistinct(InsertionOrdered, f);
    BTreeSame(Entries(InsertionOrdered, f), Entries(KeyOrdered, f));
  }

  /** The two orders serialize a payload alike exactly when all its parts are in order. */
  lemma PayloadSame(p: P.SignablePayload)
    ensures PayloadTree(InsertionOrdered, p) == PayloadTree(KeyOrdered, p) <==> PayloadInOrder(p)
  {
    var x := FieldTrees(InsertionOrdered, p.fields);
    var y := FieldTrees(KeyOrdered, p.fields);
    forall i | 0 <= i < |p.fields| ensures x[i] == y[i] <==> FieldInOrder(p.fields[i]) {
      FieldSame(p.fields[i]);
    }
    assert PayloadTree(InsertionOrdered, p) == PayloadTree(KeyOrdered, p) <==> x == y by {
      assert PayloadTree(InsertionOrdered, p).members[0] == Member("Fields", Array(x));
      assert PayloadTree(KeyOrdered, p).members[0] == Member("Fields", Array(y));
    }
  }
}
