/**
 How the order kept by `serde_json::Map` shows in serialized payloads: not at all after
 sorting, and without sorting only in structs whose members are declared out of key order.
 */
module MapOrders {
  import opened Wrappers
  import opened JsonTree
  import opened Canonical
  import opened Serializers
  import P = Payload

  // ----- collecting into maps

  /** Collecting a tree into maps of either kind loses nothing that sorting keeps. */
  lemma {:induction false} SortOfToValue(order: MapOrder, j: Json)
    ensures Sort(ToValue(order, j)) == Sort(j)
  {
    match j
    case Object(ms) =>
      var collected := CollectValues(order, ms);
      forall i | 0 <= i < |ms| ensures SortValues(collected)[i] == SortValues(ms)[i] {
        SortOfToValue(order, ms[i].value);
      }
      assert SortValues(collected) == SortValues(ms);
      SortOfCollect(order, collected);
    case Array(items) =>
      forall i | 0 <= i < |items| ensures SortItems(CollectItems(order, items))[i] == SortItems(items)[i] {
        SortOfToValue(order, items[i]);
      }
      assert SortItems(CollectItems(order, items)) == SortItems(items);
    case _ =>
  }

  lemma SortOfCollect(order: MapOrder, entries: seq<Member>)
    ensures Sort(Object(Collect(order, entries))) == Sort(Object(entries))
  {
    BTreeAscending(entries);
    IndexMapMap(entries);
    SortValuesMap(entries);
    SortValuesMap(Collect(order, entries));
    BTreeByMap(SortValues(Collect(order, entries)), SortValues(entries));
  }

  /** With key-ordered maps, collecting is sorting. */
  lemma {:induction false} ToKeyOrdered(j: Json)
    ensures ToValue(KeyOrdered, j) == Sort(j)
  {
    match j
    case Object(ms) =>
      forall i | 0 <= i < |ms| ensures CollectValues(KeyOrdered, ms)[i] == SortValues(ms)[i] {
        ToKeyOrdered(ms[i].value);
      }
      assert CollectValues(KeyOrdered, ms) == SortValues(ms);
    case Array(items) =>
      forall i | 0 <= i < |items| ensures CollectItems(KeyOrdered, items)[i] == SortItems(items)[i] {
        ToKeyOrdered(items[i]);
      }
      assert CollectItems(KeyOrdered, items) == SortItems(items);
    case _ =>
  }

  /** With insertion-ordered maps, collecting a tree with distinct keys changes nothing. */
  lemma {:induction false} ToInsertionOrdered(j: Json)
    requires WellFormed(j)
    ensures ToValue(InsertionOrdered, j) == j
  {
    match j
    case Object(ms) =>
      forall i | 0 <= i < |ms| ensures CollectValues(InsertionOrdered, ms)[i] == ms[i] {
        ToInsertionOrdered(ms[i].value);
      }
      assert CollectValues(InsertionOrdered, ms) == ms;
      IndexMapDistinct(ms);
    case Array(items) =>
      forall i | 0 <= i < |items| ensures CollectItems(InsertionOrdered, items)[i] == items[i] {
        ToInsertionOrdered(items[i]);
      }
      assert CollectItems(InsertionOrdered, items) == items;
    case _ =>
  }

  lemma {:induction false} ToValueWellFormed(order: MapOrder, j: Json)
    ensures WellFormed(ToValue(order, j))
  {
    match order
    case KeyOrdered =>
      ToKeyOrdered(j);
      SortIsCanonical(j);
      CanonicalIsWellFormed(Sort(j));
    case InsertionOrdered =>
      match j
      case Object(ms) =>
        var collected := CollectValues(order, ms);
        IndexMapMap(collected);
        var r := IndexMap(collected);
        forall i | 0 <= i < |r| ensures WellFormed(r[i].value) {
          ToMapAt(r, i);
          var k := ToMapFrom(collected, r[i].key);
          ToValueWellFormed(order, ms[k].value);
        }
      case Array(items) =>
        forall i | 0 <= i < |items| ensures WellFormed(ToValue(order, items[i])) {
          ToValueWellFormed(order, items[i]);
        }
      case _ =>
  }

  // ----- all serialized trees have distinct keys

  ghost predicate HoldWellFormed(ms: seq<Member>) {
    forall i :: 0 <= i < |ms| ==> WellFormed(ms[i].value)
  }

  lemma BTreeWellFormed(entries: seq<Member>)
    requires HoldWellFormed(entries)
    ensures WellFormed(Object(BTree(entries)))
  {
    BTreeAscending(entries);
    AscendingIsDistinct(BTree(entries));
  }

  lemma OptionalWellFormed(key: string, j: Option<Json>)
    ensures HoldWellFormed(OptionalJson(key, j)) <==> j.None? || WellFormed(j.value)
  {
    if j.Some? {
      assert OptionalJson(key, j)[0].value == j.value;
    }
  }

  lemma EntriesWellFormed(order: MapOrder, f: P.Field)
    ensures HoldWellFormed(Entries(order, f))
  {
    ToValueWellFormed(order, BodyTree(order, f));
  }

  lemma FieldTreeWellFormed(order: MapOrder, f: P.Field)
    ensures WellFormed(FieldTree(order, f))
  {
    EntriesWellFormed(order, f);
    BTreeWellFormed(Entries(order, f));
  }

  lemma AnnotationsWellFormed(order: MapOrder, a: P.AnnotatedField)
    ensures HoldWellFormed(Annotations(order, a))
  {
    if a.staticAnnotation.Some? {
      ToValueWellFormed(order, TextTree(a.staticAnnotation.value));
    }
    if a.dynamicAnnotation.Some? {
      ToValueWellFormed(order, DynamicTree(a.dynamicAnnotation.value));
    }
  }

  lemma AnnotatedTreeWellFormed(order: MapOrder, a: P.AnnotatedField)
    ensures WellFormed(AnnotatedTree(order, a))
  {
    FieldTreeWellFormed(order, a.field);
    AnnotationsWellFormed(order, a);
    BTreeWellFormed(FieldMap(order, a.field) + Annotations(order, a));
  }

  lemma ListTreeWellFormed(order: MapOrder, l: P.ListBody)
    ensures WellFormed(ListTree(order, l))
  {
    forall i | 0 <= i < |l.fields| ensures WellFormed(AnnotatedTree(order, l.fields[i])) {
      AnnotatedTreeWellFormed(order, l.fields[i]);
    }
    assert WellFormed(Array(AnnotatedTrees(order, l.fields)));
  }

  lemma OptionalListWellFormed(order: MapOrder, key: string, l: Option<P.ListBody>)
    ensures HoldWellFormed(OptionalJson(key, OptionalList(order, l)))
  {
    OptionalWellFormed(key, OptionalList(order, l));
    if l.Some? {
      ToValueWellFormed(order, ListTree(order, l.value));
    }
  }

  lemma OptionalTextWellFormed(order: MapOrder, key: string, t: Option<string>)
    ensures HoldWellFormed(OptionalJson(key, OptionalText(order, t)))
  {
    OptionalWellFormed(key, OptionalText(order, t));
    if t.Some? {
      ToValueWellFormed(order, TextTree(t.value));
    }
  }

  lemma PreviewTreeWellFormed(order: MapOrder, p: P.PreviewBody)
    ensures WellFormed(PreviewTree(order, p))
  {
    OptionalListWellFormed(order, "Condensed", p.condensed);
    OptionalListWellFormed(order, "Expanded", p.expanded);
    OptionalTextWellFormed(order, "Subtitle", p.subtitle);
    OptionalTextWellFormed(order, "Title", p.title);
    BTreeWellFormed(PreviewEntries(order, p));
  }

  lemma AddressWellFormed(a: P.AddressBody)
    ensures WellFormed(Object(AddressMembers(a)))
  {
    assert Distinct(AddressMembers(a));
  }

  lemma AmountWellFormed(a: P.AmountBody)
    ensures WellFormed(Object(AmountMembers(a)))
  {
    assert Distinct(AmountMembers(a));
  }

  lemma BodyTreeWellFormed(order: MapOrder, f: P.Field)
    ensures WellFormed(BodyTree(order, f))
  {
    match f
    case PreviewLayout(_, body) => PreviewTreeWellFormed(order, body);
    case ListLayout(_, body) => ListTreeWellFormed(order, body);
    case AddressV2(_, body) => AddressWellFormed(body);
    case Amount(_, body) => AmountWellFormed(body);
    case AmountV2(_, body) =>
      AmountWellFormed(body);
      BTreeWellFormed(AmountMembers(body));
    case _ =>
  }

  lemma PayloadTreeWellFormed(order: MapOrder, p: P.SignablePayload)
    ensures WellFormed(PayloadTree(order, p))
  {
    forall i | 0 <= i < |p.fields| ensures WellFormed(FieldTree(order, p.fields[i])) {
      FieldTreeWellFormed(order, p.fields[i]);
    }
    assert WellFormed(Array(FieldTrees(order, p.fields)));
  }

  // ----- with key-ordered maps every serialized payload is canonical as it stands

  ghost predicate HoldCanonical(ms: seq<Member>) {
    forall i :: 0 <= i < |ms| ==> IsCanonical(ms[i].value)
  }

  lemma BTreeCanonical(entries: seq<Member>)
    requires HoldCanonical(entries)
    ensures IsCanonical(Object(BTree(entries)))
  {
    BTreeAscending(entries);
  }

  lemma ToKeyOrderedCanonical(j: Json)
    ensures IsCanonical(ToValue(KeyOrdered, j))
  {
    ToKeyOrdered(j);
    SortIsCanonical(j);
  }

  lemma EntriesCanonical(f: P.Field)
    ensures HoldCanonical(Entries(KeyOrdered, f))
  {
    ToKeyOrderedCanonical(BodyTree(KeyOrdered, f));
  }

  lemma FieldTreeCanonical(f: P.Field)
    ensures IsCanonical(FieldTree(KeyOrdered, f))
  {
    EntriesCanonical(f);
    BTreeCanonical(Entries(KeyOrdered, f));
  }

  lemma PayloadTreeCanonical(p: P.SignablePayload)
    ensures IsCanonical(PayloadTree(KeyOrdered, p))
  {
    forall i | 0 <= i < |p.fields| ensures IsCanonical(FieldTree(KeyOrdered, p.fields[i])) {
      FieldTreeCanonical(p.fields[i]);
    }
    PayloadMembersCanonical(FieldTrees(KeyOrdered, p.fields), p);
  }

  lemma PayloadMembersCanonical(fields: seq<Json>, p: P.SignablePayload)
    requires forall i :: 0 <= i < |fields| ==> IsCanonical(fields[i])
    ensures IsCanonical(Object(PayloadMembers(fields, p)))
  {
    assert IsCanonical(Array(fields));
    assert Ascending(PayloadMembers(fields, p));
  }

  // ----- after sorting, the map order is invisible

  lemma SortOfBTree(entries: seq<Member>)
    ensures Sort(Object(BTree(entries))) == Object(BTree(SortValues(entries)))
  {
    SortOfCollect(KeyOrdered, entries);
  }

  ghost predicate SameWhenSorted(x: seq<Member>, y: seq<Member>) {
    SortValues(x) == SortValues(y)
  }

  lemma SameListSorted(l: P.ListBody)
    ensures Sort(ListTree(InsertionOrdered, l)) == Sort(ListTree(KeyOrdered, l))
    decreases l
  {
    var x := AnnotatedTrees(InsertionOrdered, l.fields);
    var y := AnnotatedTrees(KeyOrdered, l.fields);
    forall i | 0 <= i < |l.fields| ensures SortItems(x)[i] == SortItems(y)[i] {
      SameAnnotatedSorted(l.fields[i]);
    }
    assert SortItems(x) == SortItems(y);
    assert SameWhenSorted([Member("Fields", Array(x))], [Member("Fields", Array(y))]);
  }

  lemma SameValueSorted(j: Json)
    ensures Sort(ToValue(InsertionOrdered, j)) == Sort(ToValue(KeyOrdered, j))
  {
    SortOfToValue(InsertionOrdered, j);
    SortOfToValue(KeyOrdered, j);
  }

  lemma SortValuesOptional(key: string, x: Option<Json>, y: Option<Json>)
    requires x.Some? == y.Some? && (x.Some? ==> Sort(x.value) == Sort(y.value))
    ensures SortValues(OptionalJson(key, x)) == SortValues(OptionalJson(key, y))
  {
  }

  lemma SameOptionalList(key: string, l: Option<P.ListBody>)
    ensures SortValues(OptionalJson(key, OptionalList(InsertionOrdered, l)))
         == SortValues(OptionalJson(key, OptionalList(KeyOrdered, l)))
    decreases l
  {
    if l.Some? {
      SameListSorted(l.value);
      SortOfToValue(InsertionOrdered, ListTree(InsertionOrdered, l.value));
      SortOfToValue(KeyOrdered, ListTree(KeyOrdered, l.value));
    }
    SortValuesOptional(key, OptionalList(InsertionOrdered, l), OptionalList(KeyOrdered, l));
  }

  lemma SameOptionalText(key: string, t: Option<string>)
    ensures SortValues(OptionalJson(key, OptionalText(InsertionOrdered, t)))
         == SortValues(OptionalJson(key, OptionalText(KeyOrdered, t)))
  {
    if t.Some? {
      SameValueSorted(TextTree(t.value));
    }
    SortValuesOptional(key, OptionalText(InsertionOrdered, t), OptionalText(KeyOrdered, t));
  }

  lemma SortValuesAppend(x: seq<Member>, y: seq<Member>)
    ensures SortValues(x + y) == SortValues(x) + SortValues(y)
  {
  }

  lemma SortValuesOfFour(a: seq<Member>, b: seq<Member>, c: seq<Member>, d: seq<Member>)
    ensures SortValues(a + b + c + d) == SortValues(a) + SortValues(b) + SortValues(c) + SortValues(d)
  {
    SortValuesAppend(a, b);
    SortValuesAppend(a + b, c);
    SortValuesAppend(a + b + c, d);
  }

  lemma SplitPreviewEntries(order: MapOrder, p: P.PreviewBody)
    ensures SortValues(PreviewEntries(order, p))
         == SortValues(OptionalJson("Condensed", OptionalList(order, p.condensed)))
            + SortValues(OptionalJson("Expanded", OptionalList(order, p.expanded)))
            + SortValues(OptionalJson("Subtitle", OptionalText(order, p.subtitle)))
            + SortValues(OptionalJson("Title", OptionalText(order, p.title)))
  {
    SortValuesOfFour(OptionalJson("Condensed", OptionalList(order, p.condensed)),
                     OptionalJson("Expanded", OptionalList(order, p.expanded)),
                     OptionalJson("Subtitle", OptionalText(order, p.subtitle)),
                     OptionalJson("Title", OptionalText(order, p.title)));
  }

  lemma SamePreviewSorted(p: P.PreviewBody)
    ensures Sort(PreviewTree(InsertionOrdered, p)) == Sort(PreviewTree(KeyOrdered, p))
    decreases p
  {
    SplitPreviewEntries(InsertionOrdered, p);
    SplitPreviewEntries(KeyOrdered, p);
    SameOptionalList("Condensed", p.condensed);
    SameOptionalList("Expanded", p.expanded);
    SameOptionalText("Subtitle", p.subtitle);
    SameOptionalText("Title", p.title);
    SortOfBTree(PreviewEntries(InsertionOrdered, p));
    SortOfBTree(PreviewEntries(KeyOrdered, p));
  }

  lemma SameBodySorted(f: P.Field)
    ensures Sort(BodyTree(InsertionOrdered, f)) == Sort(BodyTree(KeyOrdered, f))
    decreases f, 0
  {
    match f
    case PreviewLayout(_, body) => SamePreviewSorted(body);
    case ListLayout(_, body) => SameListSorted(body);
    case _ =>
  }

  lemma SameEntriesSorted(f: P.Field)
    ensures SortValues(Entries(InsertionOrdered, f)) == SortValues(Entries(KeyOrdered, f))
    decreases f, 1
  {
    SameBodySorted(f);
    SortOfToValue(InsertionOrdered, BodyTree(InsertionOrdered, f));
    SortOfToValue(KeyOrdered, BodyTree(KeyOrdered, f));
  }

  lemma SameFieldSorted(f: P.Field)
    ensures Sort(FieldTree(InsertionOrdered, f)) == Sort(FieldTree(KeyOrdered, f))
    decreases f, 2
  {
    SameEntriesSorted(f);
    SortOfBTree(Entries(InsertionOrdered, f));
    SortOfBTree(Entries(KeyOrdered, f));
  }

  /** Members of an annotated field, without the detour over the field's own map. */
  function AnnotatedEntries(order: MapOrder, a: P.AnnotatedField): seq<Member> {
    Entries(order, a.field) + Annotations(order, a)
  }

  lemma AnnotatedTreeFlat(order: MapOrder, a: P.AnnotatedField)
    ensures AnnotatedTree(order, a) == Object(BTree(AnnotatedEntries(order, a)))
  {
    var entries := Entries(order, a.field);
    BTreeAscending(entries);
    ToMapAppend(entries, Annotations(order, a));
    ToMapAppend(BTree(entries), Annotations(order, a));
    BTreeByMap(BTree(entries) + Annotations(order, a), AnnotatedEntries(order, a));
  }

  lemma AnnotatedDistinct(order: MapOrder, a: P.AnnotatedField)
    ensures Distinct(AnnotatedEntries(order, a))
  {
    EntriesDistinct(order, a.field);
    AnnotationKeys(order, a);
    var x, y := Entries(order, a.field), Annotations(order, a);
    forall i, j | 0 <= i < |x| && 0 <= j < |y| ensures x[i].key != y[j].key {
      assert y[j].key == "StaticAnnotation" || y[j].key == "DynamicAnnotation";
    }
  }

  lemma AnnotationKeys(order: MapOrder, a: P.AnnotatedField)
    ensures Distinct(Annotations(order, a))
    ensures forall i :: 0 <= i < |Annotations(order, a)| ==>
      Annotations(order, a)[i].key == "StaticAnnotation" || Annotations(order, a)[i].key == "DynamicAnnotation"
  {
  }

  lemma MembersDistinct(a: Option<Json>, b: Option<Json>, c: Option<Json>, d: Option<Json>)
    ensures Distinct(PreviewMembers(a, b, c, d))
  {
  }

  lemma SameAnnotationsSorted(a: P.AnnotatedField)
    ensures SortValues(Annotations(InsertionOrdered, a)) == SortValues(Annotations(KeyOrdered, a))
  {
    SameOptionalText("StaticAnnotation", a.staticAnnotation);
    if a.dynamicAnnotation.Some? {
      SameValueSorted(DynamicTree(a.dynamicAnnotation.value));
    }
  }

  lemma SameAnnotatedSorted(a: P.AnnotatedField)
    ensures Sort(AnnotatedTree(InsertionOrdered, a)) == Sort(AnnotatedTree(KeyOrdered, a))
    decreases a
  {
    SameEntriesSorted(a.field);
    SameAnnotationsSorted(a);
    SortValuesAppend(Entries(InsertionOrdered, a.field), Annotations(InsertionOrdered, a));
    SortValuesAppend(Entries(KeyOrdered, a.field), Annotations(KeyOrdered, a));
    AnnotatedTreeFlat(InsertionOrdered, a);
    AnnotatedTreeFlat(KeyOrdered, a);
    SortOfBTree(AnnotatedEntries(InsertionOrdered, a));
    SortOfBTree(AnnotatedEntries(KeyOrdered, a));
  }

  /** The sorted tree of a payload is the one that key-ordered maps give without sorting. */
  lemma SortedPayload(order: MapOrder, p: P.SignablePayload)
    ensures Sort(PayloadTree(order, p)) == PayloadTree(KeyOrdered, p)
    ensures Sort(ToValue(order, PayloadTree(order, p))) == PayloadTree(KeyOrdered, p)
  {
    SortOfToValue(order, PayloadTree(order, p));
    PayloadTreeCanonical(p);
    SortOfCanonical(PayloadTree(KeyOrdered, p));
    if order.InsertionOrdered? {
      var x := FieldTrees(InsertionOrdered, p.fields);
      var y := FieldTrees(KeyOrdered, p.fields);
      forall i | 0 <= i < |p.fields| ensures SortItems(x)[i] == SortItems(y)[i] {
        SameFieldSorted(p.fields[i]);
      }
      assert SortItems(x) == SortItems(y);
      SamePayloadMembers(x, y, p);
    }
  }

  lemma SamePayloadMembers(x: seq<Json>, y: seq<Json>, p: P.SignablePayload)
    requires SortItems(x) == SortItems(y)
    ensures SortValues(PayloadMembers(x, p)) == SortValues(PayloadMembers(y, p))
  {
  }

  // ----- key-ordered subtrees are canonical as well

  lemma CanonicalList(l: P.ListBody)
    ensures IsCanonical(ListTree(KeyOrdered, l))
  {
    forall i | 0 <= i < |l.fields| ensures IsCanonical(AnnotatedTree(KeyOrdered, l.fields[i])) {
      CanonicalAnnotated(l.fields[i]);
    }
    assert IsCanonical(Array(AnnotatedTrees(KeyOrdered, l.fields)));
  }

  lemma CanonicalText(t: string)
    ensures IsCanonical(TextTree(t))
  {
  }

  lemma CanonicalDynamic(d: P.DynamicAnnotation)
    ensures IsCanonical(DynamicTree(d))
  {
    assert IsCanonical(Array(Strings(d.params)));
  }

  lemma AnnotationsCanonical(a: P.AnnotatedField)
    ensures HoldCanonical(Annotations(KeyOrdered, a))
  {
    if a.staticAnnotation.Some? {
      ToKeyOrderedCanonical(TextTree(a.staticAnnotation.value));
    }
    if a.dynamicAnnotation.Some? {
      ToKeyOrderedCanonical(DynamicTree(a.dynamicAnnotation.value));
    }
  }

  lemma CanonicalAnnotated(a: P.AnnotatedField)
    ensures IsCanonical(AnnotatedTree(KeyOrdered, a))
  {
    EntriesCanonical(a.field);
    AnnotationsCanonical(a);
    AnnotatedTreeFlat(KeyOrdered, a);
    BTreeCanonical(AnnotatedEntries(KeyOrdered, a));
  }

  lemma OptionalCanonical(l: Option<P.ListBody>, t: Option<string>)
    ensures l.Some? ==> IsCanonical(OptionalList(KeyOrdered, l).value)
    ensures t.Some? ==> IsCanonical(OptionalText(KeyOrdered, t).value)
  {
    if l.Some? {
      ToKeyOrderedCanonical(ListTree(KeyOrdered, l.value));
    }
    if t.Some? {
      ToKeyOrderedCanonical(TextTree(t.value));
    }
  }

  lemma CanonicalPreview(p: P.PreviewBody)
    ensures IsCanonical(PreviewTree(KeyOrdered, p))
  {
    OptionalCanonical(p.condensed, p.subtitle);
    OptionalCanonical(p.expanded, p.title);
    MembersCanonical(OptionalList(KeyOrdered, p.condensed), OptionalList(KeyOrdered, p.expanded),
                     OptionalText(KeyOrdered, p.subtitle), OptionalText(KeyOrdered, p.title));
    BTreeCanonical(PreviewEntries(KeyOrdered, p));
  }

  lemma MembersCanonical(a: Option<Json>, b: Option<Json>, c: Option<Json>, d: Option<Json>)
    requires a.Some? ==> IsCanonical(a.value)
    requires b.Some? ==> IsCanonical(b.value)
    requires c.Some? ==> IsCanonical(c.value)
    requires d.Some? ==> IsCanonical(d.value)
    ensures HoldCanonical(PreviewMembers(a, b, c, d))
  {
  }
}
