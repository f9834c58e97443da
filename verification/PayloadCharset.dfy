/**
 The character check stated on the payload: which strings a payload may hold.
 */
module PayloadCharset {
  import opened Wrappers
  import opened JsonTree
  import opened Canonical
  import opened Charset
  import opened Serializers
  import opened MapOrders
  import P = Payload

  predicate IsCleanOption(o: Option<string>) {
    o.Some? ==> IsClean(o.value)
  }

  predicate IsCleanAddress(a: P.AddressBody) {
    IsClean(a.address) && IsClean(a.name) && IsCleanOption(a.memo) && IsClean(a.assetLabel) && IsCleanOption(a.badgeText)
  }

  predicate IsCleanAmount(a: P.AmountBody) {
    IsClean(a.amount) && IsCleanOption(a.abbreviation)
  }

  predicate IsCleanBody(f: P.Field)
    decreases f, 0
  {
    match f
    case Text(_, text) => IsClean(text)
    case TextV2(_, text) => IsClean(text)
    case Address(_, address, name) => IsClean(address) && IsClean(name)
    case AddressV2(_, body) => IsCleanAddress(body)
    case Number(_, number) => IsClean(number)
    case Amount(_, body) => IsCleanAmount(body)
    case AmountV2(_, body) => IsCleanAmount(body)
    case Divider(_, style) => IsClean(style)
    case PreviewLayout(_, body) => IsCleanPreview(body)
    case ListLayout(_, body) => IsCleanList(body)
    case Unknown(_, data, explanation) => IsClean(data) && IsClean(explanation)
  }

  predicate IsCleanField(f: P.Field)
    decreases f, 1
  {
    IsClean(f.common.fallbackText) && IsClean(f.common.fieldLabel) && IsCleanBody(f)
  }

  predicate IsCleanPreview(p: P.PreviewBody) {
    && IsCleanOption(p.title)
    && IsCleanOption(p.subtitle)
    && (p.condensed.Some? ==> IsCleanList(p.condensed.value))
    && (p.expanded.Some? ==> IsCleanList(p.expanded.value))
  }

  predicate IsCleanDynamic(d: P.DynamicAnnotation) {
    IsClean(d.fieldType) && IsClean(d.id) && forall i :: 0 <= i < |d.params| ==> IsClean(d.params[i])
  }

  predicate IsCleanAnnotated(a: P.AnnotatedField) {
    && IsCleanField(a.field)
    && IsCleanOption(a.staticAnnotation)
    && (a.dynamicAnnotation.Some? ==> IsCleanDynamic(a.dynamicAnnotation.value))
  }

  predicate IsCleanList(l: P.ListBody) {
    forall i :: 0 <= i < |l.fields| ==> IsCleanAnnotated(l.fields[i])
  }

  /** Every string anywhere in the payload is clean. */
  predicate IsCleanPayload(p: P.SignablePayload) {
    && (forall i :: 0 <= i < |p.fields| ==> IsCleanField(p.fields[i]))
    && IsClean(p.payloadType)
    && IsCleanOption(p.subtitle)
    && IsClean(p.title)
    && IsClean(p.version)
  }

  // ----- members

  lemma CleanAppend(x: seq<Member>, y: seq<Member>)
    ensures AreCleanMembers(x + y) <==> AreCleanMembers(x) && AreCleanMembers(y)
  {
    if AreCleanMembers(x + y) {
      forall i | 0 <= i < |x| ensures IsCleanMember(x[i]) {
        assert IsCleanMember((x + y)[i]);
      }
      forall i | 0 <= i < |y| ensures IsCleanMember(y[i]) {
        assert IsCleanMember((x + y)[|x| + i]);
      }
    }
  }

  lemma EmptyIsClean()
    ensures IsClean("")
  {
  }

  lemma CleanOne(key: string, value: string)
    requires IsClean(key)
    ensures AreCleanMembers(Required(key, value)) <==> IsClean(value)
    ensures AreCleanMembers(NonEmpty(key, value)) <==> IsClean(value)
    ensures AreCleanMembers(Optional(key, Some(value))) <==> IsClean(value)
  {
    assert Required(key, value)[0] == Member(key, String(value));
    EmptyIsClean();
  }

  lemma CleanOptional(key: string, o: Option<string>)
    requires IsClean(key)
    ensures AreCleanMembers(Optional(key, o)) <==> IsCleanOption(o)
  {
    if o.Some? {
      CleanOne(key, o.value);
    }
  }

  lemma CleanOptionalJson(key: string, o: Option<Json>)
    requires IsClean(key)
    ensures AreCleanMembers(OptionalJson(key, o)) <==> (o.Some? ==> IsCleanTree(o.value))
  {
    if o.Some? {
      assert OptionalJson(key, o)[0] == Member(key, o.value);
    }
  }

  lemma CleanObject(ms: seq<Member>)
    ensures IsCleanTree(Object(ms)) <==> AreCleanMembers(ms)
  {
  }

  lemma AddressKeysClean()
    ensures IsClean("Address") && IsClean("Name") && IsClean("Memo") && IsClean("AssetLabel") && IsClean("BadgeText")
  {
  }

  lemma AmountKeysClean()
    ensures IsClean("Amount") && IsClean("Abbreviation")
  {
  }

  lemma BodyKeysClean()
    ensures IsClean("Text") && IsClean("Number") && IsClean("Style") && IsClean("Data") && IsClean("Explanation")
    ensures IsClean("Fields")
  {
  }

  lemma PreviewKeysClean()
    ensures IsClean("Condensed") && IsClean("Expanded") && IsClean("Subtitle") && IsClean("Title")
  {
  }

  lemma AnnotationKeysClean()
    ensures IsClean("StaticAnnotation") && IsClean("DynamicAnnotation")
    ensures IsClean("ID") && IsClean("Params") && IsClean("Type")
  {
  }

  lemma FieldKeysClean()
    ensures IsClean("FallbackText") && IsClean("Label") && IsClean("PayloadType") && IsClean("Version")
  {
  }

  predicate IsNameChar(c: char) {
    'a' <= c <= 'z' || 'A' <= c <= 'Z' || '0' <= c <= '9' || c == '_'
  }

  lemma NameIsClean(s: string)
    requires forall i :: 0 <= i < |s| ==> IsNameChar(s[i])
    ensures IsClean(s)
  {
  }

  lemma NamesClean(f: P.Field)
    ensures IsClean(VariantKey(f)) && IsClean(TypeName(f))
  {
    NameIsClean(VariantKey(f));
    NameIsClean(TypeName(f));
  }

  // ----- structs

  lemma CleanAddressTree(a: P.AddressBody)
    ensures AreCleanMembers(AddressMembers(a)) <==> IsCleanAddress(a)
  {
    AddressKeysClean();
    var p1, p2, p3, p4, p5 := Required("Address", a.address), NonEmpty("Name", a.name), Optional("Memo", a.memo),
                              NonEmpty("AssetLabel", a.assetLabel), Optional("BadgeText", a.badgeText);
    CleanOne("Address", a.address);
    CleanOne("Name", a.name);
    CleanOptional("Memo", a.memo);
    CleanOne("AssetLabel", a.assetLabel);
    CleanOptional("BadgeText", a.badgeText);
    CleanAppend(p1, p2);
    CleanAppend(p1 + p2, p3);
    CleanAppend(p1 + p2 + p3, p4);
    CleanAppend(p1 + p2 + p3 + p4, p5);
  }

  lemma CleanAmountTree(a: P.AmountBody)
    ensures AreCleanMembers(AmountMembers(a)) <==> IsCleanAmount(a)
  {
    AmountKeysClean();
    CleanOne("Amount", a.amount);
    CleanOptional("Abbreviation", a.abbreviation);
    CleanAppend(Required("Amount", a.amount), Optional("Abbreviation", a.abbreviation));
  }

  lemma CleanPair(k: string, x: string, k': string, y: string)
    requires IsClean(k) && IsClean(k')
    ensures IsCleanTree(Object(Required(k, x) + Required(k', y))) <==> IsClean(x) && IsClean(y)
  {
    CleanOne(k, x);
    CleanOne(k', y);
    CleanAppend(Required(k, x), Required(k', y));
    CleanObject(Required(k, x) + Required(k', y));
  }

  lemma CleanSingle(k: string, x: string)
    requires IsClean(k)
    ensures IsCleanTree(Object(Required(k, x))) <==> IsClean(x)
  {
    CleanOne(k, x);
    CleanObject(Required(k, x));
  }

  lemma CleanDynamicTree(d: P.DynamicAnnotation)
    ensures IsCleanTree(DynamicTree(d)) <==> IsCleanDynamic(d)
  {
    AnnotationKeysClean();
    var id, params, kind := Required("ID", d.id), [Member("Params", Array(Strings(d.params)))], Required("Type", d.fieldType);
    CleanOne("ID", d.id);
    CleanOne("Type", d.fieldType);
    assert AreCleanMembers(params) <==> IsCleanMember(params[0]);
    assert IsCleanTree(Array(Strings(d.params))) <==> forall i :: 0 <= i < |d.params| ==> IsClean(d.params[i]) by {
      var js := Strings(d.params);
      assert forall i :: 0 <= i < |js| ==> (IsCleanTree(js[i]) <==> IsClean(d.params[i]));
      if IsCleanTree(Array(js)) {
        forall i | 0 <= i < |d.params| ensures IsClean(d.params[i]) {
          assert IsCleanTree(js[i]);
        }
      }
    }
    CleanAppend(id, params);
    CleanAppend(id + params, kind);
    CleanObject(id + params + kind);
  }

  /** Collecting into key-ordered maps keeps the verdict. */
  lemma CleanToValue(j: Json)
    requires WellFormed(j)
    ensures IsCleanTree(ToValue(KeyOrdered, j)) <==> IsCleanTree(j)
  {
    ToKeyOrdered(j);
    SortKeepsClean(j);
  }

  lemma CleanOptionalText(t: Option<string>)
    ensures t.Some? ==> (IsCleanTree(OptionalText(KeyOrdered, t).value) <==> IsClean(t.value))
  {
    if t.Some? {
      BodyKeysClean();
      CleanSingle("Text", t.value);
      CleanToValue(TextTree(t.value));
    }
  }

  lemma CleanOptionalList(l: Option<P.ListBody>)
    ensures l.Some? ==> (IsCleanTree(OptionalList(KeyOrdered, l).value) <==> IsCleanList(l.value))
    decreases l
  {
    if l.Some? {
      CleanListTree(l.value);
      ListTreeWellFormed(KeyOrdered, l.value);
      CleanToValue(ListTree(KeyOrdered, l.value));
    }
  }

  lemma CleanListTree(l: P.ListBody)
    ensures IsCleanTree(ListTree(KeyOrdered, l)) <==> IsCleanList(l)
    decreases l
  {
    BodyKeysClean();
    var items := AnnotatedTrees(KeyOrdered, l.fields);
    forall i | 0 <= i < |l.fields| ensures IsCleanTree(items[i]) <==> IsCleanAnnotated(l.fields[i]) {
      CleanAnnotatedTree(l.fields[i]);
    }
    assert IsCleanTree(Array(items)) <==> IsCleanList(l);
    assert ListTree(KeyOrdered, l).members[0] == Member("Fields", Array(items));
  }

  lemma CleanPreviewMembers(c: Option<Json>, e: Option<Json>, s: Option<Json>, t: Option<Json>)
    ensures AreCleanMembers(PreviewMembers(c, e, s, t)) <==>
            && (c.Some? ==> IsCleanTree(c.value)) && (e.Some? ==> IsCleanTree(e.value))
            && (s.Some? ==> IsCleanTree(s.value)) && (t.Some? ==> IsCleanTree(t.value))
  {
    PreviewKeysClean();
    CleanOptionalJson("Condensed", c);
    CleanOptionalJson("Expanded", e);
    CleanOptionalJson("Subtitle", s);
    CleanOptionalJson("Title", t);
    var x := OptionalJson("Condensed", c) + OptionalJson("Expanded", e);
    CleanAppend(OptionalJson("Condensed", c), OptionalJson("Expanded", e));
    CleanAppend(x, OptionalJson("Subtitle", s));
    CleanAppend(x + OptionalJson("Subtitle", s), OptionalJson("Title", t));
  }

  lemma CleanPreviewTree(p: P.PreviewBody)
    ensures IsCleanTree(PreviewTree(KeyOrdered, p)) <==> IsCleanPreview(p)
    decreases p
  {
    CleanOptionalList(p.condensed);
    CleanOptionalList(p.expanded);
    CleanOptionalText(p.subtitle);
    CleanOptionalText(p.title);
    CleanPreviewMembers(OptionalList(KeyOrdered, p.condensed), OptionalList(KeyOrdered, p.expanded),
                        OptionalText(KeyOrdered, p.subtitle), OptionalText(KeyOrdered, p.title));
    MembersDistinct(OptionalList(KeyOrdered, p.condensed), OptionalList(KeyOrdered, p.expanded),
                        OptionalText(KeyOrdered, p.subtitle), OptionalText(KeyOrdered, p.title));
    BTreeKeepsClean(PreviewEntries(KeyOrdered, p));
    CleanObject(BTree(PreviewEntries(KeyOrdered, p)));
  }

  lemma CleanBodyTree(f: P.Field)
    ensures IsCleanTree(BodyTree(KeyOrdered, f)) <==> IsCleanBody(f)
    decreases f, 0
  {
    match f
    case AddressV2(_, body) =>
      CleanAddressTree(body);
      CleanObject(AddressMembers(body));
    case Amount(_, body) =>
      CleanAmountTree(body);
      CleanObject(AmountMembers(body));
    case AmountV2(_, body) =>
      CleanAmountTree(body);
      AmountWellFormed(body);
      BTreeKeepsClean(AmountMembers(body));
      CleanObject(BTree(AmountMembers(body)));
    case PreviewLayout(_, body) => CleanPreviewTree(body);
    case ListLayout(_, body) => CleanListTree(body);
    case _ => CleanPlainBody(f);
  }

  lemma CleanPlainBody(f: P.Field)
    requires !f.AddressV2? && !f.Amount? && !f.AmountV2? && !f.PreviewLayout? && !f.ListLayout?
    ensures IsCleanTree(BodyTree(KeyOrdered, f)) <==> IsCleanBody(f)
  {
    BodyKeysClean();
    AddressKeysClean();
    match f
    case Text(_, text) => CleanSingle("Text", text);
    case TextV2(_, text) => CleanSingle("Text", text);
    case Address(_, address, name) => CleanPair("Address", address, "Name", name);
    case Number(_, number) => CleanSingle("Number", number);
    case Divider(_, style) => CleanSingle("Style", style);
    case Unknown(_, data, explanation) => CleanPair("Data", data, "Explanation", explanation);
  }

  lemma CleanEntries(f: P.Field)
    ensures AreCleanMembers(Entries(KeyOrdered, f)) <==> IsCleanField(f)
    decreases f, 1
  {
    FieldKeysClean();
    AnnotationKeysClean();
    NamesClean(f);
    CleanBodyTree(f);
    BodyTreeWellFormed(KeyOrdered, f);
    CleanToValue(BodyTree(KeyOrdered, f));
    var e := Entries(KeyOrdered, f);
    assert e == [e[0], e[1], e[2], e[3]];
    CleanFour(e[0], e[1], e[2], e[3]);
  }

  lemma CleanFour(a: Member, b: Member, c: Member, d: Member)
    ensures AreCleanMembers([a, b, c, d]) <==> IsCleanMember(a) && IsCleanMember(b) && IsCleanMember(c) && IsCleanMember(d)
  {
    var ms := [a, b, c, d];
    if AreCleanMembers(ms) {
      assert IsCleanMember(ms[0]) && IsCleanMember(ms[1]) && IsCleanMember(ms[2]) && IsCleanMember(ms[3]);
    }
  }

  lemma CleanFieldTree(f: P.Field)
    ensures IsCleanTree(FieldTree(KeyOrdered, f)) <==> IsCleanField(f)
    decreases f, 2
  {
    CleanEntries(f);
    EntriesDistinct(KeyOrdered, f);
    BTreeKeepsClean(Entries(KeyOrdered, f));
    CleanObject(FieldMap(KeyOrdered, f));
  }

  lemma CleanAnnotations(a: P.AnnotatedField)
    ensures AreCleanMembers(Annotations(KeyOrdered, a)) <==>
            && IsCleanOption(a.staticAnnotation)
            && (a.dynamicAnnotation.Some? ==> IsCleanDynamic(a.dynamicAnnotation.value))
  {
    AnnotationKeysClean();
    CleanOptionalText(a.staticAnnotation);
    var fixed := OptionalJson("StaticAnnotation", OptionalText(KeyOrdered, a.staticAnnotation));
    CleanOptionalJson("StaticAnnotation", OptionalText(KeyOrdered, a.staticAnnotation));
    var tree := match a.dynamicAnnotation
                case Some(d) => Some(ToValue(KeyOrdered, DynamicTree(d)))
                case None => None;
    CleanOptionalJson("DynamicAnnotation", tree);
    if a.dynamicAnnotation.Some? {
      CleanDynamicTree(a.dynamicAnnotation.value);
      CleanToValue(DynamicTree(a.dynamicAnnotation.value));
    }
    CleanAppend(fixed, OptionalJson("DynamicAnnotation", tree));
  }

  lemma CleanAnnotatedTree(a: P.AnnotatedField)
    ensures IsCleanTree(AnnotatedTree(KeyOrdered, a)) <==> IsCleanAnnotated(a)
    decreases a
  {
    CleanEntries(a.field);
    CleanAnnotations(a);
    CleanAppend(Entries(KeyOrdered, a.field), Annotations(KeyOrdered, a));
    AnnotatedTreeFlat(KeyOrdered, a);
    AnnotatedDistinct(KeyOrdered, a);
    BTreeKeepsClean(AnnotatedEntries(KeyOrdered, a));
    CleanObject(BTree(AnnotatedEntries(KeyOrdered, a)));
  }

  lemma CleanPayloadMembers(fields: seq<Json>, p: P.SignablePayload)
    ensures IsCleanTree(Object(PayloadMembers(fields, p))) <==>
            && IsCleanTree(Array(fields)) && IsClean(p.payloadType) && IsCleanOption(p.subtitle)
            && IsClean(p.title) && IsClean(p.version)
  {
    FieldKeysClean();
    BodyKeysClean();
    PreviewKeysClean();
    var m1, m2, m3, m4, m5 := [Member("Fields", Array(fields))], NonEmpty("PayloadType", p.payloadType),
                              Optional("Subtitle", p.subtitle), Required("Title", p.title), Required("Version", p.version);
    assert AreCleanMembers(m1) <==> IsCleanMember(m1[0]);
    CleanOne("PayloadType", p.payloadType);
    CleanOptional("Subtitle", p.subtitle);
    CleanOne("Title", p.title);
    CleanOne("Version", p.version);
    CleanAppend(m1, m2);
    CleanAppend(m1 + m2, m3);
    CleanAppend(m1 + m2 + m3, m4);
    CleanAppend(m1 + m2 + m3 + m4, m5);
    CleanObject(m1 + m2 + m3 + m4 + m5);
  }

  lemma CleanKeyOrderedTree(p: P.SignablePayload)
    ensures IsCleanTree(PayloadTree(KeyOrdered, p)) <==> IsCleanPayload(p)
  {
    var fields := FieldTrees(KeyOrdered, p.fields);
    forall i | 0 <= i < |p.fields| ensures IsCleanTree(fields[i]) <==> IsCleanField(p.fields[i]) {
      CleanFieldTree(p.fields[i]);
    }
    assert IsCleanTree(Array(fields)) <==> forall i :: 0 <= i < |p.fields| ==> IsCleanField(p.fields[i]);
    CleanPayloadMembers(fields, p);
  }

  /** In either map order the tree of a payload is clean exactly when its strings are. */
  lemma CleanPayloadTree(order: MapOrder, p: P.SignablePayload)
    ensures IsCleanTree(PayloadTree(order, p)) <==> IsCleanPayload(p)
  {
    PayloadTreeWellFormed(order, p);
    SortedPayload(order, p);
    SortKeepsClean(PayloadTree(order, p));
    CleanKeyOrderedTree(p);
  }
}
