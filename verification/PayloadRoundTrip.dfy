/** The reader recovers every payload from its sorted tree. */
module PayloadRoundTrip {
  import opened Wrappers
  import opened JsonTree
  import opened Canonical
  import opened Serializers
  import opened MapOrders
  import opened PayloadReader
  import P = Payload

  // ----- looking up a key

  lemma GetAppend(x: seq<Member>, y: seq<Member>, k: string)
    ensures Get(x + y, k) == if Get(y, k).Some? then Get(y, k) else Get(x, k)
  {
    ToMapAppend(x, y);
  }

  lemma GetOne(key: string, v: Json, k: string)
    ensures Get([Member(key, v)], k) == if k == key then Some(v) else None
    ensures Get([], k) == None
  {
    assert ToMap([Member(key, v)]) == map[key := v];
  }

  lemma GetRequired(key: string, v: string, k: string)
    ensures Get(Required(key, v), k) == if k == key then Some(String(v)) else None
    ensures Get(NonEmpty(key, v), k) == if k == key && v != "" then Some(String(v)) else None
    ensures Get(Optional(key, Some(v)), k) == if k == key then Some(String(v)) else None
    ensures Get(Optional(key, None), k) == None
  {
    GetOne(key, String(v), k);
  }

  lemma GetOptional(key: string, o: Option<string>, k: string)
    ensures Get(Optional(key, o), k) == if k == key && o.Some? then Some(String(o.value)) else None
  {
    GetRequired(key, if o.Some? then o.value else "", k);
  }

  lemma GetOptionalJson(key: string, o: Option<Json>, k: string)
    ensures Get(OptionalJson(key, o), k) == if k == key then o else None
  {
    if o.Some? {
      GetOne(key, o.value, k);
    } else {
      GetOne(key, Null, k);
    }
  }

  /** A key-ordered map answers like its entries. */
  lemma GetBTree(entries: seq<Member>, k: string)
    ensures Get(BTree(entries), k) == Get(entries, k)
  {
    BTreeAscending(entries);
  }

  // ----- structs without nesting

  lemma GetAddress(a: P.AddressBody, k: string)
    ensures Get(AddressMembers(a), k) ==
            if k == "BadgeText" && a.badgeText.Some? then Some(String(a.badgeText.value))
            else if k == "AssetLabel" && a.assetLabel != "" then Some(String(a.assetLabel))
            else if k == "Memo" && a.memo.Some? then Some(String(a.memo.value))
            else if k == "Name" && a.name != "" then Some(String(a.name))
            else if k == "Address" then Some(String(a.address))
            else None
  {
    var p1, p2, p3, p4, p5 := Required("Address", a.address), NonEmpty("Name", a.name), Optional("Memo", a.memo),
                              NonEmpty("AssetLabel", a.assetLabel), Optional("BadgeText", a.badgeText);
    GetRequired("Address", a.address, k);
    GetRequired("Name", a.name, k);
    GetOptional("Memo", a.memo, k);
    GetRequired("AssetLabel", a.assetLabel, k);
    GetOptional("BadgeText", a.badgeText, k);
    GetAppend(p1, p2, k);
    GetAppend(p1 + p2, p3, k);
    GetAppend(p1 + p2 + p3, p4, k);
    GetAppend(p1 + p2 + p3 + p4, p5, k);
  }

  lemma ReadOfAddress(ms: seq<Member>, a: P.AddressBody)
    requires forall k :: Get(ms, k) == Get(AddressMembers(a), k)
    ensures ReadAddress(ms) == Some(a)
  {
    GetAddress(a, "Address");
    GetAddress(a, "Name");
    GetAddress(a, "Memo");
    GetAddress(a, "AssetLabel");
    GetAddress(a, "BadgeText");
  }

  lemma GetAmount(a: P.AmountBody, k: string)
    ensures Get(AmountMembers(a), k) ==
            if k == "Abbreviation" && a.abbreviation.Some? then Some(String(a.abbreviation.value))
            else if k == "Amount" then Some(String(a.amount))
            else None
  {
    GetRequired("Amount", a.amount, k);
    GetOptional("Abbreviation", a.abbreviation, k);
    GetAppend(Required("Amount", a.amount), Optional("Abbreviation", a.abbreviation), k);
  }

  lemma ReadOfAmount(ms: seq<Member>, a: P.AmountBody)
    requires forall k :: Get(ms, k) == Get(AmountMembers(a), k)
    ensures ReadAmount(ms) == Some(a)
  {
    GetAmount(a, "Amount");
    GetAmount(a, "Abbreviation");
  }

  lemma GetPair(k1: string, v1: string, k2: string, v2: string)
    requires k1 != k2
    ensures Get(Required(k1, v1) + Required(k2, v2), k1) == Some(String(v1))
    ensures Get(Required(k1, v1) + Required(k2, v2), k2) == Some(String(v2))
  {
    GetRequired(k1, v1, k1);
    GetRequired(k1, v1, k2);
    GetRequired(k2, v2, k1);
    GetRequired(k2, v2, k2);
    GetAppend(Required(k1, v1), Required(k2, v2), k1);
    GetAppend(Required(k1, v1), Required(k2, v2), k2);
  }

  lemma {:induction false} ReadOfStrings(ss: seq<string>)
    ensures ReadStrings(Strings(ss)) == Some(ss)
  {
    if ss != [] {
      ReadOfStrings(ss[1..]);
      assert Strings(ss)[1..] == Strings(ss[1..]);
      assert ss == [ss[0]] + ss[1..];
    }
  }

  lemma ReadOfDynamic(d: P.DynamicAnnotation)
    ensures ReadDynamic(DynamicTree(d)) == Some(d)
  {
    var id, params, kind := Required("ID", d.id), [Member("Params", Array(Strings(d.params)))], Required("Type", d.fieldType);
    forall k ensures Get(id + params + kind, k) ==
                     if k == "Type" then Some(String(d.fieldType))
                     else if k == "Params" then Some(Array(Strings(d.params)))
                     else if k == "ID" then Some(String(d.id))
                     else None
    {
      GetRequired("ID", d.id, k);
      GetOne("Params", Array(Strings(d.params)), k);
      GetRequired("Type", d.fieldType, k);
      GetAppend(id, params, k);
      GetAppend(id + params, kind, k);
    }
    ReadOfStrings(d.params);
    assert DynamicTree(d).members == id + params + kind;
  }

  lemma ReadOfText(t: string)
    ensures ReadText(TextTree(t)) == Some(t)
  {
    GetRequired("Text", t, "Text");
  }

  // ----- nested values are collected into maps, which for these trees changes nothing

  /** What a reader sees of a value collected into key-ordered maps. */
  lemma CollectedObject(ms: seq<Member>)
    ensures ToValue(KeyOrdered, Object(ms)) == Object(BTree(SortValues(ms)))
  {
    ToKeyOrdered(Object(ms));
  }

  lemma CollectedIsSame(j: Json)
    requires IsCanonical(j)
    ensures ToValue(KeyOrdered, j) == j
  {
    ToKeyOrdered(j);
    SortOfCanonical(j);
  }

  /** Members that are all strings are collected to members that read alike. */
  lemma CollectedStrings(ms: seq<Member>)
    requires forall i :: 0 <= i < |ms| ==> ms[i].value.String?
    ensures ToValue(KeyOrdered, Object(ms)) == Object(BTree(ms))
    ensures forall k :: Get(BTree(ms), k) == Get(ms, k)
  {
    CollectedObject(ms);
    assert SortValues(ms) == ms;
    forall k ensures Get(BTree(ms), k) == Get(ms, k) {
      GetBTree(ms, k);
    }
  }

  /** Collecting a plain body gives an object that answers like the body's members. */
  lemma CollectedBody(f: P.Field, ms: seq<Member>)
    requires !f.PreviewLayout? && !f.ListLayout?
    requires BodyTree(KeyOrdered, f) == Object(ms)
    requires forall i :: 0 <= i < |ms| ==> ms[i].value.String?
    ensures ToValue(KeyOrdered, BodyTree(KeyOrdered, f)) == Object(BTree(ms))
    ensures forall k :: Get(BTree(ms), k) == Get(ms, k)
  {
    CollectedStrings(ms);
  }

  lemma ReadOfOneString(f: P.Field)
    requires f.Text? || f.TextV2? || f.Number? || f.Divider?
    ensures ReadPlainBody(f.common, VariantKey(f), ToValue(KeyOrdered, BodyTree(KeyOrdered, f))) == Some(f)
  {
    CollectedBody(f, BodyTree(KeyOrdered, f).members);
    match f
    case Text(_, text) => GetRequired("Text", text, "Text");
    case TextV2(_, text) => GetRequired("Text", text, "Text");
    case Number(_, number) => GetRequired("Number", number, "Number");
    case Divider(_, style) => GetRequired("Style", style, "Style");
  }

  lemma ReadOfAddressPair(f: P.Field)
    requires f.Address?
    ensures ReadPlainBody(f.common, VariantKey(f), ToValue(KeyOrdered, BodyTree(KeyOrdered, f))) == Some(f)
  {
    CollectedBody(f, Required("Address", f.address) + Required("Name", f.name));
    GetPair("Address", f.address, "Name", f.name);
  }

  lemma ReadOfUnknown(f: P.Field)
    requires f.Unknown?
    ensures ReadPlainBody(f.common, VariantKey(f), ToValue(KeyOrdered, BodyTree(KeyOrdered, f))) == Some(f)
  {
    CollectedBody(f, Required("Data", f.data) + Required("Explanation", f.explanation));
    GetPair("Data", f.data, "Explanation", f.explanation);
  }

  lemma ReadOfAddressBody(f: P.Field)
    requires f.AddressV2?
    ensures ReadPlainBody(f.common, VariantKey(f), ToValue(KeyOrdered, BodyTree(KeyOrdered, f))) == Some(f)
  {
    var ms := AddressMembers(f.addressV2);
    CollectedBody(f, ms);
    ReadOfAddress(BTree(ms), f.addressV2);
  }

  lemma CollectedAmount(a: P.AmountBody)
    ensures ToValue(KeyOrdered, Object(AmountMembers(a))) == Object(BTree(AmountMembers(a)))
    ensures ToValue(KeyOrdered, Object(BTree(AmountMembers(a)))) == Object(BTree(AmountMembers(a)))
    ensures ReadAmount(BTree(AmountMembers(a))) == Some(a)
  {
    var ms := AmountMembers(a);
    CollectedStrings(ms);
    ReadOfAmount(BTree(ms), a);
    BTreeCanonical(ms);
    CollectedIsSame(Object(BTree(ms)));
  }

  lemma ReadOfAmountBody(f: P.Field)
    requires f.Amount?
    ensures ReadPlainBody(f.common, VariantKey(f), ToValue(KeyOrdered, BodyTree(KeyOrdered, f))) == Some(f)
  {
    CollectedAmount(f.amount);
  }

  lemma ReadOfAmountV2Body(f: P.Field)
    requires f.AmountV2?
    ensures ReadPlainBody(f.common, VariantKey(f), ToValue(KeyOrdered, BodyTree(KeyOrdered, f))) == Some(f)
  {
    CollectedAmount(f.amountV2);
  }

  lemma ReadOfPlainBody(f: P.Field)
    requires !f.PreviewLayout? && !f.ListLayout?
    ensures ReadPlainBody(f.common, VariantKey(f), ToValue(KeyOrdered, BodyTree(KeyOrdered, f))) == Some(f)
  {
    match f
    case AddressV2(_, _) => ReadOfAddressBody(f);
    case Amount(_, _) => ReadOfAmountBody(f);
    case AmountV2(_, _) => ReadOfAmountV2Body(f);
    case Address(_, _, _) => ReadOfAddressPair(f);
    case Unknown(_, _, _) => ReadOfUnknown(f);
    case _ => ReadOfOneString(f);
  }

  // ----- nesting

  lemma ReadItemsStep(js: seq<Json>, a: P.AnnotatedField, rest: seq<P.AnnotatedField>)
    requires js != [] && ReadAnnotated(js[0]) == Some(a) && ReadAnnotatedItems(js[1..]) == Some(rest)
    ensures ReadAnnotatedItems(js) == Some([a] + rest)
  {
  }

  lemma {:induction false} ReadItemByItem(js: seq<Json>, fields: seq<P.AnnotatedField>)
    requires |js| == |fields| && forall i :: 0 <= i < |js| ==> ReadAnnotated(js[i]) == Some(fields[i])
    ensures ReadAnnotatedItems(js) == Some(fields)
  {
    if js != [] {
      ReadItemByItem(js[1..], fields[1..]);
      ReadItemsStep(js, fields[0], fields[1..]);
      assert fields == [fields[0]] + fields[1..];
    }
  }

  lemma ReadOfAnnotatedItems(fields: seq<P.AnnotatedField>)
    ensures ReadAnnotatedItems(AnnotatedTrees(KeyOrdered, fields)) == Some(fields)
    decreases fields, 0
  {
    var js := AnnotatedTrees(KeyOrdered, fields);
    forall i | 0 <= i < |js| ensures ReadAnnotated(js[i]) == Some(fields[i]) {
      ReadOfAnnotated(fields[i]);
    }
    ReadItemByItem(js, fields);
  }

  lemma ReadOfList(l: P.ListBody)
    ensures ReadList(ListTree(KeyOrdered, l)) == Some(l)
    ensures ToValue(KeyOrdered, ListTree(KeyOrdered, l)) == ListTree(KeyOrdered, l)
    decreases l
  {
    ReadOfAnnotatedItems(l.fields);
    GetOne("Fields", Array(AnnotatedTrees(KeyOrdered, l.fields)), "Fields");
    CanonicalList(l);
    CollectedIsSame(ListTree(KeyOrdered, l));
  }

  lemma GetPreview(c: Option<Json>, e: Option<Json>, s: Option<Json>, t: Option<Json>)
    ensures Get(PreviewMembers(c, e, s, t), "Condensed") == c
    ensures Get(PreviewMembers(c, e, s, t), "Expanded") == e
    ensures Get(PreviewMembers(c, e, s, t), "Subtitle") == s
    ensures Get(PreviewMembers(c, e, s, t), "Title") == t
  {
    forall k ensures Get(PreviewMembers(c, e, s, t), k) ==
                     if k == "Title" && t.Some? then t
                     else if k == "Subtitle" && s.Some? then s
                     else if k == "Expanded" && e.Some? then e
                     else if k == "Condensed" then c
                     else None
    {
      var x, y, z, w := OptionalJson("Condensed", c), OptionalJson("Expanded", e),
                        OptionalJson("Subtitle", s), OptionalJson("Title", t);
      GetOptionalJson("Condensed", c, k);
      GetOptionalJson("Expanded", e, k);
      GetOptionalJson("Subtitle", s, k);
      GetOptionalJson("Title", t, k);
      GetAppend(x, y, k);
      GetAppend(x + y, z, k);
      GetAppend(x + y + z, w, k);
    }
  }

  lemma CollectedText(t: string)
    ensures ToValue(KeyOrdered, TextTree(t)) == TextTree(t)
  {
    CollectedIsSame(TextTree(t));
  }

  lemma ReadOfOptionalText(ms: seq<Member>, key: string, t: Option<string>)
    requires Get(ms, key) == OptionalText(KeyOrdered, t)
    ensures OptionalTextAt(ms, key) == Some(t)
  {
    if t.Some? {
      CollectedText(t.value);
      ReadOfText(t.value);
    }
  }

  lemma ReadOfOptionalList(j: Json, key: string, l: Option<P.ListBody>)
    requires j.Object? && Get(j.members, key) == OptionalList(KeyOrdered, l)
    ensures OptionalListAt(j, key) == Some(l)
    decreases l
  {
    if l.Some? {
      ReadOfList(l.value);
    }
  }

  lemma GetPreviewTree(p: P.PreviewBody)
    ensures PreviewTree(KeyOrdered, p).Object?
    ensures Get(PreviewTree(KeyOrdered, p).members, "Condensed") == OptionalList(KeyOrdered, p.condensed)
    ensures Get(PreviewTree(KeyOrdered, p).members, "Expanded") == OptionalList(KeyOrdered, p.expanded)
    ensures Get(PreviewTree(KeyOrdered, p).members, "Subtitle") == OptionalText(KeyOrdered, p.subtitle)
    ensures Get(PreviewTree(KeyOrdered, p).members, "Title") == OptionalText(KeyOrdered, p.title)
  {
    GetPreview(OptionalList(KeyOrdered, p.condensed), OptionalList(KeyOrdered, p.expanded),
               OptionalText(KeyOrdered, p.subtitle), OptionalText(KeyOrdered, p.title));
    GetBTree(PreviewEntries(KeyOrdered, p), "Condensed");
    GetBTree(PreviewEntries(KeyOrdered, p), "Expanded");
    GetBTree(PreviewEntries(KeyOrdered, p), "Subtitle");
    GetBTree(PreviewEntries(KeyOrdered, p), "Title");
  }

  lemma ReadOfPreview(p: P.PreviewBody)
    ensures ReadPreview(PreviewTree(KeyOrdered, p)) == Some(p)
    ensures ToValue(KeyOrdered, PreviewTree(KeyOrdered, p)) == PreviewTree(KeyOrdered, p)
    decreases p
  {
    var j := PreviewTree(KeyOrdered, p);
    GetPreviewTree(p);
    ReadOfOptionalText(j.members, "Title", p.title);
    ReadOfOptionalText(j.members, "Subtitle", p.subtitle);
    ReadOfOptionalList(j, "Condensed", p.condensed);
    ReadOfOptionalList(j, "Expanded", p.expanded);
    CanonicalPreview(p);
    CollectedIsSame(j);
  }

  lemma ReadOfBody(f: P.Field)
    ensures ReadBody(f.common, VariantKey(f), ToValue(KeyOrdered, BodyTree(KeyOrdered, f))) == Some(f)
    decreases f, 0
  {
    match f
    case PreviewLayout(_, body) => ReadOfPreview(body);
    case ListLayout(_, body) => ReadOfList(body);
    case _ => ReadOfPlainBody(f);
  }

  lemma GetEntries(f: P.Field)
    ensures Get(Entries(KeyOrdered, f), "FallbackText") == Some(String(f.common.fallbackText))
    ensures Get(Entries(KeyOrdered, f), "Label") == Some(String(f.common.fieldLabel))
    ensures Get(Entries(KeyOrdered, f), "Type") == Some(String(TypeName(f)))
    ensures Get(Entries(KeyOrdered, f), VariantKey(f)) == Some(ToValue(KeyOrdered, BodyTree(KeyOrdered, f)))
  {
    var es := Entries(KeyOrdered, f);
    EntriesDistinct(KeyOrdered, f);
    ToMapAt(es, 0);
    ToMapAt(es, 1);
    ToMapAt(es, 2);
    ToMapAt(es, 3);
  }

  lemma KeyOfTypeName(f: P.Field)
    ensures KeyOfType(TypeName(f)) == Some(VariantKey(f))
  {
  }

  /** An object that answers like a field's entries is read as that field. */
  lemma ReadOfFieldMembers(ms: seq<Member>, f: P.Field)
    requires Get(ms, "FallbackText") == Get(Entries(KeyOrdered, f), "FallbackText")
    requires Get(ms, "Label") == Get(Entries(KeyOrdered, f), "Label")
    requires Get(ms, "Type") == Get(Entries(KeyOrdered, f), "Type")
    requires Get(ms, VariantKey(f)) == Get(Entries(KeyOrdered, f), VariantKey(f))
    ensures ReadField(Object(ms)) == Some(f)
    decreases f, 1
  {
    GetEntries(f);
    KeyOfTypeName(f);
    ReadOfBody(f);
  }

  lemma ReadOfField(f: P.Field)
    ensures ReadField(FieldTree(KeyOrdered, f)) == Some(f)
    decreases f, 2
  {
    var entries := Entries(KeyOrdered, f);
    GetBTree(entries, "FallbackText");
    GetBTree(entries, "Label");
    GetBTree(entries, "Type");
    GetBTree(entries, VariantKey(f));
    ReadOfFieldMembers(BTree(entries), f);
  }

  lemma GetAnnotations(a: P.AnnotatedField, k: string)
    ensures Get(Annotations(KeyOrdered, a), k) ==
            if k == "DynamicAnnotation" then
              (match a.dynamicAnnotation
               case Some(d) => Some(ToValue(KeyOrdered, DynamicTree(d)))
               case None => None)
            else if k == "StaticAnnotation" then OptionalText(KeyOrdered, a.staticAnnotation)
            else None
  {
    var x := OptionalJson("StaticAnnotation", OptionalText(KeyOrdered, a.staticAnnotation));
    var tree := match a.dynamicAnnotation
                case Some(d) => Some(ToValue(KeyOrdered, DynamicTree(d)))
                case None => None;
    GetOptionalJson("StaticAnnotation", OptionalText(KeyOrdered, a.staticAnnotation), k);
    GetOptionalJson("DynamicAnnotation", tree, k);
    GetAppend(x, OptionalJson("DynamicAnnotation", tree), k);
  }

  lemma GetAnnotated(a: P.AnnotatedField, k: string)
    ensures AnnotatedTree(KeyOrdered, a).Object?
    ensures Get(AnnotatedTree(KeyOrdered, a).members, k) ==
            if Get(Annotations(KeyOrdered, a), k).Some? then Get(Annotations(KeyOrdered, a), k)
            else Get(Entries(KeyOrdered, a.field), k)
  {
    AnnotatedTreeFlat(KeyOrdered, a);
    GetBTree(AnnotatedEntries(KeyOrdered, a), k);
    GetAppend(Entries(KeyOrdered, a.field), Annotations(KeyOrdered, a), k);
  }

  lemma FieldKeysAreNoAnnotations(a: P.AnnotatedField)
    ensures Get(Annotations(KeyOrdered, a), "FallbackText") == None
    ensures Get(Annotations(KeyOrdered, a), "Label") == None
    ensures Get(Annotations(KeyOrdered, a), "Type") == None
    ensures Get(Annotations(KeyOrdered, a), VariantKey(a.field)) == None
  {
    GetAnnotations(a, "FallbackText");
    GetAnnotations(a, "Label");
    GetAnnotations(a, "Type");
    GetAnnotations(a, VariantKey(a.field));
  }

  lemma AnnotationsAreNoFieldKeys(f: P.Field, k: string)
    requires k == "StaticAnnotation" || k == "DynamicAnnotation"
    ensures Get(Entries(KeyOrdered, f), k) == None
  {
    ToMapKeys(Entries(KeyOrdered, f), k);
    assert VariantKey(f) != k;
  }

  lemma ReadOfAnnotatedField(a: P.AnnotatedField)
    ensures ReadField(AnnotatedTree(KeyOrdered, a)) == Some(a.field)
    decreases a, 0
  {
    FieldKeysAreNoAnnotations(a);
    GetAnnotated(a, "FallbackText");
    GetAnnotated(a, "Label");
    GetAnnotated(a, "Type");
    GetAnnotated(a, VariantKey(a.field));
    ReadOfFieldMembers(AnnotatedTree(KeyOrdered, a).members, a.field);
  }

  lemma ReadOfAnnotated(a: P.AnnotatedField)
    ensures ReadAnnotated(AnnotatedTree(KeyOrdered, a)) == Some(a)
    decreases a, 1
  {
    ReadOfAnnotatedField(a);
    AnnotationsAreNoFieldKeys(a.field, "StaticAnnotation");
    AnnotationsAreNoFieldKeys(a.field, "DynamicAnnotation");
    GetAnnotated(a, "StaticAnnotation");
    GetAnnotated(a, "DynamicAnnotation");
    GetAnnotations(a, "StaticAnnotation");
    GetAnnotations(a, "DynamicAnnotation");
    ReadOfOptionalText(AnnotatedTree(KeyOrdered, a).members, "StaticAnnotation", a.staticAnnotation);
    if a.dynamicAnnotation.Some? {
      ReadOfDynamic(a.dynamicAnnotation.value);
      CanonicalDynamic(a.dynamicAnnotation.value);
      CollectedIsSame(DynamicTree(a.dynamicAnnotation.value));
    }
  }

  lemma {:induction false} ReadOfFields(fields: seq<P.Field>)
    ensures ReadFields(FieldTrees(KeyOrdered, fields)) == Some(fields)
  {
    if fields != [] {
      ReadOfField(fields[0]);
      ReadOfFields(fields[1..]);
      assert FieldTrees(KeyOrdered, fields)[1..] == FieldTrees(KeyOrdered, fields[1..]);
      assert fields == [fields[0]] + fields[1..];
    }
  }

  lemma GetPayload(fields: seq<Json>, p: P.SignablePayload, k: string)
    ensures Get(PayloadMembers(fields, p), k) ==
            if k == "Version" then Some(String(p.version))
            else if k == "Title" then Some(String(p.title))
            else if k == "Subtitle" && p.subtitle.Some? then Some(String(p.subtitle.value))
            else if k == "PayloadType" && p.payloadType != "" then Some(String(p.payloadType))
            else if k == "Fields" then Some(Array(fields))
            else None
  {
    var m1, m2, m3, m4, m5 := [Member("Fields", Array(fields))], NonEmpty("PayloadType", p.payloadType),
                              Optional("Subtitle", p.subtitle), Required("Title", p.title), Required("Version", p.version);
    GetOne("Fields", Array(fields), k);
    GetRequired("PayloadType", p.payloadType, k);
    GetOptional("Subtitle", p.subtitle, k);
    GetRequired("Title", p.title, k);
    GetRequired("Version", p.version, k);
    GetAppend(m1, m2, k);
    GetAppend(m1 + m2, m3, k);
    GetAppend(m1 + m2 + m3, m4, k);
    GetAppend(m1 + m2 + m3 + m4, m5, k);
  }

  /** Nothing of a payload is lost in its tree, whatever its variants and nesting. */
  lemma ReadOfPayload(p: P.SignablePayload)
    ensures ReadPayload(PayloadTree(KeyOrdered, p)) == Some(p)
  {
    var fields := FieldTrees(KeyOrdered, p.fields);
    ReadOfFields(p.fields);
    GetPayload(fields, p, "Fields");
    GetPayload(fields, p, "PayloadType");
    GetPayload(fields, p, "Subtitle");
    GetPayload(fields, p, "Title");
    GetPayload(fields, p, "Version");
  }
}
