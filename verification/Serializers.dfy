/**
 The serializers of the payload types. A `Serialize` implementation is a function to the
 tree of its calls, members in call order; printing that tree is `serde_json::to_string`,
 and `ToValue` of it is `serde_json::to_value`, which collects every object into a
 `serde_json::Map`.
 */
module Serializers {
  import opened Wrappers
  import opened JsonTree
  import opened Canonical
  import P = Payload

  /** Order kept by `serde_json::Map`: by key, or by insertion under `preserve_order`. */
  datatype MapOrder = KeyOrdered | InsertionOrdered

  function Collect(order: MapOrder, entries: seq<Member>): seq<Member> {
    match order
    case KeyOrdered => BTree(entries)
    case InsertionOrdered => IndexMap(entries)
  }

  function ToValue(order: MapOrder, j: Json): Json
    decreases j, 1
  {
    match j
    case Object(members) => Object(Collect(order, CollectValues(order, members)))
    case Array(items) => Array(CollectItems(order, items))
    case _ => j
  }

  function CollectValues(order: MapOrder, ms: seq<Member>): (r: seq<Member>)
    ensures |r| == |ms|
    ensures forall i :: 0 <= i < |ms| ==> r[i] == Member(ms[i].key, ToValue(order, ms[i].value))
    decreases ms, 0
  {
    seq(|ms|, i requires 0 <= i < |ms| => Member(ms[i].key, ToValue(order, ms[i].value)))
  }

  function CollectItems(order: MapOrder, items: seq<Json>): (r: seq<Json>)
    ensures |r| == |items|
    ensures forall i :: 0 <= i < |items| ==> r[i] == ToValue(order, items[i])
    decreases items, 0
  {
    seq(|items|, i requires 0 <= i < |items| => ToValue(order, items[i]))
  }

  // ----- members

  function Required(key: string, value: string): seq<Member> {
    [Member(key, String(value))]
  }

  /** `skip_serializing_if = "is_empty_string"` */
  function NonEmpty(key: string, value: string): seq<Member> {
    if value == "" then [] else [Member(key, String(value))]
  }

  /** `skip_serializing_if = "Option::is_none"` */
  function Optional(key: string, value: Option<string>): seq<Member> {
    match value
    case Some(s) => [Member(key, String(s))]
    case None => []
  }

  function OptionalJson(key: string, value: Option<Json>): seq<Member> {
    match value
    case Some(j) => [Member(key, j)]
    case None => []
  }

  function TextTree(text: string): Json {
    Object(Required("Text", text))
  }

  function AddressMembers(a: P.AddressBody): seq<Member> {
    Required("Address", a.address)
    + NonEmpty("Name", a.name)
    + Optional("Memo", a.memo)
    + NonEmpty("AssetLabel", a.assetLabel)
    + Optional("BadgeText", a.badgeText)
  }

  function AmountMembers(a: P.AmountBody): seq<Member> {
    Required("Amount", a.amount) + Optional("Abbreviation", a.abbreviation)
  }

  function Strings(ss: seq<string>): (r: seq<Json>)
    ensures |r| == |ss| && forall i :: 0 <= i < |ss| ==> r[i] == String(ss[i])
  {
    seq(|ss|, i requires 0 <= i < |ss| => String(ss[i]))
  }

  function DynamicTree(d: P.DynamicAnnotation): Json {
    Object(Required("ID", d.id) + [Member("Params", Array(Strings(d.params)))] + Required("Type", d.fieldType))
  }

  // ----- fields

  function TypeName(f: P.Field): string {
    match f
    case Text(_, _) => "text"
    case TextV2(_, _) => "text_v2"
    case Address(_, _, _) => "address"
    case AddressV2(_, _) => "address_v2"
    case Number(_, _) => "number"
    case Amount(_, _) => "amount"
    case AmountV2(_, _) => "amount_v2"
    case Divider(_, _) => "divider"
    case PreviewLayout(_, _) => "preview_layout"
    case ListLayout(_, _) => "list_layout"
    case Unknown(_, _, _) => "unknown"
  }

  function VariantKey(f: P.Field): string {
    match f
    case Text(_, _) => "Text"
    case TextV2(_, _) => "TextV2"
    case Address(_, _, _) => "Address"
    case AddressV2(_, _) => "AddressV2"
    case Number(_, _) => "Number"
    case Amount(_, _) => "Amount"
    case AmountV2(_, _) => "AmountV2"
    case Divider(_, _) => "Divider"
    case PreviewLayout(_, _) => "PreviewLayout"
    case ListLayout(_, _) => "ListLayout"
    case Unknown(_, _, _) => "Unknown"
  }

  /** The variant's own struct. */
  function BodyTree(order: MapOrder, f: P.Field): Json
    decreases f, 0
  {
    match f
    case Text(_, text) => TextTree(text)
    case TextV2(_, text) => TextTree(text)
    case Address(_, address, name) => Object(Required("Address", address) + Required("Name", name))
    case AddressV2(_, body) => Object(AddressMembers(body))
    case Number(_, number) => Object(Required("Number", number))
    case Amount(_, body) => Object(AmountMembers(body))
    case AmountV2(_, body) => Object(BTree(AmountMembers(body)))
    case Divider(_, style) => Object(Required("Style", style))
    case PreviewLayout(_, body) => PreviewTree(order, body)
    case ListLayout(_, body) => ListTree(order, body)
    case Unknown(_, data, explanation) => Object(Required("Data", data) + Required("Explanation", explanation))
  }

  /** The four entries that the macro puts into a hash map. */
  function Entries(order: MapOrder, f: P.Field): seq<Member>
    decreases f, 1
  {
    [Member("FallbackText", String(f.common.fallbackText)),
     Member("Label", String(f.common.fieldLabel)),
     Member("Type", String(TypeName(f))),
     Member(VariantKey(f), ToValue(order, BodyTree(order, f)))]
  }

  /** The hash map drained into a `BTreeMap`. */
  function FieldMap(order: MapOrder, f: P.Field): seq<Member>
    decreases f, 2
  {
    BTree(Entries(order, f))
  }

  function OptionalText(order: MapOrder, text: Option<string>): Option<Json> {
    match text
    case Some(t) => Some(ToValue(order, TextTree(t)))
    case None => None
  }

  function OptionalList(order: MapOrder, list: Option<P.ListBody>): Option<Json>
    decreases list
  {
    match list
    case Some(l) => Some(ToValue(order, ListTree(order, l)))
    case None => None
  }

  function PreviewMembers(
    condensed: Option<Json>, expanded: Option<Json>, subtitle: Option<Json>, title: Option<Json>): seq<Member>
  {
    OptionalJson("Condensed", condensed)
    + OptionalJson("Expanded", expanded)
    + OptionalJson("Subtitle", subtitle)
    + OptionalJson("Title", title)
  }

  function PreviewEntries(order: MapOrder, p: P.PreviewBody): seq<Member>
    decreases p, 0
  {
    PreviewMembers(OptionalList(order, p.condensed), OptionalList(order, p.expanded),
                   OptionalText(order, p.subtitle), OptionalText(order, p.title))
  }

  function PreviewTree(order: MapOrder, p: P.PreviewBody): Json
    decreases p, 1
  {
    Object(BTree(PreviewEntries(order, p)))
  }

  function ListTree(order: MapOrder, l: P.ListBody): Json
    decreases l
  {
    Object([Member("Fields", Array(AnnotatedTrees(order, l.fields)))])
  }

  function AnnotatedTrees(order: MapOrder, fields: seq<P.AnnotatedField>): (r: seq<Json>)
    ensures |r| == |fields|
    ensures forall i :: 0 <= i < |fields| ==> r[i] == AnnotatedTree(order, fields[i])
    decreases fields, 0
  {
    seq(|fields|, i requires 0 <= i < |fields| => AnnotatedTree(order, fields[i]))
  }

  function Annotations(order: MapOrder, a: P.AnnotatedField): seq<Member> {
    OptionalJson("StaticAnnotation", OptionalText(order, a.staticAnnotation))
    + OptionalJson("DynamicAnnotation",
                   match a.dynamicAnnotation
                   case Some(d) => Some(ToValue(order, DynamicTree(d)))
                   case None => None)
  }

  /** The field's own members and the annotations, side by side in one object. */
  function AnnotatedTree(order: MapOrder, a: P.AnnotatedField): Json
    decreases a
  {
    Object(BTree(FieldMap(order, a.field) + Annotations(order, a)))
  }

  function FieldTree(order: MapOrder, f: P.Field): Json {
    Object(FieldMap(order, f))
  }

  function FieldTrees(order: MapOrder, fields: seq<P.Field>): (r: seq<Json>)
    ensures |r| == |fields|
    ensures forall i :: 0 <= i < |fields| ==> r[i] == FieldTree(order, fields[i])
  {
    seq(|fields|, i requires 0 <= i < |fields| => FieldTree(order, fields[i]))
  }

  function PayloadMembers(fields: seq<Json>, p: P.SignablePayload): seq<Member> {
    [Member("Fields", Array(fields))]
    + NonEmpty("PayloadType", p.payloadType)
    + Optional("Subtitle", p.subtitle)
    + Required("Title", p.title)
    + Required("Version", p.version)
  }

  function PayloadTree(order: MapOrder, p: P.SignablePayload): Json {
    Object(PayloadMembers(FieldTrees(order, p.fields), p))
  }

  // ----- the completeness check on a top-level field

  datatype SerializeError = MissingField(key: string) | UnexpectedField(key: string)

  function ExpectedKeys(f: P.Field): seq<string> {
    SortKeys(["FallbackText", "Label", "Type",
              match f
              case Text(_, _) => "Text"
              case TextV2(_, _) => "TextV2"
              case Address(_, _, _) => "Address"
              case AddressV2(_, _) => "AddressV2"
              case Number(_, _) => "Number"
              case Amount(_, _) => "Amount"
              case AmountV2(_, _) => "AmountV2"
              case Divider(_, _) => "Divider"
              case PreviewLayout(_, _) => "PreviewLayout"
              case ListLayout(_, _) => "ListLayout"
              case Unknown(_, _, _) => "Unknown"])
  }

  function FirstAbsent(keys: seq<string>, from: seq<string>): Option<string> {
    if keys == [] then None
    else if keys[0] !in from then Some(keys[0])
    else FirstAbsent(keys[1..], from)
  }

  function SerializeField(order: MapOrder, f: P.Field): Result<Json, SerializeError> {
    var actual := Keys(FieldMap(order, f));
    match FirstAbsent(ExpectedKeys(f), actual)
    case Some(k) => Err(MissingField(k))
    case None =>
      match FirstAbsent(actual, ExpectedKeys(f))
      case Some(k) => Err(UnexpectedField(k))
      case None => Ok(FieldTree(order, f))
  }

  function SerializeFields(order: MapOrder, fields: seq<P.Field>): Result<seq<Json>, SerializeError> {
    if fields == [] then Ok([])
    else
      match SerializeField(order, fields[0])
      case Err(e) => Err(e)
      case Ok(j) =>
        match SerializeFields(order, fields[1..])
        case Err(e) => Err(e)
        case Ok(js) => Ok([j] + js)
  }

  /** The tree of calls that serializing a payload makes, or the error that stops it. */
  function Serialize(order: MapOrder, p: P.SignablePayload): Result<Json, SerializeError> {
    match SerializeFields(order, p.fields)
    case Err(e) => Err(e)
    case Ok(fields) => Ok(Object(PayloadMembers(fields, p)))
  }

  lemma EntriesDistinct(order: MapOrder, f: P.Field)
    ensures Distinct(Entries(order, f))
  {
  }

  lemma {:induction false} NoneAbsent(keys: seq<string>, from: seq<string>)
    ensures FirstAbsent(keys, from).None? <==> forall i :: 0 <= i < |keys| ==> keys[i] in from
  {
    if keys != [] {
      NoneAbsent(keys[1..], from);
      assert keys == [keys[0]] + keys[1..];
    }
  }

  lemma SameKeys(entries: seq<Member>, k: string)
    ensures k in Keys(BTree(entries)) <==> k in Keys(entries)
    ensures k in SortKeys(Keys(entries)) <==> k in Keys(entries)
  {
    BTreeAscending(entries);
    KeysOfMap(BTree(entries), k);
    KeysOfMap(entries, k);
    SortKeysSorts(Keys(entries));
    assert k in SortKeys(Keys(entries)) <==> k in multiset(Keys(entries));
  }

  lemma KeysOfMap(ms: seq<Member>, k: string)
    ensures k in Keys(ms) <==> k in ToMap(ms)
  {
    ToMapKeys(ms, k);
    if k in Keys(ms) {
      var i :| 0 <= i < |Keys(ms)| && Keys(ms)[i] == k;
      assert ms[i].key == k;
    }
    if k in ToMap(ms) {
      var i := ToMapFrom(ms, k);
      assert Keys(ms)[i] == k;
    }
  }

  /** For every variant the expected keys are the keys present, so the check never fires. */
  lemma FieldCheckPasses(order: MapOrder, f: P.Field)
    ensures SerializeField(order, f) == Ok(FieldTree(order, f))
  {
    var expected := ExpectedKeys(f);
    var actual := Keys(FieldMap(order, f));
    assert expected == SortKeys(Keys(Entries(order, f))) by {
      assert Keys(Entries(order, f)) == ["FallbackText", "Label", "Type", VariantKey(f)];
    }
    forall k ensures k in expected <==> k in actual {
      SameKeys(Entries(order, f), k);
    }
    NoneAbsent(expected, actual);
    NoneAbsent(actual, expected);
  }

  lemma {:induction false} FieldChecksPass(order: MapOrder, fields: seq<P.Field>)
    ensures SerializeFields(order, fields) == Ok(FieldTrees(order, fields))
  {
    if fields == [] {
      assert FieldTrees(order, fields) == [];
    } else {
      FieldCheckPasses(order, fields[0]);
      FieldChecksPass(order, fields[1..]);
      assert FieldTrees(order, fields) == [FieldTree(order, fields[0])] + FieldTrees(order, fields[1..]);
    }
  }

  /** Serializing a payload succeeds in both map orders. */
  lemma SerializeSucceeds(order: MapOrder, p: P.SignablePayload)
    ensures Serialize(order, p) == Ok(PayloadTree(order, p))
  {
    FieldChecksPass(order, p.fields);
  }

  /** `serialize_to_map` as written: a hash map filled by the macro, then drained in any order. */
  method SerializeToMap(order: MapOrder, f: P.Field) returns (sorted: seq<Member>)
    ensures sorted == FieldMap(order, f)
  {
    var fields: map<string, Json> := map[];
    fields := fields["FallbackText" := String(f.common.fallbackText)];
    fields := fields["Label" := String(f.common.fieldLabel)];
    fields := fields["Type" := String(TypeName(f))];
    fields := fields[VariantKey(f) := ToValue(order, BodyTree(order, f))];
    FourInserts(Entries(order, f));
    sorted := CollectSorted(fields);
  }

  lemma FourInserts(ms: seq<Member>)
    requires |ms| == 4
    ensures ToMap(ms) == map[][ms[0].key := ms[0].value][ms[1].key := ms[1].value]
                              [ms[2].key := ms[2].value][ms[3].key := ms[3].value]
  {
    assert ms[..4] == ms;
    ToMapSnoc(ms, 0);
    ToMapSnoc(ms, 1);
    ToMapSnoc(ms, 2);
    ToMapSnoc(ms, 3);
  }

  lemma ToMapSnoc(ms: seq<Member>, i: nat)
    requires i < |ms|
    ensures ToMap(ms[..0]) == map[]
    ensures ToMap(ms[..i + 1]) == ToMap(ms[..i])[ms[i].key := ms[i].value]
  {
    assert ms[..i + 1] == ms[..i] + [ms[i]];
    ToMapAppend(ms[..i], [ms[i]]);
  }
}
