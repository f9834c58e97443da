/**
 A reader that recovers a payload from its tree: the type tag selects the variant, absent
 members stand for empty strings and absent options.
 */
module PayloadReader {
  import opened Wrappers
  import opened JsonTree
  import P = Payload

  function Get(ms: seq<Member>, key: string): (r: Option<Json>)
    ensures r.Some? ==> exists i :: 0 <= i < |ms| && ms[i].value == r.value
  {
    if key in ToMap(ms) then
      assert ms[Position(ms, key)].value == ToMap(ms)[key];
      Some(ToMap(ms)[key])
    else None
  }

  ghost function Position(ms: seq<Member>, key: string): (i: nat)
    requires key in ToMap(ms)
    ensures i < |ms| && ms[i] == Member(key, ToMap(ms)[key])
  {
    if key in ToMap(ms[1..]) then 1 + Position(ms[1..], key) else 0
  }

  function StringOf(j: Json): Option<string> {
    if j.String? then Some(j.s) else None
  }

  function StringAt(ms: seq<Member>, key: string): Option<string> {
    var j :- Get(ms, key);
    StringOf(j)
  }

  function StringOrEmptyAt(ms: seq<Member>, key: string): Option<string> {
    match Get(ms, key)
    case None => Some("")
    case Some(j) => StringOf(j)
  }

  function OptionAt(ms: seq<Member>, key: string): Option<Option<string>> {
    match Get(ms, key)
    case None => Some(None)
    case Some(j) =>
      var s :- StringOf(j);
      Some(Some(s))
  }

  function ReadText(j: Json): Option<string> {
    if j.Object? then StringAt(j.members, "Text") else None
  }

  function OptionalTextAt(ms: seq<Member>, key: string): Option<Option<string>> {
    match Get(ms, key)
    case None => Some(None)
    case Some(j) =>
      var t :- ReadText(j);
      Some(Some(t))
  }

  function ReadAddress(ms: seq<Member>): Option<P.AddressBody> {
    var address :- StringAt(ms, "Address");
    var name :- StringOrEmptyAt(ms, "Name");
    var memo :- OptionAt(ms, "Memo");
    var assetLabel :- StringOrEmptyAt(ms, "AssetLabel");
    var badgeText :- OptionAt(ms, "BadgeText");
    Some(P.AddressBody(address, name, memo, assetLabel, badgeText))
  }

  function ReadAmount(ms: seq<Member>): Option<P.AmountBody> {
    var amount :- StringAt(ms, "Amount");
    var abbreviation :- OptionAt(ms, "Abbreviation");
    Some(P.AmountBody(amount, abbreviation))
  }

  function ReadStrings(js: seq<Json>): Option<seq<string>> {
    if js == [] then Some([])
    else
      var s :- StringOf(js[0]);
      var rest :- ReadStrings(js[1..]);
      Some([s] + rest)
  }

  function ReadDynamic(j: Json): Option<P.DynamicAnnotation> {
    if !j.Object? then None
    else
      var id :- StringAt(j.members, "ID");
      var params :- Get(j.members, "Params");
      var fieldType :- StringAt(j.members, "Type");
      if !params.Array? then None
      else
        var strings :- ReadStrings(params.items);
        Some(P.DynamicAnnotation(fieldType, id, strings))
  }

  function KeyOfType(typeName: string): Option<string> {
    if typeName == "text" then Some("Text")
    else if typeName == "text_v2" then Some("TextV2")
    else if typeName == "address" then Some("Address")
    else if typeName == "address_v2" then Some("AddressV2")
    else if typeName == "number" then Some("Number")
    else if typeName == "amount" then Some("Amount")
    else if typeName == "amount_v2" then Some("AmountV2")
    else if typeName == "divider" then Some("Divider")
    else if typeName == "preview_layout" then Some("PreviewLayout")
    else if typeName == "list_layout" then Some("ListLayout")
    else if typeName == "unknown" then Some("Unknown")
    else None
  }

  function ReadField(j: Json): Option<P.Field>
    decreases j, 4
  {
    if !j.Object? then None
    else
      var fallbackText :- StringAt(j.members, "FallbackText");
      var fieldLabel :- StringAt(j.members, "Label");
      var typeName :- StringAt(j.members, "Type");
      var key :- KeyOfType(typeName);
      var body :- Get(j.members, key);
      ReadBody(P.Common(fallbackText, fieldLabel), key, body)
  }

  function ReadBody(common: P.Common, key: string, j: Json): Option<P.Field>
    decreases j, 3
  {
    if key == "PreviewLayout" then
      var preview :- ReadPreview(j);
      Some(P.PreviewLayout(common, preview))
    else if key == "ListLayout" then
      var list :- ReadList(j);
      Some(P.ListLayout(common, list))
    else ReadPlainBody(common, key, j)
  }

  function ReadPlainBody(common: P.Common, key: string, j: Json): Option<P.Field> {
    if !j.Object? then None
    else if key == "Text" then
      var text :- StringAt(j.members, "Text");
      Some(P.Text(common, text))
    else if key == "TextV2" then
      var text :- StringAt(j.members, "Text");
      Some(P.TextV2(common, text))
    else if key == "Address" then
      var address :- StringAt(j.members, "Address");
      var name :- StringAt(j.members, "Name");
      Some(P.Address(common, address, name))
    else if key == "AddressV2" then
      var body :- ReadAddress(j.members);
      Some(P.AddressV2(common, body))
    else if key == "Number" then
      var number :- StringAt(j.members, "Number");
      Some(P.Number(common, number))
    else if key == "Amount" then
      var body :- ReadAmount(j.members);
      Some(P.Amount(common, body))
    else if key == "AmountV2" then
      var body :- ReadAmount(j.members);
      Some(P.AmountV2(common, body))
    else if key == "Divider" then
      var style :- StringAt(j.members, "Style");
      Some(P.Divider(common, style))
    else if key == "Unknown" then
      var data :- StringAt(j.members, "Data");
      var explanation :- StringAt(j.members, "Explanation");
      Some(P.Unknown(common, data, explanation))
    else None
  }

  function OptionalListAt(j: Json, key: string): Option<Option<P.ListBody>>
    requires j.Object?
    decreases j, 1
  {
    match Get(j.members, key)
    case None => Some(None)
    case Some(l) =>
      var list :- ReadList(l);
      Some(Some(list))
  }

  function ReadPreview(j: Json): Option<P.PreviewBody>
    decreases j, 2
  {
    if !j.Object? then None
    else
      var title :- OptionalTextAt(j.members, "Title");
      var subtitle :- OptionalTextAt(j.members, "Subtitle");
      var condensed :- OptionalListAt(j, "Condensed");
      var expanded :- OptionalListAt(j, "Expanded");
      Some(P.PreviewBody(title, subtitle, condensed, expanded))
  }

  function ReadList(j: Json): Option<P.ListBody>
    decreases j, 0
  {
    if !j.Object? then None
    else
      var fields :- Get(j.members, "Fields");
      if !fields.Array? then None
      else
        var list :- ReadAnnotatedItems(fields.items);
        Some(P.ListBody(list))
  }

  function ReadAnnotatedItems(js: seq<Json>): Option<seq<P.AnnotatedField>>
    decreases js, 0
  {
    if js == [] then Some([])
    else
      var field :- ReadAnnotated(js[0]);
      var rest :- ReadAnnotatedItems(js[1..]);
      Some([field] + rest)
  }

  function ReadAnnotated(j: Json): Option<P.AnnotatedField>
    decreases j, 5
  {
    var field :- ReadField(j);
    if !j.Object? then None
    else
      var fixed :- OptionalTextAt(j.members, "StaticAnnotation");
      match Get(j.members, "DynamicAnnotation")
      case None => Some(P.AnnotatedField(field, fixed, None))
      case Some(d) =>
        var dynamic :- ReadDynamic(d);
        Some(P.AnnotatedField(field, fixed, Some(dynamic)))
  }

  function ReadFields(js: seq<Json>): Option<seq<P.Field>> {
    if js == [] then Some([])
    else
      var field :- ReadField(js[0]);
      var rest :- ReadFields(js[1..]);
      Some([field] + rest)
  }

  function ReadPayload(j: Json): Option<P.SignablePayload> {
    if !j.Object? then None
    else
      var fieldArray :- Get(j.members, "Fields");
      var payloadType :- StringOrEmptyAt(j.members, "PayloadType");
      var subtitle :- OptionAt(j.members, "Subtitle");
      var title :- StringAt(j.members, "Title");
      var version :- StringAt(j.members, "Version");
      if !fieldArray.Array? then None
      else
        var fields :- ReadFields(fieldArray.items);
        Some(P.SignablePayload(fields, payloadType, subtitle, title, version))
  }
}
