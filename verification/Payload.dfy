/**
 The payload shown to a signer. Structs with a single string member are represented by
 that string.
 */
module Payload {
  import opened Wrappers

  datatype SignablePayload = SignablePayload(
    fields: seq<Field>,
    payloadType: string,
    subtitle: Option<string>,
    title: string,
    version: string)

  datatype Common = Common(fallbackText: string, fieldLabel: string)

  datatype Field =
    | Text(common: Common, text: string)
    | TextV2(common: Common, textV2: string)
    | Address(common: Common, address: string, name: string)
    | AddressV2(common: Common, addressV2: AddressBody)
    | Number(common: Common, number: string)
    | Amount(common: Common, amount: AmountBody)
    | AmountV2(common: Common, amountV2: AmountBody)
    | Divider(common: Common, style: string)
    | PreviewLayout(common: Common, preview: PreviewBody)
    | ListLayout(common: Common, list: ListBody)
    | Unknown(common: Common, data: string, explanation: string)

  datatype AddressBody = AddressBody(
    address: string,
    name: string,
    memo: Option<string>,
    assetLabel: string,
    badgeText: Option<string>)

  datatype AmountBody = AmountBody(amount: string, abbreviation: Option<string>)

  datatype PreviewBody = PreviewBody(
    title: Option<string>,
    subtitle: Option<string>,
    condensed: Option<ListBody>,
    expanded: Option<ListBody>)

  datatype ListBody = ListBody(fields: seq<AnnotatedField>)

  datatype AnnotatedField = AnnotatedField(
    field: Field,
    staticAnnotation: Option<string>,
    dynamicAnnotation: Option<DynamicAnnotation>)

  datatype DynamicAnnotation = DynamicAnnotation(fieldType: string, id: string, params: seq<string>)
}
