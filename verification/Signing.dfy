/**
 The two texts of a payload: the one that is validated (`to_json`) and the one that is
 digested and signed (`serde_json::to_string`).
 */
module Signing {
  import opened Wrappers
  import opened JsonText
  import opened Canonical
  import opened Charset
  import opened Serializers
  import opened MapOrders
  import opened DeclarationOrder
  import opened PayloadCharset
  import opened PayloadReader
  import opened PayloadRoundTrip
  import opened ReaderOrder
  import P = Payload

  /** Collect to a value, sort it, print it. */
  function ToJson(order: MapOrder, p: P.SignablePayload): Result<string, SerializeError> {
    var tree :- Serialize(order, p);
    Ok(Print(Sort(ToValue(order, tree))))
  }

  /** Print the calls of the serializers as they come. */
  function ToText(order: MapOrder, p: P.SignablePayload): Result<string, SerializeError> {
    var tree :- Serialize(order, p);
    Ok(Print(tree))
  }

  datatype CharsetError = SerializationError(error: SerializeError) | ValidationError

  function ValidateCharset(order: MapOrder, p: P.SignablePayload): Result<(), CharsetError> {
    match ToJson(order, p)
    case Err(e) => Err(SerializationError(e))
    case Ok(text) => if IsAccepted(text) then Ok(()) else Err(ValidationError)
  }

  /** Recover a payload from a text. */
  function ReadPayloadText(text: string): Option<P.SignablePayload> {
    var j :- Read(text);
    ReadPayload(j)
  }

  lemma ToJsonText(order: MapOrder, p: P.SignablePayload)
    ensures ToJson(order, p) == Ok(Print(PayloadTree(KeyOrdered, p)))
  {
    SerializeSucceeds(order, p);
    SortedPayload(order, p);
  }

  lemma ToTextText(order: MapOrder, p: P.SignablePayload)
    ensures ToText(order, p) == Ok(Print(PayloadTree(order, p)))
  {
    SerializeSucceeds(order, p);
  }

  /** The validated text always exists and does not depend on the order kept by maps. */
  lemma ValidatedTextIsFeatureIndependent(p: P.SignablePayload)
    ensures ToJson(KeyOrdered, p).Ok?
    ensures ToJson(KeyOrdered, p) == ToJson(InsertionOrdered, p)
  {
    ToJsonText(KeyOrdered, p);
    ToJsonText(InsertionOrdered, p);
  }

  /** With key-ordered maps the signed text is the validated text, for every payload. */
  lemma SignedTextIsValidatedText(p: P.SignablePayload)
    ensures ToText(KeyOrdered, p) == ToJson(KeyOrdered, p)
  {
    ToJsonText(KeyOrdered, p);
    ToTextText(KeyOrdered, p);
  }

  /** With insertion-ordered maps it is so exactly for the payloads that are in order. */
  lemma SignedTextUnderPreserveOrder(p: P.SignablePayload)
    ensures ToText(InsertionOrdered, p) == ToJson(InsertionOrdered, p) <==> PayloadInOrder(p)
  {
    ToJsonText(InsertionOrdered, p);
    ToTextText(InsertionOrdered, p);
    PrintIsInjective(PayloadTree(InsertionOrdered, p), PayloadTree(KeyOrdered, p));
    PayloadSame(p);
  }

  /** The ordering check on a payload's value passes unless insertion order shows through. */
  lemma OrderingCheckOnPayload(order: MapOrder, p: P.SignablePayload)
    ensures var value := ToValue(order, PayloadTree(order, p));
            && WellFormed(value)
            && (Sort(value) == value <==> order.KeyOrdered? || PayloadInOrder(p))
  {
    ToValueWellFormed(order, PayloadTree(order, p));
    SortedPayload(order, p);
    PayloadSame(p);
    PayloadTreeWellFormed(order, p);
    if order.KeyOrdered? {
      ToKeyOrdered(PayloadTree(order, p));
    } else {
      ToInsertionOrdered(PayloadTree(order, p));
    }
  }

  /** A payload whose two texts differ under `preserve_order`: an amount with a symbol. */
  lemma PreserveOrderCanSplitTheTexts()
    ensures var p := P.SignablePayload([P.Amount(P.Common("1 ETH", "Value"), P.AmountBody("1", Some("ETH")))],
                                       "", None, "Transfer", "0");
            ToText(InsertionOrdered, p) != ToJson(InsertionOrdered, p)
  {
    var f := P.Amount(P.Common("1 ETH", "Value"), P.AmountBody("1", Some("ETH")));
    var p := P.SignablePayload([f], "", None, "Transfer", "0");
    assert !FieldInOrder(p.fields[0]);
    SignedTextUnderPreserveOrder(p);
  }

  /** Validation accepts exactly the payloads whose every string is clean. */
  lemma ValidationIsCleanliness(order: MapOrder, p: P.SignablePayload)
    ensures ValidateCharset(order, p) == if IsCleanPayload(p) then Ok(()) else Err(ValidationError)
  {
    ToJsonText(order, p);
    AcceptedIffClean(PayloadTree(KeyOrdered, p));
    CleanPayloadTree(KeyOrdered, p);
  }

  /**
   In both map orders the verdict on the validated text covers the signed text, even where
   the two differ: a validated payload is signed as printable ASCII without `\u`.
   */
  lemma ValidationCoversSignedText(order: MapOrder, p: P.SignablePayload)
    ensures ValidateCharset(order, p).Ok? <==> ToText(order, p).Ok? && IsAccepted(ToText(order, p).value)
    ensures ValidateCharset(order, p).Ok? ==>
            forall i :: 0 <= i < |ToText(order, p).value| ==> IsPrintable(ToText(order, p).value[i])
  {
    ToTextText(order, p);
    ValidationIsCleanliness(order, p);
    AcceptedIffClean(PayloadTree(order, p));
    CleanPayloadTree(order, p);
  }

  /** A reader recovers every payload from its validated text. */
  lemma ReadOfToJson(order: MapOrder, p: P.SignablePayload)
    ensures ToJson(order, p).Ok? && ReadPayloadText(ToJson(order, p).value) == Some(p)
  {
    ToJsonText(order, p);
    ReadOfPrint(PayloadTree(KeyOrdered, p));
    ReadOfPayload(p);
  }

  /** Two payloads with the same text are the same payload. */
  lemma ToJsonIsInjective(order: MapOrder, p: P.SignablePayload, q: P.SignablePayload)
    ensures ToJson(order, p) == ToJson(order, q) <==> p == q
  {
    ReadOfToJson(order, p);
    ReadOfToJson(order, q);
  }

  /** The signed text is read back to the payload too, in both map orders. */
  lemma ReadOfToText(order: MapOrder, p: P.SignablePayload)
    ensures ToText(order, p).Ok? && ReadPayloadText(ToText(order, p).value) == Some(p)
  {
    ToTextText(order, p);
    ReadOfPrint(PayloadTree(order, p));
    ReadOfSorted(PayloadTree(order, p));
    SortedPayload(order, p);
    ReadOfPayload(p);
  }

  /** So the signed text is injective, even between the map orders. */
  lemma SignedTextIsInjective(order: MapOrder, order': MapOrder, p: P.SignablePayload, q: P.SignablePayload)
    ensures ToText(order, p) == ToText(order', q) ==> p == q
    ensures p == q ==> ToText(order, p) == ToText(order, q)
  {
    ReadOfToText(order, p);
    ReadOfToText(order', q);
  }

  // ----- the operations as written

  method ToJsonMethod(order: MapOrder, p: P.SignablePayload) returns (text: Result<string, SerializeError>)
    ensures text == ToJson(order, p)
  {
    var tree :- Serialize(order, p);
    var sorted := SortJsonAlphabetically(ToValue(order, tree));
    text := Ok(Print(sorted));
  }

  /** `validate_charset`: serialize, then scan the text character by character. */
  method ValidatePayload(order: MapOrder, p: P.SignablePayload) returns (verdict: Result<(), CharsetError>)
    ensures verdict == ValidateCharset(order, p)
    ensures verdict.Ok? <==> IsCleanPayload(p)
  {
    ValidationIsCleanliness(order, p);
    var json := ToJsonMethod(order, p);
    match json
    case Err(e) => return Err(SerializationError(e));
    case Ok(text) =>
      var ok := CheckText(text);
      return if ok then Ok(()) else Err(ValidationError);
  }

  /** `to_validated_json`: validate, then serialize again. */
  method ToValidatedJson(order: MapOrder, p: P.SignablePayload) returns (r: Result<string, CharsetError>)
    ensures r.Ok? <==> IsCleanPayload(p)
    ensures r.Ok? ==> IsAccepted(r.value) && ReadPayloadText(r.value) == Some(p)
  {
    var valid := ValidatePayload(order, p);
    if valid.Err? {
      return Err(valid.error);
    }
    ReadOfToJson(order, p);
    var json := ToJsonMethod(order, p);
    match json
    case Err(e) => return Err(SerializationError(e));
    case Ok(text) => return Ok(text);
  }
}
