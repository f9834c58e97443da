/**
 The payload of an Ethereum transaction, taken as already decoded. The two contract
 visualizers are parameters: functions from call data to a field or nothing.
 */
module EthereumPayload {
  import opened Wrappers
  import opened Decimal
  import opened Hexadecimal
  import opened TokenAmount
  import opened Serializers
  import opened DeclarationOrder
  import opened Signing
  import opened Registry
  import opened ParseRoute
  import P = Payload

  /** Both fees are those `extract_gas_price` and `extract_priority_fee` find. */
  datatype Transaction = Transaction(
    network: string,
    to: Option<string>,
    value: nat,
    gasLimit: nat,
    gasPrice: nat,
    priorityFee: Option<nat>,
    nonce: nat,
    input: seq<u8>)

  datatype Visualizers = Visualizers(erc20: seq<u8> -> Option<P.Field>, uniswap: seq<u8> -> Option<P.Field>)

  function TextField(fieldLabel: string, text: string): P.Field {
    P.TextV2(P.Common(text, fieldLabel), text)
  }

  function ToField(to: string): P.Field {
    P.AddressV2(P.Common(to, "To"), P.AddressBody(to, "To", None, "Test Asset", None))
  }

  function ValueField(value: nat): P.Field {
    P.AmountV2(P.Common(FormatEther(value) + " ETH", "Value"), P.AmountBody(FormatEther(value), Some("ETH")))
  }

  function Gwei(price: nat): string {
    FormatGwei(price) + " gwei"
  }

  function OneOrNone(field: Option<P.Field>): seq<P.Field> {
    match field
    case Some(f) => [f]
    case None => []
  }

  /** What the visualizers make of the call data, or the data itself when they make nothing of it. */
  function InputFields(t: Transaction, options: Options, vs: Visualizers): seq<P.Field> {
    if t.input == [] then []
    else
      var fields := (if options.decodeTransfers then OneOrNone(vs.erc20(t.input)) else [])
                    + OneOrNone(vs.uniswap(t.input));
      if fields == [] then [TextField("Input Data", "0x" + Hex(t.input))] else fields
  }

  function GasLimitField(gasLimit: nat): P.Field {
    TextField("Gas Limit", Show(gasLimit))
  }

  function GasPriceField(gasPrice: nat): P.Field {
    TextField("Gas Price", Gwei(gasPrice))
  }

  function PriorityFeeField(fee: nat): P.Field {
    TextField("Max Priority Fee Per Gas", Gwei(fee))
  }

  function NonceField(nonce: nat): P.Field {
    TextField("Nonce", Show(nonce))
  }

  function InARow(a: P.Field, b: P.Field, c: P.Field, d: Option<P.Field>, e: P.Field): seq<P.Field> {
    [a, b, c] + OneOrNone(d) + [e]
  }

  function FeeFields(t: Transaction): seq<P.Field> {
    InARow(ValueField(t.value), GasLimitField(t.gasLimit), GasPriceField(t.gasPrice),
           match t.priorityFee case Some(fee) => Some(PriorityFeeField(fee)) case None => None,
           NonceField(t.nonce))
  }

  function ToFields(t: Transaction): seq<P.Field> {
    match t.to
    case Some(to) => [ToField(to)]
    case None => []
  }

  /** The fields before those of the call data. */
  function Head(t: Transaction): seq<P.Field> {
    [TextField("Network", t.network)] + ToFields(t) + FeeFields(t)
  }

  /** `convert_to_visual_sign_payload` */
  function Payload(t: Transaction, options: Options, vs: Visualizers): P.SignablePayload {
    var title := match options.transactionName case Some(name) => name case None => "Ethereum Transaction";
    P.SignablePayload(
      Head(t) + InputFields(t, options, vs),
      "EthereumTx", None, title, "0")
  }

  // ----- the two texts under `preserve_order`

  ghost predicate AllInOrder(fields: seq<P.Field>) {
    forall i :: 0 <= i < |fields| ==> FieldInOrder(fields[i])
  }

  lemma AppendInOrder(x: seq<P.Field>, y: seq<P.Field>)
    ensures AllInOrder(x + y) <==> AllInOrder(x) && AllInOrder(y)
  {
    forall i | 0 <= i < |x| ensures (x + y)[i] == x[i] {
    }
    forall i | 0 <= i < |y| ensures (x + y)[|x| + i] == y[i] {
    }
    if AllInOrder(x + y) {
      forall i | 0 <= i < |y| ensures FieldInOrder(y[i]) {
        assert (x + y)[|x| + i] == y[i];
      }
    }
  }

  lemma FourInOrder(w: seq<P.Field>, x: seq<P.Field>, y: seq<P.Field>, z: seq<P.Field>)
    ensures AllInOrder(w + x + y + z) <==> AllInOrder(w) && AllInOrder(x) && AllInOrder(y) && AllInOrder(z)
  {
    AppendInOrder(w, x);
    AppendInOrder(w + x, y);
    AppendInOrder(w + x + y, z);
  }

  /** A recipient is always serialized out of key order. */
  lemma RecipientIsOutOfOrder(t: Transaction)
    ensures AllInOrder(ToFields(t)) <==> t.to.None?
  {
    if t.to.Some? {
      assert !FieldInOrder(ToFields(t)[0]);
    }
  }

  lemma RowInOrder(a: P.Field, b: P.Field, c: P.Field, d: Option<P.Field>, e: P.Field)
    requires FieldInOrder(a) && FieldInOrder(b) && FieldInOrder(c) && FieldInOrder(e)
    requires d.Some? ==> FieldInOrder(d.value)
    ensures AllInOrder(InARow(a, b, c, d, e))
  {
  }

  lemma FeesInOrder(t: Transaction)
    ensures AllInOrder(FeeFields(t))
  {
    RowInOrder(ValueField(t.value), GasLimitField(t.gasLimit), GasPriceField(t.gasPrice),
               match t.priorityFee case Some(fee) => Some(PriorityFeeField(fee)) case None => None,
               NonceField(t.nonce));
  }

  lemma PayloadOrder(t: Transaction, options: Options, vs: Visualizers)
    ensures PayloadInOrder(Payload(t, options, vs)) <==> t.to.None? && AllInOrder(InputFields(t, options, vs))
  {
    RecipientIsOutOfOrder(t);
    FeesInOrder(t);
    FourInOrder([TextField("Network", t.network)], ToFields(t), FeeFields(t), InputFields(t, options, vs));
  }

  /**
   Under `preserve_order` the signed text of a transaction is its validated text exactly when
   it has no recipient and the fields of its call data are in order. So the two texts differ
   for every transfer and every call.
   */
  lemma TextsOfEthereum(t: Transaction, options: Options, vs: Visualizers)
    ensures var p := Payload(t, options, vs);
            ToText(InsertionOrdered, p) == ToJson(InsertionOrdered, p) <==>
            t.to.None? && AllInOrder(InputFields(t, options, vs))
  {
    PayloadOrder(t, options, vs);
    SignedTextUnderPreserveOrder(Payload(t, options, vs));
  }

  /** What the service digests for a request that converts to a transaction with a recipient. */
  lemma DigestedIsNotValidated<T>(
    request: Request, converters: map<Chain, Converter<T>>, t: Transaction, options: Options, vs: Visualizers)
    requires t.to.Some?
    ensures RequestPayload(InsertionOrdered, request, converters) == Some(Payload(t, options, vs)) ==>
            && ParseText(InsertionOrdered, request, converters).Ok?
            && ToJson(InsertionOrdered, Payload(t, options, vs))
               != Ok(ParseText(InsertionOrdered, request, converters).value)
  {
    SignedTextIsSafe(InsertionOrdered, request, converters);
    TextsOfEthereum(t, options, vs);
  }

  // ----- what a signed text says about the transaction

  lemma ShowIsInjective(a: nat, b: nat)
    ensures Show(a) == Show(b) <==> a == b
  {
    ValueOfShow(a);
    ValueOfShow(b);
  }

  lemma EtherIsInjective(a: nat, b: nat)
    ensures FormatEther(a) == FormatEther(b) <==> a == b
  {
    TrimmingKeepsValue(a, 18);
    TrimmingKeepsValue(b, 18);
  }

  lemma GweiIsInjective(a: nat, b: nat)
    ensures Gwei(a) == Gwei(b) <==> a == b
  {
    TrimmingKeepsValue(a, 9);
    TrimmingKeepsValue(b, 9);
    assert Gwei(a)[..|Gwei(a)| - 5] == FormatGwei(a) && Gwei(b)[..|Gwei(b)| - 5] == FormatGwei(b);
  }

  /** Network, recipient, value, fees and nonce. */
  predicate SameShown(a: Transaction, b: Transaction) {
    && a.network == b.network && a.to == b.to && a.value == b.value && a.gasLimit == b.gasLimit
    && a.gasPrice == b.gasPrice && a.priorityFee == b.priorityFee && a.nonce == b.nonce
  }

  /** Rows at the front of equal sequences agree, if the fourth field tells whether there is a fifth. */
  lemma SameRow(
    a: P.Field, b: P.Field, c: P.Field, d: Option<P.Field>, e: P.Field, x: seq<P.Field>,
    a': P.Field, b': P.Field, c': P.Field, d': Option<P.Field>, e': P.Field, x': seq<P.Field>)
    requires InARow(a, b, c, d, e) + x == InARow(a', b', c', d', e') + x'
    requires d.Some? && d'.None? ==> d.value != e'
    requires d.None? && d'.Some? ==> e != d'.value
    ensures a == a' && b == b' && c == c' && d == d' && e == e'
  {
    RowAt(a, b, c, d, e, x);
    RowAt(a', b', c', d', e', x');
  }

  lemma RowAt(a: P.Field, b: P.Field, c: P.Field, d: Option<P.Field>, e: P.Field, x: seq<P.Field>)
    ensures var s := InARow(a, b, c, d, e) + x;
            && |s| > 3 && s[0] == a && s[1] == b && s[2] == c
            && (d.None? ==> s[3] == e)
            && (d.Some? ==> |s| > 4 && s[3] == d.value && s[4] == e)
  {
  }

  lemma FeeIsNoNonce(fee: nat, nonce: nat)
    ensures PriorityFeeField(fee) != NonceField(nonce)
  {
    assert |PriorityFeeField(fee).common.fieldLabel| != |NonceField(nonce).common.fieldLabel|;
  }

  lemma FieldsAreInjective(a: nat, b: nat)
    ensures ValueField(a) == ValueField(b) <==> a == b
    ensures GasLimitField(a) == GasLimitField(b) <==> a == b
    ensures GasPriceField(a) == GasPriceField(b) <==> a == b
    ensures PriorityFeeField(a) == PriorityFeeField(b) <==> a == b
    ensures NonceField(a) == NonceField(b) <==> a == b
  {
    EtherIsInjective(a, b);
    ShowIsInjective(a, b);
    GweiIsInjective(a, b);
  }

  lemma FeesAreDetermined(a: Transaction, b: Transaction, x: seq<P.Field>, y: seq<P.Field>)
    requires FeeFields(a) + x == FeeFields(b) + y
    ensures a.value == b.value && a.gasLimit == b.gasLimit && a.gasPrice == b.gasPrice
    ensures a.priorityFee == b.priorityFee && a.nonce == b.nonce
  {
    var d := match a.priorityFee case Some(fee) => Some(PriorityFeeField(fee)) case None => None;
    var d' := match b.priorityFee case Some(fee) => Some(PriorityFeeField(fee)) case None => None;
    if a.priorityFee.Some? {
      FeeIsNoNonce(a.priorityFee.value, b.nonce);
    }
    if b.priorityFee.Some? {
      FeeIsNoNonce(b.priorityFee.value, a.nonce);
    }
    SameRow(ValueField(a.value), GasLimitField(a.gasLimit), GasPriceField(a.gasPrice), d, NonceField(a.nonce), x,
            ValueField(b.value), GasLimitField(b.gasLimit), GasPriceField(b.gasPrice), d', NonceField(b.nonce), y);
    FieldsAreInjective(a.value, b.value);
    FieldsAreInjective(a.gasLimit, b.gasLimit);
    FieldsAreInjective(a.gasPrice, b.gasPrice);
    FieldsAreInjective(a.nonce, b.nonce);
    if a.priorityFee.Some? && b.priorityFee.Some? {
      FieldsAreInjective(a.priorityFee.value, b.priorityFee.value);
    }
  }

  lemma Parts(f: P.Field, to: seq<P.Field>, fees: seq<P.Field>, x: seq<P.Field>)
    requires |to| <= 1 && fees != []
    ensures var s := [f] + to + fees + x;
            |s| > 1 && s[0] == f && s[1] == (if to == [] then fees[0] else to[0]) && s[1 + |to|..] == fees + x
  {
  }

  /** A payload shows all of these, whatever the call data and however it is visualized. */
  lemma PayloadShowsTransaction(
    a: Transaction, b: Transaction, options: Options, options': Options, vs: Visualizers, vs': Visualizers)
    ensures Payload(a, options, vs) == Payload(b, options', vs') ==> SameShown(a, b)
  {
    if Payload(a, options, vs) == Payload(b, options', vs') {
      var x, y := InputFields(a, options, vs), InputFields(b, options', vs');
      Parts(TextField("Network", a.network), ToFields(a), FeeFields(a), x);
      Parts(TextField("Network", b.network), ToFields(b), FeeFields(b), y);
      assert FeeFields(a)[0] == ValueField(a.value) && FeeFields(b)[0] == ValueField(b.value);
      assert TextField("Network", a.network).textV2 == TextField("Network", b.network).textV2;
      FeesAreDetermined(a, b, x, y);
    }
  }

  /** So two transactions with one signed text agree in all of these, in both map orders. */
  lemma SignedTextShowsTransaction(
    order: MapOrder, a: Transaction, b: Transaction, options: Options, options': Options,
    vs: Visualizers, vs': Visualizers)
    ensures ToText(order, Payload(a, options, vs)) == ToText(order, Payload(b, options', vs')) ==> SameShown(a, b)
  {
    SignedTextIsInjective(order, order, Payload(a, options, vs), Payload(b, options', vs'));
    PayloadShowsTransaction(a, b, options, options', vs, vs');
  }

  // ----- what the fields of a payload show, read back

  /** What a field is read as. */
  datatype Reading =
    | Plain(text: string)
    | Recipient(address: string)
    | Integer(n: nat)
    | Ether(wei: nat)
    | GasFee(wei: nat)

  predicate ReadsAsGwei(text: string, wei: nat) {
    var k := |text| - 5;
    k >= 0 && text[k..] == " gwei" && ParseUnits(text[..k], 9) == Some(wei)
  }

  /** The field's text, read as a number of the given kind, is that number. */
  predicate Reads(f: P.Field, r: Reading) {
    match r
    case Plain(text) => f.TextV2? && f.textV2 == text && f.common.fallbackText == text
    case Recipient(address) => f.AddressV2? && f.addressV2.address == address && f.common.fallbackText == address
    case Integer(n) =>
      f.TextV2? && f.common.fallbackText == f.textV2 && AllDigits(f.textV2) && Value(f.textV2) == n
    case Ether(wei) =>
      && f.AmountV2? && ParseUnits(f.amountV2.amount, 18) == Some(wei) && f.amountV2.abbreviation == Some("ETH")
      && f.common.fallbackText == f.amountV2.amount + " ETH"
    case GasFee(wei) => f.TextV2? && f.common.fallbackText == f.textV2 && ReadsAsGwei(f.textV2, wei)
  }

  /** Exactly one of the fields has the label, and it is read so. */
  ghost predicate ShowsOnce(fields: seq<P.Field>, fieldLabel: string, r: Reading) {
    exists i :: 0 <= i < |fields| && fields[i].common.fieldLabel == fieldLabel && Reads(fields[i], r)
                && forall j :: 0 <= j < |fields| && j != i ==> fields[j].common.fieldLabel != fieldLabel
  }

  ghost predicate NotShown(fields: seq<P.Field>, fieldLabel: string) {
    forall j :: 0 <= j < |fields| ==> fields[j].common.fieldLabel != fieldLabel
  }

  /** Every value of the transaction under its own label. */
  ghost predicate ShowsTransaction(fields: seq<P.Field>, t: Transaction) {
    && ShowsOnce(fields, "Network", Plain(t.network))
    && (t.to.Some? ==> ShowsOnce(fields, "To", Recipient(t.to.value)))
    && (t.to.None? ==> NotShown(fields, "To"))
    && ShowsOnce(fields, "Value", Ether(t.value))
    && ShowsOnce(fields, "Gas Limit", Integer(t.gasLimit))
    && ShowsOnce(fields, "Gas Price", GasFee(t.gasPrice))
    && (t.priorityFee.Some? ==> ShowsOnce(fields, "Max Priority Fee Per Gas", GasFee(t.priorityFee.value)))
    && (t.priorityFee.None? ==> NotShown(fields, "Max Priority Fee Per Gas"))
    && ShowsOnce(fields, "Nonce", Integer(t.nonce))
  }

  /** Length and last character but one tell the labels apart. */
  function Mark(fieldLabel: string): (nat, char) {
    if |fieldLabel| < 2 then (|fieldLabel|, ' ') else (|fieldLabel|, fieldLabel[|fieldLabel| - 2])
  }

  function FieldMark(f: P.Field): (nat, char) {
    Mark(f.common.fieldLabel)
  }

  ghost predicate DistinctMarks(fields: seq<P.Field>) {
    forall i, j :: 0 <= i < j < |fields| ==> FieldMark(fields[i]) != FieldMark(fields[j])
  }

  lemma MarkedOnce(fields: seq<P.Field>, f: P.Field, r: Reading)
    requires DistinctMarks(fields) && f in fields && Reads(f, r)
    ensures ShowsOnce(fields, f.common.fieldLabel, r)
  {
    var i :| 0 <= i < |fields| && fields[i] == f;
    forall j | 0 <= j < |fields| && j != i ensures fields[j].common.fieldLabel != f.common.fieldLabel {
      assert FieldMark(fields[j]) != FieldMark(fields[i]);
    }
  }

  lemma NotMarked(fields: seq<P.Field>, fieldLabel: string)
    requires forall j :: 0 <= j < |fields| ==> FieldMark(fields[j]) != Mark(fieldLabel)
    ensures NotShown(fields, fieldLabel)
  {
    forall j | 0 <= j < |fields| ensures fields[j].common.fieldLabel != fieldLabel {
      assert FieldMark(fields[j]) != Mark(fieldLabel);
    }
  }

  /** The labels of a row of fields. */
  ghost predicate HaveMarks(
    f: P.Field, to: Option<P.Field>, a: P.Field, b: P.Field, c: P.Field, d: Option<P.Field>, e: P.Field)
  {
    && FieldMark(f) == (7, 'r') && FieldMark(a) == (5, 'u') && FieldMark(b) == (9, 'i')
    && FieldMark(c) == (9, 'c') && FieldMark(e) == (5, 'c')
    && (to.Some? ==> FieldMark(to.value) == (2, 'T'))
    && (d.Some? ==> FieldMark(d.value) == (24, 'a'))
  }

  lemma RowMembers(
    f: P.Field, to: Option<P.Field>, a: P.Field, b: P.Field, c: P.Field, d: Option<P.Field>, e: P.Field, g: P.Field)
    ensures g in [f] + OneOrNone(to) + InARow(a, b, c, d, e) <==>
            g == f || to == Some(g) || g == a || g == b || g == c || d == Some(g) || g == e
  {
    assert g in OneOrNone(to) <==> to == Some(g);
    assert g in OneOrNone(d) <==> d == Some(g);
    assert g in InARow(a, b, c, d, e) <==> g in [a, b, c] || g in OneOrNone(d) || g in [e];
  }

  lemma DistinctAppend(x: seq<P.Field>, y: seq<P.Field>)
    requires DistinctMarks(x) && DistinctMarks(y)
    requires forall g, h :: g in x && h in y ==> FieldMark(g) != FieldMark(h)
    ensures DistinctMarks(x + y)
  {
  }

  lemma FrontIsMarked(f: P.Field, to: Option<P.Field>)
    requires FieldMark(f) == (7, 'r') && (to.Some? ==> FieldMark(to.value) == (2, 'T'))
    ensures DistinctMarks([f] + OneOrNone(to))
    ensures forall g :: g in [f] + OneOrNone(to) ==> FieldMark(g).0 == 7 || FieldMark(g).0 == 2
  {
  }

  lemma FeesAreMarked(a: P.Field, b: P.Field, c: P.Field, d: Option<P.Field>, e: P.Field)
    requires FieldMark(a) == (5, 'u') && FieldMark(b) == (9, 'i') && FieldMark(c) == (9, 'c') && FieldMark(e) == (5, 'c')
    requires d.Some? ==> FieldMark(d.value) == (24, 'a')
    ensures DistinctMarks(InARow(a, b, c, d, e))
    ensures forall g :: g in InARow(a, b, c, d, e) ==> FieldMark(g).0 in {5, 9, 24}
  {
    if d.Some? {
      assert InARow(a, b, c, d, e) == [a, b, c, d.value, e];
    } else {
      assert InARow(a, b, c, d, e) == [a, b, c, e];
    }
  }

  lemma RowIsMarked(
    f: P.Field, to: Option<P.Field>, a: P.Field, b: P.Field, c: P.Field, d: Option<P.Field>, e: P.Field)
    requires HaveMarks(f, to, a, b, c, d, e)
    ensures DistinctMarks([f] + OneOrNone(to) + InARow(a, b, c, d, e))
  {
    FrontIsMarked(f, to);
    FeesAreMarked(a, b, c, d, e);
    DistinctAppend([f] + OneOrNone(to), InARow(a, b, c, d, e));
  }

  lemma NumbersRead(n: nat)
    ensures Reads(ValueField(n), Ether(n))
    ensures Reads(GasLimitField(n), Integer(n)) && Reads(NonceField(n), Integer(n))
    ensures Reads(GasPriceField(n), GasFee(n)) && Reads(PriorityFeeField(n), GasFee(n))
  {
    ValueOfShow(n);
    EtherIsExact(n, FormatEther(n));
    EtherIsExact(n, FormatGwei(n));
    var text, k := Gwei(n), |FormatGwei(n)|;
    assert text[k..] == " gwei" && text[..k] == FormatGwei(n);
  }

  lemma NetworkMark(text: string)
    ensures FieldMark(TextField("Network", text)) == (7, 'r')
  {
  }

  lemma ToMark(to: string)
    ensures FieldMark(ToField(to)) == (2, 'T')
  {
  }

  lemma ValueMark(n: nat)
    ensures FieldMark(ValueField(n)) == (5, 'u')
  {
  }

  lemma GasLimitMark(n: nat)
    ensures FieldMark(GasLimitField(n)) == (9, 'i')
  {
  }

  lemma GasPriceMark(n: nat)
    ensures FieldMark(GasPriceField(n)) == (9, 'c')
  {
  }

  lemma PriorityFeeMark(n: nat)
    ensures FieldMark(PriorityFeeField(n)) == (24, 'a')
  {
  }

  lemma NonceMark(n: nat)
    ensures FieldMark(NonceField(n)) == (5, 'c')
  {
  }

  function ToOption(t: Transaction): Option<P.Field> {
    match t.to case Some(to) => Some(ToField(to)) case None => None
  }

  function FeeOption(t: Transaction): Option<P.Field> {
    match t.priorityFee case Some(fee) => Some(PriorityFeeField(fee)) case None => None
  }

  lemma HeadHasMarks(t: Transaction)
    ensures HaveMarks(TextField("Network", t.network), ToOption(t), ValueField(t.value), GasLimitField(t.gasLimit),
                      GasPriceField(t.gasPrice), FeeOption(t), NonceField(t.nonce))
  {
    NetworkMark(t.network);
    ValueMark(t.value);
    GasLimitMark(t.gasLimit);
    GasPriceMark(t.gasPrice);
    NonceMark(t.nonce);
    if t.to.Some? {
      ToMark(t.to.value);
    }
    if t.priorityFee.Some? {
      PriorityFeeMark(t.priorityFee.value);
    }
  }

  lemma HeadIsMarked(t: Transaction)
    ensures DistinctMarks(Head(t))
  {
    HeadHasMarks(t);
    RowIsMarked(TextField("Network", t.network), ToOption(t), ValueField(t.value), GasLimitField(t.gasLimit),
                GasPriceField(t.gasPrice), FeeOption(t), NonceField(t.nonce));
  }

  lemma MarksOfRow(
    f: P.Field, to: Option<P.Field>, a: P.Field, b: P.Field, c: P.Field, d: Option<P.Field>, e: P.Field, g: P.Field)
    requires HaveMarks(f, to, a, b, c, d, e)
    requires g in [f] + OneOrNone(to) + InARow(a, b, c, d, e)
    ensures to.None? ==> FieldMark(g) != (2, 'T')
    ensures d.None? ==> FieldMark(g) != (24, 'a')
  {
    RowMembers(f, to, a, b, c, d, e, g);
  }

  lemma MarksOfHead(t: Transaction, g: P.Field)
    ensures g in Head(t) && t.to.None? ==> FieldMark(g) != (2, 'T')
    ensures g in Head(t) && t.priorityFee.None? ==> FieldMark(g) != (24, 'a')
  {
    HeadHasMarks(t);
    if g in Head(t) {
      MarksOfRow(TextField("Network", t.network), ToOption(t), ValueField(t.value), GasLimitField(t.gasLimit),
                 GasPriceField(t.gasPrice), FeeOption(t), NonceField(t.nonce), g);
    }
  }

  lemma LabelMarks()
    ensures Mark("To") == (2, 'T') && Mark("Max Priority Fee Per Gas") == (24, 'a')
  {
  }

  /** Labels of absent values do not occur. */
  lemma AbsentAreNotShown(t: Transaction)
    ensures t.to.None? ==> NotShown(Head(t), "To")
    ensures t.priorityFee.None? ==> NotShown(Head(t), "Max Priority Fee Per Gas")
  {
    LabelMarks();
    var head := Head(t);
    forall j | 0 <= j < |head|
      ensures t.to.None? ==> FieldMark(head[j]) != (2, 'T')
      ensures t.priorityFee.None? ==> FieldMark(head[j]) != (24, 'a')
    {
      MarksOfHead(t, head[j]);
    }
    if t.to.None? {
      NotMarked(head, "To");
    }
    if t.priorityFee.None? {
      NotMarked(head, "Max Priority Fee Per Gas");
    }
  }

  lemma HeadMembers(t: Transaction)
    ensures forall g :: g in Head(t) <==>
              || g == TextField("Network", t.network) || ToOption(t) == Some(g) || g == ValueField(t.value)
              || g == GasLimitField(t.gasLimit) || g == GasPriceField(t.gasPrice) || FeeOption(t) == Some(g)
              || g == NonceField(t.nonce)
  {
    forall g ensures g in Head(t) <==>
                     || g == TextField("Network", t.network) || ToOption(t) == Some(g) || g == ValueField(t.value)
                     || g == GasLimitField(t.gasLimit) || g == GasPriceField(t.gasPrice) || FeeOption(t) == Some(g)
                     || g == NonceField(t.nonce)
    {
      RowMembers(TextField("Network", t.network), ToOption(t), ValueField(t.value), GasLimitField(t.gasLimit),
                 GasPriceField(t.gasPrice), FeeOption(t), NonceField(t.nonce), g);
    }
  }

  lemma HeadShowsNumbers(t: Transaction)
    ensures ShowsOnce(Head(t), "Value", Ether(t.value))
    ensures ShowsOnce(Head(t), "Gas Limit", Integer(t.gasLimit))
    ensures ShowsOnce(Head(t), "Gas Price", GasFee(t.gasPrice))
    ensures ShowsOnce(Head(t), "Nonce", Integer(t.nonce))
  {
    HeadIsMarked(t);
    HeadMembers(t);
    NumbersRead(t.value);
    NumbersRead(t.gasLimit);
    NumbersRead(t.gasPrice);
    NumbersRead(t.nonce);
    MarkedOnce(Head(t), ValueField(t.value), Ether(t.value));
    MarkedOnce(Head(t), GasLimitField(t.gasLimit), Integer(t.gasLimit));
    MarkedOnce(Head(t), GasPriceField(t.gasPrice), GasFee(t.gasPrice));
    MarkedOnce(Head(t), NonceField(t.nonce), Integer(t.nonce));
  }

  /** The fields before the call data show every value of the transaction, once and under its label. */
  lemma HeadShowsTransaction(t: Transaction)
    ensures ShowsTransaction(Head(t), t)
  {
    HeadShowsNumbers(t);
    HeadIsMarked(t);
    HeadMembers(t);
    AbsentAreNotShown(t);
    MarkedOnce(Head(t), TextField("Network", t.network), Plain(t.network));
    if t.to.Some? {
      MarkedOnce(Head(t), ToField(t.to.value), Recipient(t.to.value));
    }
    if t.priorityFee.Some? {
      NumbersRead(t.priorityFee.value);
      MarkedOnce(Head(t), PriorityFeeField(t.priorityFee.value), GasFee(t.priorityFee.value));
    }
  }

  /** What the fields of the call data show: what the visualizers return, or the data itself. */
  ghost predicate ShowsInput(fields: seq<P.Field>, t: Transaction, options: Options, vs: Visualizers) {
    if t.input == [] then fields == []
    else
      match (if options.decodeTransfers then vs.erc20(t.input) else None, vs.uniswap(t.input))
      case (Some(f), Some(g)) => fields == [f, g]
      case (Some(f), None) => fields == [f]
      case (None, Some(g)) => fields == [g]
      case (None, None) =>
        && |fields| == 1 && fields[0].TextV2? && fields[0].common == P.Common(fields[0].textV2, "Input Data")
        && |fields[0].textV2| >= 2 && fields[0].textV2[..2] == "0x" && ReadHex(fields[0].textV2[2..]) == Some(t.input)
  }

  lemma InputIsShown(t: Transaction, options: Options, vs: Visualizers)
    ensures ShowsInput(InputFields(t, options, vs), t, options, vs)
  {
    ReadHexOfHex(t.input);
    var text := "0x" + Hex(t.input);
    assert text[..2] == "0x" && text[2..] == Hex(t.input);
  }

  /**
   The payload shows the transaction: its values, read back from the fields before those of
   the call data, then the call data.
   */
  lemma PayloadReads(t: Transaction, options: Options, vs: Visualizers)
    ensures exists n ::
              && 0 <= n <= |Payload(t, options, vs).fields|
              && ShowsTransaction(Payload(t, options, vs).fields[..n], t)
              && ShowsInput(Payload(t, options, vs).fields[n..], t, options, vs)
    ensures Payload(t, options, vs).title
         == if options.transactionName.Some? then options.transactionName.value else "Ethereum Transaction"
    ensures Payload(t, options, vs).payloadType == "EthereumTx" && Payload(t, options, vs).version == "0"
    ensures Payload(t, options, vs).subtitle.None?
  {
    HeadShowsTransaction(t);
    InputIsShown(t, options, vs);
    var fields, n := Payload(t, options, vs).fields, |Head(t)|;
    assert fields[..n] == Head(t) && fields[n..] == InputFields(t, options, vs);
  }
}
