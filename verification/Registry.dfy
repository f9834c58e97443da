/**
 Converters from transaction text to payloads, the registry that holds one per chain, and
 detection of the chain by trial. `T` stands for every chain's own transaction type.
 */
module Registry {
  import opened Wrappers
  import opened Serializers
  import opened PayloadCharset
  import opened Signing
  import P = Payload

  datatype Chain =
    | Unspecified | Solana | Ethereum | Bitcoin | Sui | Aptos | Polkadot | Tron
    | Custom(name: string)

  datatype Options = Options(decodeTransfers: bool, transactionName: Option<string>, metadata: Option<string>)

  datatype ConvertError =
    | ParseError(message: string)
    | RenderError(message: string)
    | CharsetFailure(error: CharsetError)
    | NoConverter(chain: Chain)
    | NotDetected

  /** Parsing a transaction and rendering it; what each chain implements. */
  datatype Converter<!T> = Converter(
    fromString: string -> Result<T, string>,
    toPayload: (T, Options) -> Result<P.SignablePayload, string>)

  // ----- default trait methods

  /** `to_validated_visual_sign_payload`: render, then check the characters. */
  function ToValidatedPayload<T>(order: MapOrder, c: Converter<T>, transaction: T, options: Options)
    : Result<P.SignablePayload, ConvertError>
  {
    match c.toPayload(transaction, options)
    case Err(message) => Err(RenderError(message))
    case Ok(payload) =>
      match ValidateCharset(order, payload)
      case Err(e) => Err(CharsetFailure(e))
      case Ok(_) => Ok(payload)
  }

  /** `to_visual_sign_payload_from_string` */
  function Convert<T>(order: MapOrder, c: Converter<T>, data: string, options: Options)
    : Result<P.SignablePayload, ConvertError>
  {
    match c.fromString(data)
    case Err(message) => Err(ParseError(message))
    case Ok(transaction) => ToValidatedPayload(order, c, transaction, options)
  }

  predicate SupportsFormat<T>(c: Converter<T>, data: string) {
    c.fromString(data).Ok?
  }

  /** A converted payload is clean, it is what the converter rendered, and its format is supported. */
  lemma ConvertedIsClean<T>(order: MapOrder, c: Converter<T>, data: string, options: Options)
    ensures Convert(order, c, data, options).Ok? <==>
            && SupportsFormat(c, data)
            && c.toPayload(c.fromString(data).value, options).Ok?
            && IsCleanPayload(c.toPayload(c.fromString(data).value, options).value)
    ensures Convert(order, c, data, options).Ok? ==>
            && Convert(order, c, data, options).value == c.toPayload(c.fromString(data).value, options).value
            && ValidateCharset(order, Convert(order, c, data, options).value).Ok?
    ensures Convert(order, c, data, options).Err? ==>
            Convert(order, c, data, options).error ==
            match c.fromString(data)
            case Err(message) => ParseError(message)
            case Ok(transaction) =>
              match c.toPayload(transaction, options)
              case Err(message) => RenderError(message)
              case Ok(_) => CharsetFailure(ValidationError)
  {
    if SupportsFormat(c, data) {
      var r := c.toPayload(c.fromString(data).value, options);
      if r.Ok? {
        ValidationIsCleanliness(order, r.value);
      }
    }
  }

  /** The map order chosen for serialization never changes what is converted. */
  lemma ConvertIgnoresMapOrder<T>(c: Converter<T>, data: string, options: Options)
    ensures Convert(KeyOrdered, c, data, options).Ok? <==> Convert(InsertionOrdered, c, data, options).Ok?
    ensures Convert(KeyOrdered, c, data, options).Ok? ==>
            Convert(KeyOrdered, c, data, options) == Convert(InsertionOrdered, c, data, options)
  {
    ConvertedIsClean(KeyOrdered, c, data, options);
    ConvertedIsClean(InsertionOrdered, c, data, options);
  }

  // ----- detection

  /** The converter both supports and converts the data. */
  predicate Qualifies<T>(order: MapOrder, c: Converter<T>, data: string, options: Options) {
    SupportsFormat(c, data) && Convert(order, c, data, options).Ok?
  }

  /** What detection may answer, over every order of visiting the converters. */
  ghost predicate IsDetection<T>(
    order: MapOrder, converters: map<Chain, Converter<T>>, data: string, options: Options,
    r: Result<(Chain, P.SignablePayload), ConvertError>)
  {
    match r
    case Ok((chain, payload)) =>
      && chain in converters
      && Qualifies(order, converters[chain], data, options)
      && Convert(order, converters[chain], data, options) == Ok(payload)
    case Err(e) =>
      e == NotDetected && forall chain :: chain in converters ==> !Qualifies(order, converters[chain], data, options)
  }

  ghost predicate AtMostOneQualifies<T>(
    order: MapOrder, converters: map<Chain, Converter<T>>, data: string, options: Options)
  {
    forall a, b | a in converters && b in converters && a != b ::
      !Qualifies(order, converters[a], data, options) || !Qualifies(order, converters[b], data, options)
  }

  /** The first converter along the visiting order that supports and converts the data. */
  function DetectAlong<T>(
    order: MapOrder, converters: map<Chain, Converter<T>>, visit: seq<Chain>, data: string, options: Options)
    : Result<(Chain, P.SignablePayload), ConvertError>
    requires forall chain :: chain in visit ==> chain in converters
  {
    if visit == [] then Err(NotDetected)
    else if Qualifies(order, converters[visit[0]], data, options) then
      Ok((visit[0], Convert(order, converters[visit[0]], data, options).value))
    else DetectAlong(order, converters, visit[1..], data, options)
  }

  /** An order in which the hash map may hand out its chains: each of them once. */
  ghost predicate IsVisit<T>(converters: map<Chain, Converter<T>>, visit: seq<Chain>) {
    && (forall chain :: chain in visit <==> chain in converters)
    && forall i, j :: 0 <= i < j < |visit| ==> visit[i] != visit[j]
  }

  lemma {:induction false} DetectedAlong<T>(
    order: MapOrder, converters: map<Chain, Converter<T>>, visit: seq<Chain>, data: string, options: Options)
    requires forall chain :: chain in visit ==> chain in converters
    ensures var r := DetectAlong(order, converters, visit, data, options);
            match r
            case Ok((chain, payload)) =>
              && chain in visit
              && Qualifies(order, converters[chain], data, options)
              && Convert(order, converters[chain], data, options) == Ok(payload)
            case Err(e) =>
              e == NotDetected && forall chain :: chain in visit ==> !Qualifies(order, converters[chain], data, options)
  {
    if visit != [] {
      assert visit == [visit[0]] + visit[1..];
      if !Qualifies(order, converters[visit[0]], data, options) {
        DetectedAlong(order, converters, visit[1..], data, options);
      }
    }
  }

  /** Every set of chains can be listed. */
  lemma Listing(chains: set<Chain>) returns (visit: seq<Chain>)
    ensures forall chain :: chain in visit <==> chain in chains
    ensures forall i, j :: 0 <= i < j < |visit| ==> visit[i] != visit[j]
    decreases chains
  {
    visit := [];
    if chains != {} {
      var chain :| chain in chains;
      var rest := Listing(chains - {chain});
      visit := [chain] + rest;
    }
  }

  lemma VisitFirst<T>(converters: map<Chain, Converter<T>>, chain: Chain) returns (visit: seq<Chain>)
    requires chain in converters
    ensures IsVisit(converters, visit) && visit[0] == chain
  {
    var rest := Listing(converters.Keys - {chain});
    visit := [chain] + rest;
  }

  /** The possible answers are those of the visiting orders. */
  lemma DetectionIsAlongSomeVisit<T>(
    order: MapOrder, converters: map<Chain, Converter<T>>, data: string, options: Options,
    r: Result<(Chain, P.SignablePayload), ConvertError>)
    ensures IsDetection(order, converters, data, options, r) <==>
            exists visit :: IsVisit(converters, visit) && r == DetectAlong(order, converters, visit, data, options)
  {
    if visit :| IsVisit(converters, visit) && r == DetectAlong(order, converters, visit, data, options) {
      DetectedAlong(order, converters, visit, data, options);
    }
    if IsDetection(order, converters, data, options, r) {
      if r.Ok? {
        var visit := VisitFirst(converters, r.value.0);
        assert r == DetectAlong(order, converters, visit, data, options);
      } else {
        var visit := Listing(converters.Keys);
        DetectedAlong(order, converters, visit, data, options);
        assert IsVisit(converters, visit);
      }
    }
  }

  /** The answer is the same for all visiting orders exactly when at most one converter qualifies. */
  lemma DetectionIsDetermined<T>(
    order: MapOrder, converters: map<Chain, Converter<T>>, data: string, options: Options)
    ensures (forall v, w :: IsVisit(converters, v) && IsVisit(converters, w) ==>
               DetectAlong(order, converters, v, data, options) == DetectAlong(order, converters, w, data, options))
       <==> AtMostOneQualifies(order, converters, data, options)
  {
    if AtMostOneQualifies(order, converters, data, options) {
      forall v, w | IsVisit(converters, v) && IsVisit(converters, w)
        ensures DetectAlong(order, converters, v, data, options) == DetectAlong(order, converters, w, data, options)
      {
        DetectedAlong(order, converters, v, data, options);
        DetectedAlong(order, converters, w, data, options);
      }
    } else {
      var a, b :| a in converters && b in converters && a != b
                  && Qualifies(order, converters[a], data, options) && Qualifies(order, converters[b], data, options);
      var v := VisitFirst(converters, a);
      var w := VisitFirst(converters, b);
      assert DetectAlong(order, converters, v, data, options).value.0 == a;
      assert DetectAlong(order, converters, w, data, options).value.0 == b;
    }
  }

  // ----- registration

  /** Registrations in turn: a later converter for a chain replaces the earlier one. */
  function RegisterAll<T>(converters: map<Chain, Converter<T>>, regs: seq<(Chain, Converter<T>)>): map<Chain, Converter<T>>
    decreases |regs|
  {
    if regs == [] then converters else RegisterAll(converters[regs[0].0 := regs[0].1], regs[1..])
  }

  lemma {:induction false} RegisterOneMore<T>(
    converters: map<Chain, Converter<T>>, regs: seq<(Chain, Converter<T>)>, chain: Chain, converter: Converter<T>)
    ensures RegisterAll(converters, regs + [(chain, converter)]) == RegisterAll(converters, regs)[chain := converter]
    decreases |regs|
  {
    if regs == [] {
      assert (regs + [(chain, converter)])[1..] == [];
    } else {
      assert (regs + [(chain, converter)])[1..] == regs[1..] + [(chain, converter)];
      RegisterOneMore(converters[regs[0].0 := regs[0].1], regs[1..], chain, converter);
    }
  }

  /** The converters are those left by these registrations into an empty registry. */
  ghost predicate IsHistory<T>(converters: map<Chain, Converter<T>>, regs: seq<(Chain, Converter<T>)>) {
    converters == RegisterAll(map[], regs)
  }

  /** Registration `i` is the last one for its chain. */
  ghost predicate IsLast<T>(regs: seq<(Chain, Converter<T>)>, i: nat) {
    i < |regs| && forall j :: i < j < |regs| ==> regs[j].0 != regs[i].0
  }

  lemma {:induction false} RegisteredOtherwise<T>(
    converters: map<Chain, Converter<T>>, regs: seq<(Chain, Converter<T>)>, chain: Chain)
    requires forall i :: 0 <= i < |regs| ==> regs[i].0 != chain
    ensures chain in RegisterAll(converters, regs) <==> chain in converters
    ensures chain in converters ==> RegisterAll(converters, regs)[chain] == converters[chain]
    decreases |regs|
  {
    if regs != [] {
      RegisteredOtherwise(converters[regs[0].0 := regs[0].1], regs[1..], chain);
    }
  }

  /** The last registration for a chain is the one in force. */
  lemma {:induction false} LastRegistrationWins<T>(
    converters: map<Chain, Converter<T>>, regs: seq<(Chain, Converter<T>)>, i: nat)
    requires IsLast(regs, i)
    ensures regs[i].0 in RegisterAll(converters, regs) && RegisterAll(converters, regs)[regs[i].0] == regs[i].1
    decreases |regs|
  {
    var converters' := converters[regs[0].0 := regs[0].1];
    if i == 0 {
      RegisteredOtherwise(converters', regs[1..], regs[0].0);
    } else {
      assert regs[1..][i - 1] == regs[i];
      LastRegistrationWins(converters', regs[1..], i - 1);
    }
  }

  lemma {:induction false} LastOf<T>(regs: seq<(Chain, Converter<T>)>, chain: Chain, i: nat) returns (k: nat)
    requires i < |regs| && regs[i].0 == chain
    ensures IsLast(regs, k) && regs[k].0 == chain
    decreases |regs| - i
  {
    if j :| i < j < |regs| && regs[j].0 == chain {
      k := LastOf(regs, chain, j);
    } else {
      k := i;
    }
  }

  /** Everything registered comes from a last registration. */
  lemma RegisteredFromLast<T>(regs: seq<(Chain, Converter<T>)>, chain: Chain) returns (k: nat)
    requires chain in RegisterAll(map[], regs)
    ensures IsLast(regs, k) && regs[k] == (chain, RegisterAll(map[], regs)[chain])
  {
    if forall i :: 0 <= i < |regs| ==> regs[i].0 != chain {
      RegisteredOtherwise(map[], regs, chain);
    }
    var i :| 0 <= i < |regs| && regs[i].0 == chain;
    k := LastOf(regs, chain, i);
    LastRegistrationWins(map[], regs, k);
  }

  /**
   After any registrations, detection succeeds exactly when some converter in force both
   supports and converts the data.
   */
  lemma DetectionAfterRegistrations<T>(
    order: MapOrder, regs: seq<(Chain, Converter<T>)>, data: string, options: Options,
    r: Result<(Chain, P.SignablePayload), ConvertError>)
    requires IsDetection(order, RegisterAll(map[], regs), data, options, r)
    ensures r.Ok? <==> exists i: nat :: IsLast(regs, i) && Qualifies(order, regs[i].1, data, options)
  {
    var converters := RegisterAll<T>(map[], regs);
    if r.Ok? {
      var k := RegisteredFromLast(regs, r.value.0);
      assert Qualifies(order, regs[k].1, data, options);
    }
    if i: nat :| IsLast(regs, i) && Qualifies(order, regs[i].1, data, options) {
      LastRegistrationWins(map[], regs, i);
    }
  }

  class TransactionConverterRegistry<T(!new)> {
    var converters: map<Chain, Converter<T>>

    constructor ()
      ensures converters == map[] && IsHistory(converters, [])
    {
      converters := map[];
    }

    /** Puts the converter in force for its chain and adds one registration to any history. */
    method Register(chain: Chain, converter: Converter<T>)
      modifies this
      ensures converters == old(converters)[chain := converter]
      ensures forall regs :: IsHistory(old(converters), regs) ==> IsHistory(converters, regs + [(chain, converter)])
    {
      forall regs | IsHistory(converters, regs)
        ensures IsHistory(converters[chain := converter], regs + [(chain, converter)])
      {
        RegisterOneMore(map[], regs, chain, converter);
      }
      converters := converters[chain := converter];
    }

    function GetConverter(chain: Chain): Option<Converter<T>>
      reads this
    {
      if chain in converters then Some(converters[chain]) else None
    }

    function ConvertTransaction(order: MapOrder, chain: Chain, data: string, options: Options)
      : Result<P.SignablePayload, ConvertError>
      reads this
    {
      match GetConverter(chain)
      case Some(converter) => Convert(order, converter, data, options)
      case None => Err(NoConverter(chain))
    }

    /** Tries the converters in whatever order the hash map hands them out. */
    method AutoDetectAndConvert(order: MapOrder, data: string, options: Options)
      returns (r: Result<(Chain, P.SignablePayload), ConvertError>)
      ensures IsDetection(order, converters, data, options, r)
      ensures r.Ok? ==> IsCleanPayload(r.value.1) && ValidateCharset(order, r.value.1).Ok?
    {
      var left := converters.Keys;
      while left != {}
        invariant left <= converters.Keys
        invariant forall chain :: chain in converters && chain !in left ==>
                    !Qualifies(order, converters[chain], data, options)
        decreases left
      {
        var chain :| chain in left;
        var converter := converters[chain];
        if SupportsFormat(converter, data) {
          match Convert(order, converter, data, options) {
            case Ok(payload) =>
              ConvertedIsClean(order, converter, data, options);
              return Ok((chain, payload));
            case Err(_) =>
          }
        }
        left := left - {chain};
      }
      return Err(NotDetected);
    }
  }
}
