/** The parse request from the received transaction to the text that is digested and signed. */
module ParseRoute {
  import opened Wrappers
  import opened Charset
  import opened Serializers
  import opened DeclarationOrder
  import opened PayloadCharset
  import opened Signing
  import opened Registry
  import P = Payload

  datatype Request = Request(unsignedPayload: string, chain: int, chainMetadata: Option<string>)

  datatype GrpcError = InvalidArgument | Internal

  /** `ProtoChain::from_i32` followed by the conversion to the registry's chains. */
  function RegistryChain(chain: int): Option<Chain> {
    if chain == 0 then Some(Chain.Unspecified)
    else if chain == 2 then Some(Ethereum)
    else if chain == 3 then Some(Solana)
    else if chain == 4 then Some(Sui)
    else if chain == 5 then Some(Tron)
    else if chain == 1 || chain == 999 then Some(Custom("custom_unknown"))
    else None
  }

  /** The chains that the service registers. */
  const REGISTERED: set<Chain> := {Ethereum, Solana, Sui, Tron, Chain.Unspecified}

  /** `create_registry`: one converter for each supported chain. */
  method CreateRegistry<T(!new)>(
    ethereum: Converter<T>, solana: Converter<T>, sui: Converter<T>, tron: Converter<T>, unspecified: Converter<T>)
    returns (registry: TransactionConverterRegistry<T>)
    ensures fresh(registry) && registry.converters.Keys == REGISTERED
    ensures registry.converters == map[Ethereum := ethereum, Solana := solana, Sui := sui, Tron := tron,
                                       Chain.Unspecified := unspecified]
  {
    registry := new TransactionConverterRegistry<T>();
    registry.Register(Ethereum, ethereum);
    registry.Register(Solana, solana);
    registry.Register(Sui, sui);
    registry.Register(Tron, tron);
    registry.Register(Chain.Unspecified, unspecified);
  }

  /** The converters of the supported chains. */
  datatype Converters<!T> = Converters(
    ethereum: Converter<T>, solana: Converter<T>, sui: Converter<T>, tron: Converter<T>, unspecified: Converter<T>)

  /** What the registry holds after it is created. */
  function Table<T>(cs: Converters<T>): map<Chain, Converter<T>> {
    map[Ethereum := cs.ethereum, Solana := cs.solana, Sui := cs.sui, Tron := cs.tron, Chain.Unspecified := cs.unspecified]
  }

  /** The chain of fallible calls up to the text that is digested, with a registry made anew. */
  method Parse<T(!new)>(order: MapOrder, request: Request, cs: Converters<T>) returns (r: Result<string, GrpcError>)
    ensures r == ParseText(order, request, Table(cs))
    ensures IsAnswered(order, request, cs, r)
  {
    RequestReachesItsConverter(order, request, cs);
    if request.unsignedPayload == "" {
      return Err(InvalidArgument);
    }
    var options := RequestOptions(request);
    var registry := CreateRegistry(cs.ethereum, cs.solana, cs.sui, cs.tron, cs.unspecified);
    match RegistryChain(request.chain)
    case None => return Err(InvalidArgument);
    case Some(chain) =>
      var converted := registry.ConvertTransaction(order, chain, request.unsignedPayload, options);
      match converted
      case Err(_) => return Err(InvalidArgument);
      case Ok(payload) =>
        match ToText(order, payload)
        case Err(_) => return Err(Internal);
        case Ok(text) => return Ok(text);
  }

  function RequestOptions(request: Request): Options {
    Options(true, None, request.chainMetadata)
  }

  /** The payload that the request is converted to, if it is. */
  function RequestPayload<T>(order: MapOrder, request: Request, converters: map<Chain, Converter<T>>)
    : Option<P.SignablePayload>
  {
    match RegistryChain(request.chain)
    case None => None
    case Some(chain) =>
      if request.unsignedPayload == "" || chain !in converters then None
      else
        match Convert(order, converters[chain], request.unsignedPayload, RequestOptions(request))
        case Ok(payload) => Some(payload)
        case Err(_) => None
  }

  function ParseText<T>(order: MapOrder, request: Request, converters: map<Chain, Converter<T>>): Result<string, GrpcError> {
    match RequestPayload(order, request, converters)
    case None => Err(InvalidArgument)
    case Some(payload) =>
      match ToText(order, payload)
      case Err(_) => Err(Internal)
      case Ok(text) => Ok(text)
  }

  /**
   Whatever is signed is the text of a clean payload: it passes the character check, no
   other payload has it, and the internal error never occurs.
   */
  lemma SignedTextIsSafe<T>(order: MapOrder, request: Request, converters: map<Chain, Converter<T>>)
    ensures ParseText(order, request, converters) != Err(Internal)
    ensures ParseText(order, request, converters).Ok? <==> RequestPayload(order, request, converters).Some?
    ensures ParseText(order, request, converters).Ok? ==>
            var text, p := ParseText(order, request, converters).value, RequestPayload(order, request, converters).value;
            && IsCleanPayload(p)
            && IsAccepted(text)
            && (forall i :: 0 <= i < |text| ==> IsPrintable(text[i]))
            && (forall q :: ToText(order, q) == Ok(text) ==> q == p)
  {
    if RequestPayload(order, request, converters).Some? {
      var p := RequestPayload(order, request, converters).value;
      var chain := RegistryChain(request.chain).value;
      ToTextText(order, p);
      ConvertedIsClean(order, converters[chain], request.unsignedPayload, RequestOptions(request));
      ValidationCoversSignedText(order, p);
      forall q | ToText(order, q) == ToText(order, p) ensures q == p {
        SignedTextIsInjective(order, order, p, q);
      }
    }
  }

  /**
   In both map orders the signed text reads back as the payload; with key-ordered maps it is
   the validated text.
   */
  lemma SignedTextReadsBack<T>(order: MapOrder, request: Request, converters: map<Chain, Converter<T>>)
    requires ParseText(order, request, converters).Ok?
    ensures var text, p := ParseText(order, request, converters).value, RequestPayload(order, request, converters).value;
            && ReadPayloadText(text) == Some(p)
            && (order.KeyOrdered? ==> ToJson(order, p) == Ok(text))
  {
    var p := RequestPayload(order, request, converters).value;
    ReadOfToText(order, p);
    SignedTextIsValidatedText(p);
  }

  /** Switching the map order changes the signed text exactly for payloads out of order. */
  lemma SignedTextAcrossMapOrders<T>(request: Request, converters: map<Chain, Converter<T>>)
    requires ParseText(KeyOrdered, request, converters).Ok?
    ensures RequestPayload(InsertionOrdered, request, converters) == RequestPayload(KeyOrdered, request, converters)
    ensures ParseText(InsertionOrdered, request, converters) == ParseText(KeyOrdered, request, converters) <==>
            PayloadInOrder(RequestPayload(KeyOrdered, request, converters).value)
  {
    var p := RequestPayload(KeyOrdered, request, converters).value;
    var chain := RegistryChain(request.chain).value;
    ConvertIgnoresMapOrder(converters[chain], request.unsignedPayload, RequestOptions(request));
    SignedTextUnderPreserveOrder(p);
    SignedTextIsValidatedText(p);
    ValidatedTextIsFeatureIndependent(p);
    ToTextText(InsertionOrdered, p);
    ToTextText(KeyOrdered, p);
  }

  // ----- which converter answers

  /**
   The converter answers the request: it parses the text, renders the transaction with
   transfers decoded, no name and the request's metadata, and the clean payload that it
   renders is digested. If any of these fails the argument was invalid.
   */
  ghost predicate IsAnsweredBy<T>(order: MapOrder, request: Request, c: Converter<T>, r: Result<string, GrpcError>) {
    var parsed := c.fromString(request.unsignedPayload);
    if request.unsignedPayload == "" || parsed.Err? then r == Err(InvalidArgument)
    else
      match c.toPayload(parsed.value, Options(true, None, request.chainMetadata))
      case Err(_) => r == Err(InvalidArgument)
      case Ok(payload) =>
        if IsCleanPayload(payload) then r.Ok? && ToText(order, payload) == Ok(r.value) else r == Err(InvalidArgument)
  }

  /** Every code is answered by the converter of its chain, all others are refused. */
  ghost predicate IsAnswered<T>(order: MapOrder, request: Request, cs: Converters<T>, r: Result<string, GrpcError>) {
    && (request.chain == 0 ==> IsAnsweredBy(order, request, cs.unspecified, r))
    && (request.chain == 2 ==> IsAnsweredBy(order, request, cs.ethereum, r))
    && (request.chain == 3 ==> IsAnsweredBy(order, request, cs.solana, r))
    && (request.chain == 4 ==> IsAnsweredBy(order, request, cs.sui, r))
    && (request.chain == 5 ==> IsAnsweredBy(order, request, cs.tron, r))
    && (request.chain !in {0, 2, 3, 4, 5} ==> r == Err(InvalidArgument))
  }

  lemma ChainAnswers<T>(
    order: MapOrder, request: Request, converters: map<Chain, Converter<T>>, chain: Chain)
    requires RegistryChain(request.chain) == Some(chain) && chain in converters
    ensures IsAnsweredBy(order, request, converters[chain], ParseText(order, request, converters))
  {
    ConvertedIsClean(order, converters[chain], request.unsignedPayload, RequestOptions(request));
    SignedTextIsSafe(order, request, converters);
  }

  /** Which converter a code leads to, if any. */
  ghost predicate LeadsTo<T>(code: int, cs: Converters<T>, c: Option<Converter<T>>) {
    match RegistryChain(code)
    case None => c.None?
    case Some(chain) => if chain in Table(cs) then c == Some(Table(cs)[chain]) else c.None?
  }

  lemma CodeLeads<T>(code: int, cs: Converters<T>)
    ensures code == 0 ==> LeadsTo(code, cs, Some(cs.unspecified))
    ensures code == 2 ==> LeadsTo(code, cs, Some(cs.ethereum))
    ensures code == 3 ==> LeadsTo(code, cs, Some(cs.solana))
    ensures code == 4 ==> LeadsTo(code, cs, Some(cs.sui))
    ensures code == 5 ==> LeadsTo(code, cs, Some(cs.tron))
    ensures code !in {0, 2, 3, 4, 5} ==> LeadsTo(code, cs, None)
  {
  }

  lemma LedRequest<T>(order: MapOrder, request: Request, cs: Converters<T>, c: Option<Converter<T>>)
    requires LeadsTo(request.chain, cs, c)
    ensures var r := ParseText(order, request, Table(cs));
            if c.Some? then IsAnsweredBy(order, request, c.value, r) else r == Err(InvalidArgument)
  {
    if c.Some? {
      ChainAnswers(order, request, Table(cs), RegistryChain(request.chain).value);
    }
  }

  lemma RequestReachesItsConverter<T>(order: MapOrder, request: Request, cs: Converters<T>)
    ensures IsAnswered(order, request, cs, ParseText(order, request, Table(cs)))
  {
    CodeLeads(request.chain, cs);
    var c :=
      if request.chain == 0 then Some(cs.unspecified)
      else if request.chain == 2 then Some(cs.ethereum)
      else if request.chain == 3 then Some(cs.solana)
      else if request.chain == 4 then Some(cs.sui)
      else if request.chain == 5 then Some(cs.tron)
      else None;
    LedRequest(order, request, cs, c);
  }

  /** Chains without a converter, Bitcoin and custom ones, are always refused. */
  lemma UnregisteredChainsAreRefused<T>(order: MapOrder, request: Request, converters: map<Chain, Converter<T>>)
    requires converters.Keys == REGISTERED
    ensures ParseText(order, request, converters).Ok? ==> request.chain in {0, 2, 3, 4, 5}
  {
  }
}
