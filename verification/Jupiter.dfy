/** Jupiter swap instructions: a discriminator in front, a fixed little-endian suffix behind. */
module Jupiter {
  import opened Wrappers
  import opened Decimal
  import opened TokenAmount

  type u16 = n: nat | n < 0x1_0000

  const ROUTE: seq<u8> := [0xe5, 0x17, 0xcb, 0x97, 0x7a, 0xe3, 0xad, 0x2a]
  const EXACT_OUT_ROUTE: seq<u8> := [0x4b, 0xd7, 0xdf, 0xa8, 0x0c, 0xd0, 0xb6, 0x2a]
  const SHARED_ACCOUNTS_ROUTE: seq<u8> := [0x3a, 0xf2, 0xaa, 0xae, 0x2f, 0xb6, 0xd4, 0x2a]

  // ----- little-endian integers

  function Pow256(k: nat): (p: nat)
    ensures p >= 1
  {
    if k == 0 then 1 else 256 * Pow256(k - 1)
  }

  /** The `k` low bytes of a number, lowest first: `to_le_bytes`. */
  function ToLittleEndian(n: nat, k: nat): (bytes: seq<u8>)
    ensures |bytes| == k
  {
    if k == 0 then [] else [n % 256] + ToLittleEndian(n / 256, k - 1)
  }

  /** `from_le_bytes` */
  function FromLittleEndian(bytes: seq<u8>): nat {
    if bytes == [] then 0 else bytes[0] + 256 * FromLittleEndian(bytes[1..])
  }

  lemma {:induction false} FromToLittleEndian(n: nat, k: nat)
    requires n < Pow256(k)
    ensures FromLittleEndian(ToLittleEndian(n, k)) == n
  {
    if k > 0 {
      FromToLittleEndian(n / 256, k - 1);
      assert ToLittleEndian(n, k)[1..] == ToLittleEndian(n / 256, k - 1);
    }
  }

  lemma {:induction false} ToFromLittleEndian(bytes: seq<u8>)
    ensures FromLittleEndian(bytes) < Pow256(|bytes|)
    ensures ToLittleEndian(FromLittleEndian(bytes), |bytes|) == bytes
  {
    if bytes != [] {
      ToFromLittleEndian(bytes[1..]);
      assert FromLittleEndian(bytes) % 256 == bytes[0];
      assert FromLittleEndian(bytes) / 256 == FromLittleEndian(bytes[1..]);
    }
  }

  lemma Ranges()
    ensures Pow256(2) == 0x1_0000 && Pow256(8) == U64_RANGE
  {
    assert Pow256(4) == 0x1_0000_0000;
  }

  // ----- suffix

  datatype Suffix = Suffix(inAmount: u64, outAmount: u64, slippageBps: u16, platformFeeBps: u8)

  datatype ParseError = TooShort | InvalidLength

  function Le2(b0: u8, b1: u8): u16 {
    var high: nat := b1;
    b0 + 0x100 * high
  }

  function Le4(b0: u8, b1: u8, b2: u8, b3: u8): (n: nat)
    ensures n < 0x1_0000_0000
  {
    var high: nat := Le2(b2, b3);
    Le2(b0, b1) + 0x1_0000 * high
  }

  function Le8(b0: u8, b1: u8, b2: u8, b3: u8, b4: u8, b5: u8, b6: u8, b7: u8): u64 {
    Le4(b0, b1, b2, b3) + 0x1_0000_0000 * Le4(b4, b5, b6, b7)
  }

  /** Nineteen indexed reads counted from the end of the data. */
  function ParseAmounts(data: seq<u8>): Result<Suffix, ParseError> {
    if |data| < 19 then Err(TooShort)
    else
      var len := |data|;
      Ok(Suffix(
           Le8(data[len - 19], data[len - 18], data[len - 17], data[len - 16],
               data[len - 15], data[len - 14], data[len - 13], data[len - 12]),
           Le8(data[len - 11], data[len - 10], data[len - 9], data[len - 8],
               data[len - 7], data[len - 6], data[len - 5], data[len - 4]),
           Le2(data[len - 3], data[len - 2]),
           data[len - 1]))
  }

  function Encode(s: Suffix): (bytes: seq<u8>)
    ensures |bytes| == 19
  {
    ToLittleEndian(s.inAmount, 8) + ToLittleEndian(s.outAmount, 8) + ToLittleEndian(s.slippageBps, 2) + [s.platformFeeBps]
  }

  lemma TwoBytes(bs: seq<u8>)
    requires |bs| == 2
    ensures FromLittleEndian(bs) == Le2(bs[0], bs[1])
  {
    assert bs[1..][1..] == [];
    assert FromLittleEndian(bs[1..]) == bs[1];
  }

  lemma FourBytes(bs: seq<u8>)
    requires |bs| == 4
    ensures FromLittleEndian(bs) == Le4(bs[0], bs[1], bs[2], bs[3])
  {
    assert bs[1..][1..] == bs[2..];
    TwoBytes(bs[2..]);
    assert FromLittleEndian(bs[1..]) == bs[1] + 256 * FromLittleEndian(bs[2..]);
  }

  lemma Le8IsFromLittleEndian(bs: seq<u8>)
    requires |bs| == 8
    ensures Le8(bs[0], bs[1], bs[2], bs[3], bs[4], bs[5], bs[6], bs[7]) == FromLittleEndian(bs)
  {
    FourBytes(bs[..4]);
    FourBytes(bs[4..]);
    SplitLittleEndian(bs, 4);
    assert Pow256(4) == 0x1_0000_0000;
  }

  lemma {:induction false} SplitLittleEndian(bs: seq<u8>, k: nat)
    requires k <= |bs|
    ensures FromLittleEndian(bs) == FromLittleEndian(bs[..k]) + Pow256(k) * FromLittleEndian(bs[k..])
  {
    if k > 0 {
      SplitLittleEndian(bs[1..], k - 1);
      assert bs[..k][1..] == bs[1..][..k - 1] && bs[1..][k - 1..] == bs[k..];
      MulAssoc(256, Pow256(k - 1), FromLittleEndian(bs[k..]));
    }
  }

  /** The indexed reads are little-endian integers of consecutive slices. */
  lemma ParseBySlices(data: seq<u8>)
    requires |data| >= 19
    ensures ParseAmounts(data).Ok?
    ensures var t, s := data[|data| - 19..], ParseAmounts(data).value;
            && s.inAmount == FromLittleEndian(t[..8])
            && s.outAmount == FromLittleEndian(t[8..16])
            && s.slippageBps == FromLittleEndian(t[16..18])
            && s.platformFeeBps == t[18]
  {
    var t := data[|data| - 19..];
    Le8IsFromLittleEndian(t[..8]);
    Le8IsFromLittleEndian(t[8..16]);
    TwoBytes(t[16..18]);
  }

  // ----- instruction

  datatype TokenInfo = TokenInfo(address: string, symbol: string, name: string, decimals: u8, amount: u64, readable: string)

  datatype Kind = Route | ExactOutRoute | SharedAccountsRoute

  datatype Swap =
    | Known(kind: Kind, inToken: Option<TokenInfo>, outToken: Option<TokenInfo>, slippageBps: u16, platformFeeBps: u8)
    | Unknown

  function LookupToken(address: string): Option<(string, string, u8)> {
    if address == "11111111111111111111111111111112" then Some(("SOL", "Solana", 9))
    else if address == "EPjFWdd5AufqSSqeM2qN1xzybapC8G4wEGGkZwyTDt1v" then Some(("USDC", "USD Coin", 6))
    else if address == "Es9vMFrzaCERmJfrF4H2FYD4KCoNkY11McCe8BenwNYB" then Some(("USDT", "Tether USD", 6))
    else None
  }

  /** Known tokens with their amount formatted, others under a shortened address. */
  function GetTokenInfo(address: string, amount: u64, overflowChecks: bool): Outcome<TokenInfo> {
    match LookupToken(address)
    case Some((symbol, name, decimals)) =>
      (match FormatTokenAmount(amount, decimals, overflowChecks)
       case Panicked => Panicked
       case Returned(text) => Returned(TokenInfo(address, symbol, name, decimals, amount, text)))
    case None =>
      var short := if |address| > 8 then address[..4] + "..." + address[|address| - 4..] else address;
      Returned(TokenInfo(address, short, "Unknown Token (" + short + ")", 0, amount, Show(amount)))
  }

  /** The account at an index, if there is one, as a token. */
  function TokenAt(accounts: seq<string>, i: nat, amount: u64, overflowChecks: bool): Outcome<Option<TokenInfo>> {
    if i >= |accounts| then Returned(None)
    else
      match GetTokenInfo(accounts[i], amount, overflowChecks)
      case Panicked => Panicked
      case Returned(info) => Returned(Some(info))
  }

  function ParseRoute(kind: Kind, data: seq<u8>, accounts: seq<string>, overflowChecks: bool)
    : Outcome<Result<Swap, ParseError>>
  {
    match ParseAmounts(data)
    case Err(e) => Returned(Err(e))
    case Ok(s) =>
      match (TokenAt(accounts, 0, s.inAmount, overflowChecks), TokenAt(accounts, 5, s.outAmount, overflowChecks))
      case (Returned(inToken), Returned(outToken)) =>
        Returned(Ok(Known(kind, inToken, outToken, s.slippageBps, s.platformFeeBps)))
      case _ => Panicked
  }

  function ParseInstruction(data: seq<u8>, accounts: seq<string>, overflowChecks: bool)
    : Outcome<Result<Swap, ParseError>>
  {
    if |data| < 8 then Returned(Err(InvalidLength))
    else if data[..8] == ROUTE then ParseRoute(Route, data, accounts, overflowChecks)
    else if data[..8] == EXACT_OUT_ROUTE then ParseRoute(ExactOutRoute, data, accounts, overflowChecks)
    else if data[..8] == SHARED_ACCOUNTS_ROUTE then ParseRoute(SharedAccountsRoute, data, accounts, overflowChecks)
    else Returned(Ok(Unknown))
  }

  function Discriminator(kind: Kind): (d: seq<u8>)
    ensures |d| == 8
  {
    match kind
    case Route => ROUTE
    case ExactOutRoute => EXACT_OUT_ROUTE
    case SharedAccountsRoute => SHARED_ACCOUNTS_ROUTE
  }

  // ----- round trip

  lemma EncodedSlices(s: Suffix)
    ensures var t := Encode(s);
            t[..8] == ToLittleEndian(s.inAmount, 8) && t[8..16] == ToLittleEndian(s.outAmount, 8)
            && t[16..18] == ToLittleEndian(s.slippageBps, 2) && t[18] == s.platformFeeBps
  {
  }

  /** Whatever precedes it, an encoded suffix is read back. */
  lemma ParseOfEncode(prefix: seq<u8>, s: Suffix)
    ensures ParseAmounts(prefix + Encode(s)) == Ok(s)
  {
    var data := prefix + Encode(s);
    assert data[|data| - 19..] == Encode(s);
    ParseBySlices(data);
    EncodedSlices(s);
    Ranges();
    FromToLittleEndian(s.inAmount, 8);
    FromToLittleEndian(s.outAmount, 8);
    FromToLittleEndian(s.slippageBps, 2);
  }

  lemma SuffixSlices(t: seq<u8>)
    requires |t| == 19
    ensures t == t[..8] + t[8..16] + t[16..18] + [t[18]]
  {
  }

  lemma EncodeOfSlices(t: seq<u8>, s: Suffix)
    requires |t| == 19
    requires s.inAmount == FromLittleEndian(t[..8]) && s.outAmount == FromLittleEndian(t[8..16])
    requires s.slippageBps == FromLittleEndian(t[16..18]) && s.platformFeeBps == t[18]
    ensures Encode(s) == t
  {
    ToFromLittleEndian(t[..8]);
    ToFromLittleEndian(t[8..16]);
    ToFromLittleEndian(t[16..18]);
    SuffixSlices(t);
  }

  /** What was read, encoded again, is the end of the data. */
  lemma EncodeOfParse(data: seq<u8>)
    requires |data| >= 19
    ensures ParseAmounts(data).Ok? && Encode(ParseAmounts(data).value) == data[|data| - 19..]
  {
    ParseBySlices(data);
    EncodeOfSlices(data[|data| - 19..], ParseAmounts(data).value);
  }

  lemma TableDecimals(address: string)
    ensures LookupToken(address).Some? ==> LookupToken(address).value.2 <= 9
  {
  }

  /** Every token in the table has few enough decimals for the amount to be printed. */
  lemma TokenInfoReturns(address: string, amount: u64, overflowChecks: bool)
    ensures GetTokenInfo(address, amount, overflowChecks).Returned?
    ensures var t := GetTokenInfo(address, amount, overflowChecks).value;
            t.address == address && t.amount == amount && ParseUnits(t.readable, t.decimals) == Some(amount)
  {
    TableDecimals(address);
    match LookupToken(address)
    case Some((_, _, decimals)) =>
      DivisorFits(decimals);
      FormatIsExact(amount, decimals);
    case None =>
      ValueOfShow(amount);
      WholeOnly(Show(amount), 0, amount);
  }

  ghost predicate IsToken(t: TokenInfo, symbol: string, name: string, decimals: nat) {
    t.symbol == symbol && t.name == name && t.decimals == decimals
  }

  /** What is shown of the three known tokens. */
  lemma KnownTokens(amount: u64, overflowChecks: bool)
    ensures forall a :: GetTokenInfo(a, amount, overflowChecks).Returned?
    ensures IsToken(GetTokenInfo("11111111111111111111111111111112", amount, overflowChecks).value, "SOL", "Solana", 9)
    ensures IsToken(GetTokenInfo("EPjFWdd5AufqSSqeM2qN1xzybapC8G4wEGGkZwyTDt1v", amount, overflowChecks).value,
                    "USDC", "USD Coin", 6)
    ensures IsToken(GetTokenInfo("Es9vMFrzaCERmJfrF4H2FYD4KCoNkY11McCe8BenwNYB", amount, overflowChecks).value,
                    "USDT", "Tether USD", 6)
  {
    forall a ensures GetTokenInfo(a, amount, overflowChecks).Returned? {
      TokenInfoReturns(a, amount, overflowChecks);
    }
  }

  /** Any other token goes by its address, long ones by both ends, with the amount undivided. */
  lemma OtherTokens(address: string, amount: u64, overflowChecks: bool)
    requires address != "11111111111111111111111111111112"
    requires address != "EPjFWdd5AufqSSqeM2qN1xzybapC8G4wEGGkZwyTDt1v"
    requires address != "Es9vMFrzaCERmJfrF4H2FYD4KCoNkY11McCe8BenwNYB"
    ensures GetTokenInfo(address, amount, overflowChecks).Returned?
    ensures var t := GetTokenInfo(address, amount, overflowChecks).value;
            && t.decimals == 0 && t.readable == Show(amount)
            && t.name == "Unknown Token (" + t.symbol + ")"
            && (|address| <= 8 ==> t.symbol == address)
            && (|address| > 8 ==> |t.symbol| == 11 && t.symbol[..4] == address[..4] && t.symbol[4..7] == "..."
                                  && t.symbol[7..] == address[|address| - 4..])
  {
  }

  /** A token shows the address at its account index and the amount that was encoded. */
  ghost predicate ShowsToken(t: Option<TokenInfo>, accounts: seq<string>, i: nat, amount: u64) {
    && (t.Some? <==> i < |accounts|)
    && (t.Some? ==> t.value.address == accounts[i] && t.value.amount == amount
                    && ParseUnits(t.value.readable, t.value.decimals) == Some(amount))
  }

  lemma TokenAtReturns(accounts: seq<string>, i: nat, amount: u64, overflowChecks: bool)
    ensures TokenAt(accounts, i, amount, overflowChecks).Returned?
    ensures ShowsToken(TokenAt(accounts, i, amount, overflowChecks).value, accounts, i, amount)
  {
    if i < |accounts| {
      TokenInfoReturns(accounts[i], amount, overflowChecks);
    }
  }

  lemma RouteReturns(kind: Kind, data: seq<u8>, accounts: seq<string>, overflowChecks: bool)
    ensures var r := ParseRoute(kind, data, accounts, overflowChecks);
            r.Returned? && (r.value.Err? <==> |data| < 19)
  {
    if |data| >= 19 {
      var s := ParseAmounts(data).value;
      TokenAtReturns(accounts, 0, s.inAmount, overflowChecks);
      TokenAtReturns(accounts, 5, s.outAmount, overflowChecks);
    }
  }

  /** Parsing never panics; it fails on short data and on nothing else. */
  lemma ParseInstructionReturns(data: seq<u8>, accounts: seq<string>, overflowChecks: bool)
    ensures var r := ParseInstruction(data, accounts, overflowChecks);
            r.Returned? && (r.value.Err? <==> |data| < 8 || (|data| < 19 && exists k :: data[..8] == Discriminator(k)))
  {
    RouteReturns(Route, data, accounts, overflowChecks);
    RouteReturns(ExactOutRoute, data, accounts, overflowChecks);
    RouteReturns(SharedAccountsRoute, data, accounts, overflowChecks);
    if |data| >= 8 {
      assert data[..8] == ROUTE ==> data[..8] == Discriminator(Route);
      assert data[..8] == EXACT_OUT_ROUTE ==> data[..8] == Discriminator(ExactOutRoute);
      assert data[..8] == SHARED_ACCOUNTS_ROUTE ==> data[..8] == Discriminator(SharedAccountsRoute);
    }
  }

  lemma DiscriminatorsDiffer(a: Kind, b: Kind)
    ensures Discriminator(a) == Discriminator(b) <==> a == b
  {
    assert ROUTE[0] != EXACT_OUT_ROUTE[0] && ROUTE[0] != SHARED_ACCOUNTS_ROUTE[0];
    assert EXACT_OUT_ROUTE[0] != SHARED_ACCOUNTS_ROUTE[0];
  }

  /** The kind of swap is told by the first eight bytes. */
  lemma KindOfBytes(data: seq<u8>, accounts: seq<string>, overflowChecks: bool)
    requires |data| >= 19
    ensures ParseInstruction(data, accounts, overflowChecks).Returned?
    ensures ParseInstruction(data, accounts, overflowChecks).value.Ok?
    ensures var swap, d := ParseInstruction(data, accounts, overflowChecks).value.value, data[..8];
            && (swap.Known? && swap.kind.Route? <==> d == [0xe5, 0x17, 0xcb, 0x97, 0x7a, 0xe3, 0xad, 0x2a])
            && (swap.Known? && swap.kind.ExactOutRoute? <==> d == [0x4b, 0xd7, 0xdf, 0xa8, 0x0c, 0xd0, 0xb6, 0x2a])
            && (swap.Known? && swap.kind.SharedAccountsRoute? <==> d == [0x3a, 0xf2, 0xaa, 0xae, 0x2f, 0xb6, 0xd4, 0x2a])
  {
    ParseInstructionReturns(data, accounts, overflowChecks);
    DiscriminatorsDiffer(Route, ExactOutRoute);
    DiscriminatorsDiffer(Route, SharedAccountsRoute);
    DiscriminatorsDiffer(ExactOutRoute, SharedAccountsRoute);
  }

  lemma DispatchOnKind(kind: Kind, data: seq<u8>, accounts: seq<string>, overflowChecks: bool)
    requires |data| >= 8 && data[..8] == Discriminator(kind)
    ensures ParseInstruction(data, accounts, overflowChecks) == ParseRoute(kind, data, accounts, overflowChecks)
  {
    DiscriminatorsDiffer(kind, Route);
    DiscriminatorsDiffer(kind, ExactOutRoute);
    DiscriminatorsDiffer(kind, SharedAccountsRoute);
  }

  /**
   An instruction built from a discriminator, any route plan and an encoded suffix parses to
   that kind of swap with exactly the encoded values.
   */
  lemma InstructionRoundTrip(kind: Kind, plan: seq<u8>, s: Suffix, accounts: seq<string>, overflowChecks: bool)
    ensures var r := ParseInstruction(Discriminator(kind) + plan + Encode(s), accounts, overflowChecks);
            && r.Returned? && r.value.Ok? && r.value.value.Known?
            && r.value.value.kind == kind
            && r.value.value.slippageBps == s.slippageBps && r.value.value.platformFeeBps == s.platformFeeBps
            && ShowsToken(r.value.value.inToken, accounts, 0, s.inAmount)
            && ShowsToken(r.value.value.outToken, accounts, 5, s.outAmount)
  {
    var data := Discriminator(kind) + plan + Encode(s);
    assert data[..8] == Discriminator(kind);
    DispatchOnKind(kind, data, accounts, overflowChecks);
    ParseOfEncode(Discriminator(kind) + plan, s);
    TokenAtReturns(accounts, 0, s.inAmount, overflowChecks);
    TokenAtReturns(accounts, 5, s.outAmount, overflowChecks);
  }

  /** Only the first eight and the last nineteen bytes matter. */
  lemma ParseIgnoresTheMiddle(data: seq<u8>, other: seq<u8>, accounts: seq<string>, overflowChecks: bool)
    requires |data| >= 19 && |other| >= 19
    requires data[..8] == other[..8] && data[|data| - 19..] == other[|other| - 19..]
    ensures ParseInstruction(data, accounts, overflowChecks) == ParseInstruction(other, accounts, overflowChecks)
  {
    ParseBySlices(data);
    ParseBySlices(other);
  }
}
