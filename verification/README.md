# Verified model of the VisualSign parser

A Dafny 4.11 model of the parts of the parser that decide what a signer sees and what is
signed. `dafny verify dfyconfig.toml` checks the whole project.

| file | models |
|---|---|
| `JsonTree`, `JsonText`, `Canonical` | JSON trees, `BTreeMap` and insertion-ordered maps, compact text and its reader, the recursive key sort and the ordering check |
| `Charset`, `PayloadCharset` | the character check on a text, on trees and on payloads |
| `Payload`, `Serializers`, `MapOrders`, `DeclarationOrder` | the payload types, their serializers, and the effect of the map order |
| `PayloadReader`, `PayloadRoundTrip`, `ReaderOrder`, `Signing` | recovering a payload from its text, in any key order; the validated and the signed text |
| `Registry`, `ParseRoute` | converters, chain detection, and the parse request up to the digested text |
| `EthereumPayload` | the payload of an Ethereum transaction and its two texts |
| `Decimal`, `TokenAmount`, `NumberField` | decimal amounts and the number expression |
| `Accounts`, `AccountsPreview` | Solana accounts: flags, sort, counts, and the preview with its texts read back |
| `Dispatch`, `Instructions` | visualizer dispatch and instruction decoding |
| `Uniswap`, `SuiType`, `Jupiter` | command and input pairing, type strings, instruction suffix |
| `Hexadecimal`, `Selections`, `Wrappers` | hexadecimal text, filtered sequences, `Option` and `Result` |

## Main results

- **What is signed is what was validated.** `to_json` is validated
  (`src/visualsign/src/lib.rs:840`) while `serde_json::to_string` is signed
  (`src/parser/app/src/routes/parse.rs:46`). With key-ordered maps the two texts are equal for
  every payload. `serde_json::Map` is key-ordered by default, but `src/Cargo.lock:7899-7906` lists
  `indexmap` among the dependencies of serde_json, as it is when the feature `preserve_order` is on
  in some build. So both orders are modelled, as `MapOrder`. Under `preserve_order` the texts are
  equal if and only if no `AddressV2` and no `Amount` anywhere in the payload has members that are
  declared out of key order (`PayloadInOrder`). In both map orders the validated text is the
  same, and the verdict of the character check on it equals the verdict on the signed text.
- **Under `preserve_order` the texts differ for real requests.** The payload of an Ethereum
  transaction is in order if and only if the transaction has no recipient and the fields of its
  call data are in order: the recipient's address has a name and an asset label
  (`src/chain_parsers/visualsign-ethereum/src/lib.rs:222-235`). So the digested text of every
  transfer and every contract call would differ from the validated text. `Amount` with an
  abbreviation is the smallest payload out of order, but no converter builds that variant.
- **The text determines the payload.** A reader recovers every payload, with all eleven variants
  and any nesting, from its validated text and from its signed text in both map orders, because
  it ignores the order of members. The text that is signed for an Ethereum transaction determines
  its network, recipient, value, gas limit, fees and nonce.
- **The character check** accepts exactly the payloads whose every string is printable ASCII,
  `\b`, `\f`, `\n`, `\r` or `\t`, without a backslash directly before `u`; this covers a literal
  backslash followed by `u`, which the substring search also meets.
- **The key sort** is a canonical form: two trees sort alike if and only if they differ in key
  order only.
- **Amounts.** Up to 19 decimals `format_token_amount` prints the one canonical decimal whose
  value is the amount. Beyond, `10^decimals` leaves 64 bits: with overflow checks it panics;
  without them the text is exact if and only if the amount is below the wrapped power, and from 64
  decimals on the wrapped power is zero and the division panics. Only `[profile.dev]` turns the
  checks on (`src/Cargo.toml:22-29`), so both builds are modelled. In both, every text that is
  printed determines the amount and is accepted by the number and amount fields.
- **Accounts.** The category sort never moves an account, for any header that does not panic. The
  preview's texts, read back, give every address with its flags.
- **Requests and fields.** Each request code is answered by the converter of its own chain, and by
  no other. The fields of an Ethereum payload, read back from their texts, show every value of the
  transaction once and under its own label; those of a router call show each command's name and
  the bytes of its input.
- **Instructions.** The V0 decoder is the legacy decoder run on the statically resolvable part of
  the message. With all indices static the two agree if and only if there is an account key: with
  none, legacy returns no fields and V0 an error.

## Conventions

- Strings are sequences of Unicode scalar values. Rust compares strings bytewise on UTF-8, which
  is the order by scalar value, so `Less` compares scalar values.
- A `Serialize` implementation is modelled as the tree of its calls, with members in call order.
  Printing this tree is `serde_json::to_string`; collecting its objects into maps is
  `serde_json::to_value`.
- A `BTreeMap` is the sequence of its members in key order. A `HashMap` is a Dafny map, and loops
  over it pick entries in an arbitrary order.
- A panic is the value `Panicked` of `Outcome`.
- Structs with a single string member are represented by the string.
- The comment at `src/visualsign/src/field_builders.rs:20` says that leading zeros are refused. The
  expression accepts them, and the model follows the expression (`LeadingZerosAreAccepted`).

## Model

| member | source | states |
|---|---|---|
| Canonical.SortJsonAlphabetically | src/visualsign/src/lib.rs:812-833 | the loop that fills an ordered map level by level computes the canonical form `Sort` |
| Canonical.SortIsCompleteInvariant | src/visualsign/src/lib.rs:812-833 | two trees sort to the same tree if and only if they are equal up to a permutation of object members at every level |
| Canonical.SortFixpoints | src/visualsign/src/lib.rs:812-833 | sorting is idempotent, and leaves alone exactly the trees whose keys ascend at every level |
| Canonical.SortKeepsPaths | src/visualsign/src/lib.rs:812-833 | the same paths exist before and after sorting and lead to the sorted same values; array order is kept |
| Canonical.VerifyJsonDeterministic | src/visualsign/src/lib.rs:46-81 | comparing keys with their sorted copy and descending with early returns passes exactly when keys ascend everywhere |
| Canonical.VerifyDeterministicOrdering | src/visualsign/src/lib.rs:18-23 | the ordering check passes exactly on the trees that sorting leaves alone |
| Canonical.OrderedKeysAscend | src/visualsign/src/lib.rs:49-60 | equality with the sorted copy of the keys means strictly ascending keys, since keys are distinct |
| JsonTree.CollectSorted | src/visualsign/src/lib.rs:292-294 | draining a hash map in any order into an ordered map gives one result: its entries in key order |
| JsonTree.BTreeAscending | src/visualsign/src/lib.rs:816-824 | an ordered map filled entry by entry is in key order, keeps the last entry of a key, and holds nothing else |
| JsonTree.BTreeByMap | src/visualsign/src/lib.rs:816-824 | an ordered map depends only on the entries, not on the order in which they are inserted |
| JsonText.ReadOfPrint | src/visualsign/src/lib.rs:793-800 | compact text is read back to the same tree, with escapes, nesting, key order and repeated keys intact |
| JsonText.PrintIsInjective | src/visualsign/src/lib.rs:793-800 | two trees have the same compact text only if they are the same tree |
| Charset.CheckText | src/visualsign/src/lib.rs:844-868 | substring search, ASCII test and character loop together accept exactly the texts of `IsAccepted` |
| Charset.AcceptedIffClean | src/visualsign/src/lib.rs:839-871 | a compact text is accepted exactly when every key and string value of its tree is clean, and then it has only the characters 0x20 to 0x7E |
| Charset.KeyOrderIsIrrelevant | src/visualsign/src/lib.rs:839-871 | trees that differ in key order only get the same verdict |
| Serializers.FieldCheckPasses | src/visualsign/src/lib.rs:320-364 | for every variant neither the missing-field nor the unexpected-field error can occur |
| Serializers.SerializeSucceeds | src/visualsign/src/lib.rs:91-103 | serializing any payload succeeds, in both map orders |
| Serializers.SerializeToMap | src/visualsign/src/lib.rs:235-295 | the hash map filled by the macro and drained in any order is the ordered map of the variant's four entries |
| MapOrders.SortOfToValue | src/visualsign/src/lib.rs:786-791 | collecting a tree into maps of either kind loses nothing that sorting keeps |
| MapOrders.SortedPayload | src/visualsign/src/lib.rs:786-791 | in either map order the sorted value of a payload is the tree that key-ordered maps give without sorting |
| MapOrders.AnnotatedTreeFlat | src/visualsign/src/lib.rs:666-707 | an annotated field is one ordered object of the field's entries and the annotations |
| MapOrders.PayloadTreeCanonical | src/visualsign/src/lib.rs:88-103 | with key-ordered maps every object at every depth is serialized in key order |
| DeclarationOrder.CanonicalAddress | src/visualsign/src/lib.rs:520-531 | the members of an address are declared in key order exactly for these combinations of absent members |
| DeclarationOrder.CanonicalAmount | src/visualsign/src/lib.rs:546-551 | the members of an amount are in key order exactly when there is no abbreviation |
| DeclarationOrder.PayloadSame | src/visualsign/src/lib.rs:91-103 | both map orders serialize a payload alike if and only if every address and amount in it, at any depth, is in order |
| PayloadCharset.CleanPayloadTree | src/visualsign/src/lib.rs:839-871 | in either map order the tree of a payload is clean exactly when every string of the payload is |
| PayloadRoundTrip.ReadOfPayload | src/visualsign/src/lib.rs:91-103 | the reader recovers every payload from its tree: all variants, nested layouts, annotations and omitted members |
| PayloadRoundTrip.ReadOfField | src/visualsign/src/lib.rs:235-295 | type tag, common members and variant struct of a field are recovered |
| PayloadRoundTrip.ReadOfAnnotated | src/visualsign/src/lib.rs:666-707 | a field and its annotations are told apart although they share one object |
| PayloadRoundTrip.ReadOfPreview | src/visualsign/src/lib.rs:437-479 | the optional parts of a preview layout are recovered, absent ones as absent |
| ReaderOrder.ReadOfSorted | src/visualsign/src/lib.rs:812-833 | the reader gives the same answer for any tree and for its sorted form |
| ReaderOrder.ReaderIgnoresKeyOrder | src/visualsign/src/lib.rs:812-833 | trees that differ in key order only are read as the same payload, or neither is |
| Signing.ToJsonMethod | src/visualsign/src/lib.rs:786-801 | collect, sort with the loops as written, print: the text of `ToJson` |
| Signing.SignedTextIsValidatedText | src/parser/app/src/routes/parse.rs:46 | with key-ordered maps the signed text equals `to_json`, for every payload |
| Signing.SignedTextUnderPreserveOrder | src/parser/app/src/routes/parse.rs:46 | with insertion-ordered maps it does if and only if the payload is in order |
| Signing.PreserveOrderCanSplitTheTexts | src/visualsign/src/lib.rs:546-551 | a payload with one amount and its symbol has two different texts under insertion order; no converter builds this variant |
| Signing.ValidatedTextIsFeatureIndependent | src/visualsign/src/lib.rs:786-801 | `to_json` always succeeds and does not depend on the map order |
| Signing.OrderingCheckOnPayload | src/visualsign/src/lib.rs:14-23 | the ordering check on a payload passes exactly with key-ordered maps or for a payload in order |
| Signing.ValidationIsCleanliness | src/visualsign/src/lib.rs:839-871 | validation accepts exactly the payloads whose every string is clean, and reports a validation error for all others |
| Signing.ValidationCoversSignedText | src/parser/app/src/routes/parse.rs:46 | in both map orders validation gives the verdict of the signed text, even where the texts differ |
| Signing.ReadOfToJson | src/visualsign/src/lib.rs:786-801 | every payload is recovered from its validated text |
| Signing.ReadOfToText | src/parser/app/src/routes/parse.rs:46 | every payload is recovered from its signed text, in both map orders |
| Signing.ToJsonIsInjective | src/visualsign/src/lib.rs:786-801 | two payloads have the same validated text if and only if they are equal |
| Signing.SignedTextIsInjective | src/parser/app/src/routes/parse.rs:46 | two payloads have the same signed text if and only if they are equal, and no two payloads share a text across map orders |
| Signing.ValidatePayload | src/visualsign/src/lib.rs:839-871 | serializing and scanning succeeds exactly on clean payloads |
| Signing.ToValidatedJson | src/visualsign/src/lib.rs:874-878 | returns a text exactly for clean payloads, and the text is accepted and reads back as the payload |
| Registry.ConvertedIsClean | src/visualsign/src/vsptrait.rs:25-33 | with the default methods a conversion succeeds exactly when parsing and rendering do and the payload is clean, and returns that payload; otherwise the error of the failing step |
| Registry.ConvertIgnoresMapOrder | src/visualsign/src/vsptrait.rs:70-77 | the map order changes neither whether nor what is converted |
| Registry.LastRegistrationWins | src/visualsign/src/registry.rs:135-142 | after any registrations the last converter registered for a chain is in force |
| Registry.TransactionConverterRegistry.Register | src/visualsign/src/registry.rs:135-142 | replaces the converter of one chain, keeps all others, and adds one registration to the history |
| Registry.TransactionConverterRegistry.AutoDetectAndConvert | src/visualsign/src/registry.rs:165-185 | for every visiting order: a registered chain whose converter supports and converts the data, with its clean payload, or an error when there is none |
| Registry.DetectionIsAlongSomeVisit | src/visualsign/src/registry.rs:165-185 | the answers that detection may give are exactly those of the orders in which the chains can be visited |
| Registry.DetectionIsDetermined | src/visualsign/src/registry.rs:165-185 | all visiting orders give one answer if and only if at most one converter qualifies |
| Registry.DetectionAfterRegistrations | src/visualsign/src/registry.rs:165-185 | after any registrations detection succeeds exactly when some last registration supports and converts the data |
| ParseRoute.CreateRegistry | src/parser/app/src/registry.rs:9-32 | exactly the five supported chains are registered, each with its own converter |
| ParseRoute.Parse | src/parser/app/src/routes/parse.rs:18-50 | codes 2, 3, 4, 5 and 0 are answered by the Ethereum, Solana, Sui, Tron and unspecified converter: a text is returned if and only if the input is not empty, that converter parses and renders it with the request's options, and the payload is clean, and it is the text of that payload; all other codes are refused |
| ParseRoute.RequestReachesItsConverter | src/parser/app/src/chain_conversion.rs:6-15 | the same for the chain of calls as a function |
| ParseRoute.SignedTextIsSafe | src/parser/app/src/routes/parse.rs:18-50 | whatever is digested is the text of a clean payload, passes the character check, belongs to no other payload; the internal error never occurs |
| ParseRoute.SignedTextReadsBack | src/parser/app/src/routes/parse.rs:18-50 | in both map orders the digested text reads back as the payload; with key-ordered maps it is the validated text |
| ParseRoute.SignedTextAcrossMapOrders | src/parser/app/src/routes/parse.rs:18-50 | switching the map order changes the digested text exactly for payloads out of order |
| ParseRoute.UnregisteredChainsAreRefused | src/parser/app/src/chain_conversion.rs:5-14 | only the request codes of registered chains can yield a text |
| EthereumPayload.TextsOfEthereum | src/chain_parsers/visualsign-ethereum/src/lib.rs:206-320 | under insertion order the signed text is the validated text if and only if there is no recipient and the fields of the call data are in order |
| EthereumPayload.DigestedIsNotValidated | src/chain_parsers/visualsign-ethereum/src/lib.rs:222-235 | under insertion order the text digested for a request with a recipient is never the validated text |
| EthereumPayload.PayloadShowsTransaction | src/chain_parsers/visualsign-ethereum/src/lib.rs:206-320 | equal payloads come from transactions with equal network, recipient, value, gas limit, fees and nonce |
| EthereumPayload.SignedTextShowsTransaction | src/chain_parsers/visualsign-ethereum/src/lib.rs:206-320 | so do equal signed texts, in both map orders |
| EthereumPayload.PayloadReads | src/chain_parsers/visualsign-ethereum/src/lib.rs:206-320 | before the fields of the call data exactly one field has each label, and its text reads as the transaction's own value: network, recipient, value in ether, gas limit, gas price and priority fee in gwei, nonce; no recipient or priority fee is shown when there is none; behind them come the fields of the visualizers or the call data in hexadecimal |
| TokenAmount.TokenAmountIsExact | src/chain_parsers/visualsign-solana/src/utils/mod.rs:72-88 | up to 19 decimals a text is printed if and only if it is canonical and its value is the amount |
| TokenAmount.PanicsIff | src/chain_parsers/visualsign-solana/src/utils/mod.rs:72-88 | the function panics exactly from 20 decimals on with overflow checks, from 64 on without |
| TokenAmount.TokenAmountIsInjective | src/chain_parsers/visualsign-solana/src/utils/mod.rs:72-88 | in both builds two amounts give one result if and only if they are equal or the function panics for these decimals |
| TokenAmount.DivisorFits | src/chain_parsers/visualsign-solana/src/utils/mod.rs:73 | the power of ten fits 64 bits exactly up to 19 decimals |
| TokenAmount.CheckedBuildPanics | src/chain_parsers/visualsign-solana/src/utils/mod.rs:73 | with overflow checks the function panics exactly from 20 decimals on |
| TokenAmount.WrappingBuildIsInexact | src/chain_parsers/visualsign-solana/src/utils/mod.rs:72-88 | without them, from 20 decimals on, the text is exact if and only if the amount is below the wrapped power |
| TokenAmount.WrapsToZero | src/chain_parsers/visualsign-solana/src/utils/mod.rs:73 | the wrapped power is zero exactly from 64 decimals on |
| TokenAmount.TrimmedIsNeverEmpty | src/chain_parsers/visualsign-solana/src/utils/mod.rs:81-83 | the branch for an empty trimmed fraction is unreachable |
| TokenAmount.FormattersAgree | src/chain_parsers/visualsign-ethereum/src/fmt.rs:2-17 | on every 64-bit amount both formatters print the same text, for 18 and for 9 decimals |
| TokenAmount.TrimmingKeepsValue | src/chain_parsers/visualsign-ethereum/src/fmt.rs:2-9 | the fixed-width text and the trimmed text both denote the amount, for any amount and width |
| TokenAmount.EtherIsExact | src/chain_parsers/visualsign-ethereum/src/fmt.rs:12-17 | for an amount of any size a text is printed if and only if it is the canonical decimal of the amount, at 18 and at 9 places |
| NumberField.RegexIsNumber | src/visualsign/src/field_builders.rs:25-28 | the regular expression accepts exactly: optional sign, digits, optionally a point and more digits |
| NumberField.ZeroAlternativeIsRedundant | src/visualsign/src/field_builders.rs:26 | the second alternative accepts nothing that the first does not |
| NumberField.LeadingZerosAreAccepted | src/visualsign/src/field_builders.rs:20-28 | digits with any number of leading zeros are accepted |
| NumberField.ValidationAcceptsNumbers | src/visualsign/src/field_builders.rs:47-60 | empty text, numbers and anything else give their three distinct results |
| NumberField.NumberFieldShowsItsParts | src/visualsign/src/field_builders.rs:62-89 | a number field is built exactly from a number, and shows it, its unit and its label; otherwise the error |
| NumberField.AmountFieldShowsItsParts | src/visualsign/src/field_builders.rs:91-117 | an amount field is built exactly from a number and a symbol, and shows both |
| NumberField.FormattedAmountsAreAccepted | src/visualsign/src/field_builders.rs:62-117 | whatever `format_token_amount` returns for any decimals in either build, whatever `format_ether` and `format_gwei` print, and every unsigned integer makes a number field, and an amount field with any symbol |
| Accounts.DecodeAccounts | src/chain_parsers/visualsign-solana/src/core/accounts/decode.rs:18-82 | panics exactly when an evaluated subtraction underflows in a checked build; otherwise the sorted accounts are the flagged accounts in key order |
| Accounts.SortAccounts | src/chain_parsers/visualsign-solana/src/core/accounts/decode.rs:54-79 | the in-place sort leaves a permutation ordered by category, then position |
| Accounts.PrecedesByImportance | src/chain_parsers/visualsign-solana/src/core/accounts/decode.rs:54-79 | that order puts signers first, among equals the writable accounts, and keeps the original order otherwise |
| Accounts.FlaggingIsSorted | src/chain_parsers/visualsign-solana/src/core/accounts/decode.rs:23-79 | categories never decrease along the keys, for every header, so the sort moves nothing |
| Accounts.FlaggedIs | src/chain_parsers/visualsign-solana/src/core/accounts/decode.rs:23-41 | when the flags panic, and what signer and writable flags every key gets, in both builds |
| Accounts.WellFormedNeverPanics | src/chain_parsers/visualsign-solana/src/core/accounts/decode.rs:23-41 | a header that accounts for the keys never underflows, in either build |
| Accounts.SummaryCounts | src/chain_parsers/visualsign-solana/src/core/accounts/decode.rs:197-209 | the counts are those of the header and add up to the number of keys |
| AccountsPreview.CreateAccountsPreview | src/chain_parsers/visualsign-solana/src/core/accounts/decode.rs:187-324 | for addresses without commas and brackets: the expanded texts and the fallback text, cut at their separators and read back, give every account in order with its own flags; the subtitle and one line per nonempty group give the exact counts |
| AccountsPreview.FallbackIsInjective | src/chain_parsers/visualsign-solana/src/core/accounts/decode.rs:276-299 | for addresses without brackets the fallback text determines every address and every flag |
| Dispatch.ChosenDecides | src/chain_parsers/visualsign-solana/src/core/mod.rs:151-174 | the first visualizer that can handle an instruction decides, also when it fails |
| Dispatch.CatchAllHandles | src/chain_parsers/visualsign-solana/src/presets/unknown_program/config.rs:24-31 | with a catch-all every instruction finds a visualizer |
| Dispatch.CollectedNames | src/chain_parsers/visualsign-solana/build.rs:26-66 | every listed directory is kept and only catch-alls follow a catch-all |
| Dispatch.CollectedInOrder | src/chain_parsers/visualsign-solana/build.rs:26-66 | every directory is listed once and in listing order, those that are not the catch-all first |
| Dispatch.OwnerIsUnique | src/chain_parsers/visualsign-solana/src/core/mod.rs:91-99 | no program is named by two presets: a preset names a program exactly when it owns it |
| Dispatch.DispatchIgnoresDirectoryOrder | src/chain_parsers/visualsign-solana/build.rs:26-66 | for every order of the preset folders the first visualizer that can handle an instruction is the preset owning its program, or the catch-all |
| Dispatch.PresetsHaveCatchAll | src/chain_parsers/visualsign-solana/build.rs:54-66 | the generated list contains the catch-all |
| Instructions.ResolvesIffInRange | src/chain_parsers/visualsign-solana/src/core/instructions.rs:27-44 | resolving a legacy message panics exactly when some index is out of range |
| Instructions.ResolvedInOrder | src/chain_parsers/visualsign-solana/src/core/instructions.rs:27-44 | every instruction of a legacy message is resolved in order, with its own program, its data, and the accounts of its indices one for one |
| Instructions.DecodesAllOrFirstError | src/chain_parsers/visualsign-solana/src/core/instructions.rs:46-82 | with indices in range: never a panic, one field per instruction in order, or the error of the first instruction that fails |
| Instructions.CountCheckIsDead | src/chain_parsers/visualsign-solana/src/core/instructions.rs:74-80 | the count check never fires |
| Instructions.V0RefinesLegacy | src/chain_parsers/visualsign-solana/src/core/txtypes/v0.rs:114-190 | the V0 decoder is the legacy decoder on the statically resolvable part of the message |
| Instructions.SameOnStaticMessages | src/chain_parsers/visualsign-solana/src/core/txtypes/v0.rs:160-167 | with all indices static the decoders agree if and only if there is an account key |
| Instructions.V0DecodesAllOrFirstError | src/chain_parsers/visualsign-solana/src/core/txtypes/v0.rs:169-190 | V0 fields are those of the static instructions in order, each visualized at its consecutive index, or the first error |
| Instructions.StaticAccountsAreUnique | src/chain_parsers/visualsign-solana/src/core/txtypes/v0.rs:136-149 | the V0 accounts are exactly those at the strictly increasing positions of the static indices, in order and no others |
| Instructions.StaticAtPosition | src/chain_parsers/visualsign-solana/src/core/txtypes/v0.rs:129-158 | the k-th static instruction has the program, the data and the static accounts, in order, of the instruction at the k-th position |
| Instructions.PositionsWithin | src/chain_parsers/visualsign-solana/src/core/txtypes/v0.rs:129-158 | the positions are strictly increasing, inside the message, one per static instruction |
| Instructions.PositionsCover | src/chain_parsers/visualsign-solana/src/core/txtypes/v0.rs:129-158 | an instruction has a position exactly when its program index is static |
| Instructions.DecodingIgnoresDirectoryOrder | src/chain_parsers/visualsign-solana/src/core/instructions.rs:15-83 | legacy and V0 decoding give the same results for every order in which the build reads the folders |
| Uniswap.FromByteInvertsToByte | src/chain_parsers/visualsign-ethereum/src/contracts/uniswap.rs:18-44 | a byte is recognised as a command exactly when it is its discriminant |
| Uniswap.MapCommands | src/chain_parsers/visualsign-ethereum/src/contracts/uniswap.rs:46-54 | the commands are those of the recognised bytes, in order, nothing else |
| Uniswap.PositionsSpec | src/chain_parsers/visualsign-ethereum/src/contracts/uniswap.rs:46-54 | the positions are strictly increasing and hit every recognised byte and no other |
| Uniswap.VisualizeCall | src/chain_parsers/visualsign-ethereum/src/contracts/uniswap.rs:64-112 | nothing for a deadline beyond 63 bits; else one field per recognised command, titled with the command's own name, numbered from one, whose hexadecimal text reads back as the bytes of the input of that number; plus one for a shown deadline |
| Uniswap.OwnInput | src/chain_parsers/visualsign-ethereum/src/contracts/uniswap.rs:80-85 | the input shown is the command's own exactly when no unrecognised byte precedes it |
| Uniswap.FieldShowsOwnInput | src/chain_parsers/visualsign-ethereum/src/contracts/uniswap.rs:80-112 | with one input per byte, a field shows its command's own input if and only if every earlier byte is recognised or the two inputs are equal |
| Uniswap.UnknownByteShiftsInputs | src/chain_parsers/visualsign-ethereum/src/contracts/uniswap.rs:80-112 | behind any unknown byte the field of any command shows the unknown byte's input, which is its own only if the two are equal |
| SuiType.DisplayOfFromStr | src/chain_parsers/visualsign-sui/src/utils/coin.rs:11-53 | printing the parse gives the text back if and only if it has two separators that do not overlap |
| SuiType.DisplayOfOthers | src/chain_parsers/visualsign-sui/src/utils/coin.rs:11-29 | blank text gives the placeholder, other text without two separators gives empty parts |
| SuiType.FromStrOfDisplay | src/chain_parsers/visualsign-sui/src/utils/package.rs:11-38 | parsing the print gives the value back if and only if neither of the first two parts has a separator or ends in a colon |
| SuiType.SplitsInThree | src/chain_parsers/visualsign-sui/src/utils/coin.rs:16-22 | the leftmost cuts give three pieces exactly for texts with two separators |
| SuiType.ParsedIsStable | src/chain_parsers/visualsign-sui/src/utils/package.rs:11-38 | whatever is parsed, from any text, prints and parses to itself |
| Jupiter.ParseBySlices | src/chain_parsers/visualsign-solana/src/presets/jupiter_swap/mod.rs:59-91 | the indexed reads are the little-endian integers of consecutive slices of the last 19 bytes |
| Jupiter.ParseOfEncode | src/chain_parsers/visualsign-solana/src/presets/jupiter_swap/mod.rs:59-91 | an encoded suffix behind any bytes parses to its values |
| Jupiter.EncodeOfParse | src/chain_parsers/visualsign-solana/src/presets/jupiter_swap/mod.rs:59-91 | the parsed values encode to the last 19 bytes |
| Jupiter.InstructionRoundTrip | src/chain_parsers/visualsign-solana/src/presets/jupiter_swap/mod.rs:174-251 | discriminator, any route plan and encoded suffix parse to that variant with exactly these values, and tokens show the encoded amounts |
| Jupiter.ParseInstructionReturns | src/chain_parsers/visualsign-solana/src/presets/jupiter_swap/mod.rs:174-194 | parsing never panics for any data and accounts, and fails exactly on data too short for its discriminator |
| Jupiter.ParseIgnoresTheMiddle | src/chain_parsers/visualsign-solana/src/presets/jupiter_swap/mod.rs:174-251 | only the first 8 and the last 19 bytes matter |
| Jupiter.TokenInfoReturns | src/chain_parsers/visualsign-solana/src/utils/mod.rs:102-132 | a token's readable amount denotes the amount, whatever the address |
| Jupiter.KnownTokens | src/chain_parsers/visualsign-solana/src/utils/mod.rs:35-69 | symbol, name and decimals of the three known tokens |
| Jupiter.OtherTokens | src/chain_parsers/visualsign-solana/src/utils/mod.rs:114-130 | any other token goes by its address, a long one by its first and last four characters, with the amount undivided |
| Jupiter.KindOfBytes | src/chain_parsers/visualsign-solana/src/presets/jupiter_swap/mod.rs:174-194 | which first eight bytes make which kind of swap |

## Left out

- serde_json's floating-point numbers: payloads hold none; JSON numbers in the model are integers.
- The derived `Deserialize` implementations, `to_pretty_json`, `AnnotatedPayload`, `UserIntent`.
- Wording of error messages and the JSON paths inside them; `VerifyJsonDeterministic` returns a verdict only.
- `decode_v0_accounts` as a separate function: it is a copy of `decode_accounts` on the same header and keys, and one function models both.
- The address lookup table field: string joining without further properties.
- Ethereum: RLP and ABI decoding and the chain names; the two contract visualizers are parameters. Transaction types that the converter refuses.
- The library's sorting algorithm: `SortAccounts` is an insertion sort; its contract, a sorted permutation, admits one result because positions are distinct.
- `visualize_tx_commands` of each preset: a function from the context to a field or an error; so is parsing and rendering of each chain's transactions.
- Logging, `kind` of visualizers beyond a name, and directory entries that cannot be read or named.
- Uniswap: ABI decoding, the summary text around the fields, and the calendar rendering of the deadline, which is a parameter.
- `base_unit_symbol` of Sui coins, and the texts that Jupiter instructions are formatted to.
- Token addresses longer than eight bytes are cut by characters; the source cuts by bytes, which is the same for base58 text.
- `format_units` for signed amounts; amounts are natural numbers of any size.
- `i64` versions, sockets, the request host, digesting and signing of the text.
