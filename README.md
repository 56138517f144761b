# Blockchain gateway: normalisation and resolution engine

This project models the engine of a small read-only gateway. The gateway serves blocks and
transactions from an EVM chain (JSON-RPC) and from a Cosmos chain (Tendermint RPC plus the
Cosmos REST API). Dafny proves properties of the model.

The model covers:

- **EVM service** (`EvmService`).
  - Builds the `eth_getBlockByNumber` and `eth_getTransactionByHash` requests, with the height
    encoded in hex and the hash given a `0x` prefix.
  - Converts hex quantities to decimal strings at arbitrary precision (`hexToDecimalString`).
  - Classifies every node answer or failure as a record, NotFound or Unavailable.
  - For the `latest` tag, reads the block's own `number` field.
- **EVM height validator** (`EvmController`). The pipe that turns the `:height` route
  parameter into a block height or rejects it with BadRequest.
- **Cosmos service** (`CosmosService`).
  - Block lookups, where every failure is NotFound.
  - Transaction lookups that try Tendermint first and REST second.
  - The fee extractor and the sender extractors, with their fixed priority orders.
- **Cosmos transaction-hash validator** (`CosmosTxParams`). `TX_HASH_REGEX`, stated as a
  predicate on strings, together with the pattern its authors evidently intended.

Supporting modules:

- `Hash` holds the `0x` normalisation shared by both services.
- `Js` models the JavaScript semantics the code relies on: JSON values with `undefined`,
  truthiness, `?.`, `??`, `String()`, `Number()` and `parseInt`.
- `Text` holds whitespace trimming, digit strings and the rendering of a natural number in a
  radix.
- `Upstream` gives the shape of a transport reply and of the outcome a caller sees.

The network is a parameter of each service. `post` (EVM) and `send` (Cosmos) map the request
to the reply it gets. A reply is one of:

- `Answered(data)`: a 2xx answer with its parsed body.
- `HttpFailed(body)`: a non-2xx answer. The HTTP client throws, and the error carries the body.
- `NetworkFailed`: no answer at all.

This lets the contracts state which request is sent, and that the REST API is consulted only
after a Tendermint miss.

Three behaviours of the code are easy to miss:

- **Thrown HTTP error with an `error` body (EVM).** A non-2xx reply whose body carries
  `error` is NotFound, because the code checks `error.response?.data?.error`
  (`EvmService.RpcResult`). A 2xx reply whose body is `null` makes reading `.error` throw a
  TypeError, which the code reports as Unavailable.
- **Block hash (Cosmos).** Only the latest-block lookup checks `block_id.hash`. The
  by-height lookup checks only that `block_id` exists (`CosmosService.LatestBlockNeedsHash`).
- **Missing `proposer_address` (Cosmos).** A block without `proposer_address` is still
  returned, with the text `"undefined"` as its proposer
  (`CosmosService.MissingProposerIsUndefined`).

## Model

| member | source | states |
|---|---|---|
| Text.TrimStart | src/evm/evm.controller.ts:17 | the result is a suffix of the input; everything dropped is whitespace; the result does not start with whitespace |
| Text.HasHexPrefix | src/evm/evm.controller.ts:21 | the front of the text is `0x` or `0X`; the same test as `toLowerCase().startsWith('0x')` at src/evm/evm.service.ts:121 |
| Text.Trim | src/evm/evm.controller.ts:17 | the result is empty exactly when the input is all whitespace; otherwise it starts and ends with non-whitespace |
| Text.TrimEnd | src/evm/evm.controller.ts:17 | the result is a prefix of the input; everything dropped is whitespace; the result does not end with whitespace |
| Text.TrimPadded | src/evm/evm.controller.ts:17 | text that starts and ends with non-whitespace trims back to itself, whatever whitespace surrounds it |
| Text.TrimIdempotent | src/evm/evm.controller.ts:17 | trimming twice is trimming once |
| Text.JoinAppend | src/cosmos/cosmos.service.ts:131 | joining two non-empty lists back to back puts exactly one separator between their two joins |
| Text.Join | src/cosmos/cosmos.service.ts:131 | joining no parts gives "", and joining one part gives that part (longer lists: Text.JoinAppend) |
| Text.JoinNonEmpty | src/cosmos/cosmos.service.ts:131 | a join whose last part is non-empty is non-empty |
| Text.Render | src/evm/evm.service.ts:39 | `n.toString(radix)` is a canonical numeral (lower case, no leading zero) whose value is exactly n, with no width limit |
| Text.RenderOfCanonical | src/evm/evm.service.ts:125 | every canonical numeral is the rendering of its own value, so rendering and reading back are inverse |
| Text.CanonicalUnique | src/evm/evm.service.ts:125 | two canonical numerals are equal exactly when their values are equal |
| Js.Truthy | src/evm/evm.service.ts:117 | a value is falsy exactly when it is undefined, null, false, 0 or the empty string |
| Js.ToString | src/cosmos/cosmos.service.ts:43-45 | `String(s)` of a string is that string; only a string or an array can give the empty text |
| Js.ToNumber | src/cosmos/cosmos.service.ts:42 | `Number` keeps a number, gives 0 for null and false and 1 for true, and NaN for undefined and objects |
| Js.Get | src/cosmos/cosmos.service.ts:35-37 | `j?.key` is defined only when j is an object holding key; when j holds key, the result is exactly that field |
| Js.Coalesce | src/cosmos/cosmos.service.ts:80-84 | `a ?? b` is a unless a is null or undefined, and b otherwise |
| Js.NumberOfIntText | src/cosmos/cosmos.service.ts:81 | `Number` of the decimal text of any integer, negative ones included, gives that integer back |
| Js.ParseInt | src/evm/evm.service.ts:151 | blank text gives NaN; a negative result needs a `-` right after the leading whitespace, and a `-` there never gives a positive result |
| Js.ParseIntMinus | src/evm/evm.service.ts:151 | a `-` in front of text that starts with neither whitespace nor a sign negates what the text reads as, and keeps NaN as NaN |
| Js.ParseIntNegative | src/evm/evm.service.ts:151 | `parseInt("-" + digits, radix)` reads exactly the negated value of the digits |
| Js.ParseIntNegativeHexPrefixed | src/evm/evm.service.ts:151 | `parseInt("-0x" + digits, 16)` reads exactly the negated value of the digits: the sign comes before the prefix |
| Js.ParseIntIgnoresTrailing | src/evm/evm.service.ts:151 | reading stops at the first character that is not a digit: digits followed by anything else read as the digits' value |
| Js.StringToNumber | src/cosmos/cosmos.service.ts:42 | `Number(s)` of a string that trims to decimal digits is exactly their value |
| Js.ParseIntDigits | src/evm/evm.controller.ts:28 | `parseInt` of a plain digit string reads exactly its value |
| Js.ParseIntHexPrefixed | src/evm/evm.controller.ts:24 | `parseInt("0x" + digits, 16)` reads exactly the value of the digits |
| Js.HexMagnitude | src/evm/evm.service.ts:151 | after a `0x` or `0X`, base 16 reads exactly the value of the digits behind it |
| Hash.Normalize | src/evm/evm.service.ts:128-130 | the result starts with `0x`; a `0x`-prefixed hash is unchanged; any other hash gets `0x` prepended |
| Hash.NormalizeIdempotent | src/evm/evm.service.ts:128-130 | normalising twice is normalising once |
| Hash.NormalizeUpperCasePrefix | src/evm/evm.service.ts:128-130 | a `0X…` hash is not recognised as prefixed and becomes `0x0X…` |
| Hash.StripPrefix | src/cosmos/cosmos.service.ts:95 | exactly one leading lower-case `0x` is removed when present; otherwise the hash is unchanged |
| Hash.StripAfterNormalize | src/cosmos/cosmos.service.ts:176-178 | stripping after normalising gives the caller's hash minus its `0x`, or the hash itself if it had none |
| EvmService.HexBodyOf | src/evm/evm.service.ts:121 | removing the prefix from hex digits preceded by nothing, `0x` or `0X` gives back exactly the digits |
| EvmService.BigIntAccepts | src/evm/evm.service.ts:125 | a body `BigInt` accepts starts with a hex digit, so whitespace or a sign right after the prefix is rejected |
| EvmService.HexBody | src/evm/evm.service.ts:121 | when a `0x`/`0X` prefix is present the result is everything after it; otherwise the value is unchanged |
| EvmService.HexToDecimalString | src/evm/evm.service.ts:116-126 | a falsy value gives null and a truthy one never does; a decimal result is canonical; the call throws exactly when the value is truthy and either not a string or a non-empty body that `BigInt` rejects |
| EvmService.BarePrefixIsZero | src/evm/evm.service.ts:121-124 | a bare `0x` or `0X` converts to "0" |
| EvmService.HexToDecimalExact | src/evm/evm.service.ts:121-125 | for hex digits of either case, with a `0x` or `0X` prefix or none, the result is the canonical decimal numeral of exactly their value |
| EvmService.HexToDecimalRoundTrip | src/evm/evm.service.ts:125 | the hex text of n converts to the decimal text of n |
| EvmService.GasExample | test/app.e2e-spec.ts:48-61 | `0x5208` converts to "21000" |
| EvmService.UnitExample | test/app.e2e-spec.ts:50-62 | `0x1` converts to "1" |
| EvmService.BlockRequest | src/evm/evm.service.ts:39-46 | method `eth_getBlockByNumber`; params are a `0x`-prefixed canonical lower-case hex numeral whose value is the height, then `false` |
| EvmService.BlockRequestExample | test/app.e2e-spec.ts:33-41 | height 123 is requested as `["0x7b", false]` |
| EvmService.LatestBlockRequest | src/evm/evm.service.ts:133-138 | method `eth_getBlockByNumber` with params `["latest", false]` |
| EvmService.TransactionRequest | src/evm/evm.service.ts:77-84 | method `eth_getTransactionByHash` with the single param being the `0x`-normalised hash |
| EvmService.RpcResult | src/evm/evm.service.ts:48-73 | Ok exactly when a 2xx object body has no truthy `error` and a truthy `result`, and then the value is that result; NotFound exactly when a 2xx body carries `error` or lacks `result`, or a thrown HTTP error's body carries `error`; Unavailable exactly for a network failure, an HTTP error without an `error` body, or a null 2xx body; never BadRequest |
| EvmService.NullResultIsNotFound | src/evm/evm.service.ts:51-53 | a 2xx answer with a null or missing `result` is NotFound, never Unavailable, for all three lookups |
| EvmService.BuildBlock | src/evm/evm.service.ts:57-64 | the record echoes the height and copies `hash`/`parentHash`; each quantity is the conversion of the node's field; a conversion that throws makes the lookup Unavailable, and only that does |
| EvmService.GetBlockByHeight | src/evm/evm.service.ts:38-74 | the height is echoed; NotFound exactly when the classification is NotFound; Unavailable classifications stay Unavailable; a found block is built from the node's `result` |
| EvmService.TaggedHeight | src/evm/evm.service.ts:148-152 | a number comes only from a string `number` that is not blank; a negative number only from text whose first non-blank character is `-`, and such text never gives a positive number |
| EvmService.GetLatestBlock | src/evm/evm.service.ts:132-175 | a found block's height is `parseInt(number, 16)` of the node's string `number`; a non-string, unparsable or negative number is NotFound; a non-negative height gives exactly the record built from the node's result at that height; NotFound and Unavailable classifications carry through |
| EvmService.BuildTransaction | src/evm/evm.service.ts:93-104 | Unavailable exactly when one of the four conversions throws; otherwise hash, from and input are copied, `to` defaults to null, each quantity is the conversion of the node's field, and a falsy fee field gives null |
| EvmService.LatestHeightFromHexNumber | src/evm/evm.service.ts:148-152 | a `number` of `"0x" + n.toString(16)` yields height n |
| EvmService.LatestHeightFromNegativeHexNumber | src/evm/evm.service.ts:148-152 | a `number` of `"-0x" + n.toString(16)` with n > 0 yields the negative height -n |
| EvmService.NegativeLatestNumberIsNotFound | src/evm/evm.service.ts:148-156 | a latest block the node returns with a `number` such as `"-0x5"` is NotFound, because its height is negative |
| EvmService.GetTransactionByHash | src/evm/evm.service.ts:76-114 | never BadRequest; NotFound exactly when the classification is NotFound; Unavailable classifications stay Unavailable; a found result gives exactly `BuildTransaction` of it, so the lookup is Ok exactly when the node found the transaction and no conversion throws |
| EvmController.IsPrefixedHex | src/evm/evm.controller.ts:22 | a value matching `/^0x[0-9a-fA-F]+$/` starts with `0x` and is never a decimal numeral |
| EvmController.CheckedHeight | src/evm/evm.controller.ts:31-34 | a height is accepted exactly when it is a number and not negative, and every rejection is BadRequest |
| EvmController.ParseTrimmed | src/evm/evm.controller.ts:18-34 | on a trimmed value: accepted exactly when it is decimal digits or `0x` and hex digits, as the exact value in base 10 or 16; a `0X` prefix and the empty value are rejected; every outcome is Ok or BadRequest |
| EvmController.ParseHeight | src/evm/evm.controller.ts:16-35 | the value is accepted exactly when its trimmed form is decimal digits or `0x` and hex digits; the accepted height is the exact value in base 10 or 16 respectively; a `0X` prefix is rejected; every outcome is Ok or BadRequest |
| EvmController.HexBranch | src/evm/evm.controller.ts:22-24 | a value that matched `0x` and hex digits is accepted as the exact value of its digits |
| EvmController.DecimalBranch | src/evm/evm.controller.ts:26-28 | a value that matched decimal digits is accepted as its exact value |
| EvmController.PrefixShapes | src/evm/evm.controller.ts:21-28 | a decimal numeral never takes the hex branch; a `0x` numeral always does; a `0X` value matches neither pattern |
| EvmController.PaddingIgnored | src/evm/evm.controller.ts:17 | surrounding whitespace never changes the outcome |
| EvmController.DecimalRoundTrip | src/evm/evm.controller.ts:25-28 | the decimal text of every n is accepted as n |
| EvmController.HexRoundTrip | src/evm/evm.controller.ts:21-24 | `"0x"` plus the hex text of every n is accepted as n |
| EvmController.HeightExample | test/app.e2e-spec.ts:33-54 | "123" is accepted as 123 |
| CosmosService.LatestBlockQuery | src/cosmos/cosmos.service.ts:182 | `GET /block` with no parameters |
| CosmosService.TendermintTxQuery | src/cosmos/cosmos.service.ts:70-72 | `GET /tx` with the single parameter `hash` |
| CosmosService.BlockQuery | src/cosmos/cosmos.service.ts:31-33 | `GET /block` with one `height` parameter whose decimal value is the height |
| CosmosService.RestTxQuery | src/cosmos/cosmos.service.ts:95-96 | the REST path is the transactions path followed by the hash minus one leading `0x` |
| CosmosService.BlockRecord | src/cosmos/cosmos.service.ts:41-46 | the height is `Number` of the header's height: a height sent as decimal text is read as its exact value, and a numeric one is kept; time, block hash and proposer are `String` of the fields, so strings pass through unchanged and a missing proposer becomes "undefined" |
| CosmosService.TextHeightIsRead | src/cosmos/cosmos.service.ts:42 | a header height sent as the decimal text of any integer is read as that integer |
| CosmosService.LatestBlockAtTextHeight | src/cosmos/cosmos.service.ts:189-206 | a latest block with a header, a block hash and a height sent as the decimal text of n is found at height n when n is not negative, and is NotFound otherwise |
| CosmosService.GetBlockByHeight | src/cosmos/cosmos.service.ts:29-50 | Ok exactly when the answer has a truthy `result.block.header` and `result.block_id`, and then the record is copied from them; otherwise NotFound, never Unavailable |
| CosmosService.GetLatestBlock | src/cosmos/cosmos.service.ts:180-210 | Ok exactly when the answer has a header, a truthy `block_id.hash` and a non-negative numeric height; a found height is a non-negative integer; otherwise NotFound |
| CosmosService.BlockTransportFailureIsNotFound | src/cosmos/cosmos.service.ts:47-49 | transport failures of either kind make both block lookups NotFound |
| CosmosService.LatestBlockNeedsHash | src/cosmos/cosmos.service.ts:191-198 | a latest block without a block hash is NotFound even though the call succeeded |
| CosmosService.MissingProposerIsUndefined | src/cosmos/cosmos.service.ts:41-46 | a by-height block without `proposer_address` is still found, with proposer "undefined" |
| CosmosService.FeePart | src/cosmos/cosmos.service.ts:128 | a coin yields a token exactly when both `amount` and `denom` are truthy |
| CosmosService.FeeParts | src/cosmos/cosmos.service.ts:127-129 | every token kept is non-empty, and there are never more tokens than coins |
| CosmosService.ExtractFee | src/cosmos/cosmos.service.ts:120-132 | null exactly when the amount list is not an array or yields no token; otherwise the tokens joined with ", ", which is non-empty |
| CosmosService.FeePartsAppend | src/cosmos/cosmos.service.ts:127-129 | tokens keep input order: the tokens of a concatenation are the concatenation of the tokens |
| CosmosService.IncompleteCoinSkipped | src/cosmos/cosmos.service.ts:128-129 | a coin lacking `amount` or `denom` is skipped, and the others are unaffected |
| CosmosService.FeePartsOfCoins | src/cosmos/cosmos.service.ts:127-131 | with only complete coins, there is one token per coin, amount followed by denom, in input order |
| CosmosService.TwoCoinFee | src/cosmos/cosmos.service.ts:120-132 | two complete coins give `"<amount><denom>, <amount><denom>"` |
| CosmosService.ExtractSender | src/cosmos/cosmos.service.ts:134-150 | only the first signer info is read; a string `public_key` wins, then a truthy `key`, then a truthy `address`; null exactly when none applies |
| CosmosService.OnlyFirstSignerInfo | src/cosmos/cosmos.service.ts:136-137 | later signer infos never change the sender |
| CosmosService.MessageSender | src/cosmos/cosmos.service.ts:159-170 | a non-object message names nobody; otherwise `from_address`, then `sender`, then `delegator_address`, whichever is first truthy; nobody when all three are falsy |
| CosmosService.FirstMessageSender | src/cosmos/cosmos.service.ts:158-173 | null exactly when no message names a sender; otherwise the sender of the earliest message that names one |
| CosmosService.ExtractSenderFromMessages | src/cosmos/cosmos.service.ts:152-174 | null when `body.messages` is not an array; otherwise the first message sender in order |
| CosmosService.Sender | src/cosmos/cosmos.service.ts:104 | the signer-info sender when there is one; the message scan only when it is null |
| CosmosService.SignerKeyBeatsMessages | src/cosmos/cosmos.service.ts:104 | once the signer info names a sender, the messages never matter |
| CosmosService.FetchTendermintTx | src/cosmos/cosmos.service.ts:68-91 | a record exactly when a 2xx answer has a truthy `result`, with fee and sender null; a string hash is kept and a missing one defaults to the input; a present height is `Number` of it and a missing one is 0; time is `tx_result.timestamp`, else `result.timestamp`, else ""; gas used and wanted are the strings of `tx_result`, else "" |
| CosmosService.FetchRestTx | src/cosmos/cosmos.service.ts:93-118 | a record exactly when a 2xx answer has a truthy `tx_response`; fee and sender are extracted from its `tx`; hash is `txhash`, else the normalised input; a present height is `Number` of it and a missing one is 0; time, gas used and gas wanted are the response's strings, else "" |
| CosmosService.GetTransactionByHash | src/cosmos/cosmos.service.ts:52-66 | a Tendermint hit is returned; REST is used only after a Tendermint miss; NotFound exactly when both miss; never Unavailable |
| CosmosService.RestIgnoredOnTendermintHit | src/cosmos/cosmos.service.ts:55-58 | on a Tendermint hit the REST endpoint's answer cannot change the outcome |
| CosmosService.TendermintFailureFallsBack | src/cosmos/cosmos.service.ts:88-90 | a failing Tendermint call still lets REST supply the record, with REST's fee and sender |
| CosmosService.RestPathUsesBareHash | src/cosmos/cosmos.service.ts:95-96 | the REST path carries the caller's hash without its `0x`, or as given when it had none |
| CosmosTxParams.MatchesTxHash | src/cosmos/dto/get-tx-params.dto.ts:3 | every match starts with `0` and has 65 or 66 characters |
| CosmosTxParams.ValidTxParams | src/cosmos/dto/get-tx-params.dto.ts:5-8 | only a string of 65 or 66 characters starting with `0` passes |
| CosmosTxParams.AcceptedShapes | src/cosmos/dto/get-tx-params.dto.ts:3 | accepted exactly: `0` and 64 hex digits, or `0x` and 64 hex digits, so every accepted hash has 65 or 66 characters |
| CosmosTxParams.PrefixedHashAccepted | src/cosmos/dto/get-tx-params.dto.ts:3 | `0x` and 64 hex digits of either case is accepted |
| CosmosTxParams.BareHashRejected | src/cosmos/dto/get-tx-params.dto.ts:3 | a bare 64-digit hash is rejected |
| CosmosTxParams.UpperCasePrefixRejected | src/cosmos/dto/get-tx-params.dto.ts:3 | a `0X` prefix is rejected whatever follows |
| CosmosTxParams.NonStringRejected | src/cosmos/dto/get-tx-params.dto.ts:5-8 | a hash that is not a string never passes |
| CosmosTxParams.ZeroPrefixedHashQuirk | src/cosmos/dto/get-tx-params.dto.ts:3 | `0` and 64 hex digits passes, is normalised to `0x0…`, and reaches REST as a 65-digit hash |
| CosmosTxParams.MatchesTxHashIntended | src/cosmos/dto/get-tx-params.dto.ts:3 | under the corrected pattern every match has 64 or 66 characters and ends in 64 hex digits |
| CosmosTxParams.IntendedHashNormalizes | src/cosmos/dto/get-tx-params.dto.ts:3 | under `^(0x)?[0-9a-fA-F]{64}$`, every accepted hash normalises to `0x` and 64 hex digits, and REST receives exactly those 64 digits |
| CosmosTxParams.PatternsAgreeOnPrefixed | src/cosmos/dto/get-tx-params.dto.ts:3 | both patterns accept the `0x` form; only the intended one accepts the bare hash |

## Left out

- HTTP clients, configuration and timeouts are not modelled: axios instances, the
  `EVM_RPC_URL`/`COSMOS_RPC_URL` checks and the 15-second timeouts. Each call is the `post` or
  `send` parameter.
- async/await is not modelled. The calls are made in sequence, and the model sequences them as
  function applications.
- The `Date.now()` JSON-RPC ids are not modelled. They are not observable in any output, so
  `RpcRequest` carries only the method and params.
- Routing, the exception filter, bootstrap and module wiring are not modelled:
  `cosmos.controller.ts`, the routes of `evm.controller.ts`, `http-exception.filter.ts`,
  `main.ts` and `app.module.ts`. They are framework glue. The precedence of `block/:height`
  over `block/latest` is the framework's.
- The decorator-only constraints of the `get-block-params.dto.ts` files and the library
  `ParseIntPipe` are not modelled. Cosmos heights are `nat` because of those constraints.
  `src/evm/dto/get-tx-params.dto.ts` is not part of this model.
- `src/cosmos/types/cosmos-block.ts` is not part of this model. `CosmosBlock` takes its fields
  from the object literal the service builds.
- Js.NumberValue: JavaScript numbers are modelled as unbounded integers or NaN. Infinity is
  folded into NaN: both fail the finiteness checks, and both serialise to `null`. JSON numbers
  are integers. `Number()` of a string with a fraction or an exponent reads as NaN in the
  model.
- EvmController.ParseHeight: reads the exact value of the digits. JavaScript `parseInt`
  loses precision above 2^53 and gives Infinity past the largest double, which the pipe then
  rejects: from about 309 decimal digits or 257 hex digits on, the source answers BadRequest
  where the model answers Ok.
- EvmController.ParseHeight: models `transform` applied to the raw path text. `main.ts:13-19`
  also installs a global `ValidationPipe` with `transform: true`, which may convert the
  `height: number` parameter before this pipe sees it; that conversion is framework behaviour
  and is not modelled, so a value such as `0X1F` that the model rejects might be read as a
  number in a deployed server.
- EvmService.GetLatestBlock: the height is the exact value of the hex digits, not the rounded
  double that `parseInt` returns above 2^53. From about 257 hex digits on, `parseInt` gives
  Infinity and the source answers NotFound, while the model answers Ok.
- Js.ParseInt: only radix 10 and 16, the two the code uses.
- CosmosService.GetLatestBlock: heights are exact integers. `Number()` of a header height of
  about 309 or more decimal digits is Infinity, which the source answers NotFound
  (src/cosmos/cosmos.service.ts:189-196), while the model answers Ok.
- Js.ToString: JSON strings are sequences of code points, not UTF-16 code units. Strings are
  only compared, concatenated and trimmed here, so lengths in code units do not matter.
- Error messages are not modelled. Only the exception class (NotFound, Unavailable,
  BadRequest) is observable in the model.

## Findings

| source | as written | input that shows it | evidently intended | confidence | as-written member | corrected member |
|---|---|---|---|---|---|---|
| src/cosmos/dto/get-tx-params.dto.ts:3 | `/^0x?[0-9a-fA-F]{64}$/` makes only the `x` optional: it demands a leading `0` and rejects the bare 64-digit hash Cosmos prints, while accepting `0` plus 64 hex digits; that hash is then normalised to `0x0…` and sent to REST as a 65-digit hash | `"0"` followed by 64 × `a` is accepted; 64 × `a` alone is rejected | `/^(0x)?[0-9a-fA-F]{64}$/`: 64 hex digits with an optional `0x` | medium, not executed | CosmosTxParams.ZeroPrefixedHashQuirk | CosmosTxParams.IntendedHashNormalizes |
