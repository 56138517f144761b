/** The EVM pipeline: JSON-RPC requests for a block (by height or the `latest` tag) and
    for a transaction, the conversion of hex quantities to decimal strings, and the
    classification of every answer or failure as a record, NotFound or Unavailable.
    The node is a parameter `post` from the request sent to the reply received. */
module EvmService {
  import opened Text
  import opened Js
  import opened Upstream
  import Hash

  /** A JSON-RPC 2.0 call `{jsonrpc: "2.0", id, method, params}`; `name` is the method.
      The id is not modelled. */
  datatype RpcRequest = RpcRequest(name: string, params: seq<Json>)

  /** `EvmBlock`; `hash` and `parentHash` are passed through from the node as they are.
      The decimal fields are typed non-null, but a missing quantity still comes out null. */
  datatype EvmBlock = EvmBlock(
    height: nat,
    hash: Json,
    parentHash: Json,
    gasLimit: Option<string>,
    gasUsed: Option<string>,
    size: Option<string>)

  /** `EvmTransaction`, keeping the record's own spelling `maxPriotityFeePerGas`. */
  datatype EvmTransaction = EvmTransaction(
    hash: Json,
    to: Json,
    from: Json,
    value: Option<string>,
    input: Json,
    maxFeePerGas: Option<string>,
    maxPriotityFeePerGas: Option<string>,
    gasPrice: Option<string>)

  /** What `hexToDecimalString` does: return a decimal string or null, or throw. */
  datatype Conversion = Converted(text: Option<string>) | Threw

  /** The part of a hex quantity after its optional `0x`/`0X`. */
  function HexBody(s: string): (r: string)
    ensures HasHexPrefix(s) ==> r == s[2..]
    ensures !HasHexPrefix(s) ==> r == s
  {
    if HasHexPrefix(s) then s[2..] else s
  }

  /** Removing the prefix recovers the digits, whichever prefix form they came with. */
  lemma HexBodyOf(prefix: string, digits: string)
    requires prefix == "" || prefix == "0x" || prefix == "0X"
    requires IsHexDigits(digits)
    ensures HexBody(prefix + digits) == digits
  {
    var s := prefix + digits;
    if prefix == "" {
      assert s == digits;
      assert !HasHexPrefix(s) by { assert |s| < 2 || IsDigitIn(s[1], 16); }
    } else {
      assert s[2..] == digits;
    }
  }

  /** Whether `BigInt("0x" + body)` parses: trailing whitespace is ignored, and what is
      left must be one or more hex digits; whitespace right after the prefix is not. */
  predicate BigIntAccepts(body: string)
    ensures BigIntAccepts(body) ==> body != [] && IsDigitIn(body[0], 16)
  {
    IsHexDigits(TrimEnd(body))
  }

  /** `hexToDecimalString`: a falsy value gives null; a value that is not a string throws
      (it has no `toLowerCase`); a bare prefix gives "0"; otherwise the hex digits are read
      at arbitrary precision and printed in base 10, or `BigInt` throws. */
  function HexToDecimalString(v: Json): (r: Conversion)
    ensures !Truthy(v) ==> r == Converted(None)
    ensures Truthy(v) ==> r != Converted(None)
    ensures r.Converted? && r.text.Some? ==> IsCanonical(r.text.value, 10)
    ensures r == Threw <==> Truthy(v) && (!v.Str? || (HexBody(v.s) != [] && !BigIntAccepts(HexBody(v.s))))
  {
    if !Truthy(v) then Converted(None)
    else if !v.Str? then Threw
    else
      var body := HexBody(v.s);
      if body == [] then Converted(Some("0"))
      else if BigIntAccepts(body) then Converted(Some(Render(ValueIn(TrimEnd(body), 16), 10)))
      else Threw
  }

  /** A bare `0x` or `0X` converts to "0". */
  lemma BarePrefixIsZero()
    ensures HexToDecimalString(Str("0x")) == Converted(Some("0"))
    ensures HexToDecimalString(Str("0X")) == Converted(Some("0"))
  {
    assert HexBody("0x") == [];
    assert HexBody("0X") == [];
  }

  /** For hex digits of either case, with a `0x` prefix, a `0X` prefix or none, the result
      is the base-10 numeral of exactly their value. */
  lemma HexToDecimalExact(prefix: string, digits: string)
    requires prefix == "" || prefix == "0x" || prefix == "0X"
    requires IsHexDigits(digits)
    ensures HexToDecimalString(Str(prefix + digits)) == Converted(Some(Render(ValueIn(digits, 16), 10)))
    ensures ValueIn(HexToDecimalString(Str(prefix + digits)).text.value, 10) == ValueIn(digits, 16)
  {
    var v := Str(prefix + digits);
    assert Truthy(v) by { assert v.s != ""; }
    HexBodyOf(prefix, digits);
    assert TrimEnd(digits) == digits by {
      assert !IsSpace(digits[|digits| - 1]) by { assert IsDigitIn(digits[|digits| - 1], 16); }
    }
    assert BigIntAccepts(digits);
  }

  /** Converting the hex text the node would send for `n` gives the decimal text of `n`. */
  lemma HexToDecimalRoundTrip(n: nat)
    ensures HexToDecimalString(Str("0x" + Render(n, 16))) == Converted(Some(Render(n, 10)))
  {
    HexToDecimalExact("0x", Render(n, 16));
  }

  /** The value asserted end to end for a gas quantity: `0x5208` is "21000". */
  lemma GasExample()
    ensures HexToDecimalString(Str("0x5208")) == Converted(Some("21000"))
  {
    assert "0x5208" == "0x" + "5208";
    HexToDecimalExact("0x", "5208");
    HexValue5208();
    DecimalValue21000();
    RenderOfCanonical("21000", 10);
  }

  lemma HexValue5208()
    ensures ValueIn("5208", 16) == 21000
  {
    ValueSnoc("5", '2', 16);
    assert "5" + ['2'] == "52";
    ValueSnoc("52", '0', 16);
    assert "52" + ['0'] == "520";
    ValueSnoc("520", '8', 16);
    assert "520" + ['8'] == "5208";
  }

  lemma DecimalValue21000()
    ensures IsCanonical("21000", 10) && ValueIn("21000", 10) == 21000
  {
    ValueSnoc("2", '1', 10);
    assert "2" + ['1'] == "21";
    ValueSnoc("21", '0', 10);
    assert "21" + ['0'] == "210";
    ValueSnoc("210", '0', 10);
    assert "210" + ['0'] == "2100";
    ValueSnoc("2100", '0', 10);
    assert "2100" + ['0'] == "21000";
  }

  /** The value asserted end to end for a size or a transfer value: `0x1` is "1". */
  lemma UnitExample()
    ensures HexToDecimalString(Str("0x1")) == Converted(Some("1"))
  {
    assert "0x1" == "0x" + "1";
    HexToDecimalExact("0x", "1");
    RenderOfCanonical("1", 10);
  }

  /** `eth_getBlockByNumber` for a height: `["0x" + height.toString(16), false]`. */
  function BlockRequest(height: nat): (r: RpcRequest)
    ensures r.name == "eth_getBlockByNumber" && |r.params| == 2 && r.params[1] == Bool(false)
    ensures r.params[0].Str? && StartsWith(r.params[0].s, "0x")
    ensures IsCanonical(r.params[0].s[2..], 16) && ValueIn(r.params[0].s[2..], 16) == height
  {
    var hex := "0x" + Render(height, 16);
    assert hex[2..] == Render(height, 16);
    RpcRequest("eth_getBlockByNumber", [Str(hex), Bool(false)])
  }

  /** The request asserted end to end: height 123 is asked for as `0x7b`. */
  lemma BlockRequestExample()
    ensures BlockRequest(123).params == [Str("0x7b"), Bool(false)]
  {
    assert ValueIn("7b", 16) == 123 by { assert "7b"[..1] == "7"; }
    RenderOfCanonical("7b", 16);
    assert "0x" + Render(123, 16) == "0x7b";
  }

  /** `eth_getBlockByNumber` for the `latest` tag. */
  function LatestBlockRequest(): (r: RpcRequest)
    ensures r.name == "eth_getBlockByNumber" && r.params == [Str("latest"), Bool(false)]
  {
    RpcRequest("eth_getBlockByNumber", [Str("latest"), Bool(false)])
  }

  /** `eth_getTransactionByHash` with the hash given a `0x` prefix. */
  function TransactionRequest(hash: string): (r: RpcRequest)
    ensures r.name == "eth_getTransactionByHash" && |r.params| == 1
    ensures r.params[0].Str? && StartsWith(r.params[0].s, "0x")
    ensures r.params[0] == Str(Hash.Normalize(hash))
  {
    RpcRequest("eth_getTransactionByHash", [Str(Hash.Normalize(hash))])
  }

  /** The classification shared by the three lookups, before the record is built.
      A 2xx answer carrying `error`, or without a truthy `result`, is NotFound; a thrown
      HTTP error whose body carries `error` is NotFound; every other failure, including a
      2xx body of `null` (reading `.error` of it throws), is Unavailable. */
  function RpcResult(reply: Reply): (r: Outcome<Json>)
    ensures r != BadRequest
    ensures r.Ok? <==>
      reply.Answered? && !IsNullish(reply.data)
      && !Truthy(Get(reply.data, "error")) && Truthy(Get(reply.data, "result"))
    ensures r.Ok? ==> r.value == Get(reply.data, "result") && Truthy(r.value)
    ensures r == NotFound <==>
      (reply.Answered? && !IsNullish(reply.data)
        && (Truthy(Get(reply.data, "error")) || !Truthy(Get(reply.data, "result"))))
      || (reply.HttpFailed? && Truthy(Get(reply.body, "error")))
    ensures r == Unavailable <==>
      reply.NetworkFailed? || (reply.HttpFailed? && !Truthy(Get(reply.body, "error")))
      || (reply.Answered? && IsNullish(reply.data))
  {
    match reply
    case Answered(data) =>
      if IsNullish(data) then Unavailable
      else if Truthy(Get(data, "error")) || !Truthy(Get(data, "result")) then NotFound
      else Ok(Get(data, "result"))
    case HttpFailed(body) =>
      if Truthy(Get(body, "error")) then NotFound else Unavailable
    case NetworkFailed => Unavailable
  }

  /** The block record for a known height; a conversion that throws inside the `try` makes
      the lookup Unavailable. */
  function BuildBlock(height: nat, block: Json): (r: Outcome<EvmBlock>)
    ensures r.Ok? || r == Unavailable
    ensures r == Unavailable <==>
      HexToDecimalString(Get(block, "gasLimit")) == Threw
      || HexToDecimalString(Get(block, "gasUsed")) == Threw
      || HexToDecimalString(Get(block, "size")) == Threw
    ensures r.Ok? ==>
      && r.value.height == height
      && r.value.hash == Get(block, "hash")
      && r.value.parentHash == Get(block, "parentHash")
      && Converted(r.value.gasLimit) == HexToDecimalString(Get(block, "gasLimit"))
      && Converted(r.value.gasUsed) == HexToDecimalString(Get(block, "gasUsed"))
      && Converted(r.value.size) == HexToDecimalString(Get(block, "size"))
  {
    var gasLimit := HexToDecimalString(Get(block, "gasLimit"));
    var gasUsed := HexToDecimalString(Get(block, "gasUsed"));
    var size := HexToDecimalString(Get(block, "size"));
    if gasLimit == Threw || gasUsed == Threw || size == Threw then Unavailable
    else Ok(EvmBlock(height, Get(block, "hash"), Get(block, "parentHash"), gasLimit.text, gasUsed.text, size.text))
  }

  /** `getBlockByHeight`: the record echoes the requested height; NotFound comes only from
      the node's own answer, never from a transport failure without an error body. */
  function GetBlockByHeight(height: nat, post: RpcRequest -> Reply): (r: Outcome<EvmBlock>)
    ensures r != BadRequest
    ensures r.Ok? ==> r.value.height == height
    ensures r == NotFound <==> RpcResult(post(BlockRequest(height))) == NotFound
    ensures RpcResult(post(BlockRequest(height))) == Unavailable ==> r == Unavailable
    ensures RpcResult(post(BlockRequest(height))).Ok? ==>
      r == BuildBlock(height, RpcResult(post(BlockRequest(height))).value)
  {
    match RpcResult(post(BlockRequest(height)))
    case Ok(block) => BuildBlock(height, block)
    case NotFound => NotFound
    case _ => Unavailable
  }

  /** The height `getBlockByTag` reads from `block.number`: `parseInt(_, 16)` of a string,
      NaN for anything else. */
  function TaggedHeight(block: Json): (r: NumberValue)
    ensures r.Int? ==> Get(block, "number").Str? && TrimStart(Get(block, "number").s) != []
    ensures r.Int? && r.i < 0 ==> TrimStart(Get(block, "number").s)[0] == '-'
    ensures r.Int? && TrimStart(Get(block, "number").s)[0] == '-' ==> r.i <= 0
  {
    var number := Get(block, "number");
    if number.Str? then ParseInt(number.s, 16) else NaN
  }

  /** `getBlockByTag('latest')`: the height comes from the block's own `number`; a missing,
      non-string, unparsable or negative number makes the block NotFound. */
  function GetLatestBlock(post: RpcRequest -> Reply): (r: Outcome<EvmBlock>)
    ensures r != BadRequest
    ensures r.Ok? ==>
      && RpcResult(post(LatestBlockRequest())).Ok?
      && Get(RpcResult(post(LatestBlockRequest())).value, "number").Str?
      && TaggedHeight(RpcResult(post(LatestBlockRequest())).value) == Int(r.value.height)
    ensures RpcResult(post(LatestBlockRequest())) == NotFound ==> r == NotFound
    ensures RpcResult(post(LatestBlockRequest())) == Unavailable ==> r == Unavailable
    ensures RpcResult(post(LatestBlockRequest())).Ok? ==>
      var block := RpcResult(post(LatestBlockRequest())).value;
      (TaggedHeight(block).NaN? || TaggedHeight(block).i < 0 <==> r == NotFound)
    ensures RpcResult(post(LatestBlockRequest())).Ok? ==>
      var block := RpcResult(post(LatestBlockRequest())).value;
      (TaggedHeight(block).Int? && TaggedHeight(block).i >= 0 ==> r == BuildBlock(TaggedHeight(block).i, block))
  {
    match RpcResult(post(LatestBlockRequest()))
    case Ok(block) =>
      var height := TaggedHeight(block);
      if height.NaN? || height.i < 0 then NotFound
      else BuildBlock(height.i, block)
    case NotFound => NotFound
    case _ => Unavailable
  }

  /** The node's number for block `n`, `"0x" + n.toString(16)`, gives height `n`. */
  lemma LatestHeightFromHexNumber(block: Json, n: nat)
    requires Get(block, "number") == Str("0x" + Render(n, 16))
    ensures TaggedHeight(block) == Int(n)
  {
    ParseIntHexPrefixed(Render(n, 16));
  }

  /** A number of `"-0x" + n.toString(16)` with `n > 0` reads as the negative height `-n`. */
  lemma LatestHeightFromNegativeHexNumber(block: Json, n: nat)
    requires n > 0 && Get(block, "number") == Str("-" + ("0x" + Render(n, 16)))
    ensures TaggedHeight(block) == Int(-(n as int))
  {
    ParseIntNegativeHexPrefixed(Render(n, 16), n);
  }

  /** A latest block whose number is negative, such as `"-0x5"`, is NotFound although the
      node found it. */
  lemma NegativeLatestNumberIsNotFound(post: RpcRequest -> Reply, n: nat)
    requires RpcResult(post(LatestBlockRequest())).Ok?
    requires n > 0 && Get(RpcResult(post(LatestBlockRequest())).value, "number") == Str("-" + ("0x" + Render(n, 16)))
    ensures GetLatestBlock(post) == NotFound
  {
    LatestHeightFromNegativeHexNumber(RpcResult(post(LatestBlockRequest())).value, n);
  }

  /** The transaction record for a found `result`: `to` defaults to null, the four
      quantities are converted, and a conversion that throws inside the `try` makes the
      lookup Unavailable. */
  function BuildTransaction(tx: Json): (r: Outcome<EvmTransaction>)
    ensures r.Ok? || r == Unavailable
    ensures r == Unavailable <==>
      HexToDecimalString(Get(tx, "value")) == Threw
      || HexToDecimalString(Get(tx, "maxFeePerGas")) == Threw
      || HexToDecimalString(Get(tx, "maxPriorityFeePerGas")) == Threw
      || HexToDecimalString(Get(tx, "gasPrice")) == Threw
    ensures r.Ok? ==>
      && r.value.hash == Get(tx, "hash")
      && r.value.to == (if IsNullish(Get(tx, "to")) then Null else Get(tx, "to"))
      && r.value.from == Get(tx, "from")
      && r.value.input == Get(tx, "input")
      && Converted(r.value.value) == HexToDecimalString(Get(tx, "value"))
      && Converted(r.value.maxFeePerGas) == HexToDecimalString(Get(tx, "maxFeePerGas"))
      && Converted(r.value.maxPriotityFeePerGas) == HexToDecimalString(Get(tx, "maxPriorityFeePerGas"))
      && Converted(r.value.gasPrice) == HexToDecimalString(Get(tx, "gasPrice"))
    ensures r.Ok? ==>
      (!Truthy(Get(tx, "maxFeePerGas")) ==> r.value.maxFeePerGas.None?)
      && (!Truthy(Get(tx, "maxPriorityFeePerGas")) ==> r.value.maxPriotityFeePerGas.None?)
      && (!Truthy(Get(tx, "gasPrice")) ==> r.value.gasPrice.None?)
  {
    var value := HexToDecimalString(Get(tx, "value"));
    var maxFee := HexToDecimalString(Get(tx, "maxFeePerGas"));
    var maxPriorityFee := HexToDecimalString(Get(tx, "maxPriorityFeePerGas"));
    var gasPrice := HexToDecimalString(Get(tx, "gasPrice"));
    if value == Threw || maxFee == Threw || maxPriorityFee == Threw || gasPrice == Threw then Unavailable
    else
      Ok(EvmTransaction(
        Get(tx, "hash"), Coalesce(Get(tx, "to"), Null), Get(tx, "from"), value.text,
        Get(tx, "input"), maxFee.text, maxPriorityFee.text, gasPrice.text))
  }

  /** `getTransactionByHash`: the request carries the `0x`-normalised hash, and a found
      `result` becomes the record `BuildTransaction` makes of it. */
  function GetTransactionByHash(hash: string, post: RpcRequest -> Reply): (r: Outcome<EvmTransaction>)
    ensures r != BadRequest
    ensures r == NotFound <==> RpcResult(post(TransactionRequest(hash))) == NotFound
    ensures RpcResult(post(TransactionRequest(hash))) == Unavailable ==> r == Unavailable
    ensures RpcResult(post(TransactionRequest(hash))).Ok? ==>
      r == BuildTransaction(RpcResult(post(TransactionRequest(hash))).value)
    ensures r.Ok? ==> RpcResult(post(TransactionRequest(hash))).Ok?
  {
    match RpcResult(post(TransactionRequest(hash)))
    case Ok(tx) => BuildTransaction(tx)
    case NotFound => NotFound
    case _ => Unavailable
  }

  /** A 2xx answer whose `result` is null or absent is NotFound, never Unavailable, for
      all three lookups. */
  lemma NullResultIsNotFound(height: nat, hash: string, post: RpcRequest -> Reply)
    requires forall q :: post(q).Answered? && post(q).data.Obj? && IsNullish(Get(post(q).data, "result"))
    ensures GetBlockByHeight(height, post) == NotFound
    ensures GetLatestBlock(post) == NotFound
    ensures GetTransactionByHash(hash, post) == NotFound
  {
    assert post(BlockRequest(height)).Answered?;
    assert post(LatestBlockRequest()).Answered?;
    assert post(TransactionRequest(hash)).Answered?;
  }
}
