/** The Cosmos pipeline: block lookups on the Tendermint RPC, and transaction lookups that
    try the Tendermint RPC first and the Cosmos REST API second, with the field extractors
    for the fee and the sender. The node is a parameter `send` from the GET request made
    to the reply received. */
module CosmosService {
  import opened Text
  import opened Js
  import opened Upstream
  import Hash

  /** An HTTP GET: a path under the node's base URL and its query parameters. */
  datatype HttpGet = HttpGet(path: string, query: seq<(string, string)>)

  /** `CosmosBlock`: the height is whatever `Number()` makes of the header's height. */
  datatype CosmosBlock = CosmosBlock(height: NumberValue, time: string, hash: string, proposedAddress: string)

  /** `CosmosTransaction`; `sender` is the value found in the transaction, passed through. */
  datatype CosmosTransaction = CosmosTransaction(
    hash: string,
    height: NumberValue,
    time: string,
    gasUsed: string,
    gasWanted: string,
    fee: Option<string>,
    sender: Option<Json>)

  const RestTxPath: string := "/cosmos/tx/v1beta1/txs/"

  /** `GET /block?height=<n>`. */
  function BlockQuery(height: nat): (q: HttpGet)
    ensures q.path == "/block" && |q.query| == 1 && q.query[0].0 == "height"
    ensures IsCanonical(q.query[0].1, 10) && ValueIn(q.query[0].1, 10) == height
  {
    HttpGet("/block", [("height", Render(height, 10))])
  }

  /** `GET /block` with no height: the node answers with its latest block. */
  function LatestBlockQuery(): (q: HttpGet)
    ensures q.path == "/block" && q.query == []
  {
    HttpGet("/block", [])
  }

  /** `GET /tx?hash=<hash>`: the hash is passed on as given. */
  function TendermintTxQuery(hash: string): (q: HttpGet)
    ensures q.path == "/tx" && q.query == [("hash", hash)]
  {
    HttpGet("/tx", [("hash", hash)])
  }

  /** `GET /cosmos/tx/v1beta1/txs/<hash without one leading 0x>`. */
  function RestTxQuery(hash: string): (q: HttpGet)
    ensures StartsWith(hash, "0x") ==> q.path == RestTxPath + hash[2..]
    ensures !StartsWith(hash, "0x") ==> q.path == RestTxPath + hash
  {
    HttpGet(RestTxPath + Hash.StripPrefix(hash), [])
  }

  // ---------------------------------------------------------------------------------
  // Blocks

  function Header(data: Json): Json {
    Get(Get(Get(data, "result"), "block"), "header")
  }

  function BlockId(data: Json): Json {
    Get(Get(data, "result"), "block_id")
  }

  /** The block record, copied from the header and the block id: the height is `Number` of
      the header's height (a decimal text is read as its value, a number is kept), the
      other fields are `String` of theirs (strings pass through unchanged, a missing
      proposer reads "undefined"). */
  function BlockRecord(data: Json): (r: CosmosBlock)
    ensures r.height == ToNumber(Get(Header(data), "height"))
    ensures Get(Header(data), "height").Num? ==> r.height == Int(Get(Header(data), "height").n)
    ensures (Get(Header(data), "height").Str? && IsDecimalDigits(Trim(Get(Header(data), "height").s)))
      ==> r.height == Int(ValueIn(Trim(Get(Header(data), "height").s), 10))
    ensures r.time == ToString(Get(Header(data), "time"))
      && r.hash == ToString(Get(BlockId(data), "hash"))
      && r.proposedAddress == ToString(Get(Header(data), "proposer_address"))
    ensures Get(Header(data), "time").Str? ==> r.time == Get(Header(data), "time").s
    ensures Get(BlockId(data), "hash").Str? ==> r.hash == Get(BlockId(data), "hash").s
    ensures Get(Header(data), "proposer_address").Str? ==>
      r.proposedAddress == Get(Header(data), "proposer_address").s
    ensures Get(Header(data), "proposer_address") == Undefined ==> r.proposedAddress == "undefined"
  {
    CosmosBlock(
      ToNumber(Get(Header(data), "height")),
      ToString(Get(Header(data), "time")),
      ToString(Get(BlockId(data), "hash")),
      ToString(Get(Header(data), "proposer_address")))
  }

  /** A header height sent as the decimal text of an integer, as Tendermint sends it, is
      read as that integer. */
  lemma TextHeightIsRead(data: Json, n: int)
    requires Get(Header(data), "height") == Str(IntText(n))
    ensures BlockRecord(data).height == Int(n)
  {
    NumberOfIntText(n);
  }

  /** The latest block whose header height is the decimal text of n is found at height n;
      a negative one is NotFound. */
  lemma LatestBlockAtTextHeight(send: HttpGet -> Reply, n: int)
    requires send(LatestBlockQuery()).Answered?
    requires Truthy(Header(send(LatestBlockQuery()).data))
    requires Truthy(Get(BlockId(send(LatestBlockQuery()).data), "hash"))
    requires Get(Header(send(LatestBlockQuery()).data), "height") == Str(IntText(n))
    ensures n >= 0 ==> GetLatestBlock(send).Ok? && GetLatestBlock(send).value.height == Int(n)
    ensures n < 0 ==> GetLatestBlock(send) == NotFound
  {
    NumberOfIntText(n);
  }

  /** `getBlockByHeight`: a block with a header and a block id is returned; anything else,
      transport failures included, is NotFound. */
  function GetBlockByHeight(height: nat, send: HttpGet -> Reply): (r: Outcome<CosmosBlock>)
    ensures r.Ok? || r == NotFound
    ensures r.Ok? <==>
      send(BlockQuery(height)).Answered?
      && Truthy(Header(send(BlockQuery(height)).data))
      && Truthy(BlockId(send(BlockQuery(height)).data))
    ensures r.Ok? ==> r.value == BlockRecord(send(BlockQuery(height)).data)
  {
    match send(BlockQuery(height))
    case Answered(data) =>
      if !Truthy(Header(data)) || !Truthy(BlockId(data)) then NotFound
      else Ok(BlockRecord(data))
    case _ => NotFound
  }

  /** `getLatestBlock`: additionally demands a truthy block hash and a height that is a
      finite, non-negative number; every failure is NotFound. */
  function GetLatestBlock(send: HttpGet -> Reply): (r: Outcome<CosmosBlock>)
    ensures r.Ok? || r == NotFound
    ensures r.Ok? <==>
      send(LatestBlockQuery()).Answered?
      && Truthy(Header(send(LatestBlockQuery()).data))
      && Truthy(Get(BlockId(send(LatestBlockQuery()).data), "hash"))
      && ToNumber(Get(Header(send(LatestBlockQuery()).data), "height")).Int?
      && ToNumber(Get(Header(send(LatestBlockQuery()).data), "height")).i >= 0
    ensures r.Ok? ==> r.value.height.Int? && r.value.height.i >= 0
    ensures r.Ok? ==> r.value == BlockRecord(send(LatestBlockQuery()).data)
  {
    match send(LatestBlockQuery())
    case Answered(data) =>
      var height := ToNumber(Get(Header(data), "height"));
      if !Truthy(Header(data)) || !Truthy(Get(BlockId(data), "hash")) || height.NaN? || height.i < 0 then NotFound
      else Ok(BlockRecord(data))
    case _ => NotFound
  }

  /** No block lookup is ever Unavailable: a transport failure of either kind is
      NotFound. */
  lemma BlockTransportFailureIsNotFound(height: nat, send: HttpGet -> Reply)
    requires !send(BlockQuery(height)).Answered? && !send(LatestBlockQuery()).Answered?
    ensures GetBlockByHeight(height, send) == NotFound
    ensures GetLatestBlock(send) == NotFound
  {
  }

  /** A latest block whose block id has no hash is NotFound although the call succeeded;
      the by-height lookup only checks that the block id is there. */
  lemma LatestBlockNeedsHash(send: HttpGet -> Reply)
    requires send(LatestBlockQuery()).Answered?
    requires IsNullish(Get(BlockId(send(LatestBlockQuery()).data), "hash"))
    ensures GetLatestBlock(send) == NotFound
  {
  }

  /** A header without `proposer_address` still yields a block, with the text
      "undefined" in its place. */
  lemma MissingProposerIsUndefined(height: nat, send: HttpGet -> Reply)
    requires send(BlockQuery(height)).Answered?
    requires Truthy(Header(send(BlockQuery(height)).data)) && Truthy(BlockId(send(BlockQuery(height)).data))
    requires Get(Header(send(BlockQuery(height)).data), "proposer_address") == Undefined
    ensures GetBlockByHeight(height, send).Ok?
    ensures GetBlockByHeight(height, send).value.proposedAddress == "undefined"
  {
  }

  // ---------------------------------------------------------------------------------
  // Fee

  /** One fee coin: `amount` and `denom` concatenated when both are truthy, else null. */
  function FeePart(item: Json): (r: Option<string>)
    ensures r.Some? <==> Truthy(Get(item, "amount")) && Truthy(Get(item, "denom"))
  {
    if Truthy(Get(item, "amount")) && Truthy(Get(item, "denom"))
    then Some(ToString(Get(item, "amount")) + ToString(Get(item, "denom")))
    else None
  }

  /** The coins mapped to their texts and filtered by `Boolean`, in input order. */
  function FeeParts(items: seq<Json>): (r: seq<string>)
    ensures forall k :: 0 <= k < |r| ==> r[k] != ""
    ensures |r| <= |items|
  {
    if items == [] then []
    else
      var front := FeeParts(items[..|items| - 1]);
      var part := FeePart(items[|items| - 1]);
      if part.Some? && part.value != "" then front + [part.value] else front
  }

  function FeeAmounts(tx: Json): Json {
    Get(Get(Get(tx, "auth_info"), "fee"), "amount")
  }

  /** `extractFee`: the coin texts joined with ", ", or null when the amount list is
      missing, not an array, empty, or has no complete coin. */
  function ExtractFee(tx: Json): (r: Option<string>)
    ensures r.None? <==> !FeeAmounts(tx).Arr? || FeeParts(FeeAmounts(tx).items) == []
    ensures r.Some? ==> r.value == Join(FeeParts(FeeAmounts(tx).items), ", ") && r.value != ""
  {
    var amounts := FeeAmounts(tx);
    if !amounts.Arr? || |amounts.items| == 0 then None
    else
      var parts := FeeParts(amounts.items);
      if |parts| > 0 then
        JoinNonEmpty(parts, ", ");
        Some(Join(parts, ", "))
      else None
  }

  /** Coins are taken in input order: the parts of a concatenation are the concatenation
      of the parts. */
  lemma {:induction false} FeePartsAppend(a: seq<Json>, b: seq<Json>)
    ensures FeeParts(a + b) == FeeParts(a) + FeeParts(b)
    decreases |b|
  {
    if b == [] {
      assert a + b == a;
    } else {
      var b' := b[..|b| - 1];
      assert (a + b)[..|a + b| - 1] == a + b';
      assert (a + b)[|a + b| - 1] == b[|b| - 1];
      FeePartsAppend(a, b');
    }
  }

  /** A coin that lacks a truthy `amount` or `denom` is skipped. */
  lemma IncompleteCoinSkipped(before: seq<Json>, item: Json, after: seq<Json>)
    requires !Truthy(Get(item, "amount")) || !Truthy(Get(item, "denom"))
    ensures FeeParts(before + [item] + after) == FeeParts(before) + FeeParts(after)
  {
    FeePartsAppend(before + [item], after);
    FeePartsAppend(before, [item]);
    assert FeeParts([item]) == [] by { assert [item][..0] == []; }
  }

  /** A coin whose `amount` and `denom` are both non-empty strings. */
  predicate IsCoin(item: Json) {
    Get(item, "amount").Str? && Get(item, "amount").s != ""
    && Get(item, "denom").Str? && Get(item, "denom").s != ""
  }

  /** When every coin is complete, there is one part per coin, each `amount` followed by
      `denom`, in input order. */
  lemma {:induction false} FeePartsOfCoins(items: seq<Json>)
    requires forall k :: 0 <= k < |items| ==> IsCoin(items[k])
    ensures |FeeParts(items)| == |items|
    ensures forall k :: 0 <= k < |items| ==>
      FeeParts(items)[k] == ToString(Get(items[k], "amount")) + ToString(Get(items[k], "denom"))
  {
    if items != [] {
      var front := items[..|items| - 1];
      FeePartsOfCoins(front);
      var last := items[|items| - 1];
      assert IsCoin(last);
      assert FeePart(last) == Some(ToString(Get(last, "amount")) + ToString(Get(last, "denom")));
    }
  }

  /** Two complete coins are reported as `"<amount><denom>, <amount><denom>"`. */
  lemma TwoCoinFee(tx: Json, c1: Json, c2: Json)
    requires FeeAmounts(tx) == Arr([c1, c2]) && IsCoin(c1) && IsCoin(c2)
    ensures ExtractFee(tx) == Some(
      Get(c1, "amount").s + Get(c1, "denom").s + ", " + Get(c2, "amount").s + Get(c2, "denom").s)
  {
    FeePartsOfCoins([c1, c2]);
    var parts := FeeParts([c1, c2]);
    var p1, p2 := Get(c1, "amount").s + Get(c1, "denom").s, Get(c2, "amount").s + Get(c2, "denom").s;
    assert parts[0] == p1 && parts[1] == p2;
    assert parts == [p1, p2];
    assert [p1, p2][..1] == [p1];
    assert Join(parts, ", ") == p1 + ", " + p2;
    assert ExtractFee(tx) == Some(Join(parts, ", "));
    assert p1 + ", " + p2 ==
      Get(c1, "amount").s + Get(c1, "denom").s + ", " + Get(c2, "amount").s + Get(c2, "denom").s;
  }

  // ---------------------------------------------------------------------------------
  // Sender

  function SignerInfos(tx: Json): Json {
    Get(Get(tx, "auth_info"), "signer_infos")
  }

  /** The `public_key` of the first signer info, `undefined` when there is none. */
  function FirstPublicKey(tx: Json): Json {
    var infos := SignerInfos(tx);
    if infos.Arr? && |infos.items| > 0 then Get(infos.items[0], "public_key") else Undefined
  }

  /** `extractSender`: only the first signer info is read; a string public key wins, then
      its `key`, then its `address`; otherwise null. */
  function ExtractSender(tx: Json): (r: Option<Json>)
    ensures r.Some? ==> !IsNullish(r.value)
    ensures FirstPublicKey(tx).Str? ==> r == Some(FirstPublicKey(tx))
    ensures !FirstPublicKey(tx).Str? && Truthy(Get(FirstPublicKey(tx), "key")) ==>
      r == Some(Get(FirstPublicKey(tx), "key"))
    ensures (!FirstPublicKey(tx).Str? && !Truthy(Get(FirstPublicKey(tx), "key"))
      && Truthy(Get(FirstPublicKey(tx), "address"))) ==> r == Some(Get(FirstPublicKey(tx), "address"))
    ensures r.None? <==> (!FirstPublicKey(tx).Str?
      && !Truthy(Get(FirstPublicKey(tx), "key")) && !Truthy(Get(FirstPublicKey(tx), "address")))
  {
    var infos := SignerInfos(tx);
    if infos.Arr? && |infos.items| > 0 then
      var publicKey := Get(infos.items[0], "public_key");
      if publicKey.Str? then Some(publicKey)
      else if Truthy(Get(publicKey, "key")) then Some(Get(publicKey, "key"))
      else if Truthy(Get(publicKey, "address")) then Some(Get(publicKey, "address"))
      else None
    else None
  }

  /** The sender named by one message: `from_address`, then `sender`, then
      `delegator_address`; entries that are not objects name nobody. */
  function MessageSender(m: Json): (r: Option<Json>)
    ensures r.Some? ==> IsObjectType(m) && Truthy(r.value)
    ensures IsObjectType(m) && Truthy(Get(m, "from_address")) ==> r == Some(Get(m, "from_address"))
    ensures IsObjectType(m) && !Truthy(Get(m, "from_address")) && Truthy(Get(m, "sender")) ==>
      r == Some(Get(m, "sender"))
    ensures (IsObjectType(m) && !Truthy(Get(m, "from_address")) && !Truthy(Get(m, "sender"))
      && Truthy(Get(m, "delegator_address"))) ==> r == Some(Get(m, "delegator_address"))
    ensures r.None? <==> (!IsObjectType(m) ||
      (!Truthy(Get(m, "from_address")) && !Truthy(Get(m, "sender")) && !Truthy(Get(m, "delegator_address"))))
  {
    if !IsObjectType(m) then None
    else if Truthy(Get(m, "from_address")) then Some(Get(m, "from_address"))
    else if Truthy(Get(m, "sender")) then Some(Get(m, "sender"))
    else if Truthy(Get(m, "delegator_address")) then Some(Get(m, "delegator_address"))
    else None
  }

  /** The first message, in order, that names a sender decides; null if none does. */
  function FirstMessageSender(messages: seq<Json>): (r: Option<Json>)
    ensures r.None? <==> forall k :: 0 <= k < |messages| ==> MessageSender(messages[k]).None?
    ensures r.Some? ==> exists k :: (0 <= k < |messages| && r == MessageSender(messages[k])
      && forall j :: 0 <= j < k ==> MessageSender(messages[j]).None?)
  {
    if messages == [] then None
    else
      match MessageSender(messages[0])
      case Some(s) => Some(s)
      case None =>
        var r := FirstMessageSender(messages[1..]);
        FirstSenderShift(messages, r);
        r
  }

  /** What the scan of the later messages finds is what the scan of all of them finds
      when the first message names nobody. */
  lemma FirstSenderShift(messages: seq<Json>, r: Option<Json>)
    requires messages != [] && MessageSender(messages[0]).None?
    requires r.None? <==> forall k :: 0 <= k < |messages[1..]| ==> MessageSender(messages[1..][k]).None?
    requires r.Some? ==> exists k :: (0 <= k < |messages[1..]| && r == MessageSender(messages[1..][k])
      && forall j :: 0 <= j < k ==> MessageSender(messages[1..][j]).None?)
    ensures r.None? <==> forall k :: 0 <= k < |messages| ==> MessageSender(messages[k]).None?
    ensures r.Some? ==> exists k :: (0 <= k < |messages| && r == MessageSender(messages[k])
      && forall j :: 0 <= j < k ==> MessageSender(messages[j]).None?)
  {
    var tail := messages[1..];
    assert forall k :: 1 <= k < |messages| ==> messages[k] == tail[k - 1];
    if r.Some? {
      var k' :| 0 <= k' < |tail| && r == MessageSender(tail[k'])
        && forall j :: 0 <= j < k' ==> MessageSender(tail[j]).None?;
      assert messages[k' + 1] == tail[k'];
    }
  }

  function Messages(tx: Json): Json {
    Get(Get(tx, "body"), "messages")
  }

  /** `extractSenderFromMessages`. */
  function ExtractSenderFromMessages(tx: Json): (r: Option<Json>)
    ensures !Messages(tx).Arr? ==> r.None?
    ensures Messages(tx).Arr? ==> r == FirstMessageSender(Messages(tx).items)
  {
    var messages := Messages(tx);
    if !messages.Arr? || |messages.items| == 0 then None
    else FirstMessageSender(messages.items)
  }

  /** `extractSender(tx) ?? extractSenderFromMessages(tx)`. */
  function Sender(tx: Json): (r: Option<Json>)
    ensures ExtractSender(tx).Some? ==> r == ExtractSender(tx)
    ensures ExtractSender(tx).None? ==> r == ExtractSenderFromMessages(tx)
  {
    match ExtractSender(tx)
    case Some(s) => Some(s)
    case None => ExtractSenderFromMessages(tx)
  }

  /** A signer public key, even an empty string, wins over every message field. */
  lemma SignerKeyBeatsMessages(tx: Json, tx': Json)
    requires SignerInfos(tx) == SignerInfos(tx')
    requires FirstPublicKey(tx).Str? || Truthy(Get(FirstPublicKey(tx), "key"))
      || Truthy(Get(FirstPublicKey(tx), "address"))
    ensures Sender(tx) == Sender(tx') == ExtractSender(tx)
  {
  }

  /** Only the first signer info counts: later entries never supply a sender. */
  lemma OnlyFirstSignerInfo(tx: Json, first: Json, rest: seq<Json>)
    requires SignerInfos(tx) == Arr([first] + rest)
    ensures ExtractSender(tx) == ExtractSender(Obj(map["auth_info" := Obj(map["signer_infos" := Arr([first])])]))
  {
  }

  // ---------------------------------------------------------------------------------
  // Transactions

  /** `fetchTendermintTx`: a truthy `result` gives a record with no fee and no sender;
      a transport failure or a missing result is a miss. */
  function FetchTendermintTx(hash: string, reply: Reply): (r: Option<CosmosTransaction>)
    ensures r.Some? <==> reply.Answered? && Truthy(Get(reply.data, "result"))
    ensures r.Some? ==> r.value.fee.None? && r.value.sender.None?
    ensures r.Some? ==>
      var result := Get(reply.data, "result");
      var stamp := Get(Get(result, "tx_result"), "timestamp");
      && (Get(result, "hash").Str? ==> r.value.hash == Get(result, "hash").s)
      && (IsNullish(Get(result, "hash")) ==> r.value.hash == hash)
      && (!IsNullish(Get(result, "height")) ==> r.value.height == ToNumber(Get(result, "height")))
      && (IsNullish(Get(result, "height")) ==> r.value.height == Int(0))
      && (stamp.Str? ==> r.value.time == stamp.s)
      && (IsNullish(stamp) && Get(result, "timestamp").Str? ==> r.value.time == Get(result, "timestamp").s)
      && (IsNullish(stamp) && IsNullish(Get(result, "timestamp")) ==> r.value.time == "")
    ensures r.Some? ==>
      var txResult := Get(Get(reply.data, "result"), "tx_result");
      && (Get(txResult, "gas_used").Str? ==> r.value.gasUsed == Get(txResult, "gas_used").s)
      && (IsNullish(Get(txResult, "gas_used")) ==> r.value.gasUsed == "")
      && (Get(txResult, "gas_wanted").Str? ==> r.value.gasWanted == Get(txResult, "gas_wanted").s)
      && (IsNullish(Get(txResult, "gas_wanted")) ==> r.value.gasWanted == "")
  {
    match reply
    case Answered(data) =>
      var result := Get(data, "result");
      if !Truthy(result) then None
      else
        var txResult := Get(result, "tx_result");
        Some(CosmosTransaction(
          ToString(Coalesce(Get(result, "hash"), Str(hash))),
          ToNumber(Coalesce(Get(result, "height"), Num(0))),
          ToString(Coalesce(Coalesce(Get(txResult, "timestamp"), Get(result, "timestamp")), Str(""))),
          ToString(Coalesce(Get(txResult, "gas_used"), Str(""))),
          ToString(Coalesce(Get(txResult, "gas_wanted"), Str(""))),
          None,
          None))
    case _ => None
  }

  /** `fetchRestTx`: a truthy `tx_response` gives a record whose fee and sender are
      extracted from its `tx`; a transport failure or a missing response is a miss. */
  function FetchRestTx(hash: string, reply: Reply): (r: Option<CosmosTransaction>)
    ensures r.Some? <==> reply.Answered? && Truthy(Get(reply.data, "tx_response"))
    ensures r.Some? ==>
      var response := Get(reply.data, "tx_response");
      && r.value.fee == ExtractFee(Get(response, "tx"))
      && r.value.sender == Sender(Get(response, "tx"))
      && (Get(response, "txhash").Str? ==> r.value.hash == Get(response, "txhash").s)
      && (IsNullish(Get(response, "txhash")) ==> r.value.hash == hash)
      && (!IsNullish(Get(response, "height")) ==> r.value.height == ToNumber(Get(response, "height")))
      && (IsNullish(Get(response, "height")) ==> r.value.height == Int(0))
    ensures r.Some? ==>
      var response := Get(reply.data, "tx_response");
      && (Get(response, "timestamp").Str? ==> r.value.time == Get(response, "timestamp").s)
      && (IsNullish(Get(response, "timestamp")) ==> r.value.time == "")
      && (Get(response, "gas_used").Str? ==> r.value.gasUsed == Get(response, "gas_used").s)
      && (IsNullish(Get(response, "gas_used")) ==> r.value.gasUsed == "")
      && (Get(response, "gas_wanted").Str? ==> r.value.gasWanted == Get(response, "gas_wanted").s)
      && (IsNullish(Get(response, "gas_wanted")) ==> r.value.gasWanted == "")
  {
    match reply
    case Answered(data) =>
      var response := Get(data, "tx_response");
      if !Truthy(response) then None
      else
        var tx := Get(response, "tx");
        Some(CosmosTransaction(
          ToString(Coalesce(Get(response, "txhash"), Str(hash))),
          ToNumber(Coalesce(Get(response, "height"), Num(0))),
          ToString(Coalesce(Get(response, "timestamp"), Str(""))),
          ToString(Coalesce(Get(response, "gas_used"), Str(""))),
          ToString(Coalesce(Get(response, "gas_wanted"), Str(""))),
          ExtractFee(tx),
          Sender(tx)))
    case _ => None
  }

  function TendermintAttempt(hash: string, send: HttpGet -> Reply): Option<CosmosTransaction> {
    var normalized := Hash.Normalize(hash);
    FetchTendermintTx(normalized, send(TendermintTxQuery(normalized)))
  }

  function RestAttempt(hash: string, send: HttpGet -> Reply): Option<CosmosTransaction> {
    var normalized := Hash.Normalize(hash);
    FetchRestTx(normalized, send(RestTxQuery(normalized)))
  }

  /** `getTransactionByHash`: Tendermint first; REST only on a Tendermint miss; NotFound
      only when both miss. Never Unavailable. */
  function GetTransactionByHash(hash: string, send: HttpGet -> Reply): (r: Outcome<CosmosTransaction>)
    ensures r.Ok? || r == NotFound
    ensures TendermintAttempt(hash, send).Some? ==> r == Ok(TendermintAttempt(hash, send).value)
    ensures TendermintAttempt(hash, send).None? && RestAttempt(hash, send).Some? ==>
      r == Ok(RestAttempt(hash, send).value)
    ensures r == NotFound <==> TendermintAttempt(hash, send).None? && RestAttempt(hash, send).None?
  {
    match TendermintAttempt(hash, send)
    case Some(tx) => Ok(tx)
    case None =>
      match RestAttempt(hash, send)
      case Some(tx) => Ok(tx)
      case None => NotFound
  }

  /** On a Tendermint hit the REST endpoint is not consulted: whatever it would answer,
      the outcome is the same. */
  lemma RestIgnoredOnTendermintHit(hash: string, send: HttpGet -> Reply, send': HttpGet -> Reply)
    requires send(TendermintTxQuery(Hash.Normalize(hash))) == send'(TendermintTxQuery(Hash.Normalize(hash)))
    requires TendermintAttempt(hash, send).Some?
    ensures GetTransactionByHash(hash, send) == GetTransactionByHash(hash, send')
  {
  }

  /** A failing Tendermint RPC does not stop the REST attempt: the outcome is then decided
      by REST alone, with the REST record's fee and sender. */
  lemma TendermintFailureFallsBack(hash: string, send: HttpGet -> Reply)
    requires !send(TendermintTxQuery(Hash.Normalize(hash))).Answered?
    requires send(RestTxQuery(Hash.Normalize(hash))).Answered?
    requires Truthy(Get(send(RestTxQuery(Hash.Normalize(hash))).data, "tx_response"))
    ensures GetTransactionByHash(hash, send).Ok?
    ensures var tx := Get(Get(send(RestTxQuery(Hash.Normalize(hash))).data, "tx_response"), "tx");
      GetTransactionByHash(hash, send).value.fee == ExtractFee(tx)
      && GetTransactionByHash(hash, send).value.sender == Sender(tx)
  {
  }

  /** The REST endpoint is addressed by the caller's hash without its `0x`, or as given
      when it had none. */
  lemma RestPathUsesBareHash(hash: string)
    ensures RestTxQuery(Hash.Normalize(hash)).path ==
      RestTxPath + (if StartsWith(hash, "0x") then hash[2..] else hash)
  {
    Hash.StripAfterNormalize(hash);
  }
}
