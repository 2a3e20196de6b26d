/** How an eth_call and its block number go onto the wire. */
module EthEncoding {
  import opened Wrappers
  import opened Hex

  // go-ethereum's rpc.FinalizedBlockNumber and rpc.SafeBlockNumber
  const FINALIZED_BLOCK_NUMBER := -3
  const SAFE_BLOCK_NUMBER := -4

  /** None is the nil *big.Int. */
  type BlockNumber = Option<int>

  function ToBlockNumArg(number: BlockNumber): string {
    if number.None? then "latest"
    else if number.value == -1 then "pending"
    else if number.value == FINALIZED_BLOCK_NUMBER then "finalized"
    else if number.value == SAFE_BLOCK_NUMBER then "safe"
    else EncodeBig(number.value)
  }

  /** The node's reading of the argument; None for text that is no block argument. */
  function ParseBlockNumArg(s: string): Option<BlockNumber> {
    if s == "latest" then Some(None)
    else if s == "pending" then Some(Some(-1))
    else if s == "finalized" then Some(Some(FINALIZED_BLOCK_NUMBER))
    else if s == "safe" then Some(Some(SAFE_BLOCK_NUMBER))
    else
      var n := DecodeBig(s);
      if n.None? then None else Some(n)
  }

  /** Nothing is lost: every block number, of any size and sign, is read back. */
  lemma BlockNumArgRoundTrip(number: BlockNumber)
    ensures ParseBlockNumArg(ToBlockNumArg(number)) == Some(number)
  {
    if number.Some? {
      BigRoundTrip(number.value);
      assert EncodeBig(number.value)[0] in "-0";
    }
  }

  lemma BlockNumArgIsInjective(a: BlockNumber, b: BlockNumber)
    ensures ToBlockNumArg(a) == ToBlockNumArg(b) <==> a == b
  {
    BlockNumArgRoundTrip(a);
    BlockNumArgRoundTrip(b);
  }

  /** A Quantity of EIP-1474: the prefix, then hex digits with no leading zero except in "0x0". */
  ghost predicate IsQuantity(s: string) {
    && "0x" <= s && |s| > 2
    && (forall i :: 2 <= i < |s| ==> Value(s[i]).Some?)
    && (s[2] == '0' ==> s == "0x0")
  }

  /** Exactly the block heights are sent as quantities; tags and other negative numbers never are. */
  lemma QuantityIffHeight(number: BlockNumber)
    ensures IsQuantity(ToBlockNumArg(number)) <==> number.Some? && number.value >= 0
  {
    if number.Some? && number.value >= 0 {
      NatIsCanonical(number.value);
      var s, digits := EncodeBig(number.value), EncodeNat(number.value);
      assert s == "0x" + digits;
      assert forall i :: 2 <= i < |s| ==> s[i] == digits[i - 2];
    } else if number.Some? {
      assert ToBlockNumArg(number)[0] != '0';
    } else {
      assert ToBlockNumArg(number)[0] == 'l';
    }
  }

  /** Four tags; any other number is its sign, the prefix and its magnitude in base sixteen. */
  lemma BlockNumArgSpelled(number: BlockNumber)
    ensures ToBlockNumArg(None) == "latest" && ToBlockNumArg(Some(-1)) == "pending"
    ensures ToBlockNumArg(Some(-3)) == "finalized" && ToBlockNumArg(Some(-4)) == "safe"
    ensures number.Some? && number.value !in {-1, -3, -4} ==> IsBig(ToBlockNumArg(number), number.value)
  {
    if number.Some? { BigIsSpelled(number.value); }
  }

  /** hexutil's text of a big integer. */
  ghost predicate IsBig(s: string, i: int) {
    if i < 0 then "-0x" <= s && IsBase16(s[3..], -i) else "0x" <= s && IsBase16(s[2..], i)
  }

  lemma BigIsSpelled(i: int)
    ensures IsBig(EncodeBig(i), i)
  {
    var magnitude: nat := if i < 0 then -i else i;
    NatIsBase16(magnitude);
    assert ("-0x" + EncodeNat(magnitude))[3..] == EncodeNat(magnitude);
    assert ("0x" + EncodeNat(magnitude))[2..] == EncodeNat(magnitude);
  }

  // --------------------------------------------------------------- call argument

  type Address = a: seq<Byte> | |a| == 20 witness seq(20, _ => 0)
  type U64 = x: int | 0 <= x < 0x1_0000_0000_0000_0000

  /** The fields of ethereum.CallMsg that toCallArg sends. A nil pointer is None. */
  datatype CallMsg = CallMsg(
    from: Address,
    to: Option<Address>,
    data: seq<Byte>,
    value: Option<int>,
    gas: U64,
    gasPrice: Option<int>)

  datatype Json = Null | Text(text: string)
  type CallArg = map<string, Json>

  function BytesJson(bytes: seq<Byte>): Json { Text("0x" + EncodeBytes(bytes)) }

  /** The map toCallArg builds, with its values as they are marshalled. */
  function ToCallArg(msg: CallMsg): CallArg {
    var to := if msg.to.Some? then BytesJson(msg.to.value) else Null;
    var arg0: CallArg := map["from" := BytesJson(msg.from), "to" := to];
    var arg1 := if |msg.data| > 0 then arg0["data" := BytesJson(msg.data)] else arg0;
    var arg2 := if msg.value.Some? then arg1["value" := Text(EncodeBig(msg.value.value))] else arg1;
    var arg3 := if msg.gas != 0 then arg2["gas" := Text(EncodeBig(msg.gas))] else arg2;
    if msg.gasPrice.Some? then arg3["gasPrice" := Text(EncodeBig(msg.gasPrice.value))] else arg3
  }

  function ParseBytes(j: Json): Option<seq<Byte>> {
    if j.Text? && "0x" <= j.text then DecodeBytes(j.text[2..]) else None
  }

  function ParseBig(arg: CallArg, key: string): Option<int> {
    if key in arg && arg[key].Text? then DecodeBig(arg[key].text) else None
  }

  /** The node's reading, where a missing field has its default. */
  function ParseCallArg(arg: CallArg): Option<CallMsg> {
    if "from" !in arg || "to" !in arg then None
    else
      var from, gas := ParseBytes(arg["from"]), ParseBig(arg, "gas");
      var to := ParseBytes(arg["to"]);
      var data := if "data" in arg then ParseBytes(arg["data"]) else Some([]);
      if from.None? || |from.value| != 20 || (to.Some? && |to.value| != 20) || data.None?
         || (gas.Some? && !(0 <= gas.value < 0x1_0000_0000_0000_0000))
      then None
      else
        Some(CallMsg(from.value, if to.Some? then Some(to.value) else None, data.value,
                     ParseBig(arg, "value"), if gas.Some? then gas.value else 0, ParseBig(arg, "gasPrice")))
  }

  lemma BytesJsonRoundTrip(bytes: seq<Byte>)
    ensures ParseBytes(BytesJson(bytes)) == Some(bytes)
  {
    BytesRoundTrip(bytes);
    assert ("0x" + EncodeBytes(bytes))[2..] == EncodeBytes(bytes);
  }

  /** No field is lost, changed or confused with another: omitted always means the default. */
  lemma CallArgRoundTrip(msg: CallMsg)
    ensures ParseCallArg(ToCallArg(msg)) == Some(msg)
  {
    BytesJsonRoundTrip(msg.from);
    if msg.to.Some? { BytesJsonRoundTrip(msg.to.value); }
    BytesJsonRoundTrip(msg.data);
    if msg.value.Some? { BigRoundTrip(msg.value.value); }
    BigRoundTrip(msg.gas);
    if msg.gasPrice.Some? { BigRoundTrip(msg.gasPrice.value); }
    CallArgEntries(msg);
  }

  /** Which fields are sent, and as what; there are no others. */
  lemma CallArgEntries(msg: CallMsg)
    ensures var arg := ToCallArg(msg);
            && arg.Keys <= {"from", "to", "data", "value", "gas", "gasPrice"}
            && "from" in arg && arg["from"] == Text("0x" + EncodeBytes(msg.from))
            && "to" in arg && arg["to"] == (if msg.to.Some? then Text("0x" + EncodeBytes(msg.to.value)) else Null)
            && (if msg.data == [] then "data" !in arg
                else "data" in arg && arg["data"] == Text("0x" + EncodeBytes(msg.data)))
            && SentBig(arg, "value", msg.value)
            && SentBig(arg, "gas", if msg.gas == 0 then None else Some(msg.gas))
            && SentBig(arg, "gasPrice", msg.gasPrice)
  {
    FieldNamesDiffer();
    if msg.value.Some? { BigIsSpelled(msg.value.value); }
    BigIsSpelled(msg.gas);
    if msg.gasPrice.Some? { BigIsSpelled(msg.gasPrice.value); }
  }

  ghost predicate SentBig(arg: CallArg, key: string, i: Option<int>) {
    if i.None? then key !in arg else key in arg && arg[key].Text? && IsBig(arg[key].text, i.value)
  }

  lemma FieldNamesDiffer()
    ensures "from" != "to" && "from" != "data" && "from" != "value" && "from" != "gas" && "from" != "gasPrice"
    ensures "to" != "data" && "to" != "value" && "to" != "gas" && "to" != "gasPrice"
    ensures "data" != "value" && "data" != "gas" && "data" != "gasPrice"
    ensures "value" != "gas" && "value" != "gasPrice" && "gas" != "gasPrice"
  {
    assert "from"[0] == 'f' && "to"[0] == 't' && "data"[0] == 'd' && "value"[0] == 'v';
    assert "gas"[0] == "gasPrice"[0] == 'g';
  }

  /** So two calls that differ in any sent field, or in their block, are two requests. */
  lemma RequestsAreInjective(a: CallMsg, b: CallMsg, atA: BlockNumber, atB: BlockNumber)
    ensures ToCallArg(a) == ToCallArg(b) && ToBlockNumArg(atA) == ToBlockNumArg(atB) <==> a == b && atA == atB
  {
    CallArgRoundTrip(a);
    CallArgRoundTrip(b);
    BlockNumArgIsInjective(atA, atB);
  }
}
