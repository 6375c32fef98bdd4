/**
 The JSON-RPC transaction helpers: decoding a JSON request into a
 transaction skeleton (`toTransactionSkeleton`) and rendering a transaction
 as JSON (`toJson`). JSON values follow JsonCpp's rules for `empty()`,
 `isString()` and `asString()`. The hex and number conversions (`jsTo*`) and
 the renderers (`toJS`) are foreign code and enter as function parameters.
 */
module JsonHelper {
  import opened Base

  type Address = nat
  type U256 = nat
  type Bytes = seq<bv8>

  /** The all-ones 256-bit value marking an unset skeleton field. */
  const Invalid256: U256 := 0xffff_ffff_ffff_ffff_ffff_ffff_ffff_ffff_ffff_ffff_ffff_ffff_ffff_ffff_ffff_ffff

  /** A JSON value; a number carries the text JsonCpp's `asString` renders for it. */
  datatype Json =
    | Null
    | Bool(b: bool)
    | Number(text: string)
    | Str(s: string)
    | Array(items: seq<Json>)
    | Object(members: map<string, Json>)

  /** JsonCpp's `empty()`: null, an empty array, or an empty object. An empty string is not empty. */
  predicate IsEmpty(v: Json)
  {
    v.Null? || (v.Array? && |v.items| == 0) || (v.Object? && |v.members| == 0)
  }

  /** Looking up a key of an object yields null when the key is absent. */
  function Member(v: Json, key: string): Json
  {
    if v.Object? && key in v.members then v.members[key] else Null
  }

  /** Why decoding stopped with an exception, and at which key. */
  datatype Failure = NotAString(key: string) | Unconvertible(key: string)

  datatype Result<T> = Ok(value: T) | Throws(failure: Failure) {
    predicate IsFailure() { Throws? }

    function PropagateFailure<U>(): Result<U>
      requires Throws?
    {
      Throws(failure)
    }

    function Extract(): T
      requires Ok?
    {
      value
    }
  }

  /** JsonCpp's `asString()`: null reads as "", scalars as their text; arrays and objects throw. */
  function AsString(v: Json, key: string): (r: Result<string>)
    ensures r.Throws? <==> v.Array? || v.Object?
    ensures v.Str? ==> r == Ok(v.s)
    ensures v.Null? ==> r == Ok("")
  {
    match v
    case Null => Ok("")
    case Bool(b) => Ok(if b then "true" else "false")
    case Number(t) => Ok(t)
    case Str(s) => Ok(s)
    case Array(_) => Throws(NotAString(key))
    case Object(_) => Throws(NotAString(key))
  }

  /** The foreign conversions `jsToAddress`, `jsToU256` and `jsToBytes`; `None` means they throw. */
  datatype Converters = Converters(
    toAddress: string -> Option<Address>,
    toU256: string -> Option<U256>,
    toBytes: string -> Option<Bytes>)

  datatype Skeleton = Skeleton(
    creation: bool,
    from: Address,
    to: Address,
    value: U256,
    data: Bytes,
    nonce: U256,
    gas: U256,
    gasPrice: U256,
    blockLimit: U256)

  /** A default-constructed skeleton: not a creation, zero addresses and value, no data, the rest unset. */
  const DefaultSkeleton := Skeleton(false, 0, 0, 0, [], Invalid256, Invalid256, Invalid256, Invalid256)

  /** The member at `key` is present, reads as a string, and `convert` accepts that string. */
  predicate Converts<T>(json: Json, key: string, convert: string -> Option<T>)
  {
    var v := Member(json, key);
    !IsEmpty(v) && AsString(v, key).Ok? && convert(AsString(v, key).value).Some?
  }

  /** The member at `key` is present but reading or converting it throws. */
  predicate Breaks<T>(json: Json, key: string, convert: string -> Option<T>)
  {
    !IsEmpty(Member(json, key)) && !Converts(json, key, convert)
  }

  /** A decoded field obeys the rule for `key`: the default when the member is empty, the converted member otherwise. */
  predicate DecodedAs<T(==)>(json: Json, key: string, convert: string -> Option<T>, field: T, default: T)
  {
    if IsEmpty(Member(json, key)) then field == default
    else Converts(json, key, convert) && convert(AsString(Member(json, key), key).value) == Some(field)
  }

  /** The text of "to", when it is present and reads as a string. */
  function RecipientText(json: Json): Option<string>
  {
    var v := Member(json, "to");
    if IsEmpty(v) then None
    else match AsString(v, "to")
      case Ok(s) => Some(s)
      case Throws(_) => None
  }

  /** "to" is missing, empty, "" or "0x": the request asks for a contract creation. */
  predicate CreationRequested(json: Json)
  {
    var v := Member(json, "to");
    IsEmpty(v) || AsString(v, "to") == Ok("") || AsString(v, "to") == Ok("0x")
  }

  /** Reading "to" throws, or its text names no address. */
  predicate RecipientBreaks(json: Json, conv: Converters)
  {
    var v := Member(json, "to");
    !IsEmpty(v) && (AsString(v, "to").Throws? ||
      (!CreationRequested(json) && conv.toAddress(AsString(v, "to").value).None?))
  }

  /** Reading an optional field: `None` when the member is empty, the converted member otherwise. */
  function Optional<T>(json: Json, key: string, convert: string -> Option<T>): (r: Result<Option<T>>)
    ensures r.Throws? <==> Breaks(json, key, convert)
    ensures r.Ok? ==> (r.value.None? <==> IsEmpty(Member(json, key)))
    ensures r.Ok? && r.value.Some? ==>
      Converts(json, key, convert) && convert(AsString(Member(json, key), key).value) == r.value
  {
    var v := Member(json, key);
    if IsEmpty(v) then Ok(None)
    else
      var s :- AsString(v, key);
      match convert(s)
      case None => Throws(Unconvertible(key))
      case Some(x) => Ok(Some(x))
  }

  /** Reading "to": `None` asks for a creation, `Some(a)` names the recipient. */
  function Recipient(json: Json, conv: Converters): (r: Result<Option<Address>>)
    ensures r.Throws? <==> RecipientBreaks(json, conv)
    ensures r.Ok? ==> (r.value.None? <==> CreationRequested(json))
    ensures r.Ok? && r.value.Some? ==>
      RecipientText(json).Some? && conv.toAddress(RecipientText(json).value) == Some(r.value.value)
  {
    var v := Member(json, "to");
    if IsEmpty(v) then Ok(None)
    else
      var s :- AsString(v, "to");
      if s == "" || s == "0x" then Ok(None)
      else
        match conv.toAddress(s)
        case None => Throws(Unconvertible("to"))
        case Some(a) => Ok(Some(a))
  }

  /** Reading "data", which counts only when it is a string. */
  function DataField(json: Json, conv: Converters): (r: Result<Option<Bytes>>)
    ensures r.Throws? <==> Member(json, "data").Str? && Breaks(json, "data", conv.toBytes)
    ensures r.Ok? && !Member(json, "data").Str? ==> r.value == None
    ensures r.Ok? && Member(json, "data").Str? ==> conv.toBytes(Member(json, "data").s) == r.value
  {
    if Member(json, "data").Str? then Optional<Bytes>(json, "data", conv.toBytes) else Ok(None)
  }

  /** Some field that is read throws while decoding a non-empty object. */
  predicate DecodingBreaks(json: Json, conv: Converters)
  {
    || Breaks(json, "from", conv.toAddress)
    || RecipientBreaks(json, conv)
    || Breaks(json, "value", conv.toU256)
    || Breaks(json, "gas", conv.toU256)
    || Breaks(json, "gasPrice", conv.toU256)
    || (Member(json, "data").Str? && Breaks(json, "data", conv.toBytes))
    || Breaks(json, "code", conv.toBytes)
    || Breaks(json, "randomid", conv.toU256)
    || Breaks(json, "blockLimit", conv.toU256)
  }

  /**
   Decodes a JSON transaction request. A value that is not an object, or is
   empty, gives the default skeleton. Otherwise each known key is read in
   turn; `creation` is set when "to" is missing, "" or "0x"; "data" counts
   only as a string and a present "code" overrides it; "randomid" gives the
   nonce. Any read or conversion that throws aborts the decoding.
   */
  function ToTransactionSkeleton(json: Json, conv: Converters): (r: Result<Skeleton>)
    ensures !json.Object? || IsEmpty(json) ==> r == Ok(DefaultSkeleton)
    ensures json.Object? && !IsEmpty(json) ==> (r.Throws? <==> DecodingBreaks(json, conv))
    ensures r.Ok? && json.Object? && !IsEmpty(json) ==> (r.value.creation <==> CreationRequested(json))
    ensures r.Ok? && json.Object? && !IsEmpty(json) && !r.value.creation ==>
      RecipientText(json).Some? && conv.toAddress(RecipientText(json).value) == Some(r.value.to)
    ensures r.Ok? && r.value.creation ==> r.value.to == DefaultSkeleton.to
    ensures r.Ok? ==> DecodedAs(json, "from", conv.toAddress, r.value.from, DefaultSkeleton.from)
    ensures r.Ok? ==> DecodedAs(json, "value", conv.toU256, r.value.value, DefaultSkeleton.value)
    ensures r.Ok? ==> DecodedAs(json, "gas", conv.toU256, r.value.gas, DefaultSkeleton.gas)
    ensures r.Ok? ==> DecodedAs(json, "gasPrice", conv.toU256, r.value.gasPrice, DefaultSkeleton.gasPrice)
    ensures r.Ok? ==> DecodedAs(json, "randomid", conv.toU256, r.value.nonce, DefaultSkeleton.nonce)
    ensures r.Ok? ==> DecodedAs(json, "blockLimit", conv.toU256, r.value.blockLimit, DefaultSkeleton.blockLimit)
    ensures r.Ok? && !IsEmpty(Member(json, "code")) ==>
      && Converts(json, "code", conv.toBytes)
      && conv.toBytes(AsString(Member(json, "code"), "code").value) == Some(r.value.data)
    ensures r.Ok? && IsEmpty(Member(json, "code")) && Member(json, "data").Str? ==>
      conv.toBytes(Member(json, "data").s) == Some(r.value.data)
    ensures r.Ok? && IsEmpty(Member(json, "code")) && !Member(json, "data").Str? ==>
      r.value.data == DefaultSkeleton.data
  {
    if !json.Object? || IsEmpty(json) then
      Ok(DefaultSkeleton)
    else
      var f :- ReadFields(json, conv);
      Ok(Assemble(f))
  }

  /** Fills the fields read into a default skeleton; a present "code" wins over "data". */
  function Assemble(f: Fields): Skeleton
  {
    var d := DefaultSkeleton;
    Skeleton(
      creation := f.to.None?,
      from := if f.from.Some? then f.from.value else d.from,
      to := if f.to.Some? then f.to.value else d.to,
      value := if f.value.Some? then f.value.value else d.value,
      data := if f.code.Some? then f.code.value else if f.data.Some? then f.data.value else d.data,
      nonce := if f.nonce.Some? then f.nonce.value else d.nonce,
      gas := if f.gas.Some? then f.gas.value else d.gas,
      gasPrice := if f.gasPrice.Some? then f.gasPrice.value else d.gasPrice,
      blockLimit := if f.blockLimit.Some? then f.blockLimit.value else d.blockLimit)
  }

  /** The fields of a request as read, before defaults are filled in. */
  datatype Fields = Fields(
    from: Option<Address>,
    to: Option<Address>,
    value: Option<U256>,
    gas: Option<U256>,
    gasPrice: Option<U256>,
    data: Option<Bytes>,
    code: Option<Bytes>,
    nonce: Option<U256>,
    blockLimit: Option<U256>)

  /** Reads the known keys in the order the decoder does; the first read that throws ends it. */
  function ReadFields(json: Json, conv: Converters): (r: Result<Fields>)
    ensures r.Throws? <==> DecodingBreaks(json, conv)
    ensures r.Ok? ==>
      && Optional<Address>(json, "from", conv.toAddress) == Ok(r.value.from)
      && Recipient(json, conv) == Ok(r.value.to)
      && Optional<U256>(json, "value", conv.toU256) == Ok(r.value.value)
      && Optional<U256>(json, "gas", conv.toU256) == Ok(r.value.gas)
      && Optional<U256>(json, "gasPrice", conv.toU256) == Ok(r.value.gasPrice)
      && DataField(json, conv) == Ok(r.value.data)
      && Optional<Bytes>(json, "code", conv.toBytes) == Ok(r.value.code)
      && Optional<U256>(json, "randomid", conv.toU256) == Ok(r.value.nonce)
      && Optional<U256>(json, "blockLimit", conv.toU256) == Ok(r.value.blockLimit)
  {
    var from :- Optional<Address>(json, "from", conv.toAddress);
    var to :- Recipient(json, conv);
    var value :- Optional<U256>(json, "value", conv.toU256);
    var gas :- Optional<U256>(json, "gas", conv.toU256);
    var gasPrice :- Optional<U256>(json, "gasPrice", conv.toU256);
    var data :- DataField(json, conv);
    var code :- Optional<Bytes>(json, "code", conv.toBytes);
    var nonce :- Optional<U256>(json, "randomid", conv.toU256);
    var blockLimit :- Optional<U256>(json, "blockLimit", conv.toU256);
    Ok(Fields(from, to, value, gas, gasPrice, data, code, nonce, blockLimit))
  }

  /** A transaction as the ledger holds it; its hash and recovered sender come from foreign code. */
  datatype Transaction =
    | NullTransaction
    | Transaction(creation: bool, receiveAddress: Address, data: Bytes, gas: U256, gasPrice: U256,
                  nonce: U256, value: U256, hash: U256, sender: Address)

  /** The foreign `toJS` renderers, per kind of value. */
  datatype Renderers = Renderers(
    hash: nat -> string,
    address: Address -> string,
    bytes: Bytes -> string,
    quantity: int -> string)

  /** The keys of a rendered transaction. */
  const TransactionKeys: set<string> :=
    {"hash", "input", "to", "from", "gas", "gasPrice", "nonce", "value", "blockHash", "transactionIndex", "blockNumber"}

  /**
   Renders a transaction with its location in a block. A null transaction
   gives a null value; otherwise an object with the eleven transaction keys,
   where "to" is null exactly for a contract creation.
   */
  function ToJson(t: Transaction, blockHash: nat, index: nat, blockNumber: int, js: Renderers): (r: Json)
    ensures t.NullTransaction? <==> r == Null
    ensures t.Transaction? ==> r.Object? && r.members.Keys == TransactionKeys
    ensures t.Transaction? ==> (Member(r, "to") == Null <==> t.creation)
    ensures t.Transaction? && !t.creation ==> Member(r, "to") == Str(js.address(t.receiveAddress))
  {
    if t.NullTransaction? then
      Null
    else
      Object(map[
        "hash" := Str(js.hash(t.hash)),
        "input" := Str(js.bytes(t.data)),
        "to" := (if t.creation then Null else Str(js.address(t.receiveAddress))),
        "from" := Str(js.address(t.sender)),
        "gas" := Str(js.quantity(t.gas)),
        "gasPrice" := Str(js.quantity(t.gasPrice)),
        "nonce" := Str(js.quantity(t.nonce)),
        "value" := Str(js.quantity(t.value)),
        "blockHash" := Str(js.hash(blockHash)),
        "transactionIndex" := Str(js.quantity(index)),
        "blockNumber" := Str(js.quantity(blockNumber))])
  }

  /** Each key of a rendered transaction holds its field, rendered by the matching renderer. */
  lemma ToJsonRenders(t: Transaction, blockHash: nat, index: nat, blockNumber: int, js: Renderers)
    requires t.Transaction?
    ensures
      var r := ToJson(t, blockHash, index, blockNumber, js);
      && Member(r, "hash") == Str(js.hash(t.hash))
      && Member(r, "input") == Str(js.bytes(t.data))
      && Member(r, "from") == Str(js.address(t.sender))
      && Member(r, "gas") == Str(js.quantity(t.gas))
      && Member(r, "gasPrice") == Str(js.quantity(t.gasPrice))
      && Member(r, "nonce") == Str(js.quantity(t.nonce))
      && Member(r, "value") == Str(js.quantity(t.value))
      && Member(r, "blockHash") == Str(js.hash(blockHash))
      && Member(r, "transactionIndex") == Str(js.quantity(index))
      && Member(r, "blockNumber") == Str(js.quantity(blockNumber))
  {
  }

  /**
   Decoding a rendered transaction, when the conversions invert the
   renderers: sender, recipient, creation flag, value, gas and gas price
   survive; the nonce and the data do not, because the rendering writes them
   under "nonce" and "input" while decoding reads "randomid" and "data".
   */
  lemma {:induction false} DecodeRendered(t: Transaction, blockHash: nat, index: nat, blockNumber: int,
                                          js: Renderers, conv: Converters)
    requires t.Transaction?
    requires forall a: Address :: conv.toAddress(js.address(a)) == Some(a)
    requires forall n: nat :: conv.toU256(js.quantity(n)) == Some(n)
    requires forall a: Address :: js.address(a) != "" && js.address(a) != "0x"
    ensures
      var r := ToTransactionSkeleton(ToJson(t, blockHash, index, blockNumber, js), conv);
      && r.Ok?
      && r.value.creation == t.creation
      && r.value.from == t.sender
      && (!t.creation ==> r.value.to == t.receiveAddress)
      && r.value.value == t.value && r.value.gas == t.gas && r.value.gasPrice == t.gasPrice
      && r.value.nonce == DefaultSkeleton.nonce
      && r.value.data == DefaultSkeleton.data
      && r.value.blockLimit == DefaultSkeleton.blockLimit
  {
    var json := ToJson(t, blockHash, index, blockNumber, js);
    assert "hash" in json.members;
    ToJsonRenders(t, blockHash, index, blockNumber, js);
    var f := Fields(Some(t.sender), if t.creation then None else Some(t.receiveAddress),
                    Some(t.value), Some(t.gas), Some(t.gasPrice), None, None, None, None);
    assert Optional<Address>(json, "from", conv.toAddress) == Ok(f.from) by {
      assert conv.toAddress(js.address(t.sender)) == Some(t.sender);
    }
    assert Recipient(json, conv) == Ok(f.to) by {
      assert conv.toAddress(js.address(t.receiveAddress)) == Some(t.receiveAddress);
    }
    RenderedQuantity(json, "value", t.value, js, conv);
    RenderedQuantity(json, "gas", t.gas, js, conv);
    RenderedQuantity(json, "gasPrice", t.gasPrice, js, conv);
    RenderedOmits(t, blockHash, index, blockNumber, js);
    assert ReadFields(json, conv) == Ok(f);
  }

  /** A rendered quantity reads back as itself when the conversion inverts the renderer. */
  lemma RenderedQuantity(json: Json, key: string, n: U256, js: Renderers, conv: Converters)
    requires forall m: nat :: conv.toU256(js.quantity(m)) == Some(m)
    requires Member(json, key) == Str(js.quantity(n))
    ensures Optional<U256>(json, key, conv.toU256) == Ok(Some(n))
  {
    assert conv.toU256(js.quantity(n)) == Some(n);
  }

  /** A rendered transaction has none of the keys "data", "code", "randomid" and "blockLimit". */
  lemma RenderedOmits(t: Transaction, blockHash: nat, index: nat, blockNumber: int, js: Renderers)
    requires t.Transaction?
    ensures
      var json := ToJson(t, blockHash, index, blockNumber, js);
      Member(json, "data") == Null && Member(json, "code") == Null
      && Member(json, "randomid") == Null && Member(json, "blockLimit") == Null
  {
    assert "data" !in TransactionKeys && "code" !in TransactionKeys;
    assert "randomid" !in TransactionKeys && "blockLimit" !in TransactionKeys;
  }
}
