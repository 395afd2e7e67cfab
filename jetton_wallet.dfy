/**
 * The `JettonWallet` wrapper: the init data from which a wallet's address is
 * predicted, and the TEP-74 `burn#595f07bc` body it sends, whose custom
 * payload is a dictionary naming the bridge destination and coin id.
 */
module JettonWallet {
  import opened Wrappers
  import opened Bits
  import opened Cells
  import opened Messages

  /** The compiled wallet contract (read from its build artefact); opaque here. */
  const WalletCode: Cell

  // ---------------------------------------------------------------------------
  // Address prediction

  /** A wallet's init data read back: balance, owner, master and the wallet's code. */
  datatype WalletData = WalletData(balance: nat, owner: Address, master: Address, code: Cell)

  /** The four fields in the order `calculateAddress` stores them. */
  function WalletDataCell(owner: Address, master: Address): (c: Cell)
    ensures Fits(c)
    ensures c == Cell(CoinsBits(0) + (AddressBits(Some(owner)) + AddressBits(Some(master))), [WalletCode])
  {
    var b1 := StoreCoins(EmptyCell, 0).value;
    assert b1.bits == CoinsBits(0);
    var b2 := StoreAddress(b1, Some(owner)).value;
    var b3 := StoreAddress(b2, Some(master)).value;
    AppendAssoc(CoinsBits(0), AddressBits(Some(owner)), AddressBits(Some(master)));
    StoreRef(b3, WalletCode).value
  }

  function ReadWalletData(c: Cell): Option<WalletData> {
    if !c.Cell? then None
    else
      var balance :- LoadCoins(Slice(c.bits, c.refs));
      var owner :- LoadAddress(balance.rest);
      var master :- LoadAddress(owner.rest);
      var code :- LoadRef(master.rest);
      if owner.value.None? || master.value.None? || !Ended(code.rest) then None
      else Some(WalletData(balance.value, owner.value.value, master.value.value, code.value))
  }

  /** The init data starts with a zero balance, which `storeCoins` writes as a zero byte length. */
  lemma ZeroBalanceBits()
    ensures CoinsBits(0) == [false, false, false, false]
  {
    BitZero(0);
    BitZero(1);
    BitZero(2);
    BitZero(3);
    assert UintBits(0, 4) == [false, false, false, false];
    assert UintBits(0, 0) == [];
  }

  /** The init data reads back as a zero balance, the owner, the master and the wallet code. */
  lemma WalletDataRoundTrip(owner: Address, master: Address)
    ensures ReadWalletData(WalletDataCell(owner, master)) == Some(WalletData(0, owner, master, WalletCode))
  {
    var c := WalletDataCell(owner, master);
    var refs := [WalletCode];
    var last := AddressBits(Some(master));
    var tail := AddressBits(Some(owner)) + last;
    LoadCoinsStored(0, tail, refs);
    assert LoadCoins(Slice(c.bits, c.refs)) == Some(Loaded(0, Slice(tail, refs)));
    LoadStdAddressStored(owner, last, refs);
    assert last == last + [];
    LoadStdAddressStored(master, [], refs);
    assert LoadAddress(Slice(last, refs)) == Some(Loaded(Some(master), Slice([], refs)));
  }

  /** Different owners or masters give different init data, so the prediction tells them apart up to the hash. */
  lemma WalletDataInjective(owner: Address, master: Address, owner': Address, master': Address)
    requires WalletDataCell(owner, master) == WalletDataCell(owner', master')
    ensures owner == owner' && master == master'
  {
    WalletDataRoundTrip(owner, master);
    WalletDataRoundTrip(owner', master');
  }

  /**
   * `calculateAddress` (wrappers/JettonWallet.ts:25-35): always in
   * workchain 0, from the wallet code and the init data of (owner, master).
   */
  function CalculateAddress(owner: Address, master: Address): (a: Address)
    ensures a.workchain == 0
    ensures a.hash == StateInitHash(StateInit(WalletCode, WalletDataCell(owner, master)))
  {
    ContractAddress(0, StateInit(WalletCode, WalletDataCell(owner, master)))
  }

  /** Two predictions agree whenever the init states they hash agree, and those agree only on equal inputs. */
  lemma CalculateAddressInputs(owner: Address, master: Address, owner': Address, master': Address)
    ensures StateInit(WalletCode, WalletDataCell(owner, master)) == StateInit(WalletCode, WalletDataCell(owner', master'))
        <==> owner == owner' && master == master'
  {
    if WalletDataCell(owner, master) == WalletDataCell(owner', master') {
      WalletDataInjective(owner, master, owner', master');
    }
  }

  // ---------------------------------------------------------------------------
  // Burn

  const OP_BURN: nat := 0x595f07bc
  /** toNano('0.5'). */
  const BURN_VALUE: nat := 500_000_000

  /** The keys of the burn payload dictionary (32-bit keys, cell values by reference). */
  const DESTINATION_KEY: nat := 0x4fe560c1
  const COIN_ID_KEY: nat := 0x53c2ce98
  const PAYLOAD_KEY_BITS: nat := 32

  /** The payload a burn carries: the destination on the other chain and the bridge's coin id. */
  function BurnPayloadDict(destAddr: nat, coinId: nat): map<nat, Cell> {
    map[DESTINATION_KEY := RefLeaf(Cell(UintBits(destAddr, 160), [])),
        COIN_ID_KEY := RefLeaf(Cell(UintBits(coinId, 32), []))]
  }

  /**
   * wrappers/JettonWallet.ts:47-49: an empty dictionary, then one `set` per
   * key; each value is a cell built with `storeUint`, which throws when the
   * value does not fit its width.
   */
  method BuildBurnPayload(destAddr: int, coinId: int) returns (r: Result<map<nat, Cell>, CellError>)
    ensures r.Success? <==> 0 <= destAddr < Pow2(160) && 0 <= coinId < Pow2(32)
    ensures r.Success? ==> r.value == BurnPayloadDict(destAddr, coinId)
  {
    var payload: map<nat, Cell> := map[];
    var destination := StoreUint(EmptyCell, destAddr, 160);
    if destination.Failure? {
      return Failure(destination.error);
    }
    payload := payload[DESTINATION_KEY := RefLeaf(destination.value)];
    var coin := StoreUint(EmptyCell, coinId, 32);
    if coin.Failure? {
      return Failure(coin.error);
    }
    payload := payload[COIN_ID_KEY := RefLeaf(coin.value)];
    assert destination.value == Cell(UintBits(destAddr, 160), []);
    assert coin.value == Cell(UintBits(coinId, 32), []);
    return Success(payload);
  }

  /** Reading the payload dictionary: exactly the two keys, each a reference to one field and nothing else. */
  function ReadBurnPayload(d: map<nat, Cell>): Option<(nat, nat)> {
    if d.Keys != {DESTINATION_KEY, COIN_ID_KEY} then None
    else
      var destination :- ReadRefField(d[DESTINATION_KEY], 160);
      var coinId :- ReadRefField(d[COIN_ID_KEY], 32);
      Some((destination, coinId))
  }

  /** A `Dictionary.Values.Cell()` leaf whose referenced cell holds one n-bit unsigned field. */
  function ReadRefField(leaf: Cell, n: nat): Option<nat> {
    if !leaf.Cell? then None
    else
    var target :- LoadRef(Slice(leaf.bits, leaf.refs));
    if !Ended(target.rest) || !target.value.Cell? then None
    else
      var field :- LoadUint(Slice(target.value.bits, target.value.refs), n);
      if !Ended(field.rest) then None else Some(field.value)
  }

  /** A leaf referencing a cell that holds only an n-bit field reads back as that field. */
  lemma RefFieldReads(v: nat, n: nat)
    requires v < Pow2(n)
    ensures ReadRefField(RefLeaf(Cell(UintBits(v, n), [])), n) == Some(v)
  {
    assert UintBits(v, n) == UintBits(v, n) + [];
    LoadUintStored(v, n, [], []);
  }

  /** The payload has exactly its two keys, and they read back as the destination and the coin id. */
  lemma BurnPayloadRoundTrip(destAddr: Uint160, coinId: Uint32)
    ensures BurnPayloadDict(destAddr, coinId).Keys == {DESTINATION_KEY, COIN_ID_KEY}
    ensures ReadBurnPayload(BurnPayloadDict(destAddr, coinId)) == Some((destAddr as nat, coinId as nat))
  {
    var d := BurnPayloadDict(destAddr, coinId);
    assert d.Keys == {DESTINATION_KEY, COIN_ID_KEY};
    RefFieldReads(destAddr, 160);
    RefFieldReads(coinId, 32);
    assert ReadRefField(d[DESTINATION_KEY], 160) == Some(destAddr as nat);
    assert ReadRefField(d[COIN_ID_KEY], 32) == Some(coinId as nat);
  }

  /** What `body` is at wrappers/JettonWallet.ts:51: the amount, `addr_none` as response destination, the payload. */
  function BurnContent(amount: int, payload: map<nat, Cell>): (r: Result<Cell, CellError>)
    ensures r.Success? <==> 0 <= amount < Pow2(120)
    ensures r.Success? ==> r.value == Cell(CoinsBits(amount) + (AddressBits(None) + DictBits(payload)), DictRefs(PAYLOAD_KEY_BITS, payload))
  {
    var b1 :- StoreCoins(EmptyCell, amount);
    assert b1.bits == CoinsBits(amount);
    var b2 := StoreAddress(b1, None).value;
    AppendAssoc(CoinsBits(amount), AddressBits(None), DictBits(payload));
    StoreDict(b2, PAYLOAD_KEY_BITS, payload)
  }

  /** A burn request as the master reads it: query id, amount, response destination, then the bridge payload. */
  datatype BurnRequest = BurnRequest(queryId: nat, amount: nat, responseDestination: Option<Address>, destination: nat, coinId: nat)

  function ReadBurnContent(queryId: nat, s: Slice): Option<BurnRequest> {
    var amount :- LoadCoins(s);
    var response :- LoadAddress(amount.rest);
    var payload :- LoadDict(response.rest, PAYLOAD_KEY_BITS);
    if !Ended(payload.rest) then None
    else
      var fields :- ReadBurnPayload(payload.value);
      Some(BurnRequest(queryId, amount.value, response.value, fields.0, fields.1))
  }

  function ParseBurnBody(body: Cell): Option<BurnRequest> {
    var h :- ReadHeader(body);
    if h.op != OP_BURN then None else ReadBurnContent(h.queryId, h.rest)
  }

  lemma BurnContentReads(amount: Coins, destAddr: Uint160, coinId: Uint32)
    ensures var d := BurnPayloadDict(destAddr, coinId);
      ReadBurnContent(QUERY_ID, Slice(CoinsBits(amount) + (AddressBits(None) + DictBits(d)), DictRefs(PAYLOAD_KEY_BITS, d)))
        == Some(BurnRequest(QUERY_ID, amount, None, destAddr, coinId))
  {
    var d := BurnPayloadDict(destAddr, coinId);
    var refs := DictRefs(PAYLOAD_KEY_BITS, d);
    LoadCoinsStored(amount, AddressBits(None) + DictBits(d), refs);
    LoadAddressStored(None, DictBits(d), refs);
    assert refs == refs + [];
    assert DictBits(d) == DictBits(d) + [];
    LoadDictStored(PAYLOAD_KEY_BITS, d, [], []);
    BurnPayloadRoundTrip(destAddr, coinId);
  }

  /** A burn body built around content that reads back as a request reads back as that request. */
  lemma BurnBodyReads(content: Cell, request: BurnRequest)
    requires content.Cell? && |content.refs| <= MaxRefs && |content.bits| + HEADER_BITS <= MaxBits
    requires ReadBurnContent(QUERY_ID, Slice(content.bits, content.refs)) == Some(request)
    ensures MessageBody(OP_BURN, content).Success?
    ensures ParseBurnBody(MessageBody(OP_BURN, content).value) == Some(request)
  {
    Pow2Uint32();
  }

  /** The whole burn body for amounts and payload fields that fit: one reference, and it reads back. */
  lemma BurnMessageReads(amount: Coins, destAddr: Uint160, coinId: Uint32)
    ensures var payload := BurnPayloadDict(destAddr, coinId);
      var content := BurnContent(amount, payload);
      && content.Success?
      && MessageBody(OP_BURN, content.value).Success?
      && MessageBody(OP_BURN, content.value).value.Cell?
      && MessageBody(OP_BURN, content.value).value.refs == [DictRoot(PAYLOAD_KEY_BITS, payload)]
      && ParseBurnBody(MessageBody(OP_BURN, content.value).value) == Some(BurnRequest(QUERY_ID, amount, None, destAddr, coinId))
  {
    var payload := BurnPayloadDict(destAddr, coinId);
    var content := BurnContent(amount, payload).value;
    assert payload != map[] by { assert DESTINATION_KEY in payload; }
    assert content.refs == [DictRoot(PAYLOAD_KEY_BITS, payload)];
    Pow2Uint32();
    BurnContentReads(amount, destAddr, coinId);
    BurnBodyReads(content, BurnRequest(QUERY_ID, amount, None, destAddr, coinId));
  }

  /**
   * `sendBurn` (wrappers/JettonWallet.ts:37-61): fails when the amount, the
   * destination or the coin id does not fit its field; otherwise the master
   * reads back the amount, no response destination, and the payload, and
   * the value attached defaults to 0.5 TON.
   */
  method SendBurn(value: Option<nat>, amount: int, coinId: int, destAddr: int) returns (r: Result<Message, CellError>)
    ensures r.Success? <==> 0 <= amount < Pow2(120) && 0 <= destAddr < Pow2(160) && 0 <= coinId < Pow2(32)
    ensures r.Success? ==> r.value.value == AttachedValue(value, BURN_VALUE)
    ensures r.Success? ==> r.value.body.Cell? && r.value.body.refs == [DictRoot(PAYLOAD_KEY_BITS, BurnPayloadDict(destAddr, coinId))]
    ensures r.Success? ==> ParseBurnBody(r.value.body) == Some(BurnRequest(QUERY_ID, amount, None, destAddr, coinId))
  {
    var payload :- BuildBurnPayload(destAddr, coinId);
    var content :- BurnContent(amount, payload);
    BurnMessageReads(amount, destAddr, coinId);
    var body := MessageBody(OP_BURN, content).value;
    return Success(Message(AttachedValue(value, BURN_VALUE), body));
  }
}
