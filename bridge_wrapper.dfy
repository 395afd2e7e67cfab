/**
 * The `Bridge` wrapper: the storage cell its constructor lays out as the
 * contract's init data, and the bodies of the four operations it sends
 * (lock, unlock, add-jetton, mint) with their default attached values.
 */
module BridgeWrapper {
  import opened Wrappers
  import opened Bits
  import opened Cells
  import opened Messages

  /** The compiled bridge contract (read from its build artefact); opaque here. */
  const BridgeCode: Cell

  datatype InitParams = InitParams(
    adminAddr: Address,
    oracleAddr: Address,
    feeAddr: Address,
    feeRate: int,
    jettonMinterCode: Cell,
    jettonWalletCode: Cell)

  const ORACLE_KEY_BITS: nat := 256
  const COIN_ID_BITS: nat := 32

  /** An oracle's value: `Dictionary.Values.Dictionary` holding an empty inner dictionary, a single 0 bit. */
  const EmptyInnerDict: Cell := Cell([false], [])

  /** The bridge's storage read as values: admin, oracle account hashes, coin id to minter, the two codes. */
  datatype Storage = Storage(
    admin: Address,
    oracles: set<Uint256>,
    jettons: map<Uint32, Address>,
    minterCode: Cell,
    walletCode: Cell)

  /** The oracle dictionary: each hash mapped to an empty inner dictionary. */
  function OraclesDict(oracles: set<Uint256>): map<nat, Cell> {
    map h: nat | h in oracles :: EmptyInnerDict
  }

  /** What `Dictionary.Values.Address()` writes for an address. */
  function AddressLeaf(a: Address): Cell {
    Cell(AddressBits(Some(a)), [])
  }

  function JettonsDict(jettons: map<Uint32, Address>): map<nat, Cell> {
    map c: nat | c in jettons :: AddressLeaf(jettons[c])
  }

  /** wrappers/Bridge.ts:45-51: admin address, oracle dict, jettons dict, minter code, wallet code. */
  function StorageData(admin: Address, oraclesDict: map<nat, Cell>, jettonsDict: map<nat, Cell>,
                       minterCode: Cell, walletCode: Cell): (c: Cell)
  {
    var b1 := StoreAddress(EmptyCell, Some(admin)).value;
    var b2 := StoreDict(b1, ORACLE_KEY_BITS, oraclesDict).value;
    var b3 := StoreDict(b2, COIN_ID_BITS, jettonsDict).value;
    var b4 := StoreRef(b3, minterCode).value;
    StoreRef(b4, walletCode).value
  }

  /** The storage cell of a storage value, the layout of wrappers/Bridge.ts:45-51. */
  function StorageCell(s: Storage): (c: Cell)
    ensures Fits(c)
    ensures c.refs == DictRefs(ORACLE_KEY_BITS, OraclesDict(s.oracles)) + (DictRefs(COIN_ID_BITS, JettonsDict(s.jettons)) + [s.minterCode, s.walletCode])
  {
    var od := OraclesDict(s.oracles);
    var jd := JettonsDict(s.jettons);
    var c := StorageData(s.admin, od, jd, s.minterCode, s.walletCode);
    StorageLayout(s.admin, od, jd, s.minterCode, s.walletCode);
    c
  }

  lemma StorageLayout(admin: Address, od: map<nat, Cell>, jd: map<nat, Cell>, minterCode: Cell, walletCode: Cell)
    ensures StorageData(admin, od, jd, minterCode, walletCode)
         == Cell(AddressBits(Some(admin)) + (DictBits(od) + DictBits(jd)),
                 DictRefs(ORACLE_KEY_BITS, od) + (DictRefs(COIN_ID_BITS, jd) + [minterCode, walletCode]))
  {
    StorageBits(admin, od, jd, minterCode, walletCode);
    StorageRefs(admin, od, jd, minterCode, walletCode);
  }

  lemma StorageBits(admin: Address, od: map<nat, Cell>, jd: map<nat, Cell>, minterCode: Cell, walletCode: Cell)
    ensures StorageData(admin, od, jd, minterCode, walletCode).bits == AddressBits(Some(admin)) + (DictBits(od) + DictBits(jd))
  {
  }

  lemma StorageRefs(admin: Address, od: map<nat, Cell>, jd: map<nat, Cell>, minterCode: Cell, walletCode: Cell)
    ensures StorageData(admin, od, jd, minterCode, walletCode).refs
         == DictRefs(ORACLE_KEY_BITS, od) + (DictRefs(COIN_ID_BITS, jd) + [minterCode, walletCode])
  {
    var b1 := StoreAddress(EmptyCell, Some(admin)).value;
    assert b1.refs == [];
    var b2 := StoreDict(b1, ORACLE_KEY_BITS, od).value;
    assert b2.refs == DictRefs(ORACLE_KEY_BITS, od);
    var b3 := StoreDict(b2, COIN_ID_BITS, jd).value;
    assert b3.refs == DictRefs(ORACLE_KEY_BITS, od) + DictRefs(COIN_ID_BITS, jd);
    var b4 := StoreRef(b3, minterCode).value;
    assert b4.refs == b3.refs + [minterCode];
    assert StorageData(admin, od, jd, minterCode, walletCode) == StoreRef(b4, walletCode).value;
    assert b4.refs + [walletCode] == DictRefs(ORACLE_KEY_BITS, od) + (DictRefs(COIN_ID_BITS, jd) + [minterCode, walletCode]);
  }

  /** Reading the oracle dictionary: its key set (the inner dictionaries are not looked at). */
  function ParseOracles(d: map<nat, Cell>): Option<set<Uint256>> {
    if forall k | k in d :: k < Pow2(256) then Some(set k: Uint256 | k in d) else None
  }

  function ReadAddressLeaf(c: Cell): Option<Address> {
    if !c.Cell? then None
    else
      var a :- LoadAddress(Slice(c.bits, c.refs));
      if a.value.None? || !Ended(a.rest) then None else Some(a.value.value)
  }

  function ParseJettons(d: map<nat, Cell>): Option<map<Uint32, Address>> {
    if forall k | k in d :: k < Pow2(32) && ReadAddressLeaf(d[k]).Some?
    then Some(map k: Uint32 | k in d :: ReadAddressLeaf(d[k]).value)
    else None
  }

  /** A reader of the storage cell, in the order it was written. */
  function ParseStorage(c: Cell): Option<Storage> {
    if !c.Cell? then None
    else
      var admin :- LoadAddress(Slice(c.bits, c.refs));
      if admin.value.None? then None else ReadStorageDicts(admin.value.value, admin.rest)
  }

  /** What follows the admin address: the two dictionaries, then the two codes. */
  function ReadStorageDicts(admin: Address, s: Slice): Option<Storage> {
    var oracles :- LoadDict(s, ORACLE_KEY_BITS);
    var jettons :- LoadDict(oracles.rest, COIN_ID_BITS);
    ReadStorageCodes(admin, oracles.value, jettons.value, jettons.rest)
  }

  function ReadStorageCodes(admin: Address, od: map<nat, Cell>, jd: map<nat, Cell>, s: Slice): Option<Storage> {
    var minterCode :- LoadRef(s);
    var walletCode :- LoadRef(minterCode.rest);
    if !Ended(walletCode.rest) then None
    else
      var os :- ParseOracles(od);
      var js :- ParseJettons(jd);
      Some(Storage(admin, os, js, minterCode.value, walletCode.value))
  }

  lemma OraclesRoundTrip(oracles: set<Uint256>)
    ensures ParseOracles(OraclesDict(oracles)) == Some(oracles)
  {
    var od := OraclesDict(oracles);
    assert forall k | k in od :: k < Pow2(256);
    var keys := set k: Uint256 | k in od;
    assert forall k :: k in keys <==> k in oracles;
    assert keys == oracles;
  }

  /** An address leaf reads back as its address. */
  lemma AddressLeafReads(a: Address)
    ensures ReadAddressLeaf(AddressLeaf(a)) == Some(a)
  {
    LoadStdAddressStored(a, [], []);
    assert AddressBits(Some(a)) + [] == AddressBits(Some(a));
  }

  lemma JettonsRoundTrip(jettons: map<Uint32, Address>)
    ensures ParseJettons(JettonsDict(jettons)) == Some(jettons)
  {
    var jd := JettonsDict(jettons);
    forall k | k in jd ensures k < Pow2(32) && ReadAddressLeaf(jd[k]) == Some(jettons[k]) {
      AddressLeafReads(jettons[k]);
    }
    var m := map k: Uint32 | k in jd :: ReadAddressLeaf(jd[k]).value;
    assert m.Keys == jettons.Keys;
    assert m == jettons;
  }

  lemma StorageCodesRead(s: Storage)
    ensures ReadStorageCodes(s.admin, OraclesDict(s.oracles), JettonsDict(s.jettons), Slice([], [s.minterCode, s.walletCode]))
         == Some(s)
  {
    OraclesRoundTrip(s.oracles);
    JettonsRoundTrip(s.jettons);
  }

  lemma StorageDictsRead(s: Storage)
    ensures var od := OraclesDict(s.oracles);
      var jd := JettonsDict(s.jettons);
      ReadStorageDicts(s.admin, Slice(DictBits(od) + DictBits(jd), DictRefs(ORACLE_KEY_BITS, od) + (DictRefs(COIN_ID_BITS, jd) + [s.minterCode, s.walletCode])))
        == Some(s)
  {
    var od := OraclesDict(s.oracles);
    var jd := JettonsDict(s.jettons);
    var codes := [s.minterCode, s.walletCode];
    LoadDictStored(ORACLE_KEY_BITS, od, DictBits(jd), DictRefs(COIN_ID_BITS, jd) + codes);
    assert DictBits(jd) == DictBits(jd) + [];
    LoadDictStored(COIN_ID_BITS, jd, [], codes);
    StorageCodesRead(s);
  }

  /** The storage cell reads back as the storage it was built from. */
  lemma StorageRoundTrip(s: Storage)
    ensures ParseStorage(StorageCell(s)) == Some(s)
  {
    var od := OraclesDict(s.oracles);
    var jd := JettonsDict(s.jettons);
    var refs := DictRefs(ORACLE_KEY_BITS, od) + (DictRefs(COIN_ID_BITS, jd) + [s.minterCode, s.walletCode]);
    StorageLayout(s.admin, od, jd, s.minterCode, s.walletCode);
    LoadStdAddressStored(s.admin, DictBits(od) + DictBits(jd), refs);
    StorageDictsRead(s);
  }

  /** The storage the constructor writes: the admin, the one oracle, no jettons, the two codes. */
  function InitialStorage(p: InitParams): Storage {
    Storage(p.adminAddr, {p.oracleAddr.hash}, map[], p.jettonMinterCode, p.jettonWalletCode)
  }

  /**
   * At construction the oracle dictionary has exactly one key, the oracle's
   * account hash, holding an empty inner dictionary, and the jettons
   * dictionary is empty, so the storage has three references: the oracle
   * dictionary, the minter code, the wallet code.
   */
  lemma InitialStorageLayout(p: InitParams)
    ensures var c := StorageCell(InitialStorage(p));
      && ParseStorage(c) == Some(InitialStorage(p))
      && c.bits == AddressBits(Some(p.adminAddr)) + [true, false]
      && c.refs == [DictRoot(ORACLE_KEY_BITS, map[p.oracleAddr.hash := EmptyInnerDict]), p.jettonMinterCode, p.jettonWalletCode]
  {
    var s := InitialStorage(p);
    var od := OraclesDict(s.oracles);
    assert od == map[p.oracleAddr.hash := EmptyInnerDict];
    assert JettonsDict(s.jettons) == map[];
    assert od != map[] by { assert p.oracleAddr.hash in od; }
    assert DictBits(od) + DictBits(map[]) == [true, false];
    StorageLayout(s.admin, od, map[], s.minterCode, s.walletCode);
    StorageRoundTrip(s);
  }

  /** `feeAddr` and `feeRate` are accepted but never stored: they do not change the init data. */
  lemma FeeParamsNotStored(p: InitParams, feeAddr: Address, feeRate: int)
    ensures StorageCell(InitialStorage(p.(feeAddr := feeAddr, feeRate := feeRate))) == StorageCell(InitialStorage(p))
  {
  }

  class Bridge {
    const address: Address
    const init: StateInit

    /** wrappers/Bridge.ts:23-55: builds the dictionaries, lays out the storage, derives the address. */
    constructor (workchain: Int8, p: InitParams)
      ensures init == StateInit(BridgeCode, StorageCell(InitialStorage(p)))
      ensures address == ContractAddress(workchain, init)
    {
      var oraclesDict: map<nat, Cell> := map[];
      oraclesDict := oraclesDict[p.oracleAddr.hash := EmptyInnerDict];
      var jettonsDict: map<nat, Cell> := map[];
      assert oraclesDict == OraclesDict(InitialStorage(p).oracles);
      assert jettonsDict == JettonsDict(InitialStorage(p).jettons);
      var data := StorageData(p.adminAddr, oraclesDict, jettonsDict, p.jettonMinterCode, p.jettonWalletCode);
      var stateInit := StateInit(BridgeCode, data);
      init := stateInit;
      address := ContractAddress(workchain, stateInit);
    }
  }

  // ---------------------------------------------------------------------------
  // Operation bodies

  const OP_LOCK: nat := 1
  const OP_UNLOCK: nat := 2
  const OP_ADD_JETTON: nat := 3
  const OP_MINT: nat := 21

  /** The default attached values in nanotons: toNano('0.05'), toNano('0.2'), toNano('0.5'), toNano('0.2'). */
  const LOCK_VALUE: nat := 50_000_000
  const UNLOCK_VALUE: nat := 200_000_000
  const ADD_JETTON_VALUE: nat := 500_000_000
  const MINT_VALUE: nat := 200_000_000

  datatype BridgeOp =
    | Lock(destinationAddress: nat, destinationCoinId: nat)
    | Unlock(address: Address, amount: nat)
    | AddJetton(coinId: nat, data: Cell)
    | Mint(address: Address, coinId: nat, amount: nat, forwardAmount: nat)

  datatype BridgeRequest = BridgeRequest(queryId: nat, op: BridgeOp)

  function ReadLockPayload(s: Slice): Option<BridgeOp> {
    var dest :- LoadUint(s, 160);
    var coinId :- LoadUint(dest.rest, 32);
    if !Ended(coinId.rest) then None else Some(Lock(dest.value, coinId.value))
  }

  function ReadUnlockPayload(s: Slice): Option<BridgeOp> {
    var address :- LoadAddress(s);
    var amount :- LoadCoins(address.rest);
    if address.value.None? || !Ended(amount.rest) then None else Some(Unlock(address.value.value, amount.value))
  }

  function ReadAddJettonPayload(s: Slice): Option<BridgeOp> {
    var coinId :- LoadUint(s, 32);
    var data :- LoadRef(coinId.rest);
    if !Ended(data.rest) then None else Some(AddJetton(coinId.value, data.value))
  }

  function ReadMintPayload(s: Slice): Option<BridgeOp> {
    var address :- LoadAddress(s);
    var coinId :- LoadUint(address.rest, 32);
    var amount :- LoadCoins(coinId.rest);
    var forwardAmount :- LoadCoins(amount.rest);
    if address.value.None? || !Ended(forwardAmount.rest) then None
    else Some(Mint(address.value.value, coinId.value, amount.value, forwardAmount.value))
  }

  /** The payload reader an op calls for; no other op is understood. */
  function ReadPayload(op: nat, s: Slice): Option<BridgeOp> {
    if op == OP_LOCK then ReadLockPayload(s)
    else if op == OP_UNLOCK then ReadUnlockPayload(s)
    else if op == OP_ADD_JETTON then ReadAddJettonPayload(s)
    else if op == OP_MINT then ReadMintPayload(s)
    else None
  }

  /** A reader of the bridge's message bodies: the header, then the payload its op calls for and nothing else. */
  function ParseBridgeBody(body: Cell): Option<BridgeRequest> {
    var h :- ReadHeader(body);
    var op :- ReadPayload(h.op, h.rest);
    Some(BridgeRequest(h.queryId, op))
  }

  /** A body built around a payload that reads back as a request reads back as that request. */
  lemma BridgeBodyReads(op: nat, payload: Cell, request: BridgeOp)
    requires payload.Cell? && |payload.refs| <= MaxRefs && MessageBody(op, payload).Success?
    requires ReadPayload(op, Slice(payload.bits, payload.refs)) == Some(request)
    ensures ParseBridgeBody(MessageBody(op, payload).value) == Some(BridgeRequest(QUERY_ID, request))
  {
  }

  /** The lock payload: a 160-bit destination, then a 32-bit coin id. */
  function LockPayload(destinationAddress: int, destinationCoinId: int): (r: Result<Cell, CellError>)
    ensures r.Success? <==> 0 <= destinationAddress < Pow2(160) && 0 <= destinationCoinId < Pow2(32)
    ensures r.Success? ==> r.value == Cell(UintBits(destinationAddress, 160) + UintBits(destinationCoinId, 32), [])
  {
    var b1 :- StoreUint(EmptyCell, destinationAddress, 160);
    assert b1.bits == UintBits(destinationAddress, 160);
    StoreUint(b1, destinationCoinId, 32)
  }

  lemma LockPayloadReads(destinationAddress: Uint160, destinationCoinId: Uint32)
    ensures ReadLockPayload(Slice(UintBits(destinationAddress, 160) + UintBits(destinationCoinId, 32), []))
         == Some(Lock(destinationAddress, destinationCoinId))
  {
    LoadUintStored(destinationAddress, 160, UintBits(destinationCoinId, 32), []);
    assert UintBits(destinationCoinId, 32) + [] == UintBits(destinationCoinId, 32);
    LoadUintStored(destinationCoinId, 32, [], []);
  }

  /** Every op code is a 32-bit value. */
  lemma OpCodesFit()
    ensures OP_LOCK < Pow2(32) && OP_UNLOCK < Pow2(32) && OP_ADD_JETTON < Pow2(32) && OP_MINT < Pow2(32)
  {
    Pow2Byte();
    Pow2Monotone(8, 32);
  }

  /**
   * `sendLock` (wrappers/Bridge.ts:65-88): a 160-bit destination and a
   * 32-bit coin id after the header; fails when either does not fit its
   * width. The bridge reads back the request it was given.
   */
  function SendLock(value: Option<nat>, destinationAddress: int, destinationCoinId: int): (r: Result<Message, CellError>)
    ensures r.Success? <==> 0 <= destinationAddress < Pow2(160) && 0 <= destinationCoinId < Pow2(32)
    ensures r.Success? ==> r.value.value == AttachedValue(value, LOCK_VALUE)
    ensures r.Success? ==> ParseBridgeBody(r.value.body) == Some(BridgeRequest(QUERY_ID, Lock(destinationAddress, destinationCoinId)))
  {
    var payload :- LockPayload(destinationAddress, destinationCoinId);
    OpCodesFit();
    var body := MessageBody(OP_LOCK, payload).value;
    LockPayloadReads(destinationAddress, destinationCoinId);
    BridgeBodyReads(OP_LOCK, payload, Lock(destinationAddress, destinationCoinId));
    Success(Message(AttachedValue(value, LOCK_VALUE), body))
  }

  /** The lock body is exactly 288 bits and has no reference. */
  lemma LockBodySize(value: Option<nat>, destinationAddress: Uint160, destinationCoinId: Uint32)
    ensures SendLock(value, destinationAddress, destinationCoinId).Success?
    ensures var body := SendLock(value, destinationAddress, destinationCoinId).value.body;
      body.Cell? && |body.bits| == 288 && body.refs == []
  {
    OpCodesFit();
  }

  /** The unlock payload: the destination address, then the amount as coins. */
  function UnlockPayload(address: Address, amount: int): (r: Result<Cell, CellError>)
    ensures r.Success? <==> 0 <= amount < Pow2(120)
    ensures r.Success? ==> r.value == Cell(AddressBits(Some(address)) + CoinsBits(amount), [])
  {
    var b1 := StoreAddress(EmptyCell, Some(address)).value;
    assert b1.bits == AddressBits(Some(address));
    StoreCoins(b1, amount)
  }

  lemma UnlockPayloadReads(address: Address, amount: Coins)
    ensures ReadUnlockPayload(Slice(AddressBits(Some(address)) + CoinsBits(amount), []))
         == Some(Unlock(address, amount))
  {
    LoadStdAddressStored(address, CoinsBits(amount), []);
    assert CoinsBits(amount) + [] == CoinsBits(amount);
    LoadCoinsStored(amount, [], []);
  }

  /**
   * `sendUnlock` (wrappers/Bridge.ts:90-111): the destination address and
   * the amount as coins; fails when the amount is negative or needs more
   * than fifteen bytes.
   */
  function SendUnlock(value: Option<nat>, address: Address, amount: int): (r: Result<Message, CellError>)
    ensures r.Success? <==> 0 <= amount < Pow2(120)
    ensures r.Success? ==> r.value.value == AttachedValue(value, UNLOCK_VALUE)
    ensures r.Success? ==> ParseBridgeBody(r.value.body) == Some(BridgeRequest(QUERY_ID, Unlock(address, amount)))
  {
    var payload :- UnlockPayload(address, amount);
    OpCodesFit();
    var body := MessageBody(OP_UNLOCK, payload).value;
    UnlockPayloadReads(address, amount);
    BridgeBodyReads(OP_UNLOCK, payload, Unlock(address, amount));
    Success(Message(AttachedValue(value, UNLOCK_VALUE), body))
  }

  /** The add-jetton payload: a 32-bit coin id and a reference to the metadata. */
  function AddJettonPayload(coinId: int, data: Cell): (r: Result<Cell, CellError>)
    ensures r.Success? <==> 0 <= coinId < Pow2(32)
    ensures r.Success? ==> r.value == Cell(UintBits(coinId, 32), [data])
  {
    var b1 :- StoreUint(EmptyCell, coinId, 32);
    assert b1 == Cell(UintBits(coinId, 32), []);
    StoreRef(b1, data)
  }

  lemma AddJettonPayloadReads(coinId: Uint32, data: Cell)
    ensures ReadAddJettonPayload(Slice(UintBits(coinId, 32), [data])) == Some(AddJetton(coinId, data))
  {
    assert UintBits(coinId, 32) + [] == UintBits(coinId, 32);
    LoadUintStored(coinId, 32, [], [data]);
  }

  /**
   * `sendAddJetton` (wrappers/Bridge.ts:113-132): a 32-bit coin id, and the
   * jetton's metadata cell as the body's only reference.
   */
  function SendAddJetton(value: Option<nat>, coinId: int, data: Cell): (r: Result<Message, CellError>)
    ensures r.Success? <==> 0 <= coinId < Pow2(32)
    ensures r.Success? ==> r.value.value == AttachedValue(value, ADD_JETTON_VALUE)
    ensures r.Success? ==> r.value.body.Cell? && r.value.body.refs == [data]
    ensures r.Success? ==> ParseBridgeBody(r.value.body) == Some(BridgeRequest(QUERY_ID, AddJetton(coinId, data)))
  {
    var payload :- AddJettonPayload(coinId, data);
    OpCodesFit();
    var body := MessageBody(OP_ADD_JETTON, payload).value;
    AddJettonPayloadReads(coinId, data);
    BridgeBodyReads(OP_ADD_JETTON, payload, AddJetton(coinId, data));
    Success(Message(AttachedValue(value, ADD_JETTON_VALUE), body))
  }

  /** The mint payload: address, 32-bit coin id, amount and forward amount as coins. */
  function MintPayload(address: Address, coinId: int, amount: int, forwardAmount: int): (r: Result<Cell, CellError>)
    ensures r.Success? <==> 0 <= coinId < Pow2(32) && 0 <= amount < Pow2(120) && 0 <= forwardAmount < Pow2(120)
    ensures r.Success? ==>
      r.value == Cell(AddressBits(Some(address)) + (UintBits(coinId, 32) + (CoinsBits(amount) + CoinsBits(forwardAmount))), [])
  {
    var b1 := StoreAddress(EmptyCell, Some(address)).value;
    assert b1.bits == AddressBits(Some(address));
    var b2 :- StoreUint(b1, coinId, 32);
    var b3 :- StoreCoins(b2, amount);
    var b4 :- StoreCoins(b3, forwardAmount);
    AppendAssoc4(AddressBits(Some(address)), UintBits(coinId, 32), CoinsBits(amount), CoinsBits(forwardAmount));
    Success(b4)
  }

  /** The mint payload reader, one field at a time. */
  lemma ReadMintPayloadSteps(s: Slice, s1: Slice, s2: Slice, s3: Slice,
                             address: Address, coinId: nat, amount: nat, forwardAmount: nat)
    requires LoadAddress(s) == Some(Loaded(Some(address), s1))
    requires LoadUint(s1, 32) == Some(Loaded(coinId, s2))
    requires LoadCoins(s2) == Some(Loaded(amount, s3))
    requires LoadCoins(s3) == Some(Loaded(forwardAmount, Slice([], [])))
    ensures ReadMintPayload(s) == Some(Mint(address, coinId, amount, forwardAmount))
  {
  }

  lemma MintPayloadReads(address: Address, coinId: Uint32, amount: Coins, forwardAmount: Coins)
    ensures ReadMintPayload(Slice(AddressBits(Some(address)) + (UintBits(coinId, 32) + (CoinsBits(amount) + CoinsBits(forwardAmount))), []))
         == Some(Mint(address, coinId, amount, forwardAmount))
  {
    var t3 := CoinsBits(forwardAmount);
    var t2 := CoinsBits(amount) + t3;
    var t1 := UintBits(coinId, 32) + t2;
    assert LoadAddress(Slice(AddressBits(Some(address)) + t1, [])) == Some(Loaded(Some(address), Slice(t1, []))) by {
      LoadStdAddressStored(address, t1, []);
    }
    assert LoadUint(Slice(t1, []), 32) == Some(Loaded(coinId as nat, Slice(t2, []))) by {
      LoadUintStored(coinId, 32, t2, []);
    }
    assert LoadCoins(Slice(t2, [])) == Some(Loaded(amount as nat, Slice(t3, []))) by {
      LoadCoinsStored(amount, t3, []);
    }
    assert LoadCoins(Slice(t3, [])) == Some(Loaded(forwardAmount as nat, Slice([], []))) by {
      assert t3 == t3 + [];
      LoadCoinsStored(forwardAmount, [], []);
    }
    ReadMintPayloadSteps(Slice(AddressBits(Some(address)) + t1, []), Slice(t1, []), Slice(t2, []), Slice(t3, []),
                         address, coinId, amount, forwardAmount);
  }

  /** The mint body around a payload of fields that fit: it fits, and it reads back as op 21 with the four fields. */
  lemma MintBodyReads(address: Address, coinId: Uint32, amount: Coins, forwardAmount: Coins)
    ensures MintPayload(address, coinId, amount, forwardAmount).Success?
    ensures var payload := MintPayload(address, coinId, amount, forwardAmount).value;
      && MessageBody(OP_MINT, payload).Success?
      && ParseBridgeBody(MessageBody(OP_MINT, payload).value) == Some(BridgeRequest(QUERY_ID, Mint(address, coinId, amount, forwardAmount)))
  {
    var payload := MintPayload(address, coinId, amount, forwardAmount).value;
    OpCodesFit();
    assert payload.refs == [] && |payload.bits| <= 267 + 32 + 124 + 124;
    MintPayloadReads(address, coinId, amount, forwardAmount);
    BridgeBodyReads(OP_MINT, payload, Mint(address, coinId, amount, forwardAmount));
  }

  /**
   * `sendMintJetton` (wrappers/Bridge.ts:134-161): address, 32-bit coin id,
   * amount and forward amount as coins, in that order.
   */
  function SendMintJetton(value: Option<nat>, address: Address, coinId: int, amount: int, forwardAmount: int): (r: Result<Message, CellError>)
    ensures r.Success? <==> 0 <= coinId < Pow2(32) && 0 <= amount < Pow2(120) && 0 <= forwardAmount < Pow2(120)
    ensures r.Success? ==> r.value.value == AttachedValue(value, MINT_VALUE)
    ensures r.Success? ==> ParseBridgeBody(r.value.body) == Some(BridgeRequest(QUERY_ID, Mint(address, coinId, amount, forwardAmount)))
  {
    var payload :- MintPayload(address, coinId, amount, forwardAmount);
    MintBodyReads(address, coinId, amount, forwardAmount);
    Success(Message(AttachedValue(value, MINT_VALUE), MessageBody(OP_MINT, payload).value))
  }
}
