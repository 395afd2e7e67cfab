/**
 * The bridge contract as the sandbox scenarios of tests/Bridge.spec.ts pin it
 * down: one deployed instance whose jetton registry evolves across the
 * scenarios; lock and burn emit a fixed log layout, unlock and mint are
 * oracle-gated (exit code 402), add-jetton is admin-gated (exit code 403)
 * and registers the minter at its predicted address. Only what the scenarios
 * assert is modelled; the contract's own code is not part of this model.
 */
module BridgeSandbox {
  import opened Wrappers
  import opened Bits
  import opened Cells
  import opened Messages
  import opened BridgeWrapper
  import opened Hex
  import JettonWallet
  import JettonMinter
  import Metadata

  /** The exit codes of a rejected compute phase. */
  const NOT_ORACLE: nat := 402
  const NOT_ADMIN: nat := 403

  // ---------------------------------------------------------------------------
  // The log message

  /** The fields of a lock or burn log: destination, coin id, the account hash of the sender, the amount. */
  datatype Log = Log(destination: nat, coinId: nat, senderHash: nat, value: nat)

  predicate LogFits(l: Log) {
    l.destination < Pow2(160) && l.coinId < Pow2(32) && l.senderHash < Pow2(256) && l.value < Pow2(120)
  }

  /** 160-bit destination, 32-bit coin id, 256-bit sender hash, then the value as coins. */
  function LogCell(l: Log): (c: Cell)
    requires LogFits(l)
    ensures Fits(c)
    ensures c == Cell(UintBits(l.destination, 160) + (UintBits(l.coinId, 32) + (UintBits(l.senderHash, 256) + CoinsBits(l.value))), [])
  {
    var b1 := StoreUint(EmptyCell, l.destination, 160).value;
    assert b1.bits == UintBits(l.destination, 160);
    var b2 := StoreUint(b1, l.coinId, 32).value;
    var b3 := StoreUint(b2, l.senderHash, 256).value;
    var c := StoreCoins(b3, l.value).value;
    AppendAssoc4(UintBits(l.destination, 160), UintBits(l.coinId, 32), UintBits(l.senderHash, 256), CoinsBits(l.value));
    c
  }

  /** How the scenarios read a log: loadUintBig(160), loadUint(32), loadUintBig(256), loadCoins. */
  function ReadLog(c: Cell): (r: Option<Log>)
    ensures r.Some? ==> r.value.destination < Pow2(160) && r.value.coinId < Pow2(32) && r.value.senderHash < Pow2(256)
  {
    if !c.Cell? then None
    else
      var destination :- LoadUint(Slice(c.bits, c.refs), 160);
      var coinId :- LoadUint(destination.rest, 32);
      var senderHash :- LoadUint(coinId.rest, 256);
      var value :- LoadCoins(senderHash.rest);
      Some(Log(destination.value, coinId.value, senderHash.value, value.value))
  }

  /** A log reads back field for field. */
  lemma LogRoundTrip(l: Log)
    requires LogFits(l)
    ensures ReadLog(LogCell(l)) == Some(l)
  {
    var c := LogCell(l);
    var t3 := CoinsBits(l.value);
    var t2 := UintBits(l.senderHash, 256) + t3;
    var t1 := UintBits(l.coinId, 32) + t2;
    assert LoadUint(Slice(c.bits, c.refs), 160) == Some(Loaded(l.destination, Slice(t1, []))) by {
      LoadUintStored(l.destination, 160, t1, []);
    }
    assert LoadUint(Slice(t1, []), 32) == Some(Loaded(l.coinId, Slice(t2, []))) by {
      LoadUintStored(l.coinId, 32, t2, []);
    }
    assert LoadUint(Slice(t2, []), 256) == Some(Loaded(l.senderHash, Slice(t3, []))) by {
      LoadUintStored(l.senderHash, 256, t3, []);
    }
    assert LoadCoins(Slice(t3, [])) == Some(Loaded(l.value, Slice([], []))) by {
      assert t3 == t3 + [];
      LoadCoinsStored(l.value, [], []);
    }
  }

  // ---------------------------------------------------------------------------
  // What a handled message leads to

  datatype Effect =
    | EmitLog(body: Cell)
    | Pay(destination: Address, amount: nat)
    | DeployMinter(minter: Address)
    | MintVia(minter: Address, wallet: Address, amount: nat, forwardAmount: nat)

  datatype Outcome = Accepted(effects: seq<Effect>) | Rejected(exitCode: nat)

  /** What `getBridgeData` reports: the admin's workchain and hash, the oracle keys, the jettons. */
  datatype BridgeData = BridgeData(workchain: int, adminHash: nat, oracles: set<Uint256>, jettons: map<Uint32, Address>)

  /** The minter the bridge deploys for a jetton: supply 0, the bridge as admin, the metadata as content. */
  function PredictedMinter(bridge: Address, metadata: Cell): (a: Address)
    ensures a.workchain == 0
    ensures JettonMinter.CalculateAddress(0, bridge, metadata) == Success(a)
  {
    JettonMinter.CalculateAddress(0, bridge, metadata).value
  }

  /**
   * The minter the contract deploys for a jetton from the codes it stores:
   * the data layout of the wrapper's prediction (supply 0, the bridge as
   * admin, the metadata, then the wallet code) under the stored minter code.
   */
  function DeployedMinter(bridge: Address, metadata: Cell, minterCode: Cell, walletCode: Cell): (a: Address)
    ensures a.workchain == 0
  {
    ContractAddress(0, StateInit(minterCode, Cell(CoinsBits(0) + AddressBits(Some(bridge)), [metadata, walletCode])))
  }

  /** With the wrapper's codes stored, the deployed minter is the one `JettonMinter.calculateAddress` predicts. */
  lemma DeployedMinterPredicted(bridge: Address, metadata: Cell)
    ensures DeployedMinter(bridge, metadata, JettonMinter.MinterCode, JettonWallet.WalletCode) == PredictedMinter(bridge, metadata)
  {
    Pow2Small();
  }

  /**
   * The wallet a minter deploys for an owner from the wallet code it holds:
   * the data layout of the wrapper's prediction (balance 0, the owner, the
   * minter, then the code) under that code.
   */
  function DeployedWallet(owner: Address, minter: Address, walletCode: Cell): (a: Address)
    ensures a.workchain == 0
  {
    ContractAddress(0, StateInit(walletCode, Cell(CoinsBits(0) + (AddressBits(Some(owner)) + AddressBits(Some(minter))), [walletCode])))
  }

  /** With the wrapper's wallet code, the deployed wallet is the one `JettonWallet.calculateAddress` predicts. */
  lemma DeployedWalletPredicted(owner: Address, minter: Address)
    ensures DeployedWallet(owner, minter, JettonWallet.WalletCode) == JettonWallet.CalculateAddress(owner, minter)
  {
  }

  class BridgeContract {
    const address: Address
    const admin: Address
    const oracles: set<Uint256>
    const minterCode: Cell
    const walletCode: Cell
    var jettons: map<Uint32, Address>

    /** The storage the contract holds at this point. */
    function Storage(): Storage
      reads this
    {
      BridgeWrapper.Storage(admin, oracles, jettons, minterCode, walletCode)
    }

    /**
     * The stack of the `get_bridge_data` get-method, read from the storage
     * cell: the admin address split into workchain and hash, the oracle
     * dictionary's keys, the jettons (an empty registry as the empty map).
     * The scenario at tests/Bridge.spec.ts:55-74 reads that stack directly.
     */
    method GetBridgeData() returns (r: Option<BridgeData>)
      ensures r == Some(BridgeData(admin.workchain, admin.hash, oracles, jettons))
    {
      var stored := Storage();
      StorageRoundTrip(stored);
      var parsed := ParseStorage(StorageCell(stored));
      if parsed.None? {
        return None;
      }
      r := Some(BridgeData(parsed.value.admin.workchain, parsed.value.admin.hash, parsed.value.oracles, parsed.value.jettons));
    }

    /**
     * The deployment of tests/Bridge.spec.ts:34-51: the wrapper's address,
     * and the wrapper's init data as the storage.
     */
    constructor (workchain: Int8, p: InitParams)
      ensures address == ContractAddress(workchain, StateInit(BridgeCode, StorageCell(InitialStorage(p))))
      ensures Storage() == InitialStorage(p)
    {
      var wrapper := new BridgeWrapper.Bridge(workchain, p);
      address := wrapper.address;
      admin := p.adminAddr;
      oracles := {p.oracleAddr.hash};
      minterCode := p.jettonMinterCode;
      walletCode := p.jettonWalletCode;
      jettons := map[];
    }

    /** Lock accepts any sender and emits exactly one log naming the destination, coin id, sender and value. */
    method Lock(sender: Address, value: Coins, destination: Uint160, coinId: Uint32) returns (out: Outcome)
      ensures out == Accepted([EmitLog(LogCell(Log(destination, coinId, sender.hash, value)))])
    {
      out := Accepted([EmitLog(LogCell(Log(destination, coinId, sender.hash, value)))]);
    }

    /** Unlock pays the destination when the sender's account hash is an oracle key, else exits with 402. */
    method Unlock(sender: Address, destination: Address, amount: Coins) returns (out: Outcome)
      ensures sender.hash in oracles <==> out.Accepted?
      ensures sender.hash in oracles ==> out.effects == [Pay(destination, amount)]
      ensures sender.hash !in oracles ==> out == Rejected(NOT_ORACLE)
    {
      if sender.hash !in oracles {
        return Rejected(NOT_ORACLE);
      }
      out := Accepted([Pay(destination, amount)]);
    }

    /**
     * AddJetton from the admin deploys a minter from the stored codes and
     * records it under the coin id; from anyone else it exits with 403 and,
     * the compute phase having failed, changes nothing.
     */
    method AddJetton(sender: Address, coinId: Uint32, metadata: Cell) returns (out: Outcome)
      modifies this
      ensures sender == admin ==> out == Accepted([DeployMinter(DeployedMinter(address, metadata, minterCode, walletCode))])
      ensures sender == admin ==> jettons == old(jettons)[coinId := DeployedMinter(address, metadata, minterCode, walletCode)]
      ensures sender != admin ==> out == Rejected(NOT_ADMIN) && jettons == old(jettons)
    {
      if sender != admin {
        return Rejected(NOT_ADMIN);
      }
      var minter := DeployedMinter(address, metadata, minterCode, walletCode);
      jettons := jettons[coinId := minter];
      out := Accepted([DeployMinter(minter)]);
    }

    /**
     * Mint from an oracle for a registered coin id goes to the jetton's
     * minter, which mints into the user's wallet deployed from the stored
     * wallet code.
     */
    method Mint(sender: Address, user: Address, coinId: Uint32, amount: Coins, forwardAmount: Coins) returns (out: Outcome)
      requires sender.hash in oracles && coinId in jettons
      ensures out == Accepted([MintVia(jettons[coinId], DeployedWallet(user, jettons[coinId], walletCode), amount, forwardAmount)])
    {
      var minter := jettons[coinId];
      out := Accepted([MintVia(minter, DeployedWallet(user, minter, walletCode), amount, forwardAmount)]);
    }

    /**
     * `getJettonWalletAddress` (wrappers/Bridge.ts:194-201): the owner's
     * wallet of a registered jetton, which its minter deploys from the stored
     * wallet code; nothing for a coin id that is not registered.
     */
    method JettonWalletAddress(coinId: Uint32, owner: Address) returns (r: Option<Address>)
      ensures r.Some? <==> coinId in jettons
      ensures r.Some? ==> r.value == DeployedWallet(owner, jettons[coinId], walletCode)
    {
      if coinId !in jettons {
        return None;
      }
      r := Some(DeployedWallet(owner, jettons[coinId], walletCode));
    }

    /**
     * A burn reported by the minter of a registered jetton is logged as a
     * lock of the burnt amount by the wallet's owner: the same log layout,
     * with the owner as sender.
     */
    method Burned(owner: Address, amount: Coins, destination: Uint160, coinId: Uint32) returns (out: Outcome)
      requires coinId in jettons
      ensures out == Accepted([EmitLog(LogCell(Log(destination, coinId, owner.hash, amount)))])
    {
      out := Lock(owner, amount, destination, coinId);
    }
  }

  // ---------------------------------------------------------------------------
  // The sender check of the log scenarios

  /**
   * tests/Bridge.spec.ts:97-98 and :228-229 rebuild the sender with
   * `Address.parseRaw` from the bridge's workchain and `toString(16)` of the
   * logged hash. `Buffer.from(_, 'hex')` decodes the digits pairwise, and
   * ton-core's Address throws (None) unless that gives 32 bytes, which is
   * the case exactly for hashes without a leading zero digit. Lines :103 and
   * :234 never invoke the comparison (`toBeTruthy` without a call), so it
   * decides nothing.
   */
  function RebuiltSender(bridge: Address, l: Log): (r: Option<Address>)
    requires l.senderHash < Pow2(256)
    ensures r.Some? <==> Pow2(252) <= l.senderHash
    ensures r.Some? ==> r.value.workchain == bridge.workchain && r.value.hash == l.senderHash
  {
    var bytes := HexToBytes(HexDigits(l.senderHash));
    HexHashBytes(l.senderHash);
    if |bytes| == 32 then Some(Address(bridge.workchain, BytesValue(bytes))) else None
  }

  /**
   * Were it invoked, the comparison would fail on a correct log: the sender
   * rebuilt from the user's own hash is not the user whenever the bridge
   * and the user live in different workchains.
   */
  lemma RebuiltSenderDiffers(bridge: Address, user: Address, l: Log)
    requires bridge.workchain != user.workchain && l.senderHash == user.hash
    ensures RebuiltSender(bridge, l) != Some(user)
  {
  }

  /**
   * On the deployment of tests/Bridge.spec.ts:35 (the bridge in the
   * masterchain, the treasuries in workchain 0) a lock log from the user
   * reads back intact, yet the sender rebuilt from it is another account.
   */
  lemma SenderCheckAsWritten(user: Address, admin: Address, oracle: Address, l: Log)
    requires LogFits(l) && l.senderHash == user.hash && user.workchain == 0
    ensures ReadLog(LogCell(l)) == Some(l)
    ensures RebuiltSender(DeployedAddress(DeployParams(admin, oracle)), l) != Some(user)
  {
    LogRoundTrip(l);
  }

  /**
   * The check the scenarios evidently intend: the logged hash is the
   * sender's account hash. For a sender whose hash has no leading zero
   * digit, it decides what the check as written decides when the bridge
   * shares the sender's workchain.
   */
  predicate LoggedBy(body: Cell, sender: Address): (b: bool)
    ensures Pow2(252) <= sender.hash ==> (b <==> ReadLog(body).Some? && RebuiltSender(sender, ReadLog(body).value) == Some(sender))
  {
    var l := ReadLog(body);
    l.Some? && l.value.senderHash == sender.hash
  }

  /** A lock or burn log handed to its sender passes the intended check, whatever the workchains. */
  lemma LogNamesSender(sender: Address, value: Coins, destination: Uint160, coinId: Uint32)
    ensures LoggedBy(LogCell(Log(destination, coinId, sender.hash, value)), sender)
  {
    LogRoundTrip(Log(destination, coinId, sender.hash, value));
  }

  /**
   * tests/Bridge.spec.ts:58 compares `toString(16)` of the hash the getter
   * reports with `toString('hex')` of the admin's 32-byte hash: the first
   * drops leading zeros, the second keeps them. For an admin hash without
   * a leading zero digit, it compares the two numbers exactly.
   */
  predicate DeployHashCheck(reported: BridgeData, admin: Address): (b: bool)
    ensures Pow2(252) <= admin.hash ==> (b <==> reported.adminHash == admin.hash)
  {
    HexDigitsMatchPadded(admin.hash);
    HexDigitsValue(reported.adminHash);
    HexDigitsValue(admin.hash);
    HexDigits(reported.adminHash) == PaddedHexDigits(admin.hash, 64)
  }

  /**
   * On the report after deployment (RunDeployScenario), the check as
   * written passes exactly when the admin's hash has no leading zero digit,
   * although the report is right for every admin.
   */
  lemma DeployHashCheckAsWritten(admin: Address, oracle: Address)
    ensures DeployHashCheck(BridgeData(0, admin.hash, {oracle.hash}, map[]), admin) <==> Pow2(252) <= admin.hash
  {
    HexDigitsMatchPadded(admin.hash);
  }

  // ---------------------------------------------------------------------------
  // The test jetton

  /** The metadata object of tests/Bridge.spec.ts:20-25, as `Object.entries` lists it. */
  const TEST_METADATA: seq<Metadata.Entry> := [
    ("name", Some("Synthetic TZS")),
    ("symbol", Some("bTZS")),
    ("image", Some("https://example.com/image.png")),
    ("description", Some("some description for the test jetton"))
  ]

  /** The test jetton's four fields, each with the encoding its key selects. */
  lemma TestFields()
    ensures forall j :: 0 <= j < |TEST_METADATA| ==> TEST_METADATA[j].0 in Metadata.MetadataKeys && !Metadata.Skipped(TEST_METADATA[j].1)
    ensures Metadata.KeyEncoding(TEST_METADATA[0].0) == Some(Metadata.Utf8) && TEST_METADATA[0].1 == Some("Synthetic TZS")
    ensures Metadata.KeyEncoding(TEST_METADATA[1].0) == Some(Metadata.Utf8) && TEST_METADATA[1].1 == Some("bTZS")
    ensures Metadata.KeyEncoding(TEST_METADATA[2].0) == Some(Metadata.Ascii) && TEST_METADATA[2].1 == Some("https://example.com/image.png")
    ensures Metadata.KeyEncoding(TEST_METADATA[3].0) == Some(Metadata.Utf8) && TEST_METADATA[3].1 == Some("some description for the test jetton")
  {
  }

  /** `buildTokenMetadataCell` of the test jetton: its four keys are all supported, so the build succeeds. */
  function TestMetadata(): (c: Cell)
    ensures Metadata.TokenMetadataCell(TEST_METADATA) == Success(c)
  {
    Metadata.SupportedKeysAccepted(TEST_METADATA);
    Metadata.TokenMetadataCell(TEST_METADATA).value
  }

  /** The value the build stores for each key of the test jetton: the one its field gives. */
  lemma TestStoredValues()
    ensures Metadata.StoredValue(TEST_METADATA, "name") == Some("Synthetic TZS")
    ensures Metadata.StoredValue(TEST_METADATA, "symbol") == Some("bTZS")
    ensures Metadata.StoredValue(TEST_METADATA, "image") == Some("https://example.com/image.png")
    ensures Metadata.StoredValue(TEST_METADATA, "description") == Some("some description for the test jetton")
  {
    var e1: seq<Metadata.Entry> := [("name", Some("Synthetic TZS"))];
    var e2 := e1 + [("symbol", Some("bTZS"))];
    var e3 := e2 + [("image", Some("https://example.com/image.png"))];
    assert TEST_METADATA == e3 + [("description", Some("some description for the test jetton"))];
    assert e3[..2] == e2 && e2[..1] == e1 && e1[..0] == [];
    assert |"description"| != |"name"| && |"description"| != |"symbol"| && |"description"| != |"image"|;
    assert |"image"| != |"name"| && |"image"| != |"symbol"|;
    assert |"symbol"| != |"name"|;
    assert Metadata.StoredValue(e1, "name") == Some("Synthetic TZS");
    assert Metadata.StoredValue(e2, "name") == Metadata.StoredValue(e1, "name");
    assert Metadata.StoredValue(e3, "name") == Metadata.StoredValue(e2, "name");
    assert Metadata.StoredValue(e3, "symbol") == Metadata.StoredValue(e2, "symbol");
  }

  /** Each of the test jetton's fields reads back from its content cell, the image in ASCII and the rest in UTF-8. */
  lemma TestMetadataFields()
    requires Metadata.DigestsDistinct()
    ensures Metadata.ReadField(TestMetadata(), "name") == Some(Metadata.EncodeText(Metadata.Utf8, "Synthetic TZS"))
    ensures Metadata.ReadField(TestMetadata(), "symbol") == Some(Metadata.EncodeText(Metadata.Utf8, "bTZS"))
    ensures Metadata.ReadField(TestMetadata(), "image") == Some(Metadata.EncodeText(Metadata.Ascii, "https://example.com/image.png"))
    ensures Metadata.ReadField(TestMetadata(), "description")
         == Some(Metadata.EncodeText(Metadata.Utf8, "some description for the test jetton"))
  {
    var c := TestMetadata();
    TestStoredValues();
    Metadata.TokenMetadataRoundTrip(TEST_METADATA, "name");
    Metadata.TokenMetadataRoundTrip(TEST_METADATA, "symbol");
    Metadata.TokenMetadataRoundTrip(TEST_METADATA, "image");
    Metadata.TokenMetadataRoundTrip(TEST_METADATA, "description");
  }

  /**
   * When each of its four values encodes to at most one cell, the test
   * jetton's metadata is built the same by the code as written.
   */
  lemma TestMetadataAsWritten()
    requires |Metadata.EncodeText(Metadata.Utf8, "Synthetic TZS")| <= Metadata.CELL_MAX_SIZE_BYTES
    requires |Metadata.EncodeText(Metadata.Utf8, "bTZS")| <= Metadata.CELL_MAX_SIZE_BYTES
    requires |Metadata.EncodeText(Metadata.Ascii, "https://example.com/image.png")| <= Metadata.CELL_MAX_SIZE_BYTES
    requires |Metadata.EncodeText(Metadata.Utf8, "some description for the test jetton")| <= Metadata.CELL_MAX_SIZE_BYTES
    ensures Metadata.TokenMetadataCellAsWritten(TEST_METADATA) == Success(TestMetadata())
  {
    var c := TestMetadata();
    TestFields();
    Metadata.KeySetsDisjoint();
    assert Metadata.ShortValues(TEST_METADATA) by {
      forall j | 0 <= j < |TEST_METADATA|
        ensures |Metadata.EncodeText(Metadata.KeyEncoding(TEST_METADATA[j].0).value, TEST_METADATA[j].1.value)|
             <= Metadata.CELL_MAX_SIZE_BYTES
      {
        if j == 0 {
        } else if j == 1 {
        } else if j == 2 {
        } else {
          assert j == 3;
        }
      }
    }
    Metadata.BuildsAgree(TEST_METADATA);
  }

  // ---------------------------------------------------------------------------
  // The scenarios in order, on one instance

  /** The value the mint scenario attaches, toNano('0.5') in nanotons (tests/Bridge.spec.ts:177). */
  const TEST_MINT_VALUE: nat := 500_000_000

  /** tests/Bridge.spec.ts:35-42: the fee address is the admin, the fee rate 1, the codes the wrappers load. */
  function DeployParams(admin: Address, oracle: Address): InitParams {
    InitParams(admin, oracle, admin, 1, JettonMinter.MinterCode, JettonWallet.WalletCode)
  }

  /** The bridge's address: deployed in the masterchain. */
  function DeployedAddress(p: InitParams): Address {
    ContractAddress(-1, StateInit(BridgeCode, StorageCell(InitialStorage(p))))
  }

  // The deploy, lock and unlock scenarios below each start from a freshly
  // deployed bridge. Only AddJetton modifies the contract and those three
  // do not read the registry, so they see the same results on the shared
  // instance of the test file. The jetton and burn scenarios, which do,
  // run on one instance, in order.

  /** tests/Bridge.spec.ts:54-75: the getter after deployment, for an admin treasury in workchain 0. */
  method RunDeployScenario(admin: Address, oracle: Address)
    returns (deployed: Option<BridgeData>)
    requires admin.workchain == 0
    ensures deployed == Some(BridgeData(0, admin.hash, {oracle.hash}, map[]))
  {
    var bridge := new BridgeContract(-1, DeployParams(admin, oracle));
    deployed := bridge.GetBridgeData();
  }

  /**
   * tests/Bridge.spec.ts:77-105: a lock sent through the bridge wrapper is
   * read back by the contract and logs the destination, the coin id, the
   * sender and the attached value.
   */
  method RunLockScenario(admin: Address, oracle: Address, user: Address,
                         destination: Uint160, coinId: Uint32, lockValue: Coins)
    returns (lock: Outcome)
    ensures lock == Accepted([EmitLog(LogCell(Log(destination, coinId, user.hash, lockValue)))])
  {
    var bridge := new BridgeContract(-1, DeployParams(admin, oracle));
    var lockMsg := SendLock(Some(lockValue), destination, coinId).value;
    var lockOp := ParseBridgeBody(lockMsg.body).value.op;
    assert lockMsg.value == lockValue && lockOp == BridgeOp.Lock(destination, coinId);
    lock := bridge.Lock(user, lockMsg.value, lockOp.destinationAddress, lockOp.destinationCoinId);
  }

  /** tests/Bridge.spec.ts:107-137: the same unlock pays out from the oracle and exits with 402 from the admin. */
  method RunUnlockScenarios(admin: Address, oracle: Address, user: Address,
                            unlockAmount: Coins)
    returns (unlocked: Outcome, unlockRefused: Outcome)
    requires admin.hash != oracle.hash
    ensures unlocked == Accepted([Pay(user, unlockAmount)])
    ensures unlockRefused == Rejected(NOT_ORACLE)
  {
    var bridge := new BridgeContract(-1, DeployParams(admin, oracle));
    var unlockMsg := SendUnlock(None, user, unlockAmount).value;
    var unlockOp := ParseBridgeBody(unlockMsg.body).value.op;
    assert unlockOp == BridgeOp.Unlock(user, unlockAmount);
    unlocked := bridge.Unlock(oracle, unlockOp.address, unlockOp.amount);
    unlockRefused := bridge.Unlock(admin, unlockOp.address, unlockOp.amount);
  }

  /**
   * tests/Bridge.spec.ts:140-236 on one instance: the admin registers the
   * test jetton, whose metadata is built by `buildTokenMetadataCell`, at
   * the predicted minter; a user's attempt exits with 403 and changes
   * nothing; the oracle mints through the registered minter into the
   * user's predicted wallet; and a burn from that wallet is logged.
   */
  method RunJettonScenarios(admin: Address, oracle: Address, user: Address,
                            coinId: Uint32, mintAmount: Coins, forwardAmount: Coins,
                            destination: Uint160, burnAmount: Coins)
    returns (added: Outcome, registered: Option<BridgeData>, addRefused: Outcome, afterRefusal: Option<BridgeData>,
             minted: Outcome, wallet: Option<Address>, burned: Outcome)
    requires user != admin
    ensures var minter := PredictedMinter(DeployedAddress(DeployParams(admin, oracle)), TestMetadata());
      && added == Accepted([DeployMinter(minter)])
      && registered == Some(BridgeData(admin.workchain, admin.hash, {oracle.hash}, map[coinId := minter]))
      && minted == Accepted([MintVia(minter, JettonWallet.CalculateAddress(user, minter), mintAmount, forwardAmount)])
      && wallet == Some(JettonWallet.CalculateAddress(user, minter))
    ensures addRefused == Rejected(NOT_ADMIN) && afterRefusal == registered
    ensures burned == Accepted([EmitLog(LogCell(Log(destination, coinId, user.hash, burnAmount)))])
  {
    var p := DeployParams(admin, oracle);
    var bridge := new BridgeContract(-1, p);
    var metadata := Metadata.BuildTokenMetadataCell(TEST_METADATA);
    assert metadata == Success(TestMetadata());
    ghost var minter := PredictedMinter(DeployedAddress(p), metadata.value);
    DeployedMinterPredicted(DeployedAddress(p), metadata.value);
    DeployedWalletPredicted(user, minter);

    var addMsg := SendAddJetton(None, coinId, metadata.value).value;
    var addOp := ParseBridgeBody(addMsg.body).value.op;
    assert addOp == BridgeOp.AddJetton(coinId, metadata.value);
    added := bridge.AddJetton(admin, addOp.coinId, addOp.data);
    assert bridge.jettons == map[coinId := minter];
    registered := bridge.GetBridgeData();
    addRefused := bridge.AddJetton(user, addOp.coinId, addOp.data);
    afterRefusal := bridge.GetBridgeData();

    var mintMsg := SendMintJetton(Some(TEST_MINT_VALUE), user, coinId, mintAmount, forwardAmount).value;
    var mintOp := ParseBridgeBody(mintMsg.body).value.op;
    assert mintOp == BridgeOp.Mint(user, coinId, mintAmount, forwardAmount);
    minted := bridge.Mint(oracle, mintOp.address, mintOp.coinId, mintOp.amount, mintOp.forwardAmount);

    wallet, burned := RunBurnScenario(bridge, user, destination, coinId, burnAmount);
  }

  /**
   * tests/Bridge.spec.ts:204-236, on the instance where the jetton is
   * registered: the getter names the user's wallet, a burn sent through the
   * wallet wrapper with its default value reaches the bridge as the amount,
   * destination and coin id it was given, and the bridge logs them with the
   * owner as sender.
   */
  method RunBurnScenario(bridge: BridgeContract, user: Address, destination: Uint160, coinId: Uint32, burnAmount: Coins)
    returns (wallet: Option<Address>, burned: Outcome)
    requires coinId in bridge.jettons
    ensures wallet == Some(DeployedWallet(user, bridge.jettons[coinId], bridge.walletCode))
    ensures burned == Accepted([EmitLog(LogCell(Log(destination, coinId, user.hash, burnAmount)))])
  {
    var burnMsg := JettonWallet.SendBurn(None, burnAmount, coinId, destination);
    assert burnMsg.Success?;
    var burn := JettonWallet.ParseBurnBody(burnMsg.value.body).value;
    assert burn == JettonWallet.BurnRequest(QUERY_ID, burnAmount, None, destination, coinId);
    burned := bridge.Burned(user, burn.amount, burn.destination, burn.coinId);
    wallet := bridge.JettonWalletAddress(coinId, user);
  }
}
