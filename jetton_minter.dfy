/**
 * The `JettonMinter` wrapper: the init data from which the bridge's minter
 * for a jetton is predicted. Only the total supply, the admin and the
 * content vary; the minter and wallet codes are fixed.
 */
module JettonMinter {
  import opened Wrappers
  import opened Bits
  import opened Cells
  import JettonWallet

  /** The compiled minter contract (read from its build artefact); opaque here. */
  const MinterCode: Cell

  /** A minter's init data read back: total supply, admin, content and the wallet code it deploys. */
  datatype MinterData = MinterData(totalSupply: nat, admin: Address, content: Cell, walletCode: Cell)

  /**
   * The data cell of wrappers/JettonMinter.ts:11-16: coins(totalSupply) and
   * the admin address, then exactly two references, the content first and
   * the wallet code second. `storeCoins` throws on a negative supply or one
   * of more than fifteen bytes.
   */
  function MinterDataCell(totalSupply: int, admin: Address, content: Cell): (r: Result<Cell, CellError>)
    ensures r.Success? <==> 0 <= totalSupply < Pow2(120)
    ensures r.Success? ==> Fits(r.value)
    ensures r.Success? ==> r.value == Cell(CoinsBits(totalSupply) + AddressBits(Some(admin)), [content, JettonWallet.WalletCode])
  {
    var b1 :- StoreCoins(EmptyCell, totalSupply);
    assert b1.bits == CoinsBits(totalSupply);
    var b2 := StoreAddress(b1, Some(admin)).value;
    var b3 := StoreRef(b2, content).value;
    StoreRef(b3, JettonWallet.WalletCode)
  }

  function ReadMinterData(c: Cell): Option<MinterData> {
    if !c.Cell? then None
    else
      var supply :- LoadCoins(Slice(c.bits, c.refs));
      var admin :- LoadAddress(supply.rest);
      var content :- LoadRef(admin.rest);
      var walletCode :- LoadRef(content.rest);
      if admin.value.None? || !Ended(walletCode.rest) then None
      else Some(MinterData(supply.value, admin.value.value, content.value, walletCode.value))
  }

  /** The data cell reads back as the supply, the admin, the content and the wallet code, in that order. */
  lemma MinterDataRoundTrip(totalSupply: Coins, admin: Address, content: Cell)
    ensures MinterDataCell(totalSupply, admin, content).Success?
    ensures ReadMinterData(MinterDataCell(totalSupply, admin, content).value)
         == Some(MinterData(totalSupply, admin, content, JettonWallet.WalletCode))
  {
    var c := MinterDataCell(totalSupply, admin, content).value;
    var refs := [content, JettonWallet.WalletCode];
    var tail := AddressBits(Some(admin));
    LoadCoinsStored(totalSupply, tail, refs);
    assert LoadCoins(Slice(c.bits, c.refs)) == Some(Loaded(totalSupply as nat, Slice(tail, refs)));
    assert tail == tail + [];
    LoadStdAddressStored(admin, [], refs);
    assert LoadAddress(Slice(tail, refs)) == Some(Loaded(Some(admin), Slice([], refs)));
    assert refs[1..][1..] == [];
  }

  /** Different supplies, admins or contents give different init data. */
  lemma MinterDataInjective(totalSupply: Coins, admin: Address, content: Cell,
                            totalSupply': Coins, admin': Address, content': Cell)
    requires MinterDataCell(totalSupply, admin, content) == MinterDataCell(totalSupply', admin', content')
    ensures totalSupply == totalSupply' && admin == admin' && content == content'
  {
    MinterDataRoundTrip(totalSupply, admin, content);
    MinterDataRoundTrip(totalSupply', admin', content');
  }

  /**
   * `calculateAddress` (wrappers/JettonMinter.ts:10-20): always in workchain
   * 0, from the fixed minter code and the data cell; it throws exactly when
   * the data cell cannot be built.
   */
  function CalculateAddress(totalSupply: int, admin: Address, content: Cell): (r: Result<Address, CellError>)
    ensures r.Success? <==> 0 <= totalSupply < Pow2(120)
    ensures r.Success? ==> r.value.workchain == 0
    ensures r.Success? ==> r.value.hash == StateInitHash(StateInit(MinterCode, MinterDataCell(totalSupply, admin, content).value))
  {
    var data :- MinterDataCell(totalSupply, admin, content);
    Success(ContractAddress(0, StateInit(MinterCode, data)))
  }

  /** The data cells two predictions hash agree exactly when their inputs agree. */
  lemma CalculateAddressInputs(totalSupply: Coins, admin: Address, content: Cell,
                               totalSupply': Coins, admin': Address, content': Cell)
    ensures MinterDataCell(totalSupply, admin, content) == MinterDataCell(totalSupply', admin', content')
        <==> totalSupply == totalSupply' && admin == admin' && content == content'
  {
    if MinterDataCell(totalSupply, admin, content) == MinterDataCell(totalSupply', admin', content') {
      MinterDataInjective(totalSupply, admin, content, totalSupply', admin', content');
    }
  }
}
