/**
 * The TON cell substrate as the core uses it: cells of at most 1023 bits and
 * four references, the TL-B layouts of section 3.1 of the TON Blockchain
 * document for unsigned and signed integers, `Coins` (VarUInteger 16) and
 * `MsgAddressInt` (`addr_std$10`, anycast absent, written as bit 0), and HashmapE dictionaries
 * (bit 0 when empty, else bit 1 and one reference to the root of the trie).
 * The trie itself is not modelled: `DictRoot` stands for its root cell and
 * keeps the abstract key-to-leaf map. A leaf is what the dictionary's value
 * serialiser writes in place (for a cell value, one reference to it).
 */
module Cells {
  import opened Wrappers
  import opened Bits

  const MaxBits: nat := 1023
  const MaxRefs: nat := 4

  type Int8 = x: int | -128 <= x < 128
  type Uint32 = x: nat | x < Pow2(32)
  type Uint160 = x: nat | x < Pow2(160)
  type Uint256 = x: nat | x < Pow2(256)
  /** The amounts a VarUInteger 16 can hold: at most fifteen bytes. */
  type Coins = x: nat | x < Pow2(120)

  datatype Cell =
    | Cell(bits: seq<bool>, refs: seq<Cell>)
    | DictRoot(keyLen: nat, entries: map<nat, Cell>)

  const EmptyCell: Cell := Cell([], [])

  /** An ordinary cell within the per-cell limits. */
  predicate Fits(c: Cell) {
    c.Cell? && |c.bits| <= MaxBits && |c.refs| <= MaxRefs
  }

  /** An internal address: signed 8-bit workchain and 256-bit account hash. */
  datatype Address = Address(workchain: Int8, hash: Uint256)

  /** What ton-core throws while building. */
  datatype CellError = ValueOutOfRange | BitOverflow | RefOverflow

  /** An init state: code and data, the two references of a StateInit cell. */
  datatype StateInit = StateInit(code: Cell, data: Cell)

  /** The representation hash of the StateInit cell: a cryptographic digest, left uninterpreted. */
  const StateInitHash: StateInit -> Uint256

  /** `contractAddress(workchain, init)`: the given workchain and the hash of the init state. */
  function ContractAddress(workchain: Int8, init: StateInit): (a: Address)
    ensures a.workchain == workchain
  {
    Address(workchain, StateInitHash(init))
  }

  // ---------------------------------------------------------------------------
  // Field layouts

  /** Minimal number of bytes holding v (0 for 0), as `storeVarUint` computes it. */
  function ByteLen(v: nat): (k: nat)
    ensures v < Pow2(8 * k)
    ensures k > 0 ==> Pow2(8 * (k - 1)) <= v
  {
    if v == 0 then 0
    else
      var k := ByteLen(v / 256);
      Pow2Byte();
      Pow2Add(8 * k, 8);
      assert Pow2(8 * (k + 1)) == 256 * Pow2(8 * k);
      if k > 0 then Pow2Add(8 * (k - 1), 8); 1 + k else 1 + k
  }

  lemma ByteLenBound(v: nat, m: nat)
    requires v < Pow2(8 * m)
    ensures ByteLen(v) <= m
  {
    var k := ByteLen(v);
    if k > 0 {
      Pow2Below(8 * (k - 1), 8 * m);
    }
  }

  /** VarUInteger 16: a 4-bit byte length, then that many bytes big-endian. */
  function CoinsBits(v: Coins): (r: seq<bool>)
    ensures |r| == 4 + 8 * ByteLen(v)
    ensures |r| <= 4 + 8 * 15
  {
    ByteLenBound(v, 15);
    UintBits(ByteLen(v), 4) + UintBits(v, 8 * ByteLen(v))
  }

  /** `storeAddress`: `addr_none$00` for null, else `addr_std$10`, anycast bit 0, workchain, hash. */
  function AddressBits(a: Option<Address>): (r: seq<bool>)
    ensures |r| == if a.Some? then 267 else 2
  {
    Pow2Byte();
    match a
    case None => [false, false]
    case Some(x) => [true, false] + ([false] + (IntBits(x.workchain, 8) + UintBits(x.hash, 256)))
  }

  // ---------------------------------------------------------------------------
  // Building, one store at a time (the value-level view of a ton-core Builder)

  function StoreBits(b: Cell, s: seq<bool>): (r: Result<Cell, CellError>)
    requires b.Cell?
    ensures r.Success? <==> |b.bits| + |s| <= MaxBits
    ensures r.Success? ==> r.value == Cell(b.bits + s, b.refs)
  {
    if |b.bits| + |s| > MaxBits then Failure(BitOverflow) else Success(Cell(b.bits + s, b.refs))
  }

  function StoreUint(b: Cell, v: int, n: nat): (r: Result<Cell, CellError>)
    requires b.Cell?
    ensures r.Success? <==> 0 <= v < Pow2(n) && |b.bits| + n <= MaxBits
    ensures r.Success? ==> r.value == Cell(b.bits + UintBits(v, n), b.refs)
  {
    if v < 0 || v >= Pow2(n) then Failure(ValueOutOfRange) else StoreBits(b, UintBits(v, n))
  }

  function StoreInt(b: Cell, v: int, n: nat): (r: Result<Cell, CellError>)
    requires b.Cell?
    ensures n >= 1 ==> (r.Success? <==> -(Pow2(n - 1) as int) <= v < Pow2(n - 1) && |b.bits| + n <= MaxBits)
    ensures n >= 1 && r.Success? ==> r.value == Cell(b.bits + IntBits(v, n), b.refs)
  {
    if n == 0 then (if v == 0 then Success(b) else Failure(ValueOutOfRange))
    else if v < -(Pow2(n - 1) as int) || v >= Pow2(n - 1) then Failure(ValueOutOfRange)
    else StoreBits(b, IntBits(v, n))
  }

  function StoreBuffer(b: Cell, s: seq<byte>): (r: Result<Cell, CellError>)
    requires b.Cell?
    ensures r.Success? <==> |b.bits| + 8 * |s| <= MaxBits
    ensures r.Success? ==> r.value == Cell(b.bits + BytesBits(s), b.refs)
  {
    StoreBits(b, BytesBits(s))
  }

  function StoreCoins(b: Cell, v: int): (r: Result<Cell, CellError>)
    requires b.Cell?
    ensures r.Success? <==> 0 <= v < Pow2(120) && |b.bits| + |CoinsBits(v)| <= MaxBits
    ensures r.Success? ==> r.value == Cell(b.bits + CoinsBits(v), b.refs)
  {
    if v < 0 || v >= Pow2(120) then Failure(ValueOutOfRange) else StoreBits(b, CoinsBits(v))
  }

  function StoreAddress(b: Cell, a: Option<Address>): (r: Result<Cell, CellError>)
    requires b.Cell?
    ensures r.Success? <==> |b.bits| + |AddressBits(a)| <= MaxBits
    ensures r.Success? ==> r.value == Cell(b.bits + AddressBits(a), b.refs)
  {
    StoreBits(b, AddressBits(a))
  }

  function StoreRef(b: Cell, c: Cell): (r: Result<Cell, CellError>)
    requires b.Cell?
    ensures r.Success? <==> |b.refs| < MaxRefs
    ensures r.Success? ==> r.value == Cell(b.bits, b.refs + [c])
  {
    if |b.refs| >= MaxRefs then Failure(RefOverflow) else Success(Cell(b.bits, b.refs + [c]))
  }

  function StoreRefs(b: Cell, cs: seq<Cell>): (r: Result<Cell, CellError>)
    requires b.Cell?
    ensures r.Success? ==> r.value.Cell?
    decreases |cs|
  {
    if cs == [] then Success(b)
    else
      var b1 :- StoreRef(b, cs[0]);
      StoreRefs(b1, cs[1..])
  }

  /** Storing several references succeeds exactly when they all fit, and appends them in order. */
  lemma {:induction false} StoreRefsAppend(b: Cell, cs: seq<Cell>)
    requires b.Cell? && |b.refs| <= MaxRefs
    ensures StoreRefs(b, cs).Success? <==> |b.refs| + |cs| <= MaxRefs
    ensures StoreRefs(b, cs).Success? ==> StoreRefs(b, cs).value == Cell(b.bits, b.refs + cs)
    decreases |cs|
  {
    if cs != [] && |b.refs| < MaxRefs {
      var b1 := Cell(b.bits, b.refs + [cs[0]]);
      StoreRefsAppend(b1, cs[1..]);
      assert b.refs + [cs[0]] + cs[1..] == b.refs + cs;
    } else if cs == [] {
      assert b.refs + cs == b.refs;
    }
  }

  /** Storing a slice succeeds exactly when its bits and references fit, and appends both. */
  lemma StoreSliceAppend(b: Cell, c: Cell)
    requires b.Cell? && c.Cell? && |b.refs| <= MaxRefs
    ensures StoreSlice(b, c).Success? <==> |b.bits| + |c.bits| <= MaxBits && |b.refs| + |c.refs| <= MaxRefs
    ensures StoreSlice(b, c).Success? ==> StoreSlice(b, c).value == Cell(b.bits + c.bits, b.refs + c.refs)
  {
    if |b.bits| + |c.bits| <= MaxBits {
      StoreRefsAppend(Cell(b.bits + c.bits, b.refs), c.refs);
    }
  }

  /** `storeDict`: HashmapE with keys of keyLen bits. */
  function StoreDict(b: Cell, keyLen: nat, d: map<nat, Cell>): (r: Result<Cell, CellError>)
    requires b.Cell?
    ensures r.Success? <==> |b.bits| < MaxBits && (d != map[] ==> |b.refs| < MaxRefs)
    ensures r.Success? ==> r.value == Cell(b.bits + DictBits(d), b.refs + DictRefs(keyLen, d))
  {
    if d == map[] then StoreBits(b, [false])
    else
      var b1 :- StoreBits(b, [true]);
      StoreRef(b1, DictRoot(keyLen, d))
  }

  /** `storeSlice(c.beginParse())`: all of c's bits, then all of its references. */
  function StoreSlice(b: Cell, c: Cell): (r: Result<Cell, CellError>)
    requires b.Cell? && c.Cell?
    ensures r.Success? ==> r.value.Cell?
  {
    var b1 :- StoreBits(b, c.bits);
    StoreRefs(b1, c.refs)
  }

  /** The leaf `Dictionary.Values.Cell()` writes: one reference to the value. */
  function RefLeaf(c: Cell): Cell {
    Cell([], [c])
  }

  // ---------------------------------------------------------------------------
  // Reading (a Slice is a cursor over what remains of a cell)

  datatype Slice = Slice(bits: seq<bool>, refs: seq<Cell>)

  datatype Loaded<+T> = Loaded(value: T, rest: Slice)

  /** Nothing is left to read. */
  predicate Ended(s: Slice) {
    s.bits == [] && s.refs == []
  }

  function LoadBits(s: Slice, n: nat): Option<Loaded<seq<bool>>> {
    if |s.bits| < n then None else Some(Loaded(s.bits[..n], Slice(s.bits[n..], s.refs)))
  }

  function LoadUint(s: Slice, n: nat): (r: Option<Loaded<nat>>)
    ensures r.Some? ==> r.value.value < Pow2(n)
  {
    if |s.bits| < n then None
    else Some(Loaded(BitsToNat(s.bits[..n]), Slice(s.bits[n..], s.refs)))
  }

  function LoadInt8(s: Slice): (r: Option<Loaded<Int8>>) {
    if |s.bits| < 8 then None
    else
      Pow2Byte();
      var u := BitsToNat(s.bits[..8]);
      var w: Int8 := if u >= 128 then u - 256 else u;
      Some(Loaded(w, Slice(s.bits[8..], s.refs)))
  }

  function LoadCoins(s: Slice): (r: Option<Loaded<nat>>) {
    var len :- LoadUint(s, 4);
    var amount :- LoadUint(len.rest, 8 * len.value);
    Some(Loaded(amount.value, amount.rest))
  }

  /** `loadMaybeAddress`: null for `addr_none`, the address for `addr_std` without anycast. */
  function LoadAddress(s: Slice): Option<Loaded<Option<Address>>> {
    var tag :- LoadUint(s, 2);
    if tag.value == 0 then Some(Loaded(None, tag.rest))
    else if tag.value != 2 then None
    else
      var a :- LoadStdAddress(tag.rest);
      Some(Loaded(Some(a.value), a.rest))
  }

  /** What follows the `addr_std$10` tag: the anycast bit (which must be 0), the workchain, the hash. */
  function LoadStdAddress(s: Slice): Option<Loaded<Address>> {
    var anycast :- LoadUint(s, 1);
    if anycast.value != 0 then None
    else
      var wc :- LoadInt8(anycast.rest);
      var hash :- LoadUint(wc.rest, 256);
      Some(Loaded(Address(wc.value, hash.value), hash.rest))
  }

  function LoadRef(s: Slice): Option<Loaded<Cell>> {
    if s.refs == [] then None else Some(Loaded(s.refs[0], Slice(s.bits, s.refs[1..])))
  }

  /** `loadDict`: the abstract map of a HashmapE with keys of keyLen bits. */
  function LoadDict(s: Slice, keyLen: nat): Option<Loaded<map<nat, Cell>>> {
    var present :- LoadUint(s, 1);
    if present.value == 0 then Some(Loaded(map[], present.rest))
    else
      var root :- LoadRef(present.rest);
      match root.value
      case DictRoot(k, e) =>
        if k == keyLen && e != map[] then Some(Loaded(e, root.rest)) else None
      case Cell(_, _) => None
  }

  // ---------------------------------------------------------------------------
  // Reading back what was stored

  lemma LoadUintStored(v: nat, n: nat, rest: seq<bool>, refs: seq<Cell>)
    requires v < Pow2(n)
    ensures LoadUint(Slice(UintBits(v, n) + rest, refs), n) == Some(Loaded(v, Slice(rest, refs)))
  {
    var b := UintBits(v, n) + rest;
    assert b[..n] == UintBits(v, n);
    assert b[n..] == rest;
    UintBitsDecode(v, n);
  }

  lemma LoadInt8Stored(v: Int8, rest: seq<bool>, refs: seq<Cell>)
    ensures (Pow2Byte(); LoadInt8(Slice(IntBits(v, 8) + rest, refs))) == Some(Loaded(v, Slice(rest, refs)))
  {
    Pow2Byte();
    var b := IntBits(v, 8) + rest;
    assert b[..8] == IntBits(v, 8);
    assert b[8..] == rest;
    IntBitsDecode(v, 8);
  }

  lemma LoadCoinsStored(v: Coins, rest: seq<bool>, refs: seq<Cell>)
    ensures LoadCoins(Slice(CoinsBits(v) + rest, refs)) == Some(Loaded(v as nat, Slice(rest, refs)))
  {
    Pow2Values();
    ByteLenBound(v, 15);
    var k := ByteLen(v);
    assert CoinsBits(v) + rest == UintBits(k, 4) + (UintBits(v, 8 * k) + rest);
    LoadUintStored(k, 4, UintBits(v, 8 * k) + rest, refs);
    LoadUintStored(v, 8 * k, rest, refs);
  }

  lemma LoadStdAddressStored(x: Address, rest: seq<bool>, refs: seq<Cell>)
    ensures LoadAddress(Slice(AddressBits(Some(x)) + rest, refs)) == Some(Loaded(Some(x), Slice(rest, refs)))
  {
    Pow2Byte();
    var t1 := UintBits(0, 1) + (IntBits(x.workchain, 8) + (UintBits(x.hash, 256) + rest));
    AddressBitsSplit(x, rest);
    LoadUintStored(2, 2, t1, refs);
    LoadStdAddressTail(x, rest, refs);
  }

  lemma AddressBitsSplit(x: Address, rest: seq<bool>)
    ensures (Pow2Byte(); AddressBits(Some(x)) + rest
         == UintBits(2, 2) + (UintBits(0, 1) + (IntBits(x.workchain, 8) + (UintBits(x.hash, 256) + rest))))
  {
    Pow2Byte();
    var wc := IntBits(x.workchain, 8);
    var hash := UintBits(x.hash, 256);
    assert UintBits(2, 2) == [true, false];
    assert UintBits(0, 1) == [false];
    AppendAssoc([true, false], [false] + (wc + hash), rest);
    AppendAssoc([false], wc + hash, rest);
    AppendAssoc(wc, hash, rest);
  }

  lemma LoadStdAddressTail(x: Address, rest: seq<bool>, refs: seq<Cell>)
    ensures (Pow2Byte(); LoadStdAddress(Slice(UintBits(0, 1) + (IntBits(x.workchain, 8) + (UintBits(x.hash, 256) + rest)), refs)))
         == Some(Loaded(x, Slice(rest, refs)))
  {
    Pow2Byte();
    var t3 := UintBits(x.hash, 256) + rest;
    var t2 := IntBits(x.workchain, 8) + t3;
    LoadUintStored(0, 1, t2, refs);
    LoadInt8Stored(x.workchain, t3, refs);
    LoadUintStored(x.hash, 256, rest, refs);
  }

  lemma LoadAddressStored(a: Option<Address>, rest: seq<bool>, refs: seq<Cell>)
    ensures LoadAddress(Slice(AddressBits(a) + rest, refs)) == Some(Loaded(a, Slice(rest, refs)))
  {
    if a.None? {
      BitZero(0);
      BitZero(1);
      assert UintBits(0, 2) == [false, false];
      assert AddressBits(a) + rest == UintBits(0, 2) + rest;
      LoadUintStored(0, 2, rest, refs);
    } else {
      LoadStdAddressStored(a.value, rest, refs);
    }
  }

  /** The bits and the reference `storeDict` writes. */
  function DictBits(d: map<nat, Cell>): seq<bool> {
    if d == map[] then [false] else [true]
  }

  function DictRefs(keyLen: nat, d: map<nat, Cell>): seq<Cell> {
    if d == map[] then [] else [DictRoot(keyLen, d)]
  }

  lemma LoadDictStored(keyLen: nat, d: map<nat, Cell>, rest: seq<bool>, refs: seq<Cell>)
    ensures LoadDict(Slice(DictBits(d) + rest, DictRefs(keyLen, d) + refs), keyLen)
         == Some(Loaded(d, Slice(rest, refs)))
  {
    if d == map[] {
      assert DictBits(d) + rest == UintBits(0, 1) + rest;
      LoadUintStored(0, 1, rest, DictRefs(keyLen, d) + refs);
      assert DictRefs(keyLen, d) + refs == refs;
    } else {
      assert DictBits(d) + rest == UintBits(1, 1) + rest;
      LoadUintStored(1, 1, rest, DictRefs(keyLen, d) + refs);
      assert (DictRefs(keyLen, d) + refs)[1..] == refs;
    }
  }
}
