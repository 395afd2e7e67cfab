/**
 * What every wrapper's `send*` hands to `provider.internal`: an attached
 * value in nanotons and a body made of a 32-bit op, a 64-bit query id of 0
 * and the op's payload, copied in with `storeSlice`.
 */
module Messages {
  import opened Wrappers
  import opened Bits
  import opened Cells

  /** `toNano('1')`: nanotons per TON. */
  const TON: nat := 1_000_000_000

  const QUERY_ID: nat := 0
  const HEADER_BITS: nat := 32 + 64

  /** An internal message from a wrapper: the value it attaches and its body. */
  datatype Message = Message(value: nat, body: Cell)

  /** `value ?? fallback`: the value given, else the wrapper's default. */
  function AttachedValue(value: Option<nat>, fallback: nat): (v: nat)
    ensures value.Some? ==> v == value.value
    ensures value.None? ==> v == fallback
  {
    value.GetOr(fallback)
  }

  /** The start of a body: op, query id, and what follows. */
  datatype Header = Header(op: nat, queryId: nat, rest: Slice)

  function ReadHeader(c: Cell): Option<Header> {
    if !c.Cell? then None
    else
      var op :- LoadUint(Slice(c.bits, c.refs), 32);
      var queryId :- LoadUint(op.rest, 64);
      Some(Header(op.value, queryId.value, queryId.rest))
  }

  /**
   * `beginCell().storeUint(op, 32).storeUint(0, 64).storeSlice(payload)`:
   * fails only when op is not a 32-bit value or the payload does not fit
   * beside the header; reading the header back gives the op, query id 0
   * and exactly the payload.
   */
  function MessageBody(op: nat, payload: Cell): (r: Result<Cell, CellError>)
    requires payload.Cell? && |payload.refs| <= MaxRefs
    ensures r.Success? <==> op < Pow2(32) && |payload.bits| <= MaxBits - HEADER_BITS
    ensures r.Success? ==> r.value.Cell? && |r.value.bits| == HEADER_BITS + |payload.bits| && r.value.refs == payload.refs
    ensures r.Success? ==> ReadHeader(r.value) == Some(Header(op, QUERY_ID, Slice(payload.bits, payload.refs)))
  {
    var b1 :- StoreUint(EmptyCell, op, 32);
    var b2 := StoreUint(b1, QUERY_ID, 64).value;
    assert b1.bits == UintBits(op, 32) && b1.refs == [];
    StoreSliceAppend(b2, payload);
    var body :- StoreSlice(b2, payload);
    HeaderRead(op, payload);
    Success(body)
  }

  lemma HeaderRead(op: nat, payload: Cell)
    requires op < Pow2(32) && payload.Cell?
    ensures ReadHeader(Cell(UintBits(op, 32) + UintBits(QUERY_ID, 64) + payload.bits, payload.refs))
         == Some(Header(op, QUERY_ID, Slice(payload.bits, payload.refs)))
  {
    assert UintBits(op, 32) + UintBits(QUERY_ID, 64) + payload.bits == UintBits(op, 32) + (UintBits(QUERY_ID, 64) + payload.bits);
    LoadUintStored(op, 32, UintBits(QUERY_ID, 64) + payload.bits, payload.refs);
    LoadUintStored(QUERY_ID, 64, payload.bits, payload.refs);
  }
}
