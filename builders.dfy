/**
 * ton-core's mutable `Builder` (what `beginCell()` returns), proved against
 * the value-level store steps of module Cells. A store that would throw in
 * ton-core reports `false` here and leaves the builder as it was.
 */
module Builders {
  import opened Bits
  import opened Cells

  class Builder {
    var bits: seq<bool>
    var refs: seq<Cell>

    constructor ()
      ensures bits == [] && refs == []
    {
      bits, refs := [], [];
    }

    /** `endCell()`: the cell holding what was stored so far; the builder itself is unchanged. */
    function EndCell(): (c: Cell)
      reads this
      ensures c.Cell?
    {
      Cell(bits, refs)
    }

    method StoreUint(v: int, n: nat) returns (ok: bool)
      modifies this
      ensures ok == Cells.StoreUint(old(EndCell()), v, n).Success?
      ensures ok ==> EndCell() == Cells.StoreUint(old(EndCell()), v, n).value
      ensures !ok ==> bits == old(bits) && refs == old(refs)
    {
      var r := Cells.StoreUint(EndCell(), v, n);
      ok := r.Success?;
      if ok {
        bits, refs := r.value.bits, r.value.refs;
      }
    }

    /** `storeBuffer(s)`: the bytes of s, eight bits each. */
    method StoreBuffer(s: seq<byte>) returns (ok: bool)
      modifies this
      ensures ok == Cells.StoreBuffer(old(EndCell()), s).Success?
      ensures ok ==> EndCell() == Cells.StoreBuffer(old(EndCell()), s).value
      ensures !ok ==> bits == old(bits) && refs == old(refs)
    {
      var r := Cells.StoreBuffer(EndCell(), s);
      ok := r.Success?;
      if ok {
        bits, refs := r.value.bits, r.value.refs;
      }
    }

    /** `storeRef(cell)`. */
    method StoreCell(c: Cell) returns (ok: bool)
      modifies this
      ensures ok == Cells.StoreRef(old(EndCell()), c).Success?
      ensures ok ==> EndCell() == Cells.StoreRef(old(EndCell()), c).value
      ensures !ok ==> bits == old(bits) && refs == old(refs)
    {
      var r := Cells.StoreRef(EndCell(), c);
      ok := r.Success?;
      if ok {
        bits, refs := r.value.bits, r.value.refs;
      }
    }

    /**
     * `storeRef(builder)`: ton-core finalises the other builder (`endCell()`)
     * at the moment of the call, so what is stored into it afterwards is not
     * part of the reference.
     */
    method StoreRef(other: Builder) returns (ok: bool)
      modifies this
      ensures ok == Cells.StoreRef(old(EndCell()), old(other.EndCell())).Success?
      ensures ok ==> EndCell() == Cells.StoreRef(old(EndCell()), old(other.EndCell())).value
      ensures !ok ==> bits == old(bits) && refs == old(refs)
    {
      var snapshot := other.EndCell();
      ok := StoreCell(snapshot);
    }
  }
}
