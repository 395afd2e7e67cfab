/**
 * The TEP-64 (Token Data Standard) on-chain content cell that
 * `buildTokenMetadataCell` lays out: the 8-bit `onchain#00` prefix and a
 * HashmapE from sha256(key name) to a `snake#00` cell holding the key's value,
 * split into chunks of at most 126 bytes across a chain of cells joined by
 * single references. The build is modelled twice: as written (its key check
 * also lets inherited names through, and its loop keeps only the first 126
 * bytes of a value) and corrected.
 */
module Metadata {
  import opened Wrappers
  import opened Bits
  import opened Cells
  import opened Builders

  datatype TextEncoding = Utf8 | Ascii

  /** `Buffer.from(v, encoding)`: Node's text encoders, left abstract. */
  const EncodeText: (TextEncoding, string) -> seq<byte>

  /** `sha256(k)`: the 32-byte digest of a key name read as a 256-bit key; left uninterpreted. */
  const Sha256: string -> Uint256

  const ONCHAIN_CONTENT_PREFIX: int := 0
  const SNAKE_PREFIX: nat := 0
  const CELL_CAPACITY: nat := 1023
  const PREFIX_SIZE: nat := 8
  /** floor((CELL_CAPACITY - PREFIX_SIZE) / 8): the bytes left in a cell once the prefix is in. */
  const CELL_MAX_SIZE_BYTES: nat := 126
  const KEYLEN: nat := 256

  const MetadataKeys: set<string> := {"name", "description", "image", "symbol"}

  function Min(a: nat, b: nat): nat {
    if a <= b then a else b
  }

  // ---------------------------------------------------------------------------
  // Keys

  /** `jettonOnChainMetadataSpec`: the closed key set, `image` in ASCII and the rest in UTF-8. */
  function KeyEncoding(k: string): (e: Option<TextEncoding>)
    ensures e.Some? <==> k in MetadataKeys
    ensures e == Some(Ascii) <==> k == "image"
  {
    if k == "image" then Some(Ascii)
    else if k == "name" || k == "description" || k == "symbol" then Some(Utf8)
    else None
  }

  /** The members every plain JavaScript object inherits from `Object.prototype`. */
  const ObjectPrototypeNames: set<string> := {
    "constructor", "hasOwnProperty", "isPrototypeOf", "propertyIsEnumerable",
    "toLocaleString", "toString", "valueOf", "__proto__",
    "__defineGetter__", "__defineSetter__", "__lookupGetter__", "__lookupSetter__"
  }

  /**
   * The key check as written: a property lookup on an object literal, so an
   * inherited member is found too and passes the truthiness test; given that
   * (non-string) member as its encoding, `Buffer.from` falls back to UTF-8.
   * The result is the encoding the value is then stored with, None if the
   * build throws.
   */
  function KeyEncodingAsWritten(k: string): (e: Option<TextEncoding>)
    ensures k in MetadataKeys ==> e == KeyEncoding(k)
    ensures e.Some? <==> k in MetadataKeys || k in ObjectPrototypeNames
  {
    if k in MetadataKeys then KeyEncoding(k)
    else if k in ObjectPrototypeNames then Some(Utf8)
    else None
  }

  /** No supported key is an inherited name, so the check as written differs only on the inherited names. */
  lemma KeySetsDisjoint()
    ensures MetadataKeys !! ObjectPrototypeNames
  {
  }

  /** A key outside the closed set that the check as written lets through. */
  lemma InheritedNameAccepted()
    ensures "toString" !in MetadataKeys
    ensures KeyEncodingAsWritten("toString") == Some(Utf8)
    ensures KeyEncoding("toString") == None
  {
  }

  // ---------------------------------------------------------------------------
  // Snake chains

  /** How the loop cuts a value: full chunks of CELL_MAX_SIZE_BYTES bytes and a last, shorter one. */
  function SnakeChunks(data: seq<byte>): (cs: seq<seq<byte>>)
    ensures |cs| >= 1
    decreases |data|
  {
    if |data| <= CELL_MAX_SIZE_BYTES then [data]
    else [data[..CELL_MAX_SIZE_BYTES]] + SnakeChunks(data[CELL_MAX_SIZE_BYTES..])
  }

  function Flatten(cs: seq<seq<byte>>): seq<byte> {
    if cs == [] then [] else cs[0] + Flatten(cs[1..])
  }

  /** One cell per chunk, each but the last with a single reference to the next. */
  function ChainOf(cs: seq<seq<byte>>): (c: Cell)
    requires |cs| >= 1
    ensures c.Cell?
    decreases |cs|
  {
    Cell(BytesBits(cs[0]), if |cs| == 1 then [] else [ChainOf(cs[1..])])
  }

  /** The snake root meant by tests/helpers.ts:29-45: the prefix, then the chain of the chunks. */
  function SnakeRoot(data: seq<byte>): (c: Cell)
    ensures c.Cell?
  {
    var chain := ChainOf(SnakeChunks(data));
    Cell(UintBits(SNAKE_PREFIX, PREFIX_SIZE) + chain.bits, chain.refs)
  }

  /** Reading continuation cells: the bytes of the cell, then those behind its single reference. */
  function ReadChain(c: Cell): Option<seq<byte>>
    decreases c
  {
    match c
    case DictRoot(_, _) => None
    case Cell(bits, refs) =>
      if |bits| % 8 != 0 || |refs| > 1 then None
      else if refs == [] then Some(BitsToBytes(bits))
      else
        var tail :- ReadChain(refs[0]);
        Some(BitsToBytes(bits) + tail)
  }

  /** Reading a snake root: the 8-bit zero prefix, then the chain. */
  function ReadSnake(c: Cell): Option<seq<byte>> {
    if !c.Cell? || |c.bits| < PREFIX_SIZE || BitsToNat(c.bits[..PREFIX_SIZE]) != SNAKE_PREFIX then None
    else ReadChain(Cell(c.bits[PREFIX_SIZE..], c.refs))
  }

  /** The cells of a chain, root first, following the first reference of each. */
  function Chain(c: Cell): (r: seq<Cell>)
    ensures |r| >= 1 && r[0] == c
    decreases c
  {
    if c.Cell? && |c.refs| > 0 then [c] + Chain(c.refs[0]) else [c]
  }

  /** Cutting loses nothing: the chunks joined again are the value. */
  lemma {:induction false} SnakeChunksFlatten(data: seq<byte>)
    ensures Flatten(SnakeChunks(data)) == data
    decreases |data|
  {
    var cs := SnakeChunks(data);
    if |data| > CELL_MAX_SIZE_BYTES {
      var rest := data[CELL_MAX_SIZE_BYTES..];
      SnakeChunksFlatten(rest);
      assert cs[1..] == SnakeChunks(rest);
      assert data == data[..CELL_MAX_SIZE_BYTES] + rest;
    } else {
      assert cs[1..] == [];
      assert Flatten(cs) == data + Flatten([]);
    }
  }

  /** ceil(n/126) chunks for n > 0 bytes, one (empty) chunk for none. */
  lemma {:induction false} SnakeChunksCount(data: seq<byte>)
    ensures |SnakeChunks(data)| == if data == [] then 1 else (|data| + CELL_MAX_SIZE_BYTES - 1) / CELL_MAX_SIZE_BYTES
    decreases |data|
  {
    if |data| > CELL_MAX_SIZE_BYTES {
      SnakeChunksCount(data[CELL_MAX_SIZE_BYTES..]);
    }
  }

  /** Every chunk holds at most 126 bytes, every chunk but the last exactly 126, and none is empty unless the value is. */
  lemma {:induction false} SnakeChunksSizes(data: seq<byte>)
    ensures forall i :: 0 <= i < |SnakeChunks(data)| ==> |SnakeChunks(data)[i]| <= CELL_MAX_SIZE_BYTES
    ensures forall i :: 0 <= i < |SnakeChunks(data)| - 1 ==> |SnakeChunks(data)[i]| == CELL_MAX_SIZE_BYTES
    ensures data != [] ==> forall i :: 0 <= i < |SnakeChunks(data)| ==> SnakeChunks(data)[i] != []
    decreases |data|
  {
    var cs := SnakeChunks(data);
    if |data| > CELL_MAX_SIZE_BYTES {
      var rest := data[CELL_MAX_SIZE_BYTES..];
      SnakeChunksSizes(rest);
      forall i | 1 <= i < |cs| ensures cs[i] == SnakeChunks(rest)[i - 1] { }
    }
  }

  lemma {:induction false} ReadChainOf(cs: seq<seq<byte>>)
    requires |cs| >= 1
    ensures ReadChain(ChainOf(cs)) == Some(Flatten(cs))
    decreases |cs|
  {
    BytesBitsDecode(cs[0]);
    assert Flatten(cs) == cs[0] + Flatten(cs[1..]);
    if |cs| > 1 {
      ReadChainOf(cs[1..]);
    } else {
      assert cs[1..] == [];
      assert Flatten(cs) == cs[0];
    }
  }

  /** The chain of `ChainOf(cs)` is one cell per chunk, the cell for chunk i being the chain from i. */
  lemma {:induction false} ChainOfCells(cs: seq<seq<byte>>)
    requires |cs| >= 1
    ensures |Chain(ChainOf(cs))| == |cs|
    ensures forall i :: 0 <= i < |cs| ==> Chain(ChainOf(cs))[i] == ChainOf(cs[i..])
    decreases |cs|
  {
    if |cs| > 1 {
      ChainOfCells(cs[1..]);
      forall i | 1 <= i < |cs| ensures Chain(ChainOf(cs))[i] == ChainOf(cs[i..]) {
        assert cs[1..][i - 1..] == cs[i..];
      }
    }
  }

  /** A snake root reads back as exactly the bytes it was built from. */
  lemma SnakeRoundTrip(data: seq<byte>)
    ensures ReadSnake(SnakeRoot(data)) == Some(data)
  {
    var cs := SnakeChunks(data);
    var chain := ChainOf(cs);
    var root := SnakeRoot(data);
    var prefix := UintBits(SNAKE_PREFIX, PREFIX_SIZE);
    assert root.bits[..PREFIX_SIZE] == prefix;
    assert root.bits[PREFIX_SIZE..] == chain.bits;
    UintBitsDecode(SNAKE_PREFIX, PREFIX_SIZE);
    assert Cell(root.bits[PREFIX_SIZE..], root.refs) == chain;
    ReadChainOf(cs);
    SnakeChunksFlatten(data);
  }

  /**
   * The shape of a snake chain: ceil(n/126) cells for n > 0 bytes (one for
   * none), every cell but the last with exactly one reference and the last
   * with none, at most 126 bytes per cell, so the root uses at most 8 + 1008
   * bits and every cell fits.
   */
  lemma SnakeShape(data: seq<byte>)
    ensures var ch := Chain(SnakeRoot(data));
      && |ch| == (if data == [] then 1 else (|data| + CELL_MAX_SIZE_BYTES - 1) / CELL_MAX_SIZE_BYTES)
      && (forall i :: 0 <= i < |ch| - 1 ==> ch[i].Cell? && |ch[i].refs| == 1)
      && ch[|ch| - 1].Cell? && ch[|ch| - 1].refs == []
      && |ch[0].bits| <= PREFIX_SIZE + 8 * CELL_MAX_SIZE_BYTES
      && (forall i :: 1 <= i < |ch| ==> ch[i].Cell? && |ch[i].bits| <= 8 * CELL_MAX_SIZE_BYTES)
      && (forall i :: 0 <= i < |ch| ==> Fits(ch[i]))
  {
    var cs := SnakeChunks(data);
    var chain := ChainOf(cs);
    var root := SnakeRoot(data);
    SnakeChunksCount(data);
    SnakeChunksSizes(data);
    ChainOfCells(cs);
    var ch := Chain(root);
    var cch := Chain(chain);
    assert root.refs == chain.refs;
    if |cs| > 1 {
      assert ch == [root] + Chain(chain.refs[0]);
      assert cch == [chain] + Chain(chain.refs[0]);
    }
    assert |ch| == |cch|;
    forall i | 0 <= i < |ch|
      ensures ch[i].Cell?
      ensures |ch[i].refs| == (if i < |ch| - 1 then 1 else 0)
      ensures i > 0 ==> |ch[i].bits| <= 8 * CELL_MAX_SIZE_BYTES
      ensures Fits(ch[i])
    {
      assert |cs[i..]| == |cs| - i;
      assert cs[i..][0] == cs[i];
      if i > 0 {
        assert ch[i] == cch[i];
      }
    }
  }

  /**
   * What the loop of tests/helpers.ts:31-43 produces with ton-core's
   * `storeRef(builder)`: the prefix and the first chunk, and, when there is
   * more, a reference to the second builder as it was when it was stored,
   * that is, empty.
   */
  function TruncatedRoot(data: seq<byte>): (c: Cell)
    ensures c.Cell? && Fits(c)
    ensures c.refs == [] <==> |data| <= CELL_MAX_SIZE_BYTES
  {
    Cell(UintBits(SNAKE_PREFIX, PREFIX_SIZE) + BytesBits(data[..Min(CELL_MAX_SIZE_BYTES, |data|)]),
         if |data| > CELL_MAX_SIZE_BYTES then [EmptyCell] else [])
  }

  /** Only the first 126 bytes of a value survive the loop as written; up to 126 bytes, nothing is lost. */
  lemma TruncatedRootReads(data: seq<byte>)
    ensures ReadSnake(TruncatedRoot(data)) == Some(data[..Min(CELL_MAX_SIZE_BYTES, |data|)])
    ensures |data| <= CELL_MAX_SIZE_BYTES ==> TruncatedRoot(data) == SnakeRoot(data)
    ensures |data| > CELL_MAX_SIZE_BYTES ==> ReadSnake(TruncatedRoot(data)) != Some(data)
  {
    var first := data[..Min(CELL_MAX_SIZE_BYTES, |data|)];
    var root := TruncatedRoot(data);
    var prefix := UintBits(SNAKE_PREFIX, PREFIX_SIZE);
    assert root.bits[..PREFIX_SIZE] == prefix;
    assert root.bits[PREFIX_SIZE..] == BytesBits(first);
    UintBitsDecode(SNAKE_PREFIX, PREFIX_SIZE);
    BytesBitsDecode(first);
    if |data| > CELL_MAX_SIZE_BYTES {
      assert ReadChain(EmptyCell) == Some([]);
      assert first + [] == first;
      assert |first| < |data|;
    } else {
      assert first == data;
      assert SnakeChunks(data) == [data];
    }
  }

  /** The loop of tests/helpers.ts:31-43 as written, with ton-core's `storeRef(builder)`. */
  method SnakeAsWritten(data: seq<byte>) returns (root: Cell)
    ensures root == TruncatedRoot(data)
    ensures ReadSnake(root) == Some(data[..Min(CELL_MAX_SIZE_BYTES, |data|)])
    ensures |data| <= CELL_MAX_SIZE_BYTES ==> root == SnakeRoot(data)
    ensures |data| > CELL_MAX_SIZE_BYTES ==> ReadSnake(root) != Some(data)
  {
    Pow2Byte();
    var n := |data|;
    var bufferToStore := data;
    var rootCell := new Builder();
    var ok := rootCell.StoreUint(SNAKE_PREFIX, PREFIX_SIZE);
    assert ok;
    var currentCell := rootCell;
    while |bufferToStore| > 0
      invariant fresh(rootCell) && fresh(currentCell)
      invariant bufferToStore == data[n - |bufferToStore|..]
      invariant |bufferToStore| == n ==> currentCell == rootCell && rootCell.EndCell() == Cell(UintBits(SNAKE_PREFIX, PREFIX_SIZE), [])
      invariant |bufferToStore| < n ==> rootCell.EndCell() == TruncatedRoot(data)
      invariant 0 < |bufferToStore| < n ==> currentCell != rootCell && currentCell.EndCell() == EmptyCell
      decreases |bufferToStore|
    {
      var size := Min(CELL_MAX_SIZE_BYTES, |bufferToStore|);
      ok := currentCell.StoreBuffer(bufferToStore[..size]);
      assert ok;
      bufferToStore := bufferToStore[size..];
      if |bufferToStore| > 0 {
        var newCell := new Builder();
        ok := currentCell.StoreRef(newCell);
        assert ok;
        currentCell := newCell;
      }
    }
    root := rootCell.EndCell();
    TruncatedRootReads(data);
  }

  lemma SnakeChunksStep(b: seq<byte>)
    requires |b| > 0
    ensures SnakeChunks(b) == [b[..Min(CELL_MAX_SIZE_BYTES, |b|)]] + (if |b| > CELL_MAX_SIZE_BYTES then SnakeChunks(b[CELL_MAX_SIZE_BYTES..]) else [])
  {
    if |b| <= CELL_MAX_SIZE_BYTES {
      assert b[..|b|] == b;
    }
  }

  /** The cutting half of tests/helpers.ts:35-37: consecutive chunks of at most 126 bytes. */
  method CutChunks(data: seq<byte>) returns (chunks: seq<seq<byte>>)
    ensures chunks == SnakeChunks(data)
  {
    var bufferToStore := data;
    chunks := [];
    while |bufferToStore| > 0
      invariant bufferToStore != [] || chunks == [] ==> SnakeChunks(data) == chunks + SnakeChunks(bufferToStore)
      invariant bufferToStore == [] && chunks != [] ==> SnakeChunks(data) == chunks
      decreases |bufferToStore|
    {
      var size := Min(CELL_MAX_SIZE_BYTES, |bufferToStore|);
      SnakeChunksStep(bufferToStore);
      chunks := chunks + [bufferToStore[..size]];
      bufferToStore := bufferToStore[size..];
    }
    if chunks == [] {
      chunks := [[]];
    }
  }

  /** The continuation cells of a chain, finalised from the last chunk back to the first. */
  method LinkChain(chunks: seq<seq<byte>>) returns (head: Cell)
    requires |chunks| >= 1
    requires forall i :: 0 <= i < |chunks| ==> |chunks[i]| <= CELL_MAX_SIZE_BYTES
    ensures head == ChainOf(chunks)
  {
    var k := |chunks|;
    head := EmptyCell;
    while k > 0
      invariant 0 <= k <= |chunks|
      invariant k < |chunks| ==> head == ChainOf(chunks[k..])
    {
      k := k - 1;
      var cell := new Builder();
      var ok := cell.StoreBuffer(chunks[k]);
      assert ok;
      if k + 1 < |chunks| {
        ok := cell.StoreCell(head);
        assert ok;
        assert chunks[k..][1..] == chunks[k + 1..];
      }
      head := cell.EndCell();
    }
    assert chunks[0..] == chunks;
  }

  /**
   * The snake loop with each continuation linked once it is complete: the
   * chunks are cut exactly as tests/helpers.ts:35-37 cuts them, the root
   * holds the prefix and the first chunk, and a reference to the rest.
   */
  method BuildSnake(data: seq<byte>) returns (root: Cell)
    ensures root == SnakeRoot(data)
    ensures ReadSnake(root) == Some(data)
  {
    Pow2Byte();
    var rootCell := new Builder();
    var ok := rootCell.StoreUint(SNAKE_PREFIX, PREFIX_SIZE);
    assert ok;
    var chunks := CutChunks(data);
    SnakeChunksSizes(data);
    ok := rootCell.StoreBuffer(chunks[0]);
    assert ok;
    if |chunks| > 1 {
      var rest := LinkChain(chunks[1..]);
      ok := rootCell.StoreCell(rest);
      assert ok;
    }
    root := rootCell.EndCell();
    SnakeRoundTrip(data);
  }

  // ---------------------------------------------------------------------------
  // The content dictionary

  /** One `[k, v]` of `Object.entries(data)`; None stands for `undefined`. */
  type Entry = (string, Option<string>)

  datatype MetadataError = UnsupportedKey(key: string)

  /** tests/helpers.ts:27: `undefined` and `''` are not stored. */
  predicate Skipped(v: Option<string>) {
    v.None? || v.value == ""
  }

  /** The dictionary leaf for a stored value: `Dictionary.Values.Cell()` puts the snake root behind one reference. */
  function FieldLeaf(enc: TextEncoding, v: string): Cell {
    RefLeaf(SnakeRoot(EncodeText(enc, v)))
  }

  /**
   * The dictionary the `forEach` of tests/helpers.ts:25-46 is evidently
   * meant to build, or the error it throws first: only the four keys pass
   * the check, and each value is stored whole. MetadataDictAsWritten is the
   * code as written.
   */
  function MetadataDict(entries: seq<Entry>): Result<map<nat, Cell>, MetadataError>
    decreases |entries|
  {
    if entries == [] then Success(map[])
    else
      var d :- MetadataDict(entries[..|entries| - 1]);
      var (k, v) := entries[|entries| - 1];
      match KeyEncoding(k)
      case None => Failure(UnsupportedKey(k))
      case Some(enc) => if Skipped(v) then Success(d) else Success(d[Sha256(k) := FieldLeaf(enc, v.value)])
  }

  /** tests/helpers.ts:48: the 8-bit content prefix, then the dictionary. */
  function ContentCell(d: map<nat, Cell>): (c: Cell)
    ensures ReadContent(c) == Some(d)
    ensures c.Cell? && |c.bits| == PREFIX_SIZE + 1 && |c.refs| == (if d == map[] then 0 else 1)
  {
    Pow2Byte();
    var prefixed := StoreInt(EmptyCell, ONCHAIN_CONTENT_PREFIX, PREFIX_SIZE).value;
    var c := StoreDict(prefixed, KEYLEN, d).value;
    assert c == Cell(IntBits(ONCHAIN_CONTENT_PREFIX, PREFIX_SIZE) + DictBits(d), DictRefs(KEYLEN, d));
    LoadInt8Stored(ONCHAIN_CONTENT_PREFIX, DictBits(d), DictRefs(KEYLEN, d));
    LoadDictStored(KEYLEN, d, [], []);
    assert DictBits(d) + [] == DictBits(d);
    assert DictRefs(KEYLEN, d) + [] == DictRefs(KEYLEN, d);
    c
  }

  /** A reader of on-chain content: the zero content prefix, then the dictionary and nothing else. */
  function ReadContent(c: Cell): Option<map<nat, Cell>> {
    if !c.Cell? then None
    else
      var prefix :- LoadInt8(Slice(c.bits, c.refs));
      if prefix.value != ONCHAIN_CONTENT_PREFIX then None
      else
        var d :- LoadDict(prefix.rest, KEYLEN);
        if !Ended(d.rest) then None else Some(d.value)
  }

  /** A reader of one field: the bytes of the snake value stored under sha256(k), None when k is absent. */
  function ReadField(c: Cell, k: string): Option<seq<byte>> {
    var d :- ReadContent(c);
    if Sha256(k) !in d then None
    else
      var leaf := d[Sha256(k)];
      if !leaf.Cell? || leaf.bits != [] || |leaf.refs| != 1 then None
      else ReadSnake(leaf.refs[0])
  }

  /**
   * The corrected `buildTokenMetadataCell(data)`, with the error it throws
   * as a Failure. TokenMetadataCellAsWritten is the code as written;
   * BuildsAgree says where the two agree.
   */
  function TokenMetadataCell(entries: seq<Entry>): Result<Cell, MetadataError> {
    var d :- MetadataDict(entries);
    Success(ContentCell(d))
  }

  /** The value stored for key k: the last entry for k that is not skipped. */
  function StoredValue(entries: seq<Entry>, k: string): Option<string>
    decreases |entries|
  {
    if entries == [] then None
    else
      var (k', v) := entries[|entries| - 1];
      if k' == k && !Skipped(v) then Some(v.value) else StoredValue(entries[..|entries| - 1], k)
  }

  /** The digests of the keys that are stored. */
  function StoredDigests(entries: seq<Entry>): set<nat> {
    set k | k in MetadataKeys && StoredValue(entries, k).Some? :: Sha256(k)
  }

  /** `Object.entries` of an object: no key twice. */
  predicate DistinctKeys(entries: seq<Entry>) {
    forall i, j :: 0 <= i < j < |entries| ==> entries[i].0 != entries[j].0
  }

  /**
   * sha256 is kept uninterpreted; this is the one fact about it that the
   * lookups need: the four key names have pairwise different digests.
   */
  predicate DigestsDistinct() {
    && Sha256("name") != Sha256("description") && Sha256("name") != Sha256("image")
    && Sha256("name") != Sha256("symbol") && Sha256("description") != Sha256("image")
    && Sha256("description") != Sha256("symbol") && Sha256("image") != Sha256("symbol")
  }

  lemma DigestsDiffer(a: string, b: string)
    requires DigestsDistinct() && a in MetadataKeys && b in MetadataKeys && a != b
    ensures Sha256(a) != Sha256(b)
  {
  }

  /** Once the `forEach` has thrown, later entries change nothing. */
  lemma {:induction false} FailurePersists(entries: seq<Entry>, i: nat)
    requires i <= |entries| && MetadataDict(entries[..i]).Failure?
    ensures MetadataDict(entries) == MetadataDict(entries[..i])
    decreases |entries|
  {
    if i < |entries| {
      var init := entries[..|entries| - 1];
      assert init[..i] == entries[..i];
      FailurePersists(init, i);
    } else {
      assert entries[..i] == entries;
    }
  }

  /**
   * The first unsupported key makes the build fail with that key, whatever
   * its value: the key check comes before the empty-value check.
   */
  lemma {:induction false} UnsupportedKeyRejected(entries: seq<Entry>, i: nat)
    requires i < |entries| && entries[i].0 !in MetadataKeys
    requires forall j :: 0 <= j < i ==> entries[j].0 in MetadataKeys
    ensures MetadataDict(entries) == Failure(UnsupportedKey(entries[i].0))
  {
    SupportedKeysAccepted(entries[..i]);
    assert entries[..i + 1][..i] == entries[..i];
    FailurePersists(entries, i + 1);
  }

  /** The build succeeds exactly when every key is one of the four. */
  lemma {:induction false} SupportedKeysAccepted(entries: seq<Entry>)
    ensures MetadataDict(entries).Success? <==> forall j :: 0 <= j < |entries| ==> entries[j].0 in MetadataKeys
    decreases |entries|
  {
    if entries != [] {
      var init := entries[..|entries| - 1];
      SupportedKeysAccepted(init);
      assert forall j :: 0 <= j < |init| ==> init[j] == entries[j];
    }
  }

  /** A recognised key with an `undefined` or `''` value adds no entry. */
  lemma SkippedAddsNothing(entries: seq<Entry>, k: string, v: Option<string>)
    requires k in MetadataKeys && Skipped(v)
    ensures MetadataDict(entries + [(k, v)]) == MetadataDict(entries)
  {
    assert (entries + [(k, v)])[..|entries|] == entries;
  }

  /** The dictionary's keys are the digests of the stored keys. */
  lemma {:induction false} MetadataDictKeys(entries: seq<Entry>, d: map<nat, Cell>)
    requires MetadataDict(entries) == Success(d)
    ensures d.Keys == StoredDigests(entries)
    decreases |entries|
  {
    if entries != [] {
      var init := entries[..|entries| - 1];
      var (k, v) := entries[|entries| - 1];
      var d0 := MetadataDict(init).value;
      MetadataDictKeys(init, d0);
      forall x | x in StoredDigests(entries) ensures x in d.Keys {
        var k' :| k' in MetadataKeys && StoredValue(entries, k').Some? && x == Sha256(k');
        if !(k' == k && !Skipped(v)) {
          assert x in StoredDigests(init);
        }
      }
      forall x | x in d.Keys ensures x in StoredDigests(entries) {
        if x in d0.Keys {
          var k' :| k' in MetadataKeys && StoredValue(init, k').Some? && x == Sha256(k');
          if k' == k && !Skipped(v) {
            assert StoredValue(entries, k).Some?;
          } else {
            assert StoredValue(entries, k') == StoredValue(init, k');
          }
        } else {
          assert StoredValue(entries, k).Some?;
        }
      }
    }
  }

  /** Under a key whose value is stored, the dictionary holds the snake root of that value's encoding. */
  lemma {:induction false} MetadataDictValues(entries: seq<Entry>, d: map<nat, Cell>, k: string)
    requires MetadataDict(entries) == Success(d) && DigestsDistinct()
    requires k in MetadataKeys && StoredValue(entries, k).Some?
    ensures Sha256(k) in d
    ensures d[Sha256(k)] == FieldLeaf(KeyEncoding(k).value, StoredValue(entries, k).value)
    decreases |entries|
  {
    var init := entries[..|entries| - 1];
    var (k', v) := entries[|entries| - 1];
    var d0 := MetadataDict(init).value;
    if !(k' == k && !Skipped(v)) {
      MetadataDictValues(init, d0, k);
      if !Skipped(v) {
        DigestsDiffer(k, k');
      }
    }
  }

  /**
   * Reading a field of the built cell gives back the encoded value stored
   * for it, and nothing for a key without a stored value.
   */
  lemma TokenMetadataRoundTrip(entries: seq<Entry>, k: string)
    requires TokenMetadataCell(entries).Success? && DigestsDistinct() && k in MetadataKeys
    ensures ReadField(TokenMetadataCell(entries).value, k)
         == if StoredValue(entries, k).Some?
            then Some(EncodeText(KeyEncoding(k).value, StoredValue(entries, k).value))
            else None
  {
    var d := MetadataDict(entries).value;
    MetadataDictKeys(entries, d);
    if StoredValue(entries, k).Some? {
      MetadataDictValues(entries, d, k);
      SnakeRoundTrip(EncodeText(KeyEncoding(k).value, StoredValue(entries, k).value));
    } else if Sha256(k) in d {
      var k' :| k' in MetadataKeys && StoredValue(entries, k').Some? && Sha256(k) == Sha256(k');
      if k != k' {
        DigestsDiffer(k, k');
      }
    }
  }

  /** For an object's entries, the stored value of k is the one its entry carries, if that is not empty. */
  lemma {:induction false} StoredValueOfEntry(entries: seq<Entry>, k: string, v: string)
    requires DistinctKeys(entries)
    ensures StoredValue(entries, k) == Some(v) <==> (k, Some(v)) in entries && v != ""
    decreases |entries|
  {
    if entries != [] {
      var init := entries[..|entries| - 1];
      var last := entries[|entries| - 1];
      assert entries == init + [last];
      StoredValueOfEntry(init, k, v);
      if (k, Some(v)) in entries && last != (k, Some(v)) {
        var j :| 0 <= j < |entries| && entries[j] == (k, Some(v));
        assert j < |entries| - 1;
        assert init[j] == (k, Some(v));
      }
    }
  }

  /** Two objects with the same entries store the same value for every key. */
  lemma SameStoredValues(e1: seq<Entry>, e2: seq<Entry>, k: string)
    requires DistinctKeys(e1) && DistinctKeys(e2) && multiset(e1) == multiset(e2)
    ensures StoredValue(e1, k) == StoredValue(e2, k)
  {
    if StoredValue(e1, k).Some? {
      var v := StoredValue(e1, k).value;
      StoredValueOfEntry(e1, k, v);
      assert (k, Some(v)) in multiset(e1);
      StoredValueOfEntry(e2, k, v);
    } else if StoredValue(e2, k).Some? {
      var v := StoredValue(e2, k).value;
      StoredValueOfEntry(e2, k, v);
      assert (k, Some(v)) in multiset(e2);
      StoredValueOfEntry(e1, k, v);
    }
  }

  /** Two successful builds that store the same value under every key build the same dictionary. */
  lemma SameDictionary(e1: seq<Entry>, e2: seq<Entry>, d1: map<nat, Cell>, d2: map<nat, Cell>)
    requires MetadataDict(e1) == Success(d1) && MetadataDict(e2) == Success(d2) && DigestsDistinct()
    requires forall k :: k in MetadataKeys ==> StoredValue(e1, k) == StoredValue(e2, k)
    ensures d1 == d2
  {
    MetadataDictKeys(e1, d1);
    MetadataDictKeys(e2, d2);
    assert StoredDigests(e1) == StoredDigests(e2);
    forall x | x in d1.Keys ensures d1[x] == d2[x] {
      var k :| k in MetadataKeys && StoredValue(e1, k).Some? && x == Sha256(k);
      MetadataDictValues(e1, d1, k);
      MetadataDictValues(e2, d2, k);
    }
  }

  /**
   * The dictionary does not depend on the order of the fields: two objects
   * with the same entries build the same dictionary, or both fail.
   */
  lemma MetadataDictOrderIndependent(e1: seq<Entry>, e2: seq<Entry>)
    requires DistinctKeys(e1) && DistinctKeys(e2) && multiset(e1) == multiset(e2) && DigestsDistinct()
    ensures MetadataDict(e1).Success? <==> MetadataDict(e2).Success?
    ensures MetadataDict(e1).Success? ==> MetadataDict(e1) == MetadataDict(e2)
  {
    SupportedKeysAccepted(e1);
    SupportedKeysAccepted(e2);
    forall j | 0 <= j < |e2| ensures e2[j] in e1 {
      assert e2[j] in multiset(e2);
    }
    forall j | 0 <= j < |e1| ensures e1[j] in e2 {
      assert e1[j] in multiset(e1);
    }
    if MetadataDict(e1).Success? {
      forall k | k in MetadataKeys ensures StoredValue(e1, k) == StoredValue(e2, k) {
        SameStoredValues(e1, e2, k);
      }
      SameDictionary(e1, e2, MetadataDict(e1).value, MetadataDict(e2).value);
    }
  }

  // ---------------------------------------------------------------------------
  // The build as written

  /**
   * The leaf the loop as written stores: one reference to a root that reads
   * back as the first 126 bytes of the encoded value, the leaf of the
   * corrected build when the value fits in one cell.
   */
  function FieldLeafAsWritten(enc: TextEncoding, v: string): (leaf: Cell)
    ensures leaf.Cell? && leaf.bits == [] && |leaf.refs| == 1
    ensures var bytes := EncodeText(enc, v); ReadSnake(leaf.refs[0]) == Some(bytes[..Min(CELL_MAX_SIZE_BYTES, |bytes|)])
    ensures |EncodeText(enc, v)| <= CELL_MAX_SIZE_BYTES ==> leaf == FieldLeaf(enc, v)
  {
    TruncatedRootReads(EncodeText(enc, v));
    RefLeaf(TruncatedRoot(EncodeText(enc, v)))
  }

  /**
   * The `forEach` of tests/helpers.ts:25-46 as written: the key check of
   * KeyEncodingAsWritten, and the leaves the snake loop as written builds.
   */
  function MetadataDictAsWritten(entries: seq<Entry>): (r: Result<map<nat, Cell>, MetadataError>)
    ensures r.Success? <==> forall j :: 0 <= j < |entries| ==> KeyEncodingAsWritten(entries[j].0).Some?
    decreases |entries|
  {
    if entries == [] then Success(map[])
    else
      var init := entries[..|entries| - 1];
      assert forall j :: 0 <= j < |init| ==> init[j] == entries[j];
      var d :- MetadataDictAsWritten(init);
      var (k, v) := entries[|entries| - 1];
      match KeyEncodingAsWritten(k)
      case None => Failure(UnsupportedKey(k))
      case Some(enc) => if Skipped(v) then Success(d) else Success(d[Sha256(k) := FieldLeafAsWritten(enc, v.value)])
  }

  /**
   * `buildTokenMetadataCell(data)` of tests/helpers.ts:18-49 as written: it
   * throws exactly when the dictionary does, and its content cell reads back
   * as that dictionary.
   */
  function TokenMetadataCellAsWritten(entries: seq<Entry>): (r: Result<Cell, MetadataError>)
    ensures r.Success? <==> MetadataDictAsWritten(entries).Success?
    ensures r.Success? ==> ReadContent(r.value) == Some(MetadataDictAsWritten(entries).value)
  {
    var d :- MetadataDictAsWritten(entries);
    Success(ContentCell(d))
  }

  /** Every stored value of a supported key encodes to at most one cell's 126 bytes. */
  predicate ShortValues(entries: seq<Entry>) {
    forall j :: 0 <= j < |entries| && entries[j].0 in MetadataKeys && !Skipped(entries[j].1) ==>
      |EncodeText(KeyEncoding(entries[j].0).value, entries[j].1.value)| <= CELL_MAX_SIZE_BYTES
  }

  /**
   * Without inherited key names and without values longer than one cell,
   * the build as written and the corrected build agree, failures included.
   */
  lemma {:induction false} BuildsAgree(entries: seq<Entry>)
    requires forall j :: 0 <= j < |entries| ==> entries[j].0 !in ObjectPrototypeNames
    requires ShortValues(entries)
    ensures MetadataDictAsWritten(entries) == MetadataDict(entries)
    ensures TokenMetadataCellAsWritten(entries) == TokenMetadataCell(entries)
    decreases |entries|
  {
    if entries != [] {
      var n := |entries|;
      var init := entries[..n - 1];
      assert forall j :: 0 <= j < |init| ==> init[j] == entries[j];
      BuildsAgree(init);
      var (k, v) := entries[n - 1];
      assert KeyEncodingAsWritten(k) == KeyEncoding(k);
      if k in MetadataKeys && !Skipped(v) {
        var enc := KeyEncoding(k).value;
        TruncatedRootReads(EncodeText(enc, v.value));
        assert FieldLeafAsWritten(enc, v.value) == FieldLeaf(enc, v.value);
      }
    }
  }

  /** An inherited name: the build as written stores it, the corrected build rejects it. */
  lemma InheritedNameBuilt(v: string)
    requires v != ""
    ensures TokenMetadataCellAsWritten([("toString", Some(v))]).Success?
    ensures TokenMetadataCell([("toString", Some(v))]) == Failure(UnsupportedKey("toString"))
  {
    var e: seq<Entry> := [("toString", Some(v))];
    InheritedNameAccepted();
    assert e[..0] == [] && e[0] == ("toString", Some(v));
    assert MetadataDictAsWritten(e) == Success(map[Sha256("toString") := FieldLeafAsWritten(Utf8, v)]);
    assert MetadataDict(e) == Failure(UnsupportedKey("toString"));
  }

  /** A content cell holding one field: reading that field reads its snake root. */
  lemma ReadSingleField(k: string, root: Cell)
    ensures ReadField(ContentCell(map[Sha256(k) := RefLeaf(root)]), k) == ReadSnake(root)
  {
  }

  /**
   * A value longer than one cell: the content cell as written reads back
   * only its first 126 bytes, the corrected one all of it.
   */
  lemma LongValueTruncated(k: string, v: string)
    requires k in MetadataKeys && v != ""
    requires |EncodeText(KeyEncoding(k).value, v)| > CELL_MAX_SIZE_BYTES
    ensures TokenMetadataCellAsWritten([(k, Some(v))]).Success? && TokenMetadataCell([(k, Some(v))]).Success?
    ensures var bytes := EncodeText(KeyEncoding(k).value, v);
      && ReadField(TokenMetadataCellAsWritten([(k, Some(v))]).value, k) == Some(bytes[..CELL_MAX_SIZE_BYTES])
      && ReadField(TokenMetadataCell([(k, Some(v))]).value, k) == Some(bytes)
  {
    var e: seq<Entry> := [(k, Some(v))];
    assert e[..0] == [];
    var bytes := EncodeText(KeyEncoding(k).value, v);
    assert MetadataDictAsWritten(e) == Success(map[Sha256(k) := RefLeaf(TruncatedRoot(bytes))]);
    assert MetadataDict(e) == Success(map[Sha256(k) := RefLeaf(SnakeRoot(bytes))]);
    ReadSingleField(k, TruncatedRoot(bytes));
    ReadSingleField(k, SnakeRoot(bytes));
    TruncatedRootReads(bytes);
    SnakeRoundTrip(bytes);
  }

  // ---------------------------------------------------------------------------
  // The corrected build

  /**
   * The corrected `buildTokenMetadataCell`: the `forEach` with its in-place
   * `dict.set`, each value linked through BuildSnake, then the content cell.
   */
  method BuildTokenMetadataCell(data: seq<Entry>) returns (r: Result<Cell, MetadataError>)
    ensures r == TokenMetadataCell(data)
  {
    var dict: map<nat, Cell> := map[];
    for i := 0 to |data|
      invariant MetadataDict(data[..i]) == Success(dict)
    {
      assert data[..i + 1][..i] == data[..i];
      var (k, v) := data[i];
      var enc := KeyEncoding(k);
      if enc.None? {
        FailurePersists(data, i + 1);
        return Failure(UnsupportedKey(k));
      }
      if Skipped(v) {
        continue;
      }
      var root := BuildSnake(EncodeText(enc.value, v.value));
      dict := dict[Sha256(k) := RefLeaf(root)];
    }
    assert data[..|data|] == data;
    r := Success(ContentCell(dict));
  }
}
