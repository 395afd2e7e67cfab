# TON bridge contracts: wrappers, metadata builder and bridge scenarios

A Dafny model of the TypeScript side of the synswap-labs TON bridge. It covers:

- the cell layouts that the contract wrappers build: bridge storage, the
  lock / unlock / add-jetton / mint message bodies, the jetton-wallet burn
  body, and the init data from which minter and wallet addresses are
  predicted;
- the TEP-64 (Token Data Standard) on-chain metadata builder, with its
  "snake" chunking loop;
- the behaviour of the bridge contract that the sandbox scenarios assert
  (deploy state, lock and burn logs, oracle and admin gating, jetton
  registration, mint routing), as a small stateful class.

The cell substrate is ton-core's `beginCell()/store*/endCell()`. It is
modelled at the level the core uses it:

- cells of at most 1023 bits and 4 references;
- big-endian `storeUint`, two's-complement `storeInt`;
- VarUInteger 16 `storeCoins`;
- `addr_std$10` / `addr_none$00` addresses;
- HashmapE dictionaries (bit 0 if empty, else bit 1 plus a reference to the
  root). The root stands for the trie and is kept as an abstract map.

These layouts follow section 3.1 of the TON Blockchain document. Every
layout comes with a reader, and a lemma proves that the reader gives back
exactly what was stored.

Modules, one per file:

- `Bits`: bit strings, `Pow2`, fixed-width and byte encodings.
- `Cells`: cells, the store and load steps, and their round trips.
- `Builders`: ton-core's mutable `Builder`, proved against `Cells`.
- `Messages`: the op / query-id header of every body.
- `Metadata`: tests/helpers.ts.
- `Hex`: `toString(16)`, `toString('hex')` and `Buffer.from(_, 'hex')`, as tests/Bridge.spec.ts uses them.
- `BridgeWrapper`: wrappers/Bridge.ts.
- `JettonWallet`: wrappers/JettonWallet.ts.
- `JettonMinter`: wrappers/JettonMinter.ts.
- `BridgeSandbox`: tests/Bridge.spec.ts.
- `Wrappers`: the Option and Result types.

Foreign values are constants without a definition:

- the compiled code cells `BridgeCode`, `WalletCode` and `MinterCode`;
- the StateInit representation hash `StateInitHash`;
- `Sha256`;
- Node's text encoder `EncodeText`.

The lookup lemmas about the metadata dictionary take one explicit
hypothesis about sha256, `DigestsDistinct`: the four key names have
pairwise different digests.

Details of the code the model keeps:

- The minter address is predicted from total supply 0, the bridge address
  and the metadata cell. The coin id is not an input (wrappers/JettonMinter.ts:10-20, tests/Bridge.spec.ts:141).
- Only the snake root carries the 8-bit prefix. Continuation cells hold raw
  bytes (tests/helpers.ts:31-41).
- The digest is taken of the key name. The per-key ASCII/UTF-8 choice
  applies to the value (tests/helpers.ts:29,45).
- An address is 267 bits, including ton-core's anycast bit.
- `endCell()` does not finalise a builder. But `storeRef(builder)` ends the
  other builder at the moment of the call, and the snake loop depends on
  this.
- A value longer than one cell does not round-trip through the loop as
  written, and the key check as written accepts inherited object names.
  The metadata build is modelled twice, as written and corrected, and a
  lemma proves the two agree on the inputs the code handles as intended.
  See "Findings".
- `toString(16)` of a hash writes no leading zeros, while the hex of a
  32-byte buffer writes all 64 digits.

## Model

| member | source | states |
|---|---|---|
| Bits.UintBitsDecode | wrappers/Bridge.ts:75-76 | reading n bits back gives every value below 2^n that `storeUint(v, n)` wrote |
| Bits.UintBitsInjective | wrappers/Bridge.ts:75-76 | two values below 2^n with the same n-bit encoding are equal |
| Bits.IntBitsDecode | tests/helpers.ts:48 | `storeInt` in two's complement reads back as the signed value, over the whole signed range |
| Bits.BytesBitsAppend | tests/helpers.ts:36 | storing two buffers one after the other writes the bits of their concatenation |
| Bits.BytesBitsDecode | tests/helpers.ts:36 | the bytes written by `storeBuffer` read back as the same bytes |
| Cells.ContractAddress | wrappers/Bridge.ts:54 | the derived address keeps the workchain it was asked for |
| Cells.ByteLen | wrappers/Bridge.ts:99 | the minimal byte count of a coins value: v < 2^(8k), and 2^(8(k-1)) <= v when k > 0 |
| Cells.ByteLenBound | wrappers/Bridge.ts:99 | a value below 2^(8m) needs at most m bytes |
| Cells.CoinsBits | wrappers/Bridge.ts:99 | a coins field is 4 + 8·(byte length) bits, at most 124 |
| Cells.AddressBits | wrappers/Bridge.ts:46 | an address takes 267 bits and null takes 2 |
| Cells.StoreBits | wrappers/Bridge.ts:85 | appending bits succeeds exactly when the cell stays within 1023 bits, and keeps the references |
| Cells.StoreUint | wrappers/Bridge.ts:75-76 | succeeds exactly when 0 <= v < 2^n and the bits fit, and then appends the n-bit big-endian encoding |
| Cells.StoreInt | tests/helpers.ts:48 | succeeds exactly when v is in the signed n-bit range and fits, and then appends its two's complement |
| Cells.StoreBuffer | tests/helpers.ts:36 | succeeds exactly when 8·|s| more bits fit, and then appends the bytes in order |
| Cells.StoreCoins | wrappers/Bridge.ts:99 | succeeds exactly when 0 <= v < 2^120 and the field fits, and then appends the VarUInteger 16 encoding |
| Cells.StoreAddress | wrappers/Bridge.ts:46 | succeeds exactly when the address bits fit, and then appends them |
| Cells.StoreRef | wrappers/Bridge.ts:49-50 | succeeds exactly when fewer than 4 references are stored, and then appends the reference |
| Cells.StoreRefsAppend | wrappers/Bridge.ts:85 | storing several references succeeds exactly when all fit, and appends them in order |
| Cells.StoreSliceAppend | wrappers/Bridge.ts:85 | `storeSlice` succeeds exactly when the bits and the references both fit, and appends both |
| Cells.StoreDict | wrappers/Bridge.ts:47-48 | an empty dictionary writes bit 0 and no reference; a non-empty one writes bit 1 and one reference to its root; fails exactly when these do not fit |
| Cells.LoadUint | tests/Bridge.spec.ts:95-97 | an n-bit read yields a value below 2^n |
| Cells.LoadUintStored | tests/Bridge.spec.ts:95-97 | an n-bit field read back is the value written, and the read stops right after it |
| Cells.LoadInt8Stored | tests/helpers.ts:48 | an 8-bit signed field reads back as the value written |
| Cells.LoadCoinsStored | tests/Bridge.spec.ts:99 | `loadCoins` after `storeCoins` gives the amount and stops right after the field |
| Cells.LoadStdAddressStored | wrappers/Bridge.ts:46 | an address field reads back as the same address |
| Cells.AddressBitsSplit | wrappers/Bridge.ts:46 | an address field is tag 10, anycast bit 0, the 8-bit workchain and the 256-bit hash, in that order |
| Cells.LoadStdAddressTail | wrappers/Bridge.ts:46 | after the tag, the anycast bit, workchain and hash read back as the address |
| Cells.LoadAddressStored | wrappers/JettonWallet.ts:51 | a stored address, or null as `addr_none`, reads back as itself |
| Cells.LoadDictStored | wrappers/Bridge.ts:47-48 | a stored dictionary reads back as the same key-to-leaf map |
| Builders.Builder.constructor | tests/helpers.ts:31 | `beginCell()` starts with no bits and no references |
| Builders.Builder.EndCell | tests/helpers.ts:45 | `endCell()` is the ordinary cell of what was stored so far |
| Builders.Builder.StoreUint | tests/helpers.ts:32 | the builder becomes the value-level `storeUint` of its old cell, or stays as it was when that fails |
| Builders.Builder.StoreBuffer | tests/helpers.ts:36 | the builder becomes the value-level `storeBuffer` of its old cell, or stays as it was |
| Builders.Builder.StoreCell | tests/helpers.ts:40 | `storeRef(cell)` appends the cell as a reference, or leaves the builder as it was |
| Builders.Builder.StoreRef | tests/helpers.ts:40 | `storeRef(builder)` appends the other builder's cell as of the call, not what is later stored into it |
| Messages.AttachedValue | wrappers/Bridge.ts:81 | `value ?? fallback`: the given value, else the wrapper's default |
| Messages.MessageBody | wrappers/Bridge.ts:82-86 | fails exactly when the op is not 32-bit or the payload does not fit beside the 96-bit header; otherwise reads back as op, query id 0 and exactly the payload |
| Messages.HeaderRead | wrappers/Bridge.ts:83-85 | a body made of op, query id 0 and a payload reads back as those three |
| Metadata.KeyEncoding | tests/helpers.ts:6-13 | an encoding exists exactly for name, description, image and symbol, and it is ASCII exactly for image |
| Metadata.KeyEncodingAsWritten | tests/helpers.ts:26 | the key check as written: agrees with the closed set on its keys, yet also accepts every inherited `Object.prototype` name |
| Metadata.InheritedNameAccepted | tests/helpers.ts:26 | "toString" is outside the key set, yet the check as written stores it as UTF-8 |
| Metadata.SnakeChunksFlatten | tests/helpers.ts:35-37 | the chunks concatenated again are exactly the value |
| Metadata.SnakeChunksCount | tests/helpers.ts:35-43 | ceil(n/126) chunks for n > 0 bytes, one empty chunk for none |
| Metadata.SnakeChunksSizes | tests/helpers.ts:19-37 | every chunk holds at most 126 bytes, every chunk but the last exactly 126, and none is empty unless the value is |
| Metadata.SnakeChunksStep | tests/helpers.ts:35-37 | one loop iteration takes the first min(126, n) bytes and leaves the chunks of the rest |
| Metadata.ReadChainOf | tests/helpers.ts:38-42 | reading a chain cell by cell through its single references gives the chunks joined |
| Metadata.ChainOfCells | tests/helpers.ts:38-42 | a chain has one cell per chunk, and cell i is the chain of the chunks from i |
| Metadata.SnakeRoundTrip | tests/helpers.ts:29-45 | a snake root reads back as exactly the bytes it was built from: the zero prefix, then the chain |
| Metadata.SnakeShape | tests/helpers.ts:19-43 | ceil(n/126) cells; each non-final cell has exactly one reference and the last has none; the root uses at most 8 + 1008 bits, others at most 1008; every cell fits |
| Metadata.TruncatedRoot | tests/helpers.ts:31-43 | the root the loop as written builds fits in one cell, and has a reference exactly when the value is longer than 126 bytes |
| Metadata.TruncatedRootReads | tests/helpers.ts:38-41 | the loop as written keeps only the first 126 bytes; it equals the snake root up to 126 bytes and loses data beyond |
| Metadata.SnakeAsWritten | tests/helpers.ts:31-43 | the `while` loop as written, over builders, produces exactly the truncated root, with the same read-back and loss |
| Metadata.CutChunks | tests/helpers.ts:35-37 | the shrinking-buffer loop cuts exactly the snake chunks, and it terminates |
| Metadata.LinkChain | tests/helpers.ts:38-42 | linking the chunks from the last back to the first builds exactly the chain of single-reference cells |
| Metadata.BuildSnake | tests/helpers.ts:29-45 | the loop with each continuation linked once complete builds the snake root, and that reads back as the whole value |
| Metadata.ContentCell | tests/helpers.ts:48 | the content cell is the zero 8-bit prefix and the dictionary, which reads back as that same dictionary |
| Metadata.FailurePersists | tests/helpers.ts:25-26 | once the `forEach` has thrown, later entries change nothing |
| Metadata.UnsupportedKeyRejected | tests/helpers.ts:26-27 | the first unsupported key makes the build fail with that key, even when its value is undefined or empty |
| Metadata.SupportedKeysAccepted | tests/helpers.ts:25-26 | the corrected build makes the dictionary exactly when every key is one of the four |
| Metadata.SkippedAddsNothing | tests/helpers.ts:27 | a recognised key whose value is undefined or empty adds no entry |
| Metadata.DigestsDiffer | tests/helpers.ts:45 | under the explicit sha256 hypothesis, two different key names have different dictionary keys |
| Metadata.MetadataDictKeys | tests/helpers.ts:25-46 | in the corrected build, the dictionary's keys are exactly the digests of the keys that have a stored value |
| Metadata.MetadataDictValues | tests/helpers.ts:29-45 | in the corrected build, a stored key holds a reference to the snake root of the value in its key's encoding |
| Metadata.TokenMetadataRoundTrip | tests/helpers.ts:18-49 | reading a key from the cell of the corrected build gives the whole encoded stored value, and nothing for a key without one |
| Metadata.StoredValueOfEntry | tests/helpers.ts:25 | for an object's entries, the stored value of a key is the one its entry carries exactly when it is not empty |
| Metadata.SameStoredValues | tests/helpers.ts:25 | two objects with the same entries store the same value under every key |
| Metadata.SameDictionary | tests/helpers.ts:45 | two builds that store the same values build the same dictionary |
| Metadata.MetadataDictOrderIndependent | tests/helpers.ts:25-46 | the order of the fields does not matter: both builds fail, or both build the same dictionary |
| Metadata.KeySetsDisjoint | tests/helpers.ts:6-13 | none of the four supported keys is an inherited `Object.prototype` name |
| Metadata.FieldLeafAsWritten | tests/helpers.ts:29-45 | the leaf as written is one reference to a root that reads back as the first 126 bytes of the encoded value; for a value of at most 126 bytes it is the corrected leaf |
| Metadata.MetadataDictAsWritten | tests/helpers.ts:25-46 | the `forEach` as written builds the dictionary exactly when every key passes the key check as written, inherited names included |
| Metadata.TokenMetadataCellAsWritten | tests/helpers.ts:18-49 | `buildTokenMetadataCell` as written throws exactly when its dictionary does, and otherwise its content cell reads back as that dictionary |
| Metadata.BuildsAgree | tests/helpers.ts:18-49 | with no inherited key names and every value within 126 bytes, the build as written and the corrected build give the same dictionary and the same result, failures included |
| Metadata.InheritedNameBuilt | tests/helpers.ts:26 | a field "toString" with a value: the build as written succeeds, the corrected build fails with that key |
| Metadata.ReadSingleField | tests/helpers.ts:45-48 | a content cell with one field reads that field back from its snake root |
| Metadata.LongValueTruncated | tests/helpers.ts:31-48 | a supported key with a value over 126 bytes: the cell as written reads back only the first 126 bytes, the corrected cell reads back all of them |
| Metadata.BuildTokenMetadataCell | tests/helpers.ts:18-49 | the corrected build: the `forEach` with in-place `dict.set` of each snake root, then the content cell, computes TokenMetadataCell, or the error it throws |
| Hex.HexToBytes | tests/Bridge.spec.ts:98 | `Buffer.from(s, 'hex')` gives half as many bytes as digits, dropping an odd last digit |
| Hex.HexDigitsValue | tests/Bridge.spec.ts:97 | the digits `toString(16)` writes denote the number they were written from |
| Hex.HexDigitsLength | tests/Bridge.spec.ts:97 | a number written in k digits is below 16^k, and at least 16^(k-1) when k > 1 |
| Hex.HexDigitsPadded | tests/Bridge.spec.ts:58 | the unpadded digits are the low digits of the number at their own length |
| Hex.HexToBytesLast | tests/Bridge.spec.ts:98 | for an even number of digits, the last pair decodes to the last byte |
| Hex.HexToBytesValue | tests/Bridge.spec.ts:98 | decoding an even number of digits keeps the number they denote |
| Hex.HexHashBytes | tests/Bridge.spec.ts:97-98 | a 256-bit hash written by `toString(16)` decodes to 32 bytes exactly when it is at least 2^252, and those bytes then denote the hash |
| Hex.HexDigitsMatchPadded | tests/Bridge.spec.ts:58 | the unpadded digits of a 256-bit number equal its 64 padded digits exactly when it is at least 2^252 |
| BridgeWrapper.StorageCell | wrappers/Bridge.ts:45-51 | the storage fits in one cell; its references are the oracle dictionary, the jettons dictionary (if non-empty), the minter code and the wallet code, in that order |
| BridgeWrapper.StorageLayout | wrappers/Bridge.ts:45-51 | the storage bits are the admin address and the two dictionary bits; the references are the two dictionaries' roots, then the two codes |
| BridgeWrapper.StorageBits | wrappers/Bridge.ts:45-48 | the storage bits are the admin address, then the two dictionaries' presence bits |
| BridgeWrapper.StorageRefs | wrappers/Bridge.ts:47-50 | the storage references are the dictionary roots, then minter code and wallet code |
| BridgeWrapper.OraclesRoundTrip | wrappers/Bridge.ts:34-38 | the oracle dictionary's keys are exactly the oracle hashes |
| BridgeWrapper.AddressLeafReads | wrappers/Bridge.ts:40-43 | an address leaf of the jettons dictionary reads back as its address |
| BridgeWrapper.JettonsRoundTrip | wrappers/Bridge.ts:40-43 | the jettons dictionary reads back as the coin-id-to-minter map |
| BridgeWrapper.StorageCodesRead | wrappers/Bridge.ts:49-50 | after the dictionaries, the two code references read back, and nothing follows |
| BridgeWrapper.StorageDictsRead | wrappers/Bridge.ts:47-50 | after the admin address, the two dictionaries and the codes read back as the storage |
| BridgeWrapper.StorageRoundTrip | wrappers/Bridge.ts:45-51 | the storage cell reads back as the storage it was built from |
| BridgeWrapper.InitialStorageLayout | wrappers/Bridge.ts:34-51 | at construction the oracle dictionary has exactly the oracle's hash, mapped to an empty inner dictionary; the jettons dictionary is empty; there are three references |
| BridgeWrapper.FeeParamsNotStored | wrappers/Bridge.ts:25-51 | `feeAddr` and `feeRate` do not change the init data |
| BridgeWrapper.Bridge.constructor | wrappers/Bridge.ts:23-55 | the init is the bridge code with the storage cell; the address is derived from it in the given workchain |
| BridgeWrapper.BridgeBodyReads | wrappers/Bridge.ts:82-86 | a body around a payload that reads as a request reads as that request with query id 0 |
| BridgeWrapper.LockPayload | wrappers/Bridge.ts:74-78 | succeeds exactly when the destination fits 160 bits and the coin id 32; it is then those two fields and no reference |
| BridgeWrapper.LockPayloadReads | wrappers/Bridge.ts:74-78 | the lock payload reads back as the destination and the coin id |
| BridgeWrapper.SendLock | wrappers/Bridge.ts:65-88 | fails exactly when a field does not fit; attaches the given value or 0.05 TON; the body reads back as op 1 with the destination and coin id |
| BridgeWrapper.LockBodySize | wrappers/Bridge.ts:74-86 | the lock body is exactly 288 bits and has no reference |
| BridgeWrapper.UnlockPayload | wrappers/Bridge.ts:99 | succeeds exactly when the amount is a coins value; it is then the address followed by coins(amount) |
| BridgeWrapper.UnlockPayloadReads | wrappers/Bridge.ts:99 | the unlock payload reads back as the address and the amount |
| BridgeWrapper.SendUnlock | wrappers/Bridge.ts:90-111 | fails exactly when the amount is not a coins value; attaches the given value or 0.2 TON; the body reads back as op 2 with the address and amount |
| BridgeWrapper.AddJettonPayload | wrappers/Bridge.ts:122 | succeeds exactly when the coin id is 32-bit; it is then the coin id with the metadata as its only reference |
| BridgeWrapper.AddJettonPayloadReads | wrappers/Bridge.ts:122 | the add-jetton payload reads back as the coin id and the metadata cell |
| BridgeWrapper.SendAddJetton | wrappers/Bridge.ts:113-132 | fails exactly when the coin id is not 32-bit; attaches the given value or 0.5 TON; the metadata is the body's only reference; the body reads back as op 3 |
| BridgeWrapper.MintPayload | wrappers/Bridge.ts:145-151 | succeeds exactly when the coin id is 32-bit and both amounts are coins values; it is then address, coin id, amount and forward amount, in that order |
| BridgeWrapper.ReadMintPayloadSteps | wrappers/Bridge.ts:145-150 | four successive field reads that end the slice read as the mint request |
| BridgeWrapper.MintPayloadReads | wrappers/Bridge.ts:145-150 | the mint payload reads back as address, coin id, amount and forward amount |
| BridgeWrapper.MintBodyReads | wrappers/Bridge.ts:145-151 | for fields that fit, the mint payload and its body exist, and the body reads back as op 21 with the four fields |
| BridgeWrapper.SendMintJetton | wrappers/Bridge.ts:134-161 | fails exactly when a field does not fit; attaches the given value or 0.2 TON; the body reads back as op 21 with the four fields |
| JettonWallet.WalletDataCell | wrappers/JettonWallet.ts:26-31 | the init data fits; it is coins(0), the owner, the master and a reference to the wallet code |
| JettonWallet.ZeroBalanceBits | wrappers/JettonWallet.ts:27 | a zero balance is written as four zero bits |
| JettonWallet.WalletDataRoundTrip | wrappers/JettonWallet.ts:26-31 | the init data reads back as balance 0, the owner, the master and the wallet code |
| JettonWallet.WalletDataInjective | wrappers/JettonWallet.ts:25-35 | different owners or masters give different init data |
| JettonWallet.CalculateAddress | wrappers/JettonWallet.ts:25-35 | the wallet address is in workchain 0 and is the hash of the wallet code and the init data of (owner, master) |
| JettonWallet.CalculateAddressInputs | wrappers/JettonWallet.ts:25-35 | the hashed init states agree exactly when owner and master agree |
| JettonWallet.BuildBurnPayload | wrappers/JettonWallet.ts:47-49 | the two in-place `set`s succeed exactly when both fields fit, and build the two-key payload dictionary |
| JettonWallet.RefFieldReads | wrappers/JettonWallet.ts:48-49 | a leaf referencing a cell with one n-bit field reads back as that field |
| JettonWallet.BurnPayloadRoundTrip | wrappers/JettonWallet.ts:47-49 | the payload has exactly the keys 0x4fe560c1 and 0x53c2ce98, which read back as the destination and the coin id |
| JettonWallet.BurnContent | wrappers/JettonWallet.ts:51 | succeeds exactly when the amount is a coins value; it is then coins(amount), `addr_none` and the payload dictionary |
| JettonWallet.BurnContentReads | wrappers/JettonWallet.ts:51 | the burn content reads back as the amount, no response destination, the destination and the coin id |
| JettonWallet.BurnBodyReads | wrappers/JettonWallet.ts:55-59 | a body of op 0x595f07bc around content that reads as a burn request reads as that request |
| JettonWallet.BurnMessageReads | wrappers/JettonWallet.ts:47-59 | for fields that fit, the burn body exists, has the payload root as its only reference, and reads back |
| JettonWallet.SendBurn | wrappers/JettonWallet.ts:37-61 | fails exactly when a field does not fit; attaches the given value or 0.5 TON; the body reads back as the amount, `addr_none`, destination and coin id |
| JettonMinter.MinterDataCell | wrappers/JettonMinter.ts:11-16 | succeeds exactly when the supply is a coins value; it is then coins(supply) and the admin, with exactly two references: content, then wallet code |
| JettonMinter.MinterDataRoundTrip | wrappers/JettonMinter.ts:11-16 | the minter init data reads back as supply, admin, content and wallet code |
| JettonMinter.MinterDataInjective | wrappers/JettonMinter.ts:10-20 | different supplies, admins or contents give different init data |
| JettonMinter.CalculateAddress | wrappers/JettonMinter.ts:10-20 | fails exactly when the supply is not a coins value; else the address is in workchain 0 and hashes the minter code and the init data |
| JettonMinter.CalculateAddressInputs | wrappers/JettonMinter.ts:10-20 | two minter data cells agree exactly when supply, admin and content agree |
| BridgeSandbox.LogCell | tests/Bridge.spec.ts:95-99 | the log fits one cell: 160-bit destination, 32-bit coin id, 256-bit sender hash, then coins(value) |
| BridgeSandbox.ReadLog | tests/Bridge.spec.ts:95-99 | the scenario's reads give a 160-bit destination, a 32-bit coin id and a 256-bit sender hash |
| BridgeSandbox.LogRoundTrip | tests/Bridge.spec.ts:95-104 | the scenario's four reads give back the logged destination, coin id, sender hash and value |
| BridgeSandbox.PredictedMinter | tests/Bridge.spec.ts:141 | the registered minter is in workchain 0, at `JettonMinter.calculateAddress(0, bridge, metadata)` |
| BridgeSandbox.DeployedMinter | tests/Bridge.spec.ts:140-158 | the minter the contract deploys from its stored codes is in workchain 0 |
| BridgeSandbox.DeployedMinterPredicted | tests/Bridge.spec.ts:40-41 | with the wrapper's minter and wallet codes stored, as the test deploys them, the deployed minter is the one `JettonMinter.calculateAddress` predicts |
| BridgeSandbox.DeployedWallet | tests/Bridge.spec.ts:185-201 | the wallet a minter deploys from its wallet code is in workchain 0 |
| BridgeSandbox.DeployedWalletPredicted | tests/Bridge.spec.ts:41 | with the wrapper's wallet code, the deployed wallet is the one `JettonWallet.calculateAddress` predicts |
| BridgeSandbox.BridgeContract.GetBridgeData | tests/Bridge.spec.ts:55-74 | the stack of the `get_bridge_data` get-method, read from the storage cell: the admin's workchain and hash, the oracle keys and the jettons |
| BridgeSandbox.BridgeContract.constructor | tests/Bridge.spec.ts:34-43 | the contract sits at the wrapper's predicted address, and its storage is the wrapper's init storage |
| BridgeSandbox.BridgeContract.Lock | tests/Bridge.spec.ts:81-104 | any sender; exactly one log, naming the destination, coin id, sender hash and value |
| BridgeSandbox.BridgeContract.Unlock | tests/Bridge.spec.ts:107-137 | accepted exactly when the sender's hash is an oracle key; then pays the destination; otherwise exit 402 |
| BridgeSandbox.BridgeContract.AddJetton | tests/Bridge.spec.ts:140-172 | from the admin: deploys the minter built from the stored codes and records it under the coin id; otherwise exit 403 with the registry unchanged |
| BridgeSandbox.BridgeContract.Mint | tests/Bridge.spec.ts:175-201 | from an oracle for a registered coin: routes to the registered minter, then to the user's wallet built from the stored wallet code |
| BridgeSandbox.BridgeContract.JettonWalletAddress | wrappers/Bridge.ts:194-201 | `getJettonWalletAddress` names a wallet exactly for a registered coin id: the owner's wallet under that jetton's minter, from the stored wallet code |
| BridgeSandbox.BridgeContract.Burned | tests/Bridge.spec.ts:213-235 | a burn of a registered jetton logs the lock layout, with the owner's hash as sender |
| BridgeSandbox.RebuiltSender | tests/Bridge.spec.ts:97-98 | `Address.parseRaw` of the bridge's workchain and the unpadded hex of the logged hash throws exactly when the hash is below 2^252, and otherwise gives the bridge's workchain with the logged hash |
| BridgeSandbox.RebuiltSenderDiffers | tests/Bridge.spec.ts:98-103 | the sender rebuilt in the bridge's workchain is not the user when the workchains differ |
| BridgeSandbox.SenderCheckAsWritten | tests/Bridge.spec.ts:95-103 | on the scenario's deployment, a user's log reads back intact, yet the sender rebuilt from it is another account |
| BridgeSandbox.LoggedBy | tests/Bridge.spec.ts:97-103 | the intended check, that the logged hash is the sender's; for a sender hash of at least 2^252 it decides what the check as written decides with the bridge in the sender's workchain |
| BridgeSandbox.LogNamesSender | tests/Bridge.spec.ts:97-103 | a log passes the intended check: its sender hash is the sender's, whatever the workchains |
| BridgeSandbox.DeployHashCheck | tests/Bridge.spec.ts:58 | the hex comparison as written; for an admin hash of at least 2^252 it holds exactly when the reported hash is the admin's |
| BridgeSandbox.DeployHashCheckAsWritten | tests/Bridge.spec.ts:58 | on the report after deployment, the hex comparison as written passes exactly when the admin's hash is at least 2^252, although the report is right for every admin |
| BridgeSandbox.TestFields | tests/Bridge.spec.ts:20-25 | the test jetton's four fields have supported keys, non-empty values and the encodings their keys select |
| BridgeSandbox.TestMetadata | tests/Bridge.spec.ts:20-25 | the corrected build of the test jetton's fields succeeds |
| BridgeSandbox.TestStoredValues | tests/Bridge.spec.ts:20-25 | the test jetton stores each of its four values under its key |
| BridgeSandbox.TestMetadataFields | tests/Bridge.spec.ts:20-25 | under the sha256 hypothesis, each of the four fields reads back from the test jetton's content cell in its key's encoding |
| BridgeSandbox.TestMetadataAsWritten | tests/Bridge.spec.ts:20-25 | when each encoded value is at most 126 bytes, the build as written gives the same content cell as the corrected build |
| BridgeSandbox.RunDeployScenario | tests/Bridge.spec.ts:54-75 | after deployment: admin workchain 0 and admin hash, the oracle as the only oracle key, no jettons |
| BridgeSandbox.RunLockScenario | tests/Bridge.spec.ts:77-105 | a lock sent through the wrapper is read back by the bridge and logs destination, coin id, sender and value |
| BridgeSandbox.RunUnlockScenarios | tests/Bridge.spec.ts:107-138 | the same unlock pays the user when sent by the oracle and exits with 402 when sent by the admin |
| BridgeSandbox.RunJettonScenarios | tests/Bridge.spec.ts:140-236 | on one instance deployed with the wrapper's codes: the admin registers the test jetton, its metadata built by `buildTokenMetadataCell`, at the predicted minter; a user's attempt exits with 403 and changes nothing; the oracle mints through that minter to the user's predicted wallet; the getter names that wallet, and a burn from it is logged with the user as sender |
| BridgeSandbox.RunBurnScenario | tests/Bridge.spec.ts:204-236 | on an instance where the coin id is registered: the getter names the user's wallet, and a burn sent through the wallet wrapper reaches the bridge intact and logs the amount, destination and coin id with the user as sender |

## Left out

- The HashmapE trie encoding, BoC serialisation and cell representation hashes (ton-core, not part of this model). A dictionary root is an abstract map. The StateInit hash is an uninterpreted function, so address prediction amounts to "the same init data gives the same address".
- `sha256` (tests/helpers.ts:51-55) is a foreign cryptographic call and is left uninterpreted. The lookup lemmas assume only the explicit `DigestsDistinct` hypothesis.
- `Buffer.from(v, encoding)`: Node's text encoders are one uninterpreted function per encoding.
- Code loading with `fs.readFileSync` (wrappers/Bridge.ts:15,18; wrappers/JettonWallet.ts:14,17; wrappers/JettonMinter.ts:5,8) is file I/O. The code cells are opaque constants.
- `toNano` parsing. Its default values are written out in nanotons.
- `provider.internal`, `sendMode`, `bounce` (wrappers/Bridge.ts:103-104), gas, fees and balances. These run in the TON VM. A send function returns only the value it attaches and the body.
- `sendDeploy` (wrappers/Bridge.ts:57-63). It sends an empty body and is a VM deployment. In the model, deployment is the `BridgeContract` constructor.
- `getBridgeData`, `getBridgeDataStack` and `getJettonWalletAddress` (wrappers/Bridge.ts:163-201) run as get-methods in the VM, which is not modelled. `GetBridgeData` is read from the storage cell instead, and `JettonWalletAddress` names the wallet the registered minter deploys.
- The FunC bridge contract is not part of this model. `BridgeSandbox` states only what the scenarios assert.
- BridgeSandbox.DeployedMinter and BridgeSandbox.DeployedWallet: the contract is taken to build its minters' and wallets' init data in the wrappers' layout, around the codes it stores. `StateInitHash` is uninterpreted, so the model does not prove that other codes give other addresses.
- Metadata.BuildTokenMetadataCell: models the corrected build. The code as written (TokenMetadataCellAsWritten) also accepts inherited names such as "toString" and keeps only the first 126 bytes of a value (first two rows of "Findings"). BuildsAgree proves the two agree otherwise.
- `Address.parseRaw` is modelled only as far as the scenarios use it: it throws unless the hex decodes to 32 bytes (RebuiltSender).
- BridgeSandbox.BridgeContract.Mint: the contract requires an oracle sender and a registered coin id. The scenarios do not pin the behaviour of a mint from anyone else, or for an unknown coin id.
- BridgeSandbox.BridgeContract.Lock: the attached value is taken as the logged amount. Fee deduction is not modelled.
- BridgeSandbox.BridgeContract.Burned: the log carries the burnt jetton amount from the burn body, not the TON attached to the burn. The minter's notification to the bridge, and the value it forwards, are not modelled.
- BridgeSandbox.BridgeContract.GetBridgeData: models the get-method's stack, which the deploy scenario reads directly. The wrapper's `getBridgeData` reads the jettons slot with `readCell()` (wrappers/Bridge.ts:175). On the null slot of an empty registry (tests/Bridge.spec.ts:72), ton-core's stack reader would throw; that throw is not modelled.
- Oracle-set mutation, fee-rate handling and query-id echoing are not exercised by the scenarios.
- The scenarios share one instance. In the model, the deploy, lock and unlock scenarios each start from a fresh deployment. This is equivalent because only AddJetton changes the storage and those operations do not read the registry. The jetton and burn scenarios, which do read it, run in order on one instance.
- BridgeSandbox.RunBurnScenario: jetton balances are not modelled. The test burns 1.0 of the 2.0 jettons it minted; the model does not check that a burn stays within the wallet's balance.
- test/bridge.test.ts and test/helpers.ts describe a stale earlier protocol. scripts/deployBridge.ts is a network deployment script.
- JavaScript `number` parameters are modelled as integers. A fractional coin id or supply, which ton-core would reject, is not modelled.

## Findings

| source | as written | input that shows it | evidently intended | confidence | as-written member | corrected member |
|---|---|---|---|---|---|---|
| tests/helpers.ts:38-41 | `currentCell.storeRef(newCell)` stores a builder. ton-core ends that builder at the moment of the call, so the reference is an empty cell, and the bytes written into `newCell` afterwards are lost | any value longer than 126 bytes, e.g. 127 bytes: the root reads back as the first 126 bytes only | each continuation cell linked once it is filled, so the chain reads back as the whole value | high (ton-core's `storeRef` of a builder calls `endCell()`); not executed | Metadata.SnakeAsWritten | Metadata.BuildSnake |
| tests/helpers.ts:26 | the key check is a property lookup on an object literal, so inherited `Object.prototype` members pass it | a field named "toString": not rejected, stored with Node's fallback UTF-8 encoding | only the four keys are accepted, any other key throws | medium (depends on the JavaScript object model); not executed | Metadata.InheritedNameAccepted | Metadata.UnsupportedKeyRejected |
| tests/Bridge.spec.ts:98-103 | the sender is rebuilt in the bridge's workchain (-1), and `toBeTruthy` is never invoked, so the check decides nothing | the user treasury in workchain 0: the rebuilt address is `-1:<user hash>`, not the user; a sender hash below 2^252 makes `parseRaw` throw, as `toString(16)` writes fewer than 64 digits | compare the logged hash with the sender's account hash | high for the missing call; medium for the workchain; not executed | BridgeSandbox.SenderCheckAsWritten | BridgeSandbox.LogNamesSender |
| tests/Bridge.spec.ts:58 | `readBigNumber().toString(16)` writes no leading zeros while `hash.toString('hex')` writes all 64 digits | an admin whose hash is below 2^252 (first hex digit 0): the strings differ although the getter reports the right hash | compare the numbers, or pad the hex to 64 digits | high; not executed | BridgeSandbox.DeployHashCheckAsWritten | BridgeSandbox.RunDeployScenario |
