# Bitcoin-style byte and number helpers, in Dafny

A model of the helper library in `src/lib.rs`: byte-order reversal, the
little-endian encoding of a `u32`, the Base16 codec (section 8 of RFC 4648,
lowercase output, case-insensitive input, as the `hex` crate implements it),
parsing of decimal satoshi amounts as Rust's `u64::from_str` does, the
P2PKH / P2WPKH script-prefix classifier and the pushdata tail, the two-entry
opcode table, and saturating fee deduction.

Every helper is a pure Dafny function (the amount parser is a method whose
loop accumulates digits, as the standard library's parser does). Rust's
integer types are subset types of `int` (`byte`, `u32`, `u64` in module
`Primitives`); strings are `seq<char>`; Rust's `Result` is
`Primitives.Result`. A Rust panic (slicing a too-short script) is a
`requires` clause.

Modules follow the components of the library:

- `ByteOrder` (`byte_order.dfy`): `to_big_endian`, `swap_endian_u32`.
- `Hex` (`hex.dfy`): `bytes_to_hex`, `hex_to_bytes`, `decode_hex`. Both
  decoders share one definition; `hex_to_bytes` returns the structured
  `HexError` (`OddLength`, or `InvalidChar` with the offending character and
  its position), and `decode_hex` returns `Rendered(e)`, standing for the
  text of `e`.
- `Satoshis` (`satoshis.dfy`): `parse_satoshis`.
- `Script` (`script.dfy`): `ScriptType`, `classify_script`, `read_pushdata`.
- `Opcodes` (`opcodes.dfy`): `Opcode`, `Opcode::from_byte`.
- `Fees` (`fees.dfy`): `apply_fee`.
- `Records` (`records.dfy`): `Outpoint`, `UTXO`, `move_txid`.
- `Scenarios` (`scenarios.dfy`): concrete cases, each a consequence of the general contracts (`decode_hex("")`,
  `"abc"` rejected, `[0x51]` unknown, `0xff` named in the opcode error,
  `"100"` parses, `-1` rejected, a fee of 100 on 50 leaves 0, the pushdata of
  a five-byte script).

## Model

| member | source | states |
|---|---|---|
| ByteOrder.ToBigEndian | src/lib.rs:9-12 | the result has the input's length and holds `bytes[n-1-i]` at position `i` |
| ByteOrder.ToBigEndianInvolution | src/lib.rs:9-12 | reversing twice gives back the input |
| ByteOrder.SwapEndianU32 | src/lib.rs:25-29 | four bytes, least significant first: `b0 + 256*b1 + 256^2*b2 + 256^3*b3 == num`, with no dependence on the platform |
| ByteOrder.SwapEndianU32Inverse | src/lib.rs:25-29 | every four-byte string is the encoding of exactly one `u32`, so the encoding is a bijection |
| Hex.BytesToHex | src/lib.rs:14-17 | output length is twice the input's, every character is in `0-9a-f`, and byte `i` is written as its high then low nibble at positions `2i`, `2i+1` |
| Hex.HexToBytes | src/lib.rs:19-23 | succeeds exactly on even-length strings of digits of either case, with byte `i` the value of digit pair `i`; odd length gives `OddLength`; otherwise the error names the first non-digit and its position |
| Hex.DecodeHex | src/lib.rs:3-7 | succeeds exactly on even-length strings of hex digits; odd length is reported as the odd-length error |
| Hex.DecodersAgree | src/lib.rs:3-23 | `decode_hex` and `hex_to_bytes` accept the same strings, return the same bytes, and fail for the same reason |
| Hex.HexRoundTrip | src/lib.rs:3-23 | both decoders give back `Ok(b)` for the encoding of any `b` |
| Hex.EncodeDecoded | src/lib.rs:14-23 | re-encoding what a decoder accepted gives the input with its uppercase digits lowered |
| Hex.DecodeIgnoresCase | src/lib.rs:19-23 | a string and its lowercased form are accepted together and decode to the same bytes |
| Satoshis.ParseSatoshis | src/lib.rs:31-38 | `Ok(v)` exactly when the input is an optional `+` then one or more ASCII digits whose decimal value `v` is at most 2^64-1; otherwise the fixed error `"Invalid satoshi amount"` |
| Satoshis.PrefixValueBound | src/lib.rs:35-37 | a numeral's value is at least that of each prefix, which is why stopping at the first overflow is sound |
| Satoshis.RejectedInputs | src/lib.rs:31-38 | the empty string, a lone `+`, a leading `-` and a doubled `+` are never amounts |
| Script.ClassifyScript | src/lib.rs:47-59 | `P2PKH` exactly when the first three bytes are `76 a9 14`; `P2WPKH` exactly when the first two are `00 14`; `Unknown` for everything else, short scripts included |
| Script.ClassifyIgnoresTail | src/lib.rs:47-59 | a template prefix followed by any bytes, or none, is classified by that template |
| Script.PrefixTestsCommute | src/lib.rs:50-57 | no script carries both prefixes, so testing them in the other order classifies every script the same way |
| Script.ReadPushdata | src/lib.rs:66-70 | for a script of at least two bytes, the result has length `|script|-2` and is exactly the bytes from index 2 on |
| Script.PushdataRebuildsScript | src/lib.rs:66-70 | the first two bytes followed by the pushdata are the whole script |
| Script.PushdataOfP2wpkh | src/lib.rs:54-70 | for a P2WPKH script the pushdata is what follows the prefix |
| Opcodes.FromByte | src/lib.rs:106-114 | `Ok` exactly for `0xac` and `0x76`, never `OpInvalid`, and the opcode is the one that byte denotes; every other byte gives `"Invalid opcode: 0x"` followed by its two lowercase hex digits |
| Opcodes.FromByteInverse | src/lib.rs:106-114 | looking up a recognised opcode's byte gives that opcode back |
| Opcodes.ErrorNamesByte | src/lib.rs:112 | the last two characters of an opcode error hex-decode to exactly the rejected byte |
| Fees.ApplyFee | src/lib.rs:87-90 | the new balance never exceeds the old one and the amount taken is the fee, or the whole balance when the fee is larger (no underflow) |
| Fees.ApplyFeeTwice | src/lib.rs:87-90 | charging two fees in turn equals charging their sum once |
| Fees.ApplyFeeBounds | src/lib.rs:87-90 | a zero fee changes nothing and a fee at least the balance empties it |
| Records.MoveTxid | src/lib.rs:92-95 | the result is the label `"txid: "` followed by the id, unchanged |

## Left out

- `Wallet` and `TestWallet::balance` (src/lib.rs:72-85): a getter behind trait dispatch; traits are not part of this model.
- `consume_utxo` (src/lib.rs:125-130): an identity function with nothing to state; `Outpoint` and `UTXO` are declared as datatypes only, keeping their different `txid` representations.
- `apply_fee` updates a `&mut u64` in place; the model returns the new balance instead.
- Hex.HexToBytes: the input is a sequence of characters, while the `hex` crate looks at the UTF-8 bytes of the string. For input with non-ASCII characters the model and the crate agree on success and on the decoded bytes, but the reported error (odd length versus invalid character, the position, and the character) can differ.
- Hex.DecodeHex: the wording of the error text is the `hex` crate's `Display` output and is not modelled; only which error it renders is. It renders the error of `Hex.HexToBytes`, so for non-ASCII input it inherits the same possible difference in error kind, position and character.
- The `Debug`, `Clone` and `PartialEq` derives, and Rust's ownership and allocation.
