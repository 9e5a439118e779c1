/** The two-entry opcode table and its formatted error for every other byte. */
module Opcodes {
  import opened Primitives
  import Hex

  /** `OpInvalid` is declared by the Rust library but never produced. */
  datatype Opcode = OpChecksig | OpDup | OpInvalid

  const InvalidOpcodePrefix: string := "Invalid opcode: 0x"

  /** The byte each recognised opcode is written as. */
  function OpcodeByte(op: Opcode): byte
    requires op != OpInvalid
  {
    match op
    case OpChecksig => 0xac
    case OpDup => 0x76
  }

  /** `Opcode::from_byte`. Errors spell the byte as two lowercase hex digits
      (`{:02x}`), which is the hex encoding of the one-byte string. */
  function FromByte(b: byte): (r: Result<Opcode, string>)
    ensures r.Ok? <==> b == 0xac || b == 0x76
    ensures r.Ok? ==> r.value != OpInvalid && OpcodeByte(r.value) == b
    ensures r.Err? ==> |r.error| == |InvalidOpcodePrefix| + 2
    ensures r.Err? ==> r.error[..|InvalidOpcodePrefix|] == InvalidOpcodePrefix
    ensures r.Err? ==> r.error[|InvalidOpcodePrefix|..] == [Hex.HexDigit(b / 16), Hex.HexDigit(b % 16)]
  {
    match b
    case 0xac => Ok(OpChecksig)
    case 0x76 => Ok(OpDup)
    case _ => Err(InvalidOpcodePrefix + Hex.BytesToHex([b]))
  }

  /** Looking up a recognised opcode's byte gives the opcode back. */
  lemma FromByteInverse(op: Opcode)
    requires op != OpInvalid
    ensures FromByte(OpcodeByte(op)) == Ok(op)
  {
  }

  /** The last two characters of an error decode to exactly the rejected
      byte, so the message identifies it. */
  lemma ErrorNamesByte(b: byte)
    requires FromByte(b).Err?
    ensures Hex.HexToBytes(FromByte(b).error[|InvalidOpcodePrefix|..]) == Ok([b])
  {
    var msg := FromByte(b).error;
    assert msg[|InvalidOpcodePrefix|..] == Hex.BytesToHex([b]);
    Hex.HexRoundTrip([b]);
  }
}
