/** Concrete cases, each a consequence of the general contracts. */
module Scenarios {
  import opened Primitives
  import Hex
  import Satoshis
  import Script
  import Opcodes
  import Fees

  lemma HexCases()
    ensures Hex.DecodeHex("") == Ok([])
    ensures Hex.DecodeHex("abc") == Err(Hex.Rendered(Hex.OddLength))
    ensures Hex.HexToBytes("0g") == Err(Hex.InvalidChar('g', 1))
    ensures Hex.BytesToHex([0x00, 0xff, 0x1a]) == "00ff1a"
  {
  }

  lemma ScriptCases()
    ensures Script.ClassifyScript([0x76, 0xa9, 0x14]) == Script.P2PKH
    ensures Script.ClassifyScript([0x00, 0x14, 0x01]) == Script.P2WPKH
    ensures Script.ClassifyScript([0x51]) == Script.Unknown
    ensures Script.ClassifyScript([]) == Script.Unknown
    ensures Script.ReadPushdata([0x76, 0xa9, 0x14, 0x01, 0x02]) == [0x14, 0x01, 0x02]
  {
  }

  lemma OpcodeCases()
    ensures Opcodes.FromByte(0xac) == Ok(Opcodes.OpChecksig)
    ensures Opcodes.FromByte(0x76) == Ok(Opcodes.OpDup)
    ensures Opcodes.FromByte(0xff) == Err("Invalid opcode: 0xff")
  {
    var r := Opcodes.FromByte(0xff);
    assert Hex.HexDigit(15) == 'f';
    assert r.error == r.error[..18] + r.error[18..];
    assert "Invalid opcode: 0x" + "ff" == "Invalid opcode: 0xff";
  }

  lemma AmountCases()
    ensures Satoshis.IsAmount("100") && Satoshis.DecimalValue("100") == 100
    ensures Satoshis.IsAmount("+7") && Satoshis.DecimalValue(Satoshis.Magnitude("+7")) == 7
    ensures !Satoshis.IsAmount("-1")
    ensures !Satoshis.IsAmount("abc")
    ensures Fees.ApplyFee(50, 100) == 0
  {
    assert "100"[..2] == "10" && "10"[..1] == "1" && "1"[..0] == "";
    assert Satoshis.Magnitude("+7") == "7" && "7"[..0] == "";
  }
}
