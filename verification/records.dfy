/** The plain records of the library and the txid display helper. */
module Records {
  import opened Primitives

  /** `Outpoint(String, u32)`: a transaction id as text and an output index. */
  datatype Outpoint = Outpoint(txid: string, vout: u32)

  /** `UTXO`: the transaction id here is raw bytes, unlike `Outpoint`'s text;
      `src/lib.rs` keeps the two representations apart and so does the model. */
  datatype Utxo = Utxo(txid: seq<byte>, vout: u32, value: u64)

  const TxidLabel: string := "txid: "

  /** `move_txid`: the id behind a fixed label, unchanged. */
  function MoveTxid(txid: string): (shown: string)
    ensures |shown| == |TxidLabel| + |txid|
    ensures shown[..|TxidLabel|] == TxidLabel && shown[|TxidLabel|..] == txid
  {
    TxidLabel + txid
  }
}
