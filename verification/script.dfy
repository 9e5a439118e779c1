/** Recognising the two standard output-script templates by their leading
    bytes, and taking the bytes after a two-byte prefix. */
module Script {
  import opened Primitives

  datatype ScriptType = P2PKH | P2WPKH | Unknown

  const OP_0: byte := 0x00
  const OP_DUP: byte := 0x76
  const OP_HASH160: byte := 0xa9
  const OP_PUSHBYTES_20: byte := 0x14

  /** OP_DUP OP_HASH160 OP_PUSHBYTES_20. */
  const P2pkhPrefix: seq<byte> := [OP_DUP, OP_HASH160, OP_PUSHBYTES_20]

  /** OP_0 OP_PUSHBYTES_20. */
  const P2wpkhPrefix: seq<byte> := [OP_0, OP_PUSHBYTES_20]

  /** Rust's `slice::starts_with`. */
  predicate StartsWith(script: seq<byte>, prefix: seq<byte>) {
    |prefix| <= |script| && script[..|prefix|] == prefix
  }

  /** `classify_script`: total; looks at the prefix only, never at what
      follows it or at the script's length. */
  function ClassifyScript(script: seq<byte>): (t: ScriptType)
    ensures t == P2PKH <==>
      |script| >= 3 && script[0] == 0x76 && script[1] == 0xa9 && script[2] == 0x14
    ensures t == P2WPKH <==>
      |script| >= 2 && script[0] == 0x00 && script[1] == 0x14
  {
    if StartsWith(script, P2pkhPrefix) then P2PKH
    else if StartsWith(script, P2wpkhPrefix) then P2WPKH
    else Unknown
  }

  /** Whatever follows a template's prefix, including nothing, the script is
      classified by that template. */
  lemma ClassifyIgnoresTail(tail: seq<byte>)
    ensures ClassifyScript(P2pkhPrefix + tail) == P2PKH
    ensures ClassifyScript(P2wpkhPrefix + tail) == P2WPKH
  {
  }

  /** The two prefixes cannot both match, so testing P2WPKH first would
      classify every script the same way. */
  lemma PrefixTestsCommute(script: seq<byte>)
    ensures !(StartsWith(script, P2pkhPrefix) && StartsWith(script, P2wpkhPrefix))
    ensures ClassifyScript(script) ==
      if StartsWith(script, P2wpkhPrefix) then P2WPKH
      else if StartsWith(script, P2pkhPrefix) then P2PKH
      else Unknown
  {
    if StartsWith(script, P2pkhPrefix) {
      assert script[0] == script[..3][0] == OP_DUP;
    }
  }

  /** `read_pushdata`: everything from index 2 on. Rust panics on a script
      shorter than two bytes, so callers must supply at least two. The
      script's template is not checked. */
  function ReadPushdata(script: seq<byte>): (data: seq<byte>)
    requires |script| >= 2
    ensures |data| == |script| - 2
    ensures forall i :: 0 <= i < |data| ==> data[i] == script[i + 2]
  {
    script[2..]
  }

  /** The first two bytes and the pushdata put back together are the script. */
  lemma PushdataRebuildsScript(script: seq<byte>)
    requires |script| >= 2
    ensures script[..2] + ReadPushdata(script) == script
  {
  }

  /** For a P2WPKH script the pushdata is what follows its prefix. */
  lemma PushdataOfP2wpkh(tail: seq<byte>)
    ensures ReadPushdata(P2wpkhPrefix + tail) == tail
  {
  }
}
