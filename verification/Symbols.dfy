/**
  The alphabet every message, key and stored value is written in.

  A byte stands for itself.  A base64 block that carries a 32-byte tree hash or
  a note signature is one symbol: hashing and signing are symbolic, so two
  hashes are equal only if they were built the same way, and a signature names
  the key that made it and the text it covers.
*/
module Symbols {
  type byte = b: int | 0 <= b < 256

  type word32 = n: nat | n < 0x1_0000_0000

  type Key = nat

  datatype Hash =
    | Leaf(data: seq<Sym>)            // SHA-256(0x00 || data)
    | Node(left: Hash, right: Hash)   // SHA-256(0x01 || left || right)
    | Empty                           // SHA-256 of the empty string
    | Opaque(id: nat)                 // any other 32 bytes

  datatype Sig = Sig(signer: Key, text: seq<Sym>)

  datatype Sym =
    | Byte(b: byte)
    | Digest(h: Hash)
    | SigBlock(keyHash: word32, sig: Sig)

  type Bytes = seq<Sym>

  const NL: Sym := Byte(10)
  const SPACE: Sym := Byte(32)

  /** The bytes of an ASCII literal. */
  function Str(s: string): (r: Bytes)
    ensures |r| == |s|
    ensures forall i :: 0 <= i < |s| ==> r[i] == Chr(s[i])
  {
    seq(|s|, i requires 0 <= i < |s| => Chr(s[i]))
  }

  function Chr(c: char): Sym {
    Byte(if c as int < 256 then c as int else 63)
  }
}
