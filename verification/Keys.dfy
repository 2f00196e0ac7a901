/** The cryptographic primitives, as abstract functions with their output lengths. */
module Keys {
  import opened Bits

  type Bytes8 = s: Bytes | |s| == 8 witness seq(8, _ => 0)
  type Bytes16 = s: Bytes | |s| == 16 witness seq(16, _ => 0)
  type Bytes32 = s: Bytes | |s| == 32 witness seq(32, _ => 0)
  type Bytes64 = s: Bytes | |s| == 64 witness seq(64, _ => 0)

  datatype Crypto = Crypto(
    loraMac8: (Bytes, Bytes) -> Bytes8,      // key, message
    fieldMac: (Bytes, Bytes) -> Bytes16,     // key, message
    sha256: Bytes -> Bytes32,
    publicKey: Bytes -> Bytes32,             // seed
    sign: (Bytes, Bytes) -> Bytes64,         // seed, message
    verify: (Bytes, Bytes, Bytes) -> bool    // public key, message, signature
  )
  {
    /** The one fact used about Ed25519: a signature made with a seed verifies under its key. */
    ghost predicate SignaturesVerify() {
      forall seed, m :: verify(publicKey(seed), m, sign(seed, m))
    }

    predicate VerifyFieldMac(key: Bytes, message: Bytes, mac: Bytes) {
      |mac| == 16 && fieldMac(key, message) == mac
    }
  }

  /** The material one field shares. */
  datatype FieldKeys = FieldKeys(fieldId: Bytes16, fieldMacKey: Bytes, loraMacKey: Bytes)
  {
    function FieldTag(): (tag: Bytes)
      ensures |tag| == 4
    {
      fieldId[..4]
    }
  }
}
