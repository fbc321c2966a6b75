/**
 * The three nominal key types used by the configuration codec and the mesh
 * builder. Their definitions are not among the modelled files, so they are
 * defined by how combine.go and generate.go use them: a 32-byte value whose
 * private form is valid when clamped and whose public and preshared forms
 * are valid when non-zero. Text form is standard base64.
 *
 * Randomness and Curve25519 are outside the model: a KeyEngine holds the
 * successive 32-byte reads of the secure random source and the fixed-base
 * scalar multiplication as constants, and counts its draws.
 */
module Keys {
  import opened Wrappers
  import opened Base64
  import opened Crypto

  datatype PrivateKey = PrivateKey(bytes: Bytes32)
  {
    predicate IsValid() { IsClamped(bytes) }
    function String(): string { Encode(bytes) }
  }

  datatype PublicKey = PublicKey(bytes: Bytes32)
  {
    predicate IsValid() { bytes != Zero32 }
    function String(): string { Encode(bytes) }
  }

  datatype PresharedKey = PresharedKey(bytes: Bytes32)
  {
    predicate IsValid() { bytes != Zero32 }
    function String(): string { Encode(bytes) }
  }

  /** The zero values of the three key types. */
  const NoPrivateKey := PrivateKey(Zero32)
  const NoPublicKey := PublicKey(Zero32)
  const NoPresharedKey := PresharedKey(Zero32)

  /** Every zero key is invalid: the zero private key is not clamped. */
  lemma ZeroKeysInvalid()
    ensures !NoPrivateKey.IsValid() && !NoPublicKey.IsValid() && !NoPresharedKey.IsValid()
  {
    assert NoPrivateKey.bytes[31] == 0;
  }

  /** UnmarshalText of a key: base64 text that decodes to exactly 32 bytes. */
  function ParseKey(text: string): (r: Result<Bytes32>)
    ensures r.Ok? <==> Decode(text).Ok? && |Decode(text).value| == 32
    ensures r.Ok? ==> r.value == Decode(text).value
    ensures r.Err? ==> r.error == InvalidKey
  {
    match Decode(text)
    case Ok(b) => if |b| == 32 then Ok(b) else Err(InvalidKey)
    case Err(_) => Err(InvalidKey)
  }

  /** A key's text parses back to the same 32 bytes. */
  lemma ParseKeyString(b: Bytes32)
    ensures ParseKey(Encode(b)) == Ok(b)
  {
    DecodeEncode(b);
  }

  class KeyEngine {
    /** The n-th 32-byte read of the secure random source. */
    const random: nat -> Bytes32
    /** Curve25519 fixed-base scalar multiplication. */
    const scalarBaseMult: Bytes32 -> Bytes32
    /** How many reads have been taken. */
    var draws: nat

    constructor (random: nat -> Bytes32, scalarBaseMult: Bytes32 -> Bytes32)
      ensures this.random == random && this.scalarBaseMult == scalarBaseMult && draws == 0
    {
      this.random := random;
      this.scalarBaseMult := scalarBaseMult;
      draws := 0;
    }

    /** GenPublicKey: refuses an unclamped key, else multiplies the base point. */
    function Derive(priv: PrivateKey): (r: Result<PublicKey>)
      ensures r.Ok? <==> priv.IsValid()
      ensures r.Ok? ==> r.value.bytes == scalarBaseMult(priv.bytes)
      ensures r.Err? ==> r.error == InvalidKey
    {
      if priv.IsValid() then Ok(PublicKey(scalarBaseMult(priv.bytes))) else Err(InvalidKey)
    }

    /** GenPrivateKey: one random read, clamped. */
    method GenPrivateKey() returns (priv: PrivateKey)
      modifies this
      ensures priv == PrivateKey(Clamp(random(old(draws))))
      ensures priv.IsValid()
      ensures draws == old(draws) + 1
    {
      priv := PrivateKey(Clamp(random(draws)));
      draws := draws + 1;
    }

    /** GenKeyPair: a fresh private key and the public key derived from it. */
    method GenKeyPair() returns (priv: PrivateKey, pub: PublicKey)
      modifies this
      ensures priv == PrivateKey(Clamp(random(old(draws))))
      ensures priv.IsValid() && Derive(priv) == Ok(pub)
      ensures draws == old(draws) + 1
    {
      priv := GenPrivateKey();
      pub := PublicKey(scalarBaseMult(priv.bytes));
    }

    /** GenPresharedKey: one random read, used as it is. */
    method GenPresharedKey() returns (psk: PresharedKey)
      modifies this
      ensures psk == PresharedKey(random(old(draws)))
      ensures draws == old(draws) + 1
    {
      psk := PresharedKey(random(draws));
      draws := draws + 1;
    }
  }
}
