/**
 * The byte-slice key helpers of common/wireguard/crypto.go, as that file is
 * written: private keys are 32 random bytes clamped for X25519 and returned
 * base64-encoded; public keys are derived by fixed-base scalar
 * multiplication, which is foreign code and so a parameter here.
 */
module Crypto {
  import opened Wrappers
  import opened Base64

  type Bytes32 = s: seq<byte> | |s| == 32
    witness [0, 0, 0, 0, 0, 0, 0, 0, 0, 0, 0, 0, 0, 0, 0, 0, 0, 0, 0, 0, 0, 0, 0, 0, 0, 0, 0, 0, 0, 0, 0, 0]

  /** The all-zero key, the value of an unset key. */
  const Zero32: Bytes32 :=
    [0, 0, 0, 0, 0, 0, 0, 0, 0, 0, 0, 0, 0, 0, 0, 0, 0, 0, 0, 0, 0, 0, 0, 0, 0, 0, 0, 0, 0, 0, 0, 0]

  /** `b & 248`: clears the three low bits. */
  function ClearLow3(b: byte): (r: byte)
    ensures r % 8 == 0 && r <= b && b - r < 8
  {
    b - b % 8
  }

  /** `b & 127`: clears the top bit. */
  function ClearTop(b: byte): (r: byte)
    ensures r < 128 && (b < 128 ==> r == b) && (b >= 128 ==> r == b - 128)
  {
    b % 128
  }

  /** `b | 64`: sets bit 6 (value 64), keeping every other bit. */
  function SetBit6(b: byte): (r: byte)
    ensures (r / 64) % 2 == 1 && r % 64 == b % 64 && r / 128 == b / 128
  {
    if (b / 64) % 2 == 1 then b else b + 64
  }

  /**
   * X25519 clamping: the low three bits of the first byte are clear, the top
   * bit of the last byte is clear, and its bit 6 is set.
   */
  predicate IsClamped(k: Bytes32) {
    k[0] % 8 == 0 && 64 <= k[31] < 128
  }

  /** `key[0] &= 248; key[31] &= 127; key[31] |= 64` */
  function Clamp(k: Bytes32): (r: Bytes32)
    ensures IsClamped(r)
    ensures forall i :: 1 <= i < 31 ==> r[i] == k[i]
    ensures r[0] == k[0] - k[0] % 8 && r[31] % 64 == k[31] % 64
  {
    k[0 := ClearLow3(k[0])][31 := SetBit6(ClearTop(k[31]))]
  }

  /** Clamping leaves a key alone exactly when it is already clamped. */
  lemma ClampFixesClamped(k: Bytes32)
    ensures Clamp(k) == k <==> IsClamped(k)
  {
    if IsClamped(k) {
      assert Clamp(k)[0] == k[0] && Clamp(k)[31] == k[31];
      assert Clamp(k) == k;
    }
  }

  /** Clamping twice is clamping once. */
  lemma ClampIdempotent(k: Bytes32)
    ensures Clamp(Clamp(k)) == Clamp(k)
  {
    ClampFixesClamped(Clamp(k));
  }

  /**
   * GenPrivateKey. `random` is what crypto/rand.Read delivers into the
   * 32-byte buffer: the bytes, or its error.
   */
  method GenPrivateKey(random: Result<Bytes32>) returns (priv: string, err: Option<Error>)
    ensures random.Err? ==> priv == [] && err == Some(random.error)
    ensures random.Ok? ==> err.None? && priv == Encode(Clamp(random.value))
    ensures random.Ok? ==> |priv| == EncodedLen(32) == 44
  {
    var key := new byte[32];
    if random.Err? {
      return [], Some(random.error);
    }
    for i := 0 to 32
      invariant key[..i] == random.value[..i]
    {
      key[i] := random.value[i];
    }
    assert key[..] == random.value;
    key[0] := ClearLow3(key[0]);
    key[31] := ClearTop(key[31]);
    key[31] := SetBit6(key[31]);
    assert key[..] == Clamp(random.value);
    priv := Encode(key[..]);
    err := None;
  }

  /**
   * GenPublicKey. A base64 error is passed on with no key; a decoded length
   * other than 32 gives no key AND no error; any 32 bytes, clamped or not,
   * are multiplied by the base point.
   */
  method GenPublicKey(priv: string, scalarBaseMult: Bytes32 -> Bytes32) returns (pub: string, err: Option<Error>)
    ensures Decode(priv).Err? ==> pub == [] && err == Some(CorruptBase64)
    ensures Decode(priv).Ok? && |Decode(priv).value| != 32 ==> pub == [] && err.None?
    ensures Decode(priv).Ok? && |Decode(priv).value| == 32 ==>
              err.None? && pub == Encode(scalarBaseMult(Decode(priv).value))
  {
    var decoded := Decode(priv);
    if decoded.Err? {
      return [], Some(decoded.error);
    }
    var privateKey := decoded.value;
    if |privateKey| != 32 {
      return [], None;
    }
    var publicKey := scalarBaseMult(privateKey);
    pub := Encode(publicKey);
    err := None;
  }

  /**
   * GenKeyPair. Fails only when the random source does; then both keys are
   * nil. Otherwise the public key is the base-point multiple of the clamped
   * private key.
   */
  method GenKeyPair(random: Result<Bytes32>, scalarBaseMult: Bytes32 -> Bytes32)
    returns (priv: string, pub: string, err: Option<Error>)
    ensures random.Err? ==> priv == [] && pub == [] && err == Some(random.error)
    ensures random.Ok? ==> err.None? && priv == Encode(Clamp(random.value))
    ensures random.Ok? ==> pub == Encode(scalarBaseMult(Clamp(random.value)))
  {
    priv, err := GenPrivateKey(random);
    if err.Some? {
      return [], [], err;
    }
    DecodeEncode(Clamp(random.value));
    pub, err := GenPublicKey(priv, scalarBaseMult);
    if err.Some? {
      return [], [], err;
    }
  }
}
