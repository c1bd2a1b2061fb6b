/**
 * The helpers of the crypto library: Base64 conversion of byte buffers, and
 * thin wrappers over the browser's WebCrypto (`crypto.subtle`) for RSA-OAEP
 * (section 7.1 of RFC 8017, 2048-bit modulus, exponent 65537, SHA-256) and
 * AES-GCM (NIST SP 800-38D, 256-bit key, 96-bit IV).
 *
 * The ciphers themselves are not modelled: a `SubtleCrypto` value supplies
 * them as functions, and `Sound` states the correctness laws those functions
 * are taken to obey.  `ReferenceSubtle` shows that the laws can all hold at
 * once.  Random numbers (`crypto.getRandomValues`, key generation, the OAEP
 * seed) are parameters.
 */
module Crypto {
  import opened Wrappers
  import opened Bytes
  import Base64
  import Utf8

  /** The names of the `DOMException`s these calls throw. */
  datatype CryptoError = InvalidCharacterError | DataError | OperationError

  /** A 96-bit AES-GCM initialisation vector: `new Uint8Array(12)`. */
  type Iv = s: seq<Byte> | |s| == 12 witness [0, 0, 0, 0, 0, 0, 0, 0, 0, 0, 0, 0]

  /** The 32 random bytes of a fresh AES-256 key. */
  type AesKeyBytes = s: seq<Byte> | |s| == 32
    witness [0, 0, 0, 0, 0, 0, 0, 0, 0, 0, 0, 0, 0, 0, 0, 0, 0, 0, 0, 0, 0, 0, 0, 0, 0, 0, 0, 0, 0, 0, 0, 0]

  // ---------------------------------------------------------------------------
  // Base64 helpers
  // ---------------------------------------------------------------------------

  /** What `arrayBufferToBase64` returns: `btoa` of the buffer's binary string. */
  function ToBase64(b: seq<Byte>): (s: string)
    ensures Base64.Btoa(Latin1(b)) == Success(s)
  {
    CodesOfLatin1(b);
    Base64.Encode(b)
  }

  /** What `base64ToArrayBuffer` returns: the codes of `atob`'s binary string, or its exception. */
  function FromBase64(s: string): (r: Result<seq<Byte>, CryptoError>)
    ensures r.Success? <==> Base64.Atob(s).Success?
    ensures r.Success? ==> Latin1(r.value) == Base64.Atob(s).value
  {
    match Base64.Atob(s)
    case Failure(_) => Failure(InvalidCharacterError)
    case Success(binary) => Latin1OfCodes(binary); Success(Codes(binary))
  }

  /** Decoding the encoding of a buffer gives back the same bytes. */
  lemma FromBase64OfToBase64(b: seq<Byte>)
    ensures FromBase64(ToBase64(b)) == Success(b)
  {
    Base64.AtobOfEncode(b);
    CodesOfLatin1(b);
  }

  /**
   * `arrayBufferToBase64`: each byte is appended to a binary string as the
   * character with that code, and the string is passed to `btoa`.
   */
  method ArrayBufferToBase64(bytes: array<Byte>) returns (s: string)
    ensures Base64.Btoa(Latin1(bytes[..])) == Success(s)
    ensures s == ToBase64(bytes[..])
  {
    var binary := "";
    var len := bytes.Length;
    for i := 0 to len
      invariant binary == Latin1(bytes[..i])
    {
      Latin1Append(bytes[..i], bytes[i]);
      assert bytes[..i + 1] == bytes[..i] + [bytes[i]];
      binary := binary + [bytes[i] as char];
    }
    assert bytes[..len] == bytes[..];
    var encoded := Base64.Btoa(binary);
    s := encoded.value;
  }

  /**
   * `base64ToArrayBuffer`: `atob` (which may throw), then a fresh `Uint8Array`
   * of the string's length filled with `charCodeAt(i)`.
   */
  method Base64ToArrayBuffer(base64: string) returns (r: Result<seq<Byte>, CryptoError>)
    ensures r.Failure? <==> Base64.Atob(base64).Failure?
    ensures r.Success? ==> |r.value| == |Base64.Atob(base64).value|
    ensures r.Success? ==> forall i :: 0 <= i < |r.value| ==> r.value[i] == Base64.Atob(base64).value[i] as int
    ensures r == FromBase64(base64)
  {
    var decoded := Base64.Atob(base64);
    if decoded.Failure? {
      return Failure(InvalidCharacterError);
    }
    var binaryString := decoded.value;
    var len := |binaryString|;
    var bytes := new Byte[len];
    for i := 0 to len
      invariant forall j :: 0 <= j < i ==> bytes[j] == binaryString[j] as int
    {
      bytes[i] := binaryString[i] as int;
    }
    assert bytes[..] == Codes(binaryString);
    r := Success(bytes[..]);
  }

  // ---------------------------------------------------------------------------
  // Keys
  // ---------------------------------------------------------------------------

  datatype HashAlgorithm = Sha256

  /** The `RsaHashedKeyGenParams` of a key. */
  datatype RsaParams = RsaParams(modulusLength: nat, publicExponent: seq<Byte>, hash: HashAlgorithm)

  /** `{name: "RSA-OAEP", modulusLength: 2048, publicExponent: [1, 0, 1], hash: "SHA-256"}` */
  const RsaOaep2048: RsaParams := RsaParams(2048, [1, 0, 1], Sha256)

  /**
   * RSA key handles.  The modulus itself is not modelled: `pairId` names the
   * key pair a handle belongs to, so that a public and a private key match
   * exactly when they share it.
   */
  datatype RsaPublicKey = RsaPublicKey(params: RsaParams, pairId: nat)
  datatype RsaPrivateKey = RsaPrivateKey(params: RsaParams, pairId: nat)
  datatype RsaKeyPair = RsaKeyPair(publicKey: RsaPublicKey, privateKey: RsaPrivateKey)

  predicate Matches(pub: RsaPublicKey, priv: RsaPrivateKey) {
    pub.pairId == priv.pairId && pub.params == priv.params
  }

  /**
   * A public JSON Web Key: it has no field for private material. `e` holds the
   * exponent's big-endian bytes and `n` the pair identifier that stands for
   * the modulus. `modulusLength` is not a JWK member: it stands for the
   * length of `n`, so that an import can rebuild the key's parameters.
   */
  datatype Jwk = Jwk(kty: string, alg: string, modulusLength: nat, e: seq<Byte>, n: nat)

  /** The largest message RSA-OAEP can encrypt: k - 2 hLen - 2 octets (section 7.1.1 of RFC 8017). */
  function MaxOaepMessage(params: RsaParams): int {
    params.modulusLength / 8 - 2 * 32 - 2
  }

  /** `generateRsaKeyPair`: the key pair drawn by the random value `draw`. */
  function GenerateRsaKeyPair(draw: nat): (kp: RsaKeyPair)
    ensures kp.publicKey.params == RsaOaep2048 && kp.privateKey.params == RsaOaep2048
    ensures Matches(kp.publicKey, kp.privateKey)
  {
    RsaKeyPair(RsaPublicKey(RsaOaep2048, draw), RsaPrivateKey(RsaOaep2048, draw))
  }

  /** `exportKey(publicKey)` for "jwk": the public parameters only. */
  function ExportKey(pub: RsaPublicKey): Jwk {
    Jwk("RSA", "RSA-OAEP-256", pub.params.modulusLength, pub.params.publicExponent, pub.pairId)
  }

  /** `importRsaPublicKey`: a JWK that is not an RSA-OAEP-256 key is refused with a DataError. */
  function ImportRsaPublicKey(jwk: Jwk): (r: Result<RsaPublicKey, CryptoError>)
    ensures r.Success? <==> jwk.kty == "RSA" && jwk.alg == "RSA-OAEP-256"
    ensures r.Success? ==> r.value.params.hash == Sha256 && ExportKey(r.value) == jwk
  {
    if jwk.kty == "RSA" && jwk.alg == "RSA-OAEP-256" then
      Success(RsaPublicKey(RsaParams(jwk.modulusLength, jwk.e, Sha256), jwk.n))
    else Failure(DataError)
  }

  /** Importing an exported public key gives the same key back. */
  lemma ImportOfExport(pub: RsaPublicKey)
    requires pub.params.hash == Sha256
    ensures ImportRsaPublicKey(ExportKey(pub)) == Success(pub)
  {
  }

  /** An AES key handle, fully described by its raw key bytes. */
  datatype AesKey = AesKey(raw: seq<Byte>)

  /** `generateAesKey`: a 256-bit key made of 32 random bytes. */
  function GenerateAesKey(draw: AesKeyBytes): (k: AesKey)
    ensures |ExportAesKeyRaw(k)| == 32
  {
    AesKey(draw)
  }

  /** `crypto.subtle.exportKey('raw', key)`. */
  function ExportAesKeyRaw(k: AesKey): seq<Byte> {
    k.raw
  }

  /** `importAesKey`: raw AES keys are 128, 192 or 256 bits; any other length is a DataError. */
  function ImportAesKey(raw: seq<Byte>): (r: Result<AesKey, CryptoError>)
    ensures r.Success? <==> |raw| in {16, 24, 32}
    ensures r.Success? ==> ExportAesKeyRaw(r.value) == raw
  {
    if |raw| == 16 || |raw| == 24 || |raw| == 32 then Success(AesKey(raw)) else Failure(DataError)
  }

  /** Exporting a generated key and importing the raw bytes gives the same key. */
  lemma ImportOfExportAes(draw: AesKeyBytes)
    ensures ImportAesKey(ExportAesKeyRaw(GenerateAesKey(draw))) == Success(GenerateAesKey(draw))
  {
  }

  // ---------------------------------------------------------------------------
  // The ciphers, as parameters with laws
  // ---------------------------------------------------------------------------

  /**
   * The four cipher operations of `crypto.subtle` this library calls.  AES-GCM
   * takes the raw key, the IV and the data; its decryption returns `None` when
   * the authentication tag does not verify.  RSA-OAEP encryption takes the OAEP
   * seed as a third argument and returns `None` for a message that is too long.
   */
  datatype SubtleCrypto = SubtleCrypto(
    aesGcmEncrypt: (seq<Byte>, seq<Byte>, seq<Byte>) -> seq<Byte>,
    aesGcmDecrypt: (seq<Byte>, seq<Byte>, seq<Byte>) -> Option<seq<Byte>>,
    rsaOaepEncrypt: (RsaPublicKey, seq<Byte>, seq<Byte>) -> Option<seq<Byte>>,
    rsaOaepDecrypt: (RsaPrivateKey, seq<Byte>) -> Option<seq<Byte>>)

  /** AES-GCM decryption with the key and IV of the encryption recovers the plaintext. */
  ghost predicate AesGcmCorrect(w: SubtleCrypto) {
    forall k, iv, p :: w.aesGcmDecrypt(k, iv, w.aesGcmEncrypt(k, iv, p)) == Some(p)
  }

  /** Decryption under a different key of the same size fails authentication. */
  ghost predicate AesGcmAuthenticates(w: SubtleCrypto) {
    forall k, k', iv, p :: |k| == |k'| && k != k' ==> w.aesGcmDecrypt(k', iv, w.aesGcmEncrypt(k, iv, p)) == None
  }

  /** RSA-OAEP: a message within the size bound encrypts, and the matching private key recovers it. */
  ghost predicate RsaOaepCorrect(w: SubtleCrypto) {
    forall pub: RsaPublicKey, priv: RsaPrivateKey, d, seed ::
      Matches(pub, priv) && |d| <= MaxOaepMessage(pub.params) ==>
        w.rsaOaepEncrypt(pub, d, seed).Some? &&
        w.rsaOaepDecrypt(priv, w.rsaOaepEncrypt(pub, d, seed).value) == Some(d)
  }

  /** RSA-OAEP refuses a message above the size bound. */
  ghost predicate RsaOaepBounded(w: SubtleCrypto) {
    forall pub: RsaPublicKey, d, seed :: |d| > MaxOaepMessage(pub.params) ==> w.rsaOaepEncrypt(pub, d, seed) == None
  }

  /** Only the private key of the pair can decrypt. */
  ghost predicate RsaOaepPrivate(w: SubtleCrypto) {
    forall pub: RsaPublicKey, priv: RsaPrivateKey, d, seed ::
      priv.pairId != pub.pairId && w.rsaOaepEncrypt(pub, d, seed).Some? ==>
        w.rsaOaepDecrypt(priv, w.rsaOaepEncrypt(pub, d, seed).value) == None
  }

  /** The laws taken to hold of the browser's WebCrypto. */
  ghost predicate Sound(w: SubtleCrypto) {
    AesGcmCorrect(w) && AesGcmAuthenticates(w) && RsaOaepCorrect(w) && RsaOaepBounded(w) && RsaOaepPrivate(w)
  }

  /** `pairId` written in unary, ahead of the message, by the reference RSA. */
  function PairTag(id: nat): (t: seq<Byte>)
    ensures |t| == id + 1 && t[id] == 0
    ensures forall j :: 0 <= j < id ==> t[j] == 1
  {
    seq(id, _ => 1) + [0]
  }

  predicate HasPairTag(c: seq<Byte>, id: nat) {
    |c| > id && c[id] == 0 && forall j :: 0 <= j < id ==> c[j] == 1
  }

  /**
   * A transparent stand-in that obeys every law of `Sound`: AES prefixes the
   * key and IV, RSA prefixes the key pair's tag.  It is not a cipher; it only
   * shows that the laws are consistent.
   */
  function ReferenceSubtle(): SubtleCrypto {
    SubtleCrypto(
      (k: seq<Byte>, iv: seq<Byte>, p: seq<Byte>) => k + iv + p,
      (k: seq<Byte>, iv: seq<Byte>, c: seq<Byte>) =>
        if |c| >= |k| + |iv| && c[..|k|] == k && c[|k|..|k| + |iv|] == iv then Some(c[|k| + |iv|..]) else None,
      (pub: RsaPublicKey, d: seq<Byte>, seed: seq<Byte>) =>
        if |d| <= MaxOaepMessage(pub.params) then Some(PairTag(pub.pairId) + d) else None,
      (priv: RsaPrivateKey, c: seq<Byte>) =>
        if HasPairTag(c, priv.pairId) then Some(c[priv.pairId + 1..]) else None)
  }

  /** The laws of `Sound` are satisfiable. */
  lemma ReferenceSubtleIsSound()
    ensures Sound(ReferenceSubtle())
  {
    var w := ReferenceSubtle();
    forall k, iv, p ensures w.aesGcmDecrypt(k, iv, w.aesGcmEncrypt(k, iv, p)) == Some(p) {
      var c := k + iv + p;
      assert c[..|k|] == k && c[|k|..|k| + |iv|] == iv && c[|k| + |iv|..] == p;
    }
    forall k, k', iv, p | |k| == |k'| && k != k'
      ensures w.aesGcmDecrypt(k', iv, w.aesGcmEncrypt(k, iv, p)) == None
    {
      var c := k + iv + p;
      assert c[..|k'|] == k;
    }
    forall pub: RsaPublicKey, priv: RsaPrivateKey, d, seed | Matches(pub, priv) && |d| <= MaxOaepMessage(pub.params)
      ensures w.rsaOaepEncrypt(pub, d, seed).Some?
      ensures w.rsaOaepDecrypt(priv, w.rsaOaepEncrypt(pub, d, seed).value) == Some(d)
    {
      var c := PairTag(pub.pairId) + d;
      assert HasPairTag(c, priv.pairId);
      assert c[priv.pairId + 1..] == d;
    }
    forall pub: RsaPublicKey, priv: RsaPrivateKey, d, seed |
      priv.pairId != pub.pairId && w.rsaOaepEncrypt(pub, d, seed).Some?
      ensures w.rsaOaepDecrypt(priv, w.rsaOaepEncrypt(pub, d, seed).value) == None
    {
      var c := PairTag(pub.pairId) + d;
      if priv.pairId < pub.pairId {
        assert c[priv.pairId] == 1;
      } else {
        assert c[pub.pairId] == 0;
      }
    }
  }

  // ---------------------------------------------------------------------------
  // The wrappers
  // ---------------------------------------------------------------------------

  /** `encryptWithRsa`: a message too long for OAEP is an OperationError. */
  function EncryptWithRsa(w: SubtleCrypto, data: seq<Byte>, publicKey: RsaPublicKey, seed: seq<Byte>): Result<seq<Byte>, CryptoError> {
    match w.rsaOaepEncrypt(publicKey, data, seed)
    case None => Failure(OperationError)
    case Some(c) => Success(c)
  }

  /** `decryptWithRsa`: a ciphertext the key cannot open is an OperationError. */
  function DecryptWithRsa(w: SubtleCrypto, data: seq<Byte>, privateKey: RsaPrivateKey): Result<seq<Byte>, CryptoError> {
    match w.rsaOaepDecrypt(privateKey, data)
    case None => Failure(OperationError)
    case Some(p) => Success(p)
  }

  /**
   * RSA-OAEP round trip through the wrappers: data of at most 190 bytes
   * encrypted under the imported public key of a generated pair is recovered
   * by the pair's private key, and by no other.
   */
  lemma RsaRoundTrip(w: SubtleCrypto, draw: nat, data: seq<Byte>, seed: seq<Byte>, other: RsaPrivateKey)
    requires Sound(w)
    requires |data| <= 190
    ensures var kp := GenerateRsaKeyPair(draw);
      var pub := ImportRsaPublicKey(ExportKey(kp.publicKey));
      && pub == Success(kp.publicKey)
      && EncryptWithRsa(w, data, pub.value, seed).Success?
      && DecryptWithRsa(w, EncryptWithRsa(w, data, pub.value, seed).value, kp.privateKey) == Success(data)
      && (other.pairId != draw ==>
            DecryptWithRsa(w, EncryptWithRsa(w, data, pub.value, seed).value, other).Failure?)
  {
    var kp := GenerateRsaKeyPair(draw);
    ImportOfExport(kp.publicKey);
    assert MaxOaepMessage(kp.publicKey.params) == 190;
  }

  /** `{ciphertext, iv}` returned by `encryptWithAes`, both Base64. */
  datatype Envelope = Envelope(ciphertext: string, iv: string)

  /**
   * `encryptWithAes`: the text is UTF-8 encoded and sealed with AES-GCM under
   * the 12 random bytes `iv` (`crypto.getRandomValues(new Uint8Array(12))`).
   */
  function EncryptWithAes(w: SubtleCrypto, plainText: string, key: AesKey, iv: Iv): Envelope {
    Envelope(ToBase64(w.aesGcmEncrypt(key.raw, iv, Utf8.Encode(plainText))), ToBase64(iv))
  }

  /**
   * The envelope's IV is 16 Base64 characters that decode to the 12 IV bytes,
   * and its ciphertext decodes to the AES-GCM output on the UTF-8 text.
   */
  lemma EnvelopeDecodes(w: SubtleCrypto, plainText: string, key: AesKey, iv: Iv)
    ensures var e := EncryptWithAes(w, plainText, key, iv);
      && FromBase64(e.iv) == Success(iv) && |e.iv| == 16
      && FromBase64(e.ciphertext) == Success(w.aesGcmEncrypt(key.raw, iv, Utf8.Encode(plainText)))
  {
    FromBase64OfToBase64(iv);
    FromBase64OfToBase64(w.aesGcmEncrypt(key.raw, iv, Utf8.Encode(plainText)));
  }

  /**
   * `decryptWithAes`: Base64 decoding of IV and ciphertext (either may throw),
   * AES-GCM decryption (a failed tag check throws), then UTF-8 decoding.
   * Nothing is caught.
   */
  function DecryptWithAes(w: SubtleCrypto, ciphertext: string, iv: string, key: AesKey): Result<string, CryptoError> {
    var ivBytes :- FromBase64(iv);
    var cipherBytes :- FromBase64(ciphertext);
    match w.aesGcmDecrypt(key.raw, ivBytes, cipherBytes)
    case None => Failure(OperationError)
    case Some(plain) => Success(Utf8.Decode(plain))
  }

  /** Text comes out of `decryptWithAes` only when both decodings and the tag check succeed. */
  lemma DecryptWithAesOutcome(w: SubtleCrypto, ciphertext: string, iv: string, key: AesKey)
    ensures var r := DecryptWithAes(w, ciphertext, iv, key);
      r.Success? <==>
        && FromBase64(iv).Success? && FromBase64(ciphertext).Success?
        && w.aesGcmDecrypt(key.raw, FromBase64(iv).value, FromBase64(ciphertext).value).Some?
    ensures var r := DecryptWithAes(w, ciphertext, iv, key);
      r.Success? ==>
        r.value == Utf8.Decode(w.aesGcmDecrypt(key.raw, FromBase64(iv).value, FromBase64(ciphertext).value).value)
  {
  }

  /** True of a text `new TextDecoder()` would shorten: one beginning with U+FEFF. */
  predicate StartsWithBom(s: string) {
    |s| > 0 && s[0] == Utf8.ByteOrderMark
  }

  /**
   * AES-GCM round trip through the wrappers: the envelope decrypts under the
   * same key to the plaintext, except that a leading U+FEFF is lost to the
   * decoder's byte order mark rule.
   */
  lemma AesRoundTrip(w: SubtleCrypto, plainText: string, key: AesKey, iv: Iv)
    requires AesGcmCorrect(w)
    ensures var e := EncryptWithAes(w, plainText, key, iv);
      DecryptWithAes(w, e.ciphertext, e.iv, key) ==
        Success(if StartsWithBom(plainText) then plainText[1..] else plainText)
  {
    EnvelopeDecodes(w, plainText, key, iv);
    Utf8.DecodeEncode(plainText);
  }

  /** Under a different key of the same size the envelope never yields text. */
  lemma AesWrongKeyFails(w: SubtleCrypto, plainText: string, key: AesKey, other: AesKey, iv: Iv)
    requires AesGcmAuthenticates(w)
    requires |other.raw| == |key.raw| && other != key
    ensures var e := EncryptWithAes(w, plainText, key, iv);
      DecryptWithAes(w, e.ciphertext, e.iv, other) == Failure(OperationError)
  {
    EnvelopeDecodes(w, plainText, key, iv);
  }

  /** Envelopes made with different IVs carry different IV strings. */
  lemma DistinctIvsGiveDistinctEnvelopes(w: SubtleCrypto, p: string, q: string, k: AesKey, k': AesKey, iv: Iv, iv': Iv)
    requires iv != iv'
    ensures EncryptWithAes(w, p, k, iv).iv != EncryptWithAes(w, q, k', iv').iv
  {
    EnvelopeDecodes(w, p, k, iv);
    EnvelopeDecodes(w, q, k', iv');
  }
}
