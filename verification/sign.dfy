/**
 * sign/sign.go: Ed25519 keypairs, a password-protected private-key
 * container, and signatures over the SHA-512 digest of a file.
 *
 * The library routines the package calls (SHA-256, SHA-512, scrypt,
 * Ed25519, base64, the random source) are fields of `Crypto`: the model
 * says what this package does with their results, not how they compute
 * them.  YAML documents are the record datatypes below, with the field
 * names of the YAML tags; reading and writing the files is not modelled.
 */
module Sign {
  import opened Wrappers
  import opened Chunked

  type Bytes = seq<bv8>

  /** A SHA-256 sum: 32 bytes. */
  type Digest256 = s: Bytes | |s| == 32 witness seq(32, _ => 0 as bv8)

  /** A SHA-512 sum: 64 bytes. */
  type Digest512 = s: Bytes | |s| == 64 witness seq(64, _ => 0 as bv8)

  /** The 32 random bytes `rand.Read` fills the salt with. */
  type Salt = s: Bytes | |s| == 32 witness seq(32, _ => 0 as bv8)

  type uint32 = x: int | 0 <= x < 0x1_0000_0000

  /** The library routines the package relies on. */
  datatype Crypto = Crypto(
    sha256: Bytes -> Digest256,
    sha512: Bytes -> Digest512,
    // scrypt.Key(password, salt, N, r, p, keyLen); None is its error return
    scrypt: (Bytes, Bytes, int, int, int, int) -> Option<Bytes>,
    // Ed.GenerateKey(rand.Reader) on the random bytes it draws: (public, private)
    generate: Bytes -> Option<(Bytes, Bytes)>,
    // Ed.PrivateKey(sk).Sign(rand.Reader, message, crypto.Hash(0))
    sign: (Bytes, Bytes) -> Option<Bytes>,
    // Ed.Verify(publicKey, message, signature)
    verify: (Bytes, Bytes, Bytes) -> bool,
    // base64.StdEncoding.EncodeToString and DecodeString
    encode64: Bytes -> string,
    decode64: string -> Option<Bytes>)
  {
    /** scrypt.Key returns exactly keyLen bytes when it succeeds. */
    ghost predicate KeyLengthExact()
    {
      forall pw, salt, n, r, p, len :: scrypt(pw, salt, n, r, p, len).Some? ==> |scrypt(pw, salt, n, r, p, len).value| == len
    }

    /** Standard base64 decoding undoes encoding. */
    ghost predicate Base64RoundTrips()
    {
      forall b :: decode64(encode64(b)) == Some(b)
    }

    /** Ed25519: a generated private key is 64 bytes, the seed followed by
        the public key. */
    ghost predicate PrivateKeysEndInPublic()
    {
      forall e :: generate(e).Some? ==>
        |generate(e).value.1| == 64 && generate(e).value.1[32..] == generate(e).value.0
    }

    /** Ed25519: a signature made with a keypair's private key verifies
        under its public key. */
    ghost predicate SignaturesVerify(pk: Bytes, sk: Bytes)
    {
      forall m :: sign(sk, m).Some? ==> verify(pk, m, sign(sk, m).value)
    }
  }

  /** The algorithm name stored with an encrypted private key. */
  const SkAlgo: string := "scrypt-sha256"

  /** scrypt cost parameters used when encrypting: N = 2^17, r = 16, p = 1. */
  const ScryptN: uint32 := 0x2_0000
  const ScryptR: uint32 := 16
  const ScryptP: uint32 := 1

  /** Length of the public-key hint carried by a signature. */
  const KeyHintLen: int := 16

  /** A private key; `pk` is the cached copy of its public key. */
  datatype PrivateKey = PrivateKey(sk: Bytes, pk: Bytes)

  datatype PublicKey = PublicKey(pk: Bytes)

  datatype Keypair = Keypair(sec: PrivateKey, pub: PublicKey)

  /** A signature and the 16-byte hint of the public key that should verify it. */
  datatype Signature = Signature(sig: Bytes, pkhash: Bytes)

  /** The private key after encryption, before base64 (Go's encPrivKey). */
  datatype EncPrivKey = EncPrivKey(esk: Bytes, salt: Bytes, algo: string, verify: Bytes,
                                   n: uint32, r: uint32, p: uint32)

  /** The YAML document of a private key file: comment, esk, salt, algo, verify, Z, r, p. */
  datatype SerializedPrivKey = SerializedPrivKey(comment: string, esk: string, salt: string, algo: string,
                                                 verify: string, n: uint32, r: uint32, p: uint32)

  /** The YAML document of a public key file: comment, pk. */
  datatype SerializedPubKey = SerializedPubKey(comment: string, pk: string)

  /** The YAML document of a signature file: comment, pkhash, signature. */
  datatype SerializedSignature = SerializedSignature(comment: string, pkhash: string, signature: string)

  datatype SignError =
    | KeyGeneration           // "Can't generate Ed25519 keys"
    | RandomSalt              // "Can't read random salt"
    | DeriveKey               // "Can't derive scrypt key" / "can't derive key"
    | BadBase64(field: string) // "can't decode ..."
    | IncorrectPassword       // "incorrect password"
    | SignFailed              // "can't sign"
    | EmptyPublicKey          // "public key data is empty?"
    | MmapFailed(len: int, off: int) // "can't mmap <n> bytes ... at <off>"

  // ---------------------------------------------------------------------
  // Keypair generation

  /** NewKeypair: the private key caches the public key it was generated with. */
  function NewKeypair(c: Crypto, entropy: Bytes): (r: Result<Keypair, SignError>)
    ensures r.Err? <==> c.generate(entropy).None?
    ensures r.Ok? ==> r.value.sec.pk == r.value.pub.pk
    ensures r.Ok? ==> (r.value.pub.pk, r.value.sec.sk) == c.generate(entropy).value
  {
    match c.generate(entropy)
    case None => Err(KeyGeneration)
    case Some((p, s)) => Ok(Keypair(PrivateKey(s, p), PublicKey(p)))
  }

  // ---------------------------------------------------------------------
  // The XOR cipher of the private-key container

  /** `data` XORed byte by byte with the first |data| bytes of `keystream`. */
  function Xor(data: Bytes, keystream: Bytes): Bytes
    requires |data| <= |keystream|
  {
    seq(|data|, i requires 0 <= i < |data| => data[i] ^ keystream[i])
  }

  /** XOR with the same keystream undoes itself. */
  lemma XorTwice(data: Bytes, keystream: Bytes)
    requires |data| <= |keystream|
    ensures |Xor(data, keystream)| == |data|
    ensures Xor(Xor(data, keystream), keystream) == data
  {
    var once := Xor(data, keystream);
    forall i | 0 <= i < |data|
      ensures Xor(once, keystream)[i] == data[i]
    {
      assert once[i] ^ keystream[i] == (data[i] ^ keystream[i]) ^ keystream[i] == data[i];
    }
  }

  /** The loops that fill `esk.Esk` and `sk.Sk`: a fresh buffer of |data|
      bytes, each the XOR of a data byte with the keystream byte at its index. */
  method XorBytes(data: Bytes, keystream: Bytes) returns (out: Bytes)
    requires |data| <= |keystream|
    ensures |out| == |data|
    ensures forall i :: 0 <= i < |data| ==> out[i] == data[i] ^ keystream[i]
    ensures out == Xor(data, keystream)
  {
    var buf := new bv8[|data|];
    for i := 0 to |data|
      invariant forall j :: 0 <= j < i ==> buf[j] == data[j] ^ keystream[j]
    {
      buf[i] := data[i] ^ keystream[i];
    }
    out := buf[..];
  }

  // ---------------------------------------------------------------------
  // Private key encryption (serialize) and decryption (ReadPrivateKey)

  /** The password expanded to 64 bytes, as both directions do it. */
  function ExpandPassword(c: Crypto, pw: Bytes): Digest512
  {
    c.sha512(pw)
  }

  /** The check value stored with the ciphertext: SHA-256(salt || keystream). */
  function VerifyTag(c: Crypto, salt: Bytes, keystream: Bytes): Digest256
  {
    c.sha256(salt + keystream)
  }

  /** What `serialize` encrypts, given the bytes the random source yields for
      the salt (None when `rand.Read` fails). */
  function EncryptKey(c: Crypto, sk: Bytes, pw: Bytes, salt: Option<Salt>): (r: Result<EncPrivKey, SignError>)
    requires c.KeyLengthExact()
    ensures salt.None? ==> r == Err(RandomSalt)
    ensures salt.Some? ==>
              var ks := c.scrypt(ExpandPassword(c, pw), salt.value, ScryptN, ScryptR, ScryptP, |sk|);
              && (r.Err? <==> ks.None?)
              && (r.Ok? ==> |ks.value| == |sk| && r.value.verify == VerifyTag(c, salt.value, ks.value))
    ensures r.Ok? ==>
              && |r.value.esk| == |sk|
              && |r.value.salt| == 32
              && r.value.algo == SkAlgo
              && r.value.n == ScryptN && r.value.r == ScryptR && r.value.p == ScryptP
  {
    if salt.None? then Err(RandomSalt)
    else
      match c.scrypt(ExpandPassword(c, pw), salt.value, ScryptN, ScryptR, ScryptP, |sk|)
      case None => Err(DeriveKey)
      case Some(xork) =>
        Ok(EncPrivKey(Xor(sk, xork), salt.value, SkAlgo, VerifyTag(c, salt.value, xork), ScryptN, ScryptR, ScryptP))
  }

  /** The YAML record of an encrypted key: binary fields in base64. */
  function EncodePrivKey(c: Crypto, e: EncPrivKey, comment: string): SerializedPrivKey
  {
    SerializedPrivKey(comment, c.encode64(e.esk), c.encode64(e.salt), e.algo, c.encode64(e.verify), e.n, e.r, e.p)
  }

  /** The record `serialize` writes to the key file. */
  function PrivateKeyRecord(c: Crypto, sk: PrivateKey, comment: string, pw: Bytes, salt: Option<Salt>): Result<SerializedPrivKey, SignError>
    requires c.KeyLengthExact()
  {
    match EncryptKey(c, sk.sk, pw, salt)
    case Err(e) => Err(e)
    case Ok(e) => Ok(EncodePrivKey(c, e, comment))
  }

  /** (*PrivateKey).serialize, up to the YAML encoding of the record. */
  method SerializePrivateKey(c: Crypto, sk: PrivateKey, comment: string, pw: Bytes, salt: Option<Salt>)
    returns (r: Result<SerializedPrivKey, SignError>)
    requires c.KeyLengthExact()
    ensures r == PrivateKeyRecord(c, sk, comment, pw, salt)
  {
    if salt.None? {
      return Err(RandomSalt);
    }
    var pwb := ExpandPassword(c, pw);
    var ks := c.scrypt(pwb, salt.value, ScryptN, ScryptR, ScryptP, |sk.sk|);
    if ks.None? {
      return Err(DeriveKey);
    }
    var xork := ks.value;
    var tag := VerifyTag(c, salt.value, xork);
    var esk := XorBytes(sk.sk, xork);
    var e := EncPrivKey(esk, salt.value, SkAlgo, tag, ScryptN, ScryptR, ScryptP);
    r := Ok(EncodePrivKey(c, e, comment));
  }

  /** What ReadPrivateKey recovers from a key record with password `pw`.
      The cached public key is left empty: ReadPrivateKey never sets it. */
  function DecryptKey(c: Crypto, ssk: SerializedPrivKey, pw: Bytes): (r: Result<PrivateKey, SignError>)
    requires c.KeyLengthExact()
    // format errors, one per field, in the order the fields are decoded
    ensures c.decode64(ssk.esk).None? ==> r == Err(BadBase64("Esk"))
    ensures c.decode64(ssk.esk).Some? && c.decode64(ssk.salt).None? ==> r == Err(BadBase64("Salt"))
    ensures c.decode64(ssk.esk).Some? && c.decode64(ssk.salt).Some? && c.decode64(ssk.verify).None? ==>
              r == Err(BadBase64("Verify"))
    // once the record decodes: a failed derivation, then a tag mismatch
    ensures c.decode64(ssk.esk).Some? && c.decode64(ssk.salt).Some? && c.decode64(ssk.verify).Some? ==>
              var esk, salt := c.decode64(ssk.esk).value, c.decode64(ssk.salt).value;
              var ks := c.scrypt(ExpandPassword(c, pw), salt, ssk.n, ssk.r, ssk.p, |esk|);
              && (ks.None? ==> r == Err(DeriveKey))
              && (ks.Some? && c.decode64(ssk.verify).value != VerifyTag(c, salt, ks.value) ==>
                    r == Err(IncorrectPassword))
              && (ks.Some? && c.decode64(ssk.verify).value == VerifyTag(c, salt, ks.value) ==> r.Ok?)
    ensures r.Ok? ==> r.value.pk == []
    ensures r.Ok? ==>
              && c.decode64(ssk.esk).Some? && c.decode64(ssk.salt).Some? && c.decode64(ssk.verify).Some?
              && var esk, salt := c.decode64(ssk.esk).value, c.decode64(ssk.salt).value;
                 // the keystream comes from the record's own N, r and p
                 var ks := c.scrypt(ExpandPassword(c, pw), salt, ssk.n, ssk.r, ssk.p, |esk|);
                 && ks.Some?
                 && c.decode64(ssk.verify).value == VerifyTag(c, salt, ks.value)
                 && r.value.sk == Xor(esk, ks.value)
  {
    match c.decode64(ssk.esk)
    case None => Err(BadBase64("Esk"))
    case Some(esk) =>
      match c.decode64(ssk.salt)
      case None => Err(BadBase64("Salt"))
      case Some(salt) =>
        match c.decode64(ssk.verify)
        case None => Err(BadBase64("Verify"))
        case Some(verify) =>
          match c.scrypt(ExpandPassword(c, pw), salt, ssk.n, ssk.r, ssk.p, |esk|)
          case None => Err(DeriveKey)
          case Some(xork) =>
            if verify != VerifyTag(c, salt, xork) then Err(IncorrectPassword)
            else Ok(PrivateKey(Xor(esk, xork), []))
  }

  /** ReadPrivateKey, from the parsed YAML record on: the tag is checked
      before the ciphertext is XORed. */
  method ReadPrivateKey(c: Crypto, ssk: SerializedPrivKey, pw: Bytes) returns (r: Result<PrivateKey, SignError>)
    requires c.KeyLengthExact()
    ensures r == DecryptKey(c, ssk, pw)
  {
    var esk := c.decode64(ssk.esk);
    if esk.None? {
      return Err(BadBase64("Esk"));
    }
    var salt := c.decode64(ssk.salt);
    if salt.None? {
      return Err(BadBase64("Salt"));
    }
    var verify := c.decode64(ssk.verify);
    if verify.None? {
      return Err(BadBase64("Verify"));
    }
    var pwb := ExpandPassword(c, pw);
    var ks := c.scrypt(pwb, salt.value, ssk.n, ssk.r, ssk.p, |esk.value|);
    if ks.None? {
      return Err(DeriveKey);
    }
    var xork := ks.value;
    if verify.value != VerifyTag(c, salt.value, xork) {
      return Err(IncorrectPassword);
    }
    var sk := XorBytes(esk.value, xork);
    r := Ok(PrivateKey(sk, []));
  }

  /** Every record `serialize` writes carries algo "scrypt-sha256" and the
      cost parameters N = 2^17, r = 16, p = 1. */
  lemma RecordParameters(c: Crypto, sk: PrivateKey, comment: string, pw: Bytes, salt: Option<Salt>)
    requires c.KeyLengthExact()
    requires PrivateKeyRecord(c, sk, comment, pw, salt).Ok?
    ensures var rec := PrivateKeyRecord(c, sk, comment, pw, salt).value;
            rec.algo == SkAlgo && rec.n == 0x2_0000 && rec.r == 16 && rec.p == 1 && rec.comment == comment
  {
  }

  /** Round trip: reading back a record with the password it was written
      with yields the original secret key bytes (and no cached public key). */
  lemma {:induction false} EncryptDecrypt(c: Crypto, sk: PrivateKey, comment: string, pw: Bytes, salt: Option<Salt>)
    requires c.KeyLengthExact() && c.Base64RoundTrips()
    requires PrivateKeyRecord(c, sk, comment, pw, salt).Ok?
    ensures DecryptKey(c, PrivateKeyRecord(c, sk, comment, pw, salt).value, pw) == Ok(PrivateKey(sk.sk, []))
  {
    var e := EncryptKey(c, sk.sk, pw, salt).value;
    var rec := EncodePrivKey(c, e, comment);
    var xork := c.scrypt(ExpandPassword(c, pw), salt.value, ScryptN, ScryptR, ScryptP, |sk.sk|).value;
    assert c.decode64(rec.esk) == Some(e.esk);
    assert c.decode64(rec.salt) == Some(salt.value);
    assert c.decode64(rec.verify) == Some(e.verify);
    XorTwice(sk.sk, xork);
  }

  /** A wrong password is caught by the tag: when the keystream it derives
      gives a different SHA-256(salt || keystream) than the stored one, reading
      fails with IncorrectPassword (and nothing is decrypted). */
  lemma WrongPasswordRejected(c: Crypto, sk: PrivateKey, comment: string, pw: Bytes, salt: Option<Salt>, other: Bytes)
    requires c.KeyLengthExact() && c.Base64RoundTrips()
    requires PrivateKeyRecord(c, sk, comment, pw, salt).Ok?
    requires var ks := c.scrypt(ExpandPassword(c, other), salt.value, ScryptN, ScryptR, ScryptP, |sk.sk|);
             ks.Some? && VerifyTag(c, salt.value, ks.value) != EncryptKey(c, sk.sk, pw, salt).value.verify
    ensures DecryptKey(c, PrivateKeyRecord(c, sk, comment, pw, salt).value, other) == Err(IncorrectPassword)
  {
    var e := EncryptKey(c, sk.sk, pw, salt).value;
    var rec := EncodePrivKey(c, e, comment);
    assert c.decode64(rec.esk) == Some(e.esk);
    assert c.decode64(rec.salt) == Some(salt.value);
    assert c.decode64(rec.verify) == Some(e.verify);
  }

  // ---------------------------------------------------------------------
  // Signing and the key hint

  /** The key hint: the first 16 bytes of SHA-256 of a public key. */
  function KeyHint(c: Crypto, pk: Bytes): (h: Bytes)
    ensures |h| == KeyHintLen && h <= c.sha256(pk)
  {
    c.sha256(pk)[..16]
  }

  /** SignMessage: sign the given (pre-hashed) message; the hint is taken
      from the key's cached public key. */
  function SignMessage(c: Crypto, sk: PrivateKey, ck: Bytes): (r: Result<Signature, SignError>)
    ensures r.Err? <==> c.sign(sk.sk, ck).None?
    ensures r.Ok? ==> r.value.sig == c.sign(sk.sk, ck).value && r.value.pkhash == KeyHint(c, sk.pk)
  {
    match c.sign(sk.sk, ck)
    case None => Err(SignFailed)
    case Some(sig) => Ok(Signature(sig, KeyHint(c, sk.pk)))
  }

  /** IsPKMatch: the signature's hint is the hint of `pk`. */
  function IsPKMatch(c: Crypto, sig: Signature, pk: PublicKey): (m: bool)
    ensures m ==> |sig.pkhash| == KeyHintLen && sig.pkhash <= c.sha256(pk.pk)
    ensures |sig.pkhash| == KeyHintLen && sig.pkhash <= c.sha256(pk.pk) ==> m
  {
    KeyHint(c, pk.pk) == sig.pkhash
  }

  /** A signature made with a fresh keypair's private key carries the hint
      of its public key. */
  lemma FreshKeyHintMatches(c: Crypto, entropy: Bytes, ck: Bytes)
    requires NewKeypair(c, entropy).Ok?
    requires SignMessage(c, NewKeypair(c, entropy).value.sec, ck).Ok?
    ensures IsPKMatch(c, SignMessage(c, NewKeypair(c, entropy).value.sec, ck).value, NewKeypair(c, entropy).value.pub)
  {
  }

  /** A key read back from its file has no cached public key, so whatever
      it signs carries the hint of the empty byte string, and the hint
      matches a public key only if that key's hint is the empty string's. */
  lemma LoadedKeyHint(c: Crypto, ssk: SerializedPrivKey, pw: Bytes, ck: Bytes, pk: PublicKey)
    requires c.KeyLengthExact()
    requires DecryptKey(c, ssk, pw).Ok?
    requires SignMessage(c, DecryptKey(c, ssk, pw).value, ck).Ok?
    ensures SignMessage(c, DecryptKey(c, ssk, pw).value, ck).value.pkhash == KeyHint(c, [])
    ensures IsPKMatch(c, SignMessage(c, DecryptKey(c, ssk, pw).value, ck).value, pk) <==> KeyHint(c, pk.pk) == KeyHint(c, [])
  {
  }

  /** A key that was written to its file and read back with the same
      password: the secret bytes return, the cached public key does not. */
  function Reloaded(c: Crypto, sk: PrivateKey, comment: string, pw: Bytes, salt: Option<Salt>): (r: PrivateKey)
    requires c.KeyLengthExact() && c.Base64RoundTrips()
    requires PrivateKeyRecord(c, sk, comment, pw, salt).Ok?
    ensures r == PrivateKey(sk.sk, [])
  {
    EncryptDecrypt(c, sk, comment, pw, salt);
    DecryptKey(c, PrivateKeyRecord(c, sk, comment, pw, salt).value, pw).value
  }

  /** As written, a keypair's own key, once saved and loaded, signs with a
      hint its public key does not match, whenever that key's hint differs
      from the empty string's. */
  lemma LoadedKeyMismatch(c: Crypto, entropy: Bytes, comment: string, pw: Bytes, salt: Option<Salt>, ck: Bytes)
    requires c.KeyLengthExact() && c.Base64RoundTrips()
    requires NewKeypair(c, entropy).Ok?
    requires PrivateKeyRecord(c, NewKeypair(c, entropy).value.sec, comment, pw, salt).Ok?
    requires SignMessage(c, Reloaded(c, NewKeypair(c, entropy).value.sec, comment, pw, salt), ck).Ok?
    requires KeyHint(c, NewKeypair(c, entropy).value.pub.pk) != KeyHint(c, [])
    ensures !IsPKMatch(c, SignMessage(c, Reloaded(c, NewKeypair(c, entropy).value.sec, comment, pw, salt), ck).value,
                       NewKeypair(c, entropy).value.pub)
  {
  }

  /** The public half of an Ed25519 private key: its last 32 bytes, or the
      cached public key for a key of any other length. */
  function PublicHalf(sk: PrivateKey): (pk: Bytes)
    ensures |sk.sk| == 64 ==> pk == sk.sk[32..] && |pk| == 32
    ensures |sk.sk| != 64 ==> pk == sk.pk
  {
    if |sk.sk| == 64 then sk.sk[32..] else sk.pk
  }

  /** SignMessage as evidently intended: the hint is taken from the public
      half of the private key itself, so it does not depend on how the key
      was obtained. */
  function SignMessageHinted(c: Crypto, sk: PrivateKey, ck: Bytes): (r: Result<Signature, SignError>)
    ensures r.Err? <==> c.sign(sk.sk, ck).None?
    ensures r.Ok? ==> r.value.sig == c.sign(sk.sk, ck).value && r.value.pkhash == KeyHint(c, PublicHalf(sk))
  {
    match c.sign(sk.sk, ck)
    case None => Err(SignFailed)
    case Some(sig) => Ok(Signature(sig, KeyHint(c, PublicHalf(sk))))
  }

  /** With the corrected hint, a keypair's private key matches its public
      key both fresh and after a save and load. */
  lemma {:induction false} HintedKeyMatches(c: Crypto, entropy: Bytes, comment: string, pw: Bytes, salt: Option<Salt>, ck: Bytes)
    requires c.KeyLengthExact() && c.Base64RoundTrips() && c.PrivateKeysEndInPublic()
    requires NewKeypair(c, entropy).Ok?
    requires PrivateKeyRecord(c, NewKeypair(c, entropy).value.sec, comment, pw, salt).Ok?
    requires c.sign(NewKeypair(c, entropy).value.sec.sk, ck).Some?
    ensures var kp := NewKeypair(c, entropy).value;
            && IsPKMatch(c, SignMessageHinted(c, kp.sec, ck).value, kp.pub)
            && IsPKMatch(c, SignMessageHinted(c, Reloaded(c, kp.sec, comment, pw, salt), ck).value, kp.pub)
  {
    var kp := NewKeypair(c, entropy).value;
    assert (kp.pub.pk, kp.sec.sk) == c.generate(entropy).value;
    assert PublicHalf(kp.sec) == kp.pub.pk;
    assert PublicHalf(Reloaded(c, kp.sec, comment, pw, salt)) == kp.pub.pk;
  }

  // ---------------------------------------------------------------------
  // Signature and public key records

  /** (*Signature).Serialize, up to YAML: both byte fields in base64. */
  function SerializeSignature(c: Crypto, sig: Signature, comment: string): (ss: SerializedSignature)
    ensures ss.comment == comment
    ensures c.Base64RoundTrips() ==>
              c.decode64(ss.signature) == Some(sig.sig) && c.decode64(ss.pkhash) == Some(sig.pkhash)
  {
    SerializedSignature(comment, c.encode64(sig.pkhash), c.encode64(sig.sig))
  }

  /** MakeSignature: decode `signature`, then `pkhash`; only invalid base64
      is an error (a missing field is the empty string). */
  function MakeSignature(c: Crypto, ss: SerializedSignature): (r: Result<Signature, SignError>)
    ensures r.Err? <==> c.decode64(ss.signature).None? || c.decode64(ss.pkhash).None?
    ensures c.decode64(ss.signature).None? ==> r == Err(BadBase64("Signature"))
    ensures r.Ok? ==> r.value == Signature(c.decode64(ss.signature).value, c.decode64(ss.pkhash).value)
  {
    match c.decode64(ss.signature)
    case None => Err(BadBase64("Signature"))
    case Some(s) =>
      match c.decode64(ss.pkhash)
      case None => Err(BadBase64("Pkhash"))
      case Some(p) => Ok(Signature(s, p))
  }

  /** A serialized signature reads back as the same signature. */
  lemma SignatureRoundTrip(c: Crypto, sig: Signature, comment: string)
    requires c.Base64RoundTrips()
    ensures MakeSignature(c, SerializeSignature(c, sig, comment)) == Ok(sig)
  {
    assert c.decode64(c.encode64(sig.sig)) == Some(sig.sig);
    assert c.decode64(c.encode64(sig.pkhash)) == Some(sig.pkhash);
  }

  /** A document whose `signature` field is missing (empty) is accepted,
      with an empty signature. */
  lemma MissingSignatureAccepted(c: Crypto, comment: string, pkhash: string)
    requires c.decode64("") == Some([])
    requires c.decode64(pkhash).Some?
    ensures MakeSignature(c, SerializedSignature(comment, pkhash, "")) == Ok(Signature([], c.decode64(pkhash).value))
  {
  }

  /** (*PublicKey).serialize, up to YAML. */
  function SerializePublicKey(c: Crypto, pk: PublicKey, comment: string): (spk: SerializedPubKey)
    ensures spk.comment == comment
    ensures c.Base64RoundTrips() ==> c.decode64(spk.pk) == Some(pk.pk)
  {
    SerializedPubKey(comment, c.encode64(pk.pk))
  }

  /** ReadPublicKey, from the parsed YAML record on. */
  function ReadPublicKey(c: Crypto, spk: SerializedPubKey): (r: Result<PublicKey, SignError>)
    ensures c.decode64(spk.pk).None? ==> r == Err(BadBase64("Pk"))
    ensures c.decode64(spk.pk) == Some([]) ==> r == Err(EmptyPublicKey)
    ensures r.Ok? <==> c.decode64(spk.pk).Some? && c.decode64(spk.pk).value != []
    ensures r.Ok? ==> r.value.pk == c.decode64(spk.pk).value
  {
    match c.decode64(spk.pk)
    case None => Err(BadBase64("Pk"))
    case Some(b) => if |b| == 0 then Err(EmptyPublicKey) else Ok(PublicKey(b))
  }

  /** A non-empty public key reads back from its record; an empty one is refused. */
  lemma PublicKeyRoundTrip(c: Crypto, pk: PublicKey, comment: string)
    requires c.Base64RoundTrips()
    ensures pk.pk != [] ==> ReadPublicKey(c, SerializePublicKey(c, pk, comment)) == Ok(pk)
    ensures pk.pk == [] ==> ReadPublicKey(c, SerializePublicKey(c, pk, comment)) == Err(EmptyPublicKey)
  {
    assert c.decode64(c.encode64(pk.pk)) == Some(pk.pk);
  }

  // ---------------------------------------------------------------------
  // File digests, signing and verifying files

  /** What fileCksum returns for a file whose mappings succeed as `mapOk`
      says: SHA-512 over the bytes of its 1 GiB windows, in order, or the
      error of the first window that fails to map. */
  function FileDigest(c: Crypto, file: Bytes, mapOk: (int, int) -> bool): Result<Bytes, SignError>
  {
    var (failed, fed) := FeedRange(file, 0, |file|, mapOk);
    if failed.Some? then Err(MmapFailed(failed.value.len, failed.value.off))
    else Ok(c.sha512(fed))
  }

  /** Digesting in windows gives the one-pass digest of the whole file. */
  lemma {:induction false} FileDigestIsOnePass(c: Crypto, file: Bytes, mapOk: (int, int) -> bool)
    requires FirstFailure(Windows(0, |file|), mapOk) == |Windows(0, |file|)|
    ensures FileDigest(c, file, mapOk) == Ok(c.sha512(file))
  {
    var ws := Windows(0, |file|);
    FeedRangeIsFeed(file, 0, |file|, mapOk);
    FeedStopsAtFirstFailure(file, ws, mapOk);
    SpanOfWindows(file, 0, |file|);
    assert ws[..|ws|] == ws;
    assert file[0 .. |file|] == file;
  }

  /** fileCksum: feed the file to the hash one window at a time.  The hash
      state is the sequence of bytes written to it; `Sum` hashes them. */
  method FileCksum(c: Crypto, file: Bytes, mapOk: (int, int) -> bool) returns (r: Result<Bytes, SignError>)
    ensures r == FileDigest(c, file, mapOk)
  {
    var hashed: Bytes := [];
    ghost var total := FeedRange(file, 0, |file|, mapOk);
    assert total.1 == hashed + total.1;
    var off := 0;
    var sz := |file|;
    while sz > 0
      invariant 0 <= off && off + sz == |file|
      invariant total.0 == FeedRange(file, off, sz, mapOk).0
      invariant total.1 == hashed + FeedRange(file, off, sz, mapOk).1
      decreases sz
    {
      var n := if sz > Chunk then Chunk else sz;
      FeedRangeStep(file, off, sz, mapOk, hashed);
      if !mapOk(off, n) {
        return Err(MmapFailed(n, off));
      }
      hashed := hashed + file[off .. off + n];
      sz, off := sz - n, off + n;
    }
    assert hashed + [] == hashed;
    r := Ok(c.sha512(hashed));
  }

  /** What SignFile returns. */
  function SignFileResult(c: Crypto, sk: PrivateKey, file: Bytes, mapOk: (int, int) -> bool): Result<Signature, SignError>
  {
    match FileDigest(c, file, mapOk)
    case Err(e) => Err(e)
    case Ok(ck) => SignMessage(c, sk, ck)
  }

  /** SignFile: sign the SHA-512 digest of the file. */
  method SignFile(c: Crypto, sk: PrivateKey, file: Bytes, mapOk: (int, int) -> bool) returns (r: Result<Signature, SignError>)
    ensures r == SignFileResult(c, sk, file, mapOk)
  {
    var ck := FileCksum(c, file, mapOk);
    if ck.Err? {
      return Err(ck.error);
    }
    r := SignMessage(c, sk, ck.value);
  }

  /** VerifyMessage: the Ed25519 verdict; a mismatch is `false`, never an error. */
  function VerifyMessage(c: Crypto, pk: PublicKey, ck: Bytes, sig: Signature): (r: Result<bool, SignError>)
    ensures r.Ok?
    ensures r.value <==> c.verify(pk.pk, ck, sig.sig)
  {
    Ok(c.verify(pk.pk, ck, sig.sig))
  }

  /** What VerifyFile returns. */
  function VerifyFileResult(c: Crypto, pk: PublicKey, file: Bytes, sig: Signature, mapOk: (int, int) -> bool): Result<bool, SignError>
  {
    match FileDigest(c, file, mapOk)
    case Err(e) => Err(e)
    case Ok(ck) => VerifyMessage(c, pk, ck, sig)
  }

  /** VerifyFile: verify the signature against the file's SHA-512 digest,
      computed exactly as SignFile computes it. */
  method VerifyFile(c: Crypto, pk: PublicKey, file: Bytes, sig: Signature, mapOk: (int, int) -> bool)
    returns (r: Result<bool, SignError>)
    ensures r == VerifyFileResult(c, pk, file, sig, mapOk)
  {
    var ck := FileCksum(c, file, mapOk);
    if ck.Err? {
      return Err(ck.error);
    }
    r := VerifyMessage(c, pk, ck.value, sig);
  }

  /** Sign then verify: a file signed with a fresh keypair's private key
      verifies under its public key, and the signature's hint selects that
      key; both sides hash the identical byte range. */
  lemma {:induction false} SignThenVerifyFile(c: Crypto, entropy: Bytes, file: Bytes, mapOk: (int, int) -> bool)
    requires NewKeypair(c, entropy).Ok?
    requires c.SignaturesVerify(NewKeypair(c, entropy).value.pub.pk, NewKeypair(c, entropy).value.sec.sk)
    requires SignFileResult(c, NewKeypair(c, entropy).value.sec, file, mapOk).Ok?
    ensures var kp := NewKeypair(c, entropy).value;
            var sig := SignFileResult(c, kp.sec, file, mapOk).value;
            VerifyFileResult(c, kp.pub, file, sig, mapOk) == Ok(true) && IsPKMatch(c, sig, kp.pub)
  {
    var kp := NewKeypair(c, entropy).value;
    var ck := FileDigest(c, file, mapOk).value;
    assert c.sign(kp.sec.sk, ck).Some?;
  }
}
