/**
 * The stored credential format: base64(salt) + "." + base64(key), with a 16-byte random salt
 * and a 32-byte key derived from the password by PBKDF2-HMAC-SHA256 (section 5.2 of RFC 8018)
 * with 100 000 iterations.
 */
module PasswordHasher {
  import opened Wrappers
  import Text
  import Base64

  type byte = Base64.byte

  const SaltSize: nat := 16
  const KeySize: nat := 32
  const Iterations: nat := 100000

  /**
   * Rfc2898DeriveBytes(password, salt, Iterations, SHA256).GetBytes(KeySize). The model does not
   * compute PBKDF2: a key derivation is any function that yields KeySize bytes.
   */
  type KeyDerivation = f: (string, seq<byte>) -> seq<byte> | forall p, s :: |f(p, s)| == KeySize
    witness (p: string, s: seq<byte>) => seq(KeySize, i => 0)

  /** The ArgumentException HashPassword throws. */
  datatype HashError = PasswordCannotBeEmpty

  /**
   * HashPassword. The salt is what RandomNumberGenerator.GetBytes wrote into the
   * SaltSize-byte buffer.
   */
  function HashPassword(password: string, salt: seq<byte>, deriveKey: KeyDerivation): (r: Result<string, HashError>)
    requires |salt| == SaltSize
    ensures r.Failure? <==> Text.IsBlank(password)
    ensures r.Success? ==>
      Text.Split(r.value, '.') == [Base64.Encode(salt), Base64.Encode(deriveKey(password, salt))]
  {
    if Text.IsBlank(password) then Failure(PasswordCannotBeEmpty)
    else
      var s, k := Base64.Encode(salt), Base64.Encode(deriveKey(password, salt));
      Base64.EncodeAlphabet(salt);
      Base64.EncodeAlphabet(deriveKey(password, salt));
      Text.SplitJoin(s, k, '.');
      Success(s + "." + k)
  }

  /**
   * VerifyPassword: false for a blank stored hash, for one that does not split into exactly two
   * parts at '.', and for one whose parts are not both base 64 (the FormatException it
   * catches); otherwise whether the stored key equals the key derived from the password and
   * the stored salt (CryptographicOperations.FixedTimeEquals: same length, same bytes).
   */
  function VerifyPassword(password: string, storedHash: string, deriveKey: KeyDerivation): (ok: bool)
    ensures Text.IsBlank(storedHash) ==> !ok
    ensures |Text.Split(storedHash, '.')| != 2 ==> !ok
    ensures |Text.Split(storedHash, '.')| == 2 ==>
      var parts := Text.Split(storedHash, '.');
      (Base64.Decode(parts[0]).None? || Base64.Decode(parts[1]).None?) ==> !ok
    ensures ok <==>
      var parts := Text.Split(storedHash, '.');
      && !Text.IsBlank(storedHash)
      && |parts| == 2
      && Base64.Decode(parts[0]).Some?
      && Base64.Decode(parts[1]) == Some(deriveKey(password, Base64.Decode(parts[0]).value))
  {
    if Text.IsBlank(storedHash) then false
    else
      var parts := Text.Split(storedHash, '.');
      if |parts| != 2 then false
      else
        match (Base64.Decode(parts[0]), Base64.Decode(parts[1]))
        case (Some(salt), Some(hash)) => hash == deriveKey(password, salt)
        case _ => false
  }

  /** The stored form decodes back to the salt and to the KeySize-byte key. */
  lemma StoredForm(password: string, salt: seq<byte>, deriveKey: KeyDerivation)
    requires |salt| == SaltSize && !Text.IsBlank(password)
    ensures var parts := Text.Split(HashPassword(password, salt, deriveKey).value, '.');
      && |parts| == 2
      && Base64.Decode(parts[0]) == Some(salt)
      && Base64.Decode(parts[1]) == Some(deriveKey(password, salt))
      && |Base64.Decode(parts[1]).value| == KeySize
  {
    Base64.DecodeEncode(salt);
    Base64.DecodeEncode(deriveKey(password, salt));
  }

  /**
   * Verifying a candidate password against a hash made from another succeeds exactly when the
   * two derive the same key from the stored salt.
   */
  lemma VerifyHashed(password: string, candidate: string, salt: seq<byte>, deriveKey: KeyDerivation)
    requires |salt| == SaltSize && !Text.IsBlank(password)
    ensures VerifyPassword(candidate, HashPassword(password, salt, deriveKey).value, deriveKey)
        <==> deriveKey(candidate, salt) == deriveKey(password, salt)
  {
    var stored := HashPassword(password, salt, deriveKey).value;
    StoredForm(password, salt, deriveKey);
    assert stored[0] == Base64.Encode(salt)[0] by {
      assert |Base64.Encode(salt)| > 0 by { Base64.EncodeLength(salt); }
    }
    assert !Text.IsWhiteSpace(stored[0]) by { Base64.EncodeAlphabet(salt); }
  }

  /** A password verifies against its own hash. */
  lemma VerifyOwnHash(password: string, salt: seq<byte>, deriveKey: KeyDerivation)
    requires |salt| == SaltSize && !Text.IsBlank(password)
    ensures VerifyPassword(password, HashPassword(password, salt, deriveKey).value, deriveKey)
  {
    VerifyHashed(password, password, salt, deriveKey);
  }
}
