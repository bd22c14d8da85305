/**
 * Salted password hashing: the stored value is the Base64 text of a 16-byte
 * salt followed by the 32-byte PBKDF2-SHA256 key derived from the password
 * with that salt (10000 rounds).
 */
module PasswordHasher {
  import opened Wrappers
  import opened Text

  type byte = b: int | 0 <= b < 256

  const SaltSize: nat := 16
  const HashSize: nat := 32
  /** Rounds of PBKDF2 the primitive below stands for. */
  const Iterations: nat := 10000

  /** The 70 characters a generated password is drawn from. */
  const ValidChars: string := "abcdefghijklmnopqrstuvwxyzABCDEFGHIJKLMNOPQRSTUVWXYZ1234567890!@#$%^&*"

  /**
   * The library primitives the hasher calls, as functions: `pbkdf2` derives a
   * key from a password, a salt, a round count and a key length (SHA-256 is
   * the hash; the hasher always asks for `Iterations` rounds and `HashSize`
   * bytes), `toBase64` encodes, and `fromBase64` decodes,
   * giving `None` where the library throws a format error.
   */
  datatype Primitives = Primitives(
    pbkdf2: (string, seq<byte>, nat, nat) -> seq<byte>,
    toBase64: seq<byte> -> string,
    fromBase64: string -> Option<seq<byte>>)

  /** The key derivation hands back exactly the `HashSize` bytes asked for. */
  ghost predicate DerivesFullKeys(c: Primitives) {
    forall password, salt :: |c.pbkdf2(password, salt, Iterations, HashSize)| == HashSize
  }

  /** Decoding inverts encoding, and the encoding of some bytes is never blank text. */
  ghost predicate Base64Sound(c: Primitives) {
    forall b: seq<byte> :: c.fromBase64(c.toBase64(b)) == Some(b) && (b != [] ==> !IsBlank(c.toBase64(b)))
  }

  datatype ArgumentError = ArgumentError(message: string)

  /** The bytes behind a stored hash: the salt, then the key derived with it. */
  function StoredBytes(c: Primitives, password: string, salt: seq<byte>): (b: seq<byte>)
    requires DerivesFullKeys(c) && |salt| == SaltSize
    ensures |b| == SaltSize + HashSize
    ensures b[..SaltSize] == salt && b[SaltSize..] == c.pbkdf2(password, salt, Iterations, HashSize)
  {
    salt + c.pbkdf2(password, salt, Iterations, HashSize)
  }

  /**
   * Whether `password` matches the stored text `hashed`: both must be
   * non-blank, `hashed` must decode to exactly 48 bytes, and bytes 16..47
   * must equal the key derived from `password` with bytes 0..15 as salt.
   */
  predicate PasswordMatches(c: Primitives, password: string, hashed: string) {
    && !IsBlank(password)
    && !IsBlank(hashed)
    && c.fromBase64(hashed).Some?
    && var b := c.fromBase64(hashed).value;
       |b| == SaltSize + HashSize && b[SaltSize..] == c.pbkdf2(password, b[..SaltSize], Iterations, HashSize)
  }

  /** `Array.Copy(src, srcIndex, dst, dstIndex, length)`: overwrites one stretch of `dst`. */
  method Copy(src: seq<byte>, srcIndex: nat, dst: array<byte>, dstIndex: nat, length: nat)
    requires srcIndex + length <= |src| && dstIndex + length <= dst.Length
    modifies dst
    ensures dst[..] == old(dst[..dstIndex]) + src[srcIndex..srcIndex + length] + old(dst[dstIndex + length..])
  {
    for k := 0 to length
      invariant dst[..dstIndex] == old(dst[..dstIndex])
      invariant dst[dstIndex..dstIndex + k] == src[srcIndex..srcIndex + k]
      invariant dst[dstIndex + k..] == old(dst[dstIndex + k..])
    {
      dst[dstIndex + k] := src[srcIndex + k];
    }
    assert dst[..] == dst[..dstIndex] + dst[dstIndex..dstIndex + length] + dst[dstIndex + length..];
  }

  /**
   * Hashes `password` with the random `salt` the generator produced. A blank
   * password is refused; otherwise the result is the Base64 text of the salt
   * followed by the derived key.
   */
  method HashPassword(c: Primitives, password: string, salt: seq<byte>) returns (r: Result<string, ArgumentError>)
    requires DerivesFullKeys(c) && |salt| == SaltSize
    ensures r.Err? <==> IsBlank(password)
    ensures r.Err? ==> r.error == ArgumentError("Password cannot be empty")
    ensures r.Ok? ==> r.value == c.toBase64(StoredBytes(c, password, salt))
  {
    if IsBlank(password) {
      return Err(ArgumentError("Password cannot be empty"));
    }
    var hash := c.pbkdf2(password, salt, Iterations, HashSize);
    var hashBytes := new byte[SaltSize + HashSize];
    Copy(salt, 0, hashBytes, 0, SaltSize);
    Copy(hash, 0, hashBytes, SaltSize, HashSize);
    assert hashBytes[..] == salt + hash;
    r := Ok(c.toBase64(hashBytes[..]));
  }

  /** Checks `password` against the stored text `hashed`, stopping at the first differing key byte. */
  method VerifyPassword(c: Primitives, password: string, hashed: string) returns (ok: bool)
    requires DerivesFullKeys(c)
    ensures ok == PasswordMatches(c, password, hashed)
  {
    if IsBlank(password) {
      return false;
    }
    if IsBlank(hashed) {
      return false;
    }
    var decoded := c.fromBase64(hashed);
    if decoded.None? {
      return false;
    }
    var hashBytes := decoded.value;
    if |hashBytes| != SaltSize + HashSize {
      return false;
    }
    var salt := new byte[SaltSize];
    Copy(hashBytes, 0, salt, 0, SaltSize);
    assert salt[..] == hashBytes[..SaltSize];
    var hash := c.pbkdf2(password, salt[..], Iterations, HashSize);
    for i := 0 to HashSize
      invariant hashBytes[SaltSize..SaltSize + i] == hash[..i]
    {
      if hashBytes[i + SaltSize] != hash[i] {
        assert hashBytes[SaltSize..][i] != hash[i];
        return false;
      }
    }
    assert hashBytes[SaltSize..] == hashBytes[SaltSize..SaltSize + HashSize];
    return true;
  }

  /**
   * Round trip: whatever salt was drawn, the hash of a non-blank password
   * verifies against that password.
   */
  lemma HashThenVerify(c: Primitives, password: string, salt: seq<byte>)
    requires DerivesFullKeys(c) && Base64Sound(c)
    requires |salt| == SaltSize && !IsBlank(password)
    ensures PasswordMatches(c, password, c.toBase64(StoredBytes(c, password, salt)))
  {
    var b := StoredBytes(c, password, salt);
    assert c.fromBase64(c.toBase64(b)) == Some(b);
    assert !IsBlank(c.toBase64(b));
  }

  /**
   * A stored hash verifies against a second password only when that password
   * derives, with the same salt, the same key as the first.
   */
  lemma VerifyOtherPassword(c: Primitives, password: string, other: string, salt: seq<byte>)
    requires DerivesFullKeys(c) && Base64Sound(c)
    requires |salt| == SaltSize && !IsBlank(other)
    ensures PasswordMatches(c, other, c.toBase64(StoredBytes(c, password, salt)))
        <==> c.pbkdf2(other, salt, Iterations, HashSize) == c.pbkdf2(password, salt, Iterations, HashSize)
  {
    var b := StoredBytes(c, password, salt);
    assert c.fromBase64(c.toBase64(b)) == Some(b);
    assert !IsBlank(c.toBase64(b));
  }

  /**
   * Builds a password of `length` characters from the generator's bytes
   * `random`: character i is the alphabet entry at `random[i]` modulo 70.
   * Lengths below 8 are refused.
   */
  method GenerateRandomPassword(random: seq<byte>, length: int := 12) returns (r: Result<string, ArgumentError>)
    requires length >= 8 ==> |random| == length
    ensures r.Err? <==> length < 8
    ensures r.Err? ==> r.error == ArgumentError("Password length must be at least 8 characters")
    ensures r.Ok? ==> |r.value| == length
    ensures r.Ok? ==> forall i :: 0 <= i < |r.value| ==> r.value[i] == ValidChars[random[i] % |ValidChars|]
  {
    if length < 8 {
      return Err(ArgumentError("Password length must be at least 8 characters"));
    }
    var password := new char[length];
    for i := 0 to length
      invariant forall k :: 0 <= k < i ==> password[k] == ValidChars[random[k] % |ValidChars|]
    {
      password[i] := ValidChars[random[i] % |ValidChars|];
    }
    r := Ok(password[..]);
  }

  /** Every character of a generated password comes from the alphabet. */
  lemma GeneratedCharsInAlphabet(random: seq<byte>, s: string)
    requires |s| == |random|
    requires forall i :: 0 <= i < |s| ==> s[i] == ValidChars[random[i] % |ValidChars|]
    ensures forall i :: 0 <= i < |s| ==> s[i] in ValidChars
  {
  }
}
