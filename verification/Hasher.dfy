/**
 The stored form of a hashed token: base64(key) + `.` + base64(salt). The key derivation
 (scrypt) is a parameter, an arbitrary function of token and salt.
 */
module Hasher {
  import opened Base64
  import opened Outcomes
  import opened Text

  type Kdf = (string, seq<Byte>) -> seq<Byte>

  datatype Comparison = Same | Different | InvalidStore | Undecodable

  function Hash(scrypt: Kdf, token: string, salt: seq<Byte>): string {
    EncodeToString(Std, scrypt(token, salt)) + "." + EncodeToString(Std, salt)
  }

  function Compare(scrypt: Kdf, plain: string, hashed: string): Comparison {
    var parts := Split(hashed, '.');
    if |parts| != 2 then InvalidStore
    else
      var key, salt := DecodeString(Std, parts[0]), DecodeString(Std, parts[1]);
      if key.None? || salt.None? then Undecodable
      else if scrypt(plain, salt.value) == key.value then Same else Different
  }

  /** The stored form has two parts: the key, derived from the token under the salt, and the salt. */
  lemma HashFormat(scrypt: Kdf, token: string, salt: seq<Byte>)
    ensures var parts := Split(Hash(scrypt, token, salt), '.');
      |parts| == 2 && DecodeString(Std, parts[0]) == Some(scrypt(token, salt))
          && DecodeString(Std, parts[1]) == Some(salt)
  {
    var key := scrypt(token, salt);
    EncodedSymbols(Std, key);
    EncodedSymbols(Std, salt);
    DecodeOfEncode(Std, key);
    DecodeOfEncode(Std, salt);
    assert !Plain(Std, '.');
    SplitFirst(EncodeToString(Std, key), EncodeToString(Std, salt), '.');
    SplitNone(EncodeToString(Std, salt), '.');
  }

  /** Comparison succeeds exactly for a stored text of two dot-free parts around a dot, whose first
      decodes to the key derived under what the second decodes to. */
  lemma CompareSameIff(scrypt: Kdf, plain: string, hashed: string)
    ensures Compare(scrypt, plain, hashed) == Same
       <==> exists key, salt :: Stores(scrypt, plain, hashed, key, salt)
  {
    var parts := Split(hashed, '.');
    JoinSplit(hashed, '.');
    if Compare(scrypt, plain, hashed) == Same {
      SplitPlain(hashed, '.');
      assert parts[1..] == [parts[1]];
      assert hashed == parts[0] + ['.'] + parts[1];
      assert Stores(scrypt, plain, hashed, parts[0], parts[1]);
    }
    if key, salt :| Stores(scrypt, plain, hashed, key, salt) {
      SplitFirst(key, salt, '.');
      SplitNone(salt, '.');
    }
  }

  ghost predicate Stores(scrypt: Kdf, plain: string, hashed: string, key: string, salt: string) {
    && '.' !in key && '.' !in salt && hashed == key + ['.'] + salt
    && DecodeString(Std, key).Some? && DecodeString(Std, salt).Some?
    && DecodeString(Std, key).value == scrypt(plain, DecodeString(Std, salt).value)
  }

  /** Comparing against a stored hash is comparing derived keys under the stored salt. */
  lemma CompareWithHash(scrypt: Kdf, plain: string, token: string, salt: seq<Byte>)
    ensures Compare(scrypt, plain, Hash(scrypt, token, salt))
         == if scrypt(plain, salt) == scrypt(token, salt) then Same else Different
  {
    HashFormat(scrypt, token, salt);
  }

  /** An ideal key derivation: under each salt, different tokens give different keys. */
  ghost predicate Ideal(scrypt: Kdf) {
    forall t, t', salt :: scrypt(t, salt) == scrypt(t', salt) ==> t == t'
  }

  lemma CompareIsEquality(scrypt: Kdf, plain: string, token: string, salt: seq<Byte>)
    requires Ideal(scrypt)
    ensures Compare(scrypt, plain, Hash(scrypt, token, salt)) == Same <==> plain == token
  {
    CompareWithHash(scrypt, plain, token, salt);
  }
}
