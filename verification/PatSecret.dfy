/**
 The text of a personal access token: `pat_` + base64(user ID ++ token ID) + `_` +
 random string. Identifiers are the 16 raw bytes of a UUID.
 */
module PatSecret {
  import opened Outcomes
  import opened Base64
  import opened Text

  type Uuid = id: seq<Byte> | |id| == 16 witness seq(16, _ => 0)

  const PREFIX := "pat"
  const SEPARATOR := '_'
  const LOWER_CASE := "abcdefghijklmnopqrstuvwxyz"
  const UPPER_CASE := "ABCDEFGHIJKLMNOPQRSTUVWXYZ"
  const DIGITS_AND_SIGNS := "1234567890!@#$%^&&*|+-="
  const RANDOM_SYMBOLS := LOWER_CASE + UPPER_CASE + DIGITS_AND_SIGNS

  function RandomSymbol(b: Byte): char {
    RANDOM_SYMBOLS[b % |RANDOM_SYMBOLS|]
  }

  function RandomText(randBytes: seq<Byte>): string {
    seq(|randBytes|, i requires 0 <= i < |randBytes| => RandomSymbol(randBytes[i]))
  }

  /** Fills a buffer with one symbol per random byte. */
  method GenerateRandomString(randBytes: seq<Byte>) returns (s: string)
    ensures s == RandomText(randBytes)
  {
    var b := new char[|randBytes|];
    for i := 0 to |randBytes|
      invariant forall k :: 0 <= k < i ==> b[k] == RandomSymbol(randBytes[k])
    {
      b[i] := RANDOM_SYMBOLS[randBytes[i] % |RANDOM_SYMBOLS|];
    }
    s := b[..];
  }

  function Encode(userID: Uuid, patID: Uuid): string {
    EncodeToString(Std, userID + patID)
  }

  function Decode(encoded: string): Option<(Uuid, Uuid)> {
    var data := DecodeString(Std, encoded);
    if data.None? || |data.value| != 32 then None else Some((data.value[..16], data.value[16..]))
  }

  function GenerateSecret(userID: Uuid, patID: Uuid, randBytes: seq<Byte>): string {
    PREFIX + [SEPARATOR] + Encode(userID, patID) + [SEPARATOR] + RandomText(randBytes)
  }

  /** What `IdentifyPAT` reads from a presented secret. The guard rejects a secret only
      when the number of parts and the prefix are both wrong, so a lone `pat` reaches an
      index that does not exist. */
  datatype Parsed = Malformed | OutOfRange | Ids(userID: Uuid, patID: Uuid)

  function ParseSecret(secret: string): Parsed {
    var parts := Split(secret, SEPARATOR);
    if |parts| != 3 && parts[0] != PREFIX then Malformed
    else if |parts| < 2 then OutOfRange
    else
      match Decode(parts[1])
      case None => Malformed
      case Some((u, p)) => Ids(u, p)
  }

  lemma RandomSymbolPlain(b: Byte)
    ensures RandomSymbol(b) != SEPARATOR
  {
    var c := RandomSymbol(b);
    assert c in LOWER_CASE || c in UPPER_CASE || c in DIGITS_AND_SIGNS;
  }

  lemma RandomTextPlain(randBytes: seq<Byte>)
    ensures SEPARATOR !in RandomText(randBytes)
  {
    forall i | 0 <= i < |randBytes| ensures RandomText(randBytes)[i] != SEPARATOR {
      RandomSymbolPlain(randBytes[i]);
    }
  }

  lemma DecodeEncode(userID: Uuid, patID: Uuid)
    ensures Decode(Encode(userID, patID)) == Some((userID, patID))
    ensures DecodeString(Std, Encode(userID, patID)) == Some(userID + patID)
    ensures SEPARATOR !in Encode(userID, patID)
  {
    var data := userID + patID;
    DecodeOfEncode(Std, data);
    EncodedSymbols(Std, data);
    assert Plain(Std, SEPARATOR) == false;
    assert data[..16] == userID && data[16..] == patID;
  }

  /** Round trip: a generated secret splits into exactly three parts, and reading it gives
      back the two identifiers, whatever the random bytes. */
  lemma SecretRoundTrip(userID: Uuid, patID: Uuid, randBytes: seq<Byte>)
    ensures Split(GenerateSecret(userID, patID, randBytes), '_')
         == ["pat", Encode(userID, patID), RandomText(randBytes)]
    ensures ParseSecret(GenerateSecret(userID, patID, randBytes)) == Ids(userID, patID)
  {
    DecodeEncode(userID, patID);
    RandomTextPlain(randBytes);
    var parts := [PREFIX, Encode(userID, patID), RandomText(randBytes)];
    assert parts[1..] == [Encode(userID, patID), RandomText(randBytes)];
    assert parts[1..][1..] == [RandomText(randBytes)];
    assert Join(parts[1..], SEPARATOR) == Encode(userID, patID) + [SEPARATOR] + RandomText(randBytes);
    assert Join(parts, SEPARATOR) == PREFIX + [SEPARATOR] + Join(parts[1..], SEPARATOR);
    assert Join(parts, SEPARATOR) == GenerateSecret(userID, patID, randBytes);
    SplitJoin(parts, SEPARATOR);
  }

  /** Two secrets agree only if they were made for the same user and token. */
  lemma SecretInjective(u: Uuid, p: Uuid, r: seq<Byte>, u': Uuid, p': Uuid, r': seq<Byte>)
    requires GenerateSecret(u, p, r) == GenerateSecret(u', p', r')
    ensures u == u' && p == p'
  {
    SecretRoundTrip(u, p, r);
    SecretRoundTrip(u', p', r');
  }

  /** The parts are indexed out of range for exactly one secret: the bare prefix. */
  lemma OutOfRangeIff(secret: string)
    ensures ParseSecret(secret) == OutOfRange <==> secret == "pat"
  {
    JoinSplit(secret, SEPARATOR);
    if secret == PREFIX {
      SplitNone(secret, SEPARATOR);
    }
  }

  // ----- Different random bytes, different secrets -----

  /** The symbol at each place of the 75, by value. */
  function SymbolCode(i: nat): int
    requires i < 75
  {
    if i < 26 then 'a' as int + i
    else if i < 52 then 'A' as int + i - 26
    else if i < 61 then '1' as int + i - 52
    else if i == 61 then '0' as int
    else SignCode(i - 62)
  }

  function SignCode(i: nat): int
    requires i < 13
  {
    ['!' as int, '@' as int, '#' as int, '$' as int, '%' as int, '^' as int, '&' as int, '&' as int, '*' as int,
     '|' as int, '+' as int, '-' as int, '=' as int][i]
  }

  lemma SymbolIs(i: nat)
    requires i < 75
    ensures |RANDOM_SYMBOLS| == 75 && RANDOM_SYMBOLS[i] as int == SymbolCode(i)
  {
    if i < 26 {
      assert RANDOM_SYMBOLS[i] == LOWER_CASE[i];
      LowerIs(i);
    } else if i < 52 {
      assert RANDOM_SYMBOLS[i] == UPPER_CASE[i - 26];
      UpperIs(i - 26);
    } else {
      assert RANDOM_SYMBOLS[i] == DIGITS_AND_SIGNS[i - 52];
      DigitOrSignIs(i - 52);
    }
  }

  lemma DigitOrSignIs(i: nat)
    requires i < 23
    ensures DIGITS_AND_SIGNS[i] as int == SymbolCode(52 + i)
  {
    if i < 10 {
      assert i < 9 ==> DIGITS_AND_SIGNS[i] as int == '1' as int + i;
    } else {
      assert DIGITS_AND_SIGNS[i] as int == SignCode(i - 10);
    }
  }

  lemma LowerIs(i: nat)
    requires i < 26
    ensures LOWER_CASE[i] as int == 'a' as int + i
  {
  }

  lemma UpperIs(i: nat)
    requires i < 26
    ensures UPPER_CASE[i] as int == 'A' as int + i
  {
  }

  /** The source's list has `&` twice, at places 68 and 69, and no other symbol twice. */
  predicate SamePlace(a: Byte, b: Byte) {
    a % 75 == b % 75 || (68 <= a % 75 <= 69 && 68 <= b % 75 <= 69)
  }

  lemma CodesDiffer(i: nat, j: nat)
    requires i < 75 && j < 75
    ensures SymbolCode(i) == SymbolCode(j) <==> i == j || (68 <= i <= 69 && 68 <= j <= 69)
  {
  }

  lemma SymbolsEqualIff(a: Byte, b: Byte)
    ensures RandomSymbol(a) == RandomSymbol(b) <==> SamePlace(a, b)
  {
    SymbolIs(a % 75);
    SymbolIs(b % 75);
    CodesDiffer(a % 75, b % 75);
  }

  /** Two secrets for one token are equal exactly when their random bytes select the same symbols. */
  lemma SecretsEqualIff(userID: Uuid, patID: Uuid, a: seq<Byte>, b: seq<Byte>)
    ensures GenerateSecret(userID, patID, a) == GenerateSecret(userID, patID, b)
       <==> |a| == |b| && forall i :: 0 <= i < |a| ==> SamePlace(a[i], b[i])
  {
    SecretRoundTrip(userID, patID, a);
    SecretRoundTrip(userID, patID, b);
    var s, t := RandomText(a), RandomText(b);
    if GenerateSecret(userID, patID, a) == GenerateSecret(userID, patID, b) {
      assert ["pat", Encode(userID, patID), s][2] == ["pat", Encode(userID, patID), t][2];
    }
    if |a| == |b| {
      forall i | 0 <= i < |a|
        ensures s[i] == t[i] <==> SamePlace(a[i], b[i])
      {
        SymbolsEqualIff(a[i], b[i]);
      }
      assert s == t <==> forall i :: 0 <= i < |a| ==> s[i] == t[i];
    }
  }
}
