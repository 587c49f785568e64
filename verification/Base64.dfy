/**
 The padded base64 encodings of RFC 4648: section 4 (`StdEncoding`) and section 5
 (`URLEncoding`), as Go's encoding/base64 reads and writes them. The decoder skips
 carriage returns and line feeds and ignores unused trailing bits.
 */
module Base64 {
  import opened Outcomes

  type Byte = n: nat | n < 256

  datatype Alphabet = Std | Url

  const PAD := '='

  function Symbol(alphabet: Alphabet, i: nat): char
    requires i < 64
  {
    if i < 26 then 'A' + i as char
    else if i < 52 then 'a' + (i - 26) as char
    else if i < 62 then '0' + (i - 52) as char
    else if i == 62 then (if alphabet.Std? then '+' else '-')
    else (if alphabet.Std? then '/' else '_')
  }

  function Value(alphabet: Alphabet, c: char): (v: Option<nat>)
    ensures v.Some? ==> v.value < 64
  {
    if 'A' <= c <= 'Z' then Some((c - 'A') as nat)
    else if 'a' <= c <= 'z' then Some((c - 'a') as nat + 26)
    else if '0' <= c <= '9' then Some((c - '0') as nat + 52)
    else if c == (if alphabet.Std? then '+' else '-') then Some(62)
    else if c == (if alphabet.Std? then '/' else '_') then Some(63)
    else None
  }

  lemma ValueOfSymbol(alphabet: Alphabet, i: nat)
    requires i < 64
    ensures Value(alphabet, Symbol(alphabet, i)) == Some(i)
    ensures Symbol(alphabet, i) !in {PAD, '\r', '\n', '.'}
    ensures alphabet.Std? ==> Symbol(alphabet, i) != '_'
  {
    if i < 26 {
    } else if i < 52 {
    } else if i < 62 {
    }
  }

  function EncodeFull(alphabet: Alphabet, a: Byte, b: Byte, c: Byte): string {
    [Symbol(alphabet, a / 4), Symbol(alphabet, a % 4 * 16 + b / 16),
     Symbol(alphabet, b % 16 * 4 + c / 64), Symbol(alphabet, c % 64)]
  }

  /** A trailing group of one or two bytes, padded to four symbols. */
  function EncodeLast(alphabet: Alphabet, tail: seq<Byte>): string
    requires 1 <= |tail| <= 2
  {
    if |tail| == 1 then
      [Symbol(alphabet, tail[0] / 4), Symbol(alphabet, tail[0] % 4 * 16), PAD, PAD]
    else
      [Symbol(alphabet, tail[0] / 4), Symbol(alphabet, tail[0] % 4 * 16 + tail[1] / 16),
       Symbol(alphabet, tail[1] % 16 * 4), PAD]
  }

  function EncodeToString(alphabet: Alphabet, data: seq<Byte>): string {
    if data == [] then ""
    else if |data| <= 2 then EncodeLast(alphabet, data)
    else EncodeFull(alphabet, data[0], data[1], data[2]) + EncodeToString(alphabet, data[3..])
  }

  function DecodeFull(alphabet: Alphabet, s: string): Option<seq<Byte>>
    requires |s| == 4
  {
    var v0, v1, v2, v3 := Value(alphabet, s[0]), Value(alphabet, s[1]), Value(alphabet, s[2]), Value(alphabet, s[3]);
    if v0.None? || v1.None? || v2.None? || v3.None? then None
    else Some([v0.value * 4 + v1.value / 16, v1.value % 16 * 16 + v2.value / 4, v2.value % 4 * 64 + v3.value])
  }

  /** The last four symbols may end in one or two padding characters. */
  function DecodeLast(alphabet: Alphabet, s: string): Option<seq<Byte>>
    requires |s| == 4
  {
    if s[3] != PAD then DecodeFull(alphabet, s)
    else
      var v0, v1, v2 := Value(alphabet, s[0]), Value(alphabet, s[1]), Value(alphabet, s[2]);
      if v0.None? || v1.None? then None
      else if s[2] == PAD then Some([v0.value * 4 + v1.value / 16])
      else if v2.None? then None
      else Some([v0.value * 4 + v1.value / 16, v1.value % 16 * 16 + v2.value / 4])
  }

  function DecodeQuads(alphabet: Alphabet, s: string): Option<seq<Byte>> {
    if s == "" then Some([])
    else if |s| < 4 then None
    else if |s| == 4 then DecodeLast(alphabet, s)
    else
      var first, rest := DecodeFull(alphabet, s[..4]), DecodeQuads(alphabet, s[4..]);
      if first.None? || rest.None? then None else Some(first.value + rest.value)
  }

  /** Drops the line breaks that the decoder skips. */
  function StripLineBreaks(s: string): string {
    if s == "" then ""
    else if s[0] in {'\r', '\n'} then StripLineBreaks(s[1..])
    else [s[0]] + StripLineBreaks(s[1..])
  }

  function DecodeString(alphabet: Alphabet, s: string): Option<seq<Byte>> {
    DecodeQuads(alphabet, StripLineBreaks(s))
  }

  predicate Plain(alphabet: Alphabet, c: char) {
    c !in {'\r', '\n', '.'} && (alphabet.Std? ==> c != '_')
  }

  lemma SymbolPlain(alphabet: Alphabet)
    ensures forall i: nat :: i < 64 ==> Plain(alphabet, Symbol(alphabet, i))
  {
    forall i: nat | i < 64 ensures Plain(alphabet, Symbol(alphabet, i)) {
      ValueOfSymbol(alphabet, i);
    }
  }

  /** Encoded text is made of symbols and padding: no line break, no `.`, and for `Std` no `_`. */
  lemma {:induction false} EncodedSymbols(alphabet: Alphabet, data: seq<Byte>)
    ensures forall c :: c in EncodeToString(alphabet, data) ==> Plain(alphabet, c)
  {
    if data != [] {
      SymbolPlain(alphabet);
      if |data| > 2 {
        var head, tail := EncodeFull(alphabet, data[0], data[1], data[2]), EncodeToString(alphabet, data[3..]);
        assert forall c :: c in head ==> Plain(alphabet, c);
        EncodedSymbols(alphabet, data[3..]);
        assert forall c :: c in head + tail ==> c in head || c in tail;
      }
    }
  }

  lemma {:induction false} StripNothing(s: string)
    requires forall c :: c in s ==> c !in {'\r', '\n'}
    ensures StripLineBreaks(s) == s
  {
    if s != "" {
      assert s[0] in s && forall c :: c in s[1..] ==> c in s;
      StripNothing(s[1..]);
    }
  }

  /** The sextets of three bytes regroup into the three bytes. */
  lemma Regroup(a: Byte, b: Byte, c: Byte)
    ensures a / 4 * 4 + (a % 4 * 16 + b / 16) / 16 == a
    ensures (a % 4 * 16 + b / 16) % 16 * 16 + (b % 16 * 4 + c / 64) / 4 == b
    ensures (b % 16 * 4 + c / 64) % 4 * 64 + c % 64 == c
  {
  }

  lemma DecodeOfFull(alphabet: Alphabet, a: Byte, b: Byte, c: Byte)
    ensures DecodeFull(alphabet, EncodeFull(alphabet, a, b, c)) == Some([a, b, c])
    ensures DecodeLast(alphabet, EncodeFull(alphabet, a, b, c)) == Some([a, b, c])
  {
    ValueOfSymbol(alphabet, a / 4);
    ValueOfSymbol(alphabet, a % 4 * 16 + b / 16);
    ValueOfSymbol(alphabet, b % 16 * 4 + c / 64);
    ValueOfSymbol(alphabet, c % 64);
    Regroup(a, b, c);
  }

  lemma DecodeOfOneByte(alphabet: Alphabet, a: Byte)
    ensures DecodeLast(alphabet, EncodeLast(alphabet, [a])) == Some([a])
  {
    ValueOfSymbol(alphabet, a / 4);
    ValueOfSymbol(alphabet, a % 4 * 16);
    Regroup(a, 0, 0);
  }

  lemma DecodeThreeSymbols(alphabet: Alphabet, x: nat, y: nat, z: nat)
    requires x < 64 && y < 64 && z < 64
    ensures DecodeLast(alphabet, [Symbol(alphabet, x), Symbol(alphabet, y), Symbol(alphabet, z), PAD])
         == Some([x * 4 + y / 16, y % 16 * 16 + z / 4])
  {
    ValueOfSymbol(alphabet, x);
    ValueOfSymbol(alphabet, y);
    ValueOfSymbol(alphabet, z);
  }

  lemma DecodeOfTwoBytes(alphabet: Alphabet, a: Byte, b: Byte)
    ensures DecodeLast(alphabet, EncodeLast(alphabet, [a, b])) == Some([a, b])
  {
    DecodeThreeSymbols(alphabet, a / 4, a % 4 * 16 + b / 16, b % 16 * 4);
    Regroup(a, b, 0);
  }

  lemma DecodeFirstQuad(alphabet: Alphabet, head: string, tail: string)
    requires |head| == 4 && tail != ""
    requires DecodeFull(alphabet, head).Some? && DecodeQuads(alphabet, tail).Some?
    ensures DecodeQuads(alphabet, head + tail)
         == Some(DecodeFull(alphabet, head).value + DecodeQuads(alphabet, tail).value)
  {
    assert (head + tail)[..4] == head && (head + tail)[4..] == tail;
  }

  lemma DecodeQuadsOfLast(alphabet: Alphabet, data: seq<Byte>)
    requires |data| <= 2
    ensures DecodeQuads(alphabet, EncodeToString(alphabet, data)) == Some(data)
  {
    if |data| == 1 {
      assert data == [data[0]];
      DecodeOfOneByte(alphabet, data[0]);
    } else if |data| == 2 {
      assert data == [data[0], data[1]];
      DecodeOfTwoBytes(alphabet, data[0], data[1]);
    }
  }

  lemma DecodeQuadsOfFirst(alphabet: Alphabet, a: Byte, b: Byte, c: Byte, tail: string)
    requires DecodeQuads(alphabet, tail).Some?
    ensures DecodeQuads(alphabet, EncodeFull(alphabet, a, b, c) + tail)
         == Some([a, b, c] + DecodeQuads(alphabet, tail).value)
  {
    var head := EncodeFull(alphabet, a, b, c);
    DecodeOfFull(alphabet, a, b, c);
    if tail == "" {
      assert head + tail == head;
      assert [a, b, c] + [] == [a, b, c];
    } else {
      DecodeFirstQuad(alphabet, head, tail);
    }
  }

  lemma {:induction false} DecodeQuadsOfEncoded(alphabet: Alphabet, data: seq<Byte>)
    ensures DecodeQuads(alphabet, EncodeToString(alphabet, data)) == Some(data)
  {
    if |data| <= 2 {
      DecodeQuadsOfLast(alphabet, data);
    } else {
      DecodeQuadsOfEncoded(alphabet, data[3..]);
      DecodeQuadsOfFirst(alphabet, data[0], data[1], data[2], EncodeToString(alphabet, data[3..]));
      assert data == [data[0], data[1], data[2]] + data[3..];
    }
  }

  /** Decoding undoes encoding, for every byte string and both alphabets. */
  lemma DecodeOfEncode(alphabet: Alphabet, data: seq<Byte>)
    ensures DecodeString(alphabet, EncodeToString(alphabet, data)) == Some(data)
  {
    EncodedSymbols(alphabet, data);
    assert forall c :: c in EncodeToString(alphabet, data) ==> Plain(alphabet, c);
    StripNothing(EncodeToString(alphabet, data));
    DecodeQuadsOfEncoded(alphabet, data);
  }

  // ----- What the text means -----

  function ValueAt(alphabet: Alphabet, s: string, i: nat): nat
    requires i < |s|
  {
    var v := Value(alphabet, s[i]);
    if v.Some? then v.value else 0
  }

  /** Four symbols, read as digits of base 64, are three bytes, read as digits of base 256. */
  lemma FullMeans(alphabet: Alphabet, a: Byte, b: Byte, c: Byte)
    ensures var s := EncodeFull(alphabet, a, b, c);
      |s| == 4
      && ((ValueAt(alphabet, s, 0) * 64 + ValueAt(alphabet, s, 1)) * 64 + ValueAt(alphabet, s, 2)) * 64
          + ValueAt(alphabet, s, 3)
         == (a * 256 + b) * 256 + c
  {
    ValueOfSymbol(alphabet, a / 4);
    ValueOfSymbol(alphabet, a % 4 * 16 + b / 16);
    ValueOfSymbol(alphabet, b % 16 * 4 + c / 64);
    ValueOfSymbol(alphabet, c % 64);
  }

  /** Four symbols for each started three bytes. */
  lemma {:induction false} EncodedLength(alphabet: Alphabet, data: seq<Byte>)
    ensures |EncodeToString(alphabet, data)| == (|data| + 2) / 3 * 4
  {
    if |data| >= 3 {
      EncodedLength(alphabet, data[3..]);
    }
  }

  /** The symbols of the first three bytes come first, whatever follows. */
  lemma EncodeGroup(alphabet: Alphabet, x: Byte, y: Byte, z: Byte, rest: seq<Byte>)
    ensures EncodeToString(alphabet, [x, y, z] + rest)
         == EncodeFull(alphabet, x, y, z) + EncodeToString(alphabet, rest)
  {
    assert ([x, y, z] + rest)[3..] == rest;
  }

  /** Vectors of section 10 of RFC 4648, and the two symbols in which the alphabets differ. */
  lemma Vectors()
    ensures EncodeToString(Std, [102]) == "Zg==" && EncodeToString(Std, [102, 111]) == "Zm8="
    ensures EncodeToString(Std, [102, 111, 111]) == "Zm9v"
    ensures EncodeToString(Std, [102, 111, 111] + [98, 97, 114]) == "Zm9v" + "YmFy"
    ensures EncodeToString(Std, [251, 255]) == "+/8=" && EncodeToString(Url, [251, 255]) == "-_8="
  {
    EncodeGroup(Std, 102, 111, 111, []);
    EncodeGroup(Std, 98, 97, 114, []);
    EncodeGroup(Std, 102, 111, 111, [98, 97, 114]);
    assert [102, 111, 111] + [] == [102, 111, 111] && [98, 97, 114] + [] == [98, 97, 114];
    assert EncodeFull(Std, 102, 111, 111) == "Zm9v" && EncodeFull(Std, 98, 97, 114) == "YmFy";
  }

  predicate IsSymbol(alphabet: Alphabet, c: char) {
    'A' <= c <= 'Z' || 'a' <= c <= 'z' || '0' <= c <= '9'
    || (if alphabet.Std? then c == '+' || c == '/' else c == '-' || c == '_')
  }

  lemma QuadSymbols(alphabet: Alphabet, s: string)
    requires |s| == 4
    ensures DecodeFull(alphabet, s).Some? ==> forall i :: 0 <= i < 4 ==> IsSymbol(alphabet, s[i])
    ensures DecodeLast(alphabet, s).Some? ==>
      forall i :: 0 <= i < 4 ==> IsSymbol(alphabet, s[i]) || (i >= 2 && s[i] == '=')
  {
  }

  lemma {:induction false} QuadsSymbols(alphabet: Alphabet, s: string)
    requires DecodeQuads(alphabet, s).Some?
    ensures |s| % 4 == 0
    ensures forall i :: 0 <= i < |s| ==> IsSymbol(alphabet, s[i]) || (i >= |s| - 2 && s[i] == '=')
  {
    if |s| == 4 {
      QuadSymbols(alphabet, s);
    } else if |s| > 4 {
      QuadSymbols(alphabet, s[..4]);
      QuadsSymbols(alphabet, s[4..]);
      forall i | 0 <= i < |s|
        ensures IsSymbol(alphabet, s[i]) || (i >= |s| - 2 && s[i] == '=')
      {
        assert s[i] == if i < 4 then s[..4][i] else s[4..][i - 4];
      }
    }
  }

  lemma {:induction false} StrippedOf(s: string, c: char)
    requires c in s && c != '\r' && c != '\n'
    ensures c in StripLineBreaks(s)
  {
    if s[0] != c {
      StrippedOf(s[1..], c);
    }
  }

  /** Only text of symbols decodes, but for line breaks and up to two padding characters at its end,
      and without the line breaks it comes in fours. */
  lemma DecodedText(alphabet: Alphabet, s: string)
    requires DecodeString(alphabet, s).Some?
    ensures |StripLineBreaks(s)| % 4 == 0
    ensures forall c :: c in s ==> IsSymbol(alphabet, c) || c in {'=', '\r', '\n'}
  {
    var t := StripLineBreaks(s);
    QuadsSymbols(alphabet, t);
    forall c | c in s && c !in {'\r', '\n'}
      ensures IsSymbol(alphabet, c) || c == '='
    {
      StrippedOf(s, c);
      var i :| 0 <= i < |t| && t[i] == c;
    }
  }
}
