/**
 Usernames generated from an email address, against the rule they are later validated with.
 Text is a sequence of bytes; lower-casing is done before, by `strings.ToLower`, so every
 function here takes the lower-cased text.
 */
module Usernames {
  import opened Text

  const DEFAULT_PREFIX := "user"
  const PREFIX_LENGTH := 15
  const SUFFIX_LENGTH := 10
  const MAX_LENGTH := 32

  predicate IsSeparator(c: char) {
    c == '-' || c == '_'
  }

  predicate IsAlphanumeric(c: char) {
    'a' <= c <= 'z' || '0' <= c <= '9'
  }

  predicate IsKept(c: char) {
    IsAlphanumeric(c) || IsSeparator(c)
  }

  // ----- sanitizeForUsername -----

  /** The buffer and `lastChar` after the first `i` bytes; `lastChar` is 0 after a dropped byte. */
  function Filter(s: string, i: nat): (string, char)
    requires i <= |s|
  {
    if i == 0 then ("", 0 as char)
    else
      var (buf, last) := Filter(s, i - 1);
      var c := s[i - 1];
      if !IsKept(c) then (buf, 0 as char)
      else if IsSeparator(c) && c == last then (buf, last)
      else (buf + [c], c)
  }

  function TrimLeft(s: string): string {
    if s != "" && IsSeparator(s[0]) then TrimLeft(s[1..]) else s
  }

  function TrimRight(s: string): string {
    if s != "" && IsSeparator(s[|s| - 1]) then TrimRight(s[..|s| - 1]) else s
  }

  function Sanitize(s: string, maxLen: nat): string {
    var cleaned := TrimRight(TrimLeft(Filter(s, |s|).0));
    if |cleaned| > maxLen then TrimRight(cleaned[..maxLen]) else cleaned
  }

  method SanitizeForUsername(s: string, maxLen: nat) returns (cleaned: string)
    ensures cleaned == Sanitize(s, maxLen)
  {
    if s == "" { return ""; }
    var buf, lastChar := "", 0 as char;
    for i := 0 to |s|
      invariant (buf, lastChar) == Filter(s, i)
    {
      var c := s[i];
      if 'a' <= c <= 'z' || '0' <= c <= '9' || c == '-' || c == '_' {
        if (c == '-' || c == '_') && c == lastChar { continue; }
        buf := buf + [c];
        lastChar := c;
      } else {
        lastChar := 0 as char;
      }
    }
    cleaned := TrimRight(TrimLeft(buf));
    if |cleaned| > maxLen {
      cleaned := TrimRight(cleaned[..maxLen]);
    }
  }

  // ----- What the buffer looks like -----

  /** The same separator at positions `k` and `k + 1`. */
  predicate DoubledAt(s: string, k: int) {
    0 <= k < |s| - 1 && IsSeparator(s[k]) && s[k] == s[k + 1]
  }

  predicate Doubled(s: string) {
    exists k :: 0 <= k < |s| && DoubledAt(s, k)
  }

  /** Positions `i` and `j` hold the same separator with at least one byte between them, all dropped. */
  predicate SplitPair(s: string, i: int, j: int) {
    0 <= i && i + 1 < j < |s| && IsSeparator(s[i]) && s[i] == s[j] && forall k :: i < k < j ==> !IsKept(s[k])
  }

  /** The buffer holds only kept bytes; `last` is its last byte unless a byte was just dropped. */
  lemma {:induction false} FilterState(s: string, i: nat)
    requires i <= |s|
    ensures var (buf, last) := Filter(s, i);
      && (forall c :: c in buf ==> IsKept(c))
      && (if i == 0 then buf == "" && last == 0 as char
          else if IsKept(s[i - 1]) then buf != "" && last == s[i - 1] == buf[|buf| - 1]
          else last == 0 as char)
  {
    if i > 0 {
      FilterState(s, i - 1);
    }
  }

  /** The last byte of the buffer is the last kept byte of the input, wherever that is. */
  lemma {:induction false} LastKept(s: string, i: nat) returns (j: nat)
    requires i <= |s| && Filter(s, i).0 != ""
    ensures j < i && IsKept(s[j]) && s[j] == Filter(s, i).0[|Filter(s, i).0| - 1]
    ensures forall k :: j < k < i ==> !IsKept(s[k])
  {
    FilterState(s, i);
    if IsKept(s[i - 1]) {
      j := i - 1;
    } else {
      j := LastKept(s, i - 1);
    }
  }

  /** After the first of a split pair and the dropped bytes, the buffer still ends in it. */
  lemma {:induction false} PairMeets(s: string, p: nat, i: nat)
    requires p < i <= |s| && IsSeparator(s[p]) && forall k :: p < k < i ==> !IsKept(s[k])
    ensures var buf := Filter(s, i).0; buf != "" && buf[|buf| - 1] == s[p]
    decreases i
  {
    FilterState(s, i);
    if p + 1 < i {
      PairMeets(s, p, i - 1);
    }
  }

  /** Byte `i` lands at position `k + 1` of the buffer and completes a split pair. */
  ghost predicate PairLands(s: string, i: int, k: int) {
    0 <= i < |s| && |Filter(s, i).0| == k + 1 && exists p :: SplitPair(s, p, i)
  }

  /** One more byte doubles a separator exactly when it is the second of a split pair. */
  lemma AppendDoubles(s: string, i: nat, k: int)
    requires i < |s|
    ensures DoubledAt(Filter(s, i + 1).0, k) <==> DoubledAt(Filter(s, i).0, k) || PairLands(s, i, k)
  {
    FilterState(s, i);
    FilterState(s, i + 1);
    var (buf, last) := Filter(s, i);
    var (buf', _) := Filter(s, i + 1);
    if buf' != buf {
      assert buf' == buf + [s[i]];
      if DoubledAt(buf', k) && k + 1 == |buf| {
        var p := LastKept(s, i);
        assert SplitPair(s, p, i);
      }
      if p :| SplitPair(s, p, i) {
        PairMeets(s, p, i);
      }
    }
  }

  /** The buffer has a doubled separator at a position exactly when the second of two equal
      separators of the input, with only dropped bytes (and at least one) between them, lands there. */
  lemma {:induction false} DoubledIff(s: string, i: nat, k: int)
    requires i <= |s|
    ensures DoubledAt(Filter(s, i).0, k) <==> exists j :: j < i && PairLands(s, j, k)
  {
    if i > 0 {
      DoubledIff(s, i - 1, k);
      AppendDoubles(s, i - 1, k);
      if j :| j < i && PairLands(s, j, k) {
        assert j < i - 1 || j == i - 1;
      }
    }
  }

  /** So the whole buffer has one exactly when the input has such a pair of separators. */
  lemma BufferDoubledIff(s: string)
    ensures Doubled(Filter(s, |s|).0) <==> exists p, j :: SplitPair(s, p, j)
  {
    if k :| DoubledAt(Filter(s, |s|).0, k) {
      DoubledIff(s, |s|, k);
    }
    if p, j :| SplitPair(s, p, j) {
      var k := |Filter(s, j).0| - 1;
      DoubledIff(s, |s|, k);
      assert PairLands(s, j, k);
    }
  }

  // ----- Trimming and truncation -----

  lemma {:induction false} TrimLeftIsSuffix(s: string)
    ensures var t := TrimLeft(s); |t| <= |s| && t == s[|s| - |t|..] && (t != "" ==> !IsSeparator(t[0]))
  {
    if s != "" && IsSeparator(s[0]) {
      TrimLeftIsSuffix(s[1..]);
    }
  }

  lemma {:induction false} TrimRightIsPrefix(s: string)
    ensures var t := TrimRight(s); |t| <= |s| && t == s[..|t|] && (t != "" ==> !IsSeparator(t[|t| - 1]))
  {
    if s != "" && IsSeparator(s[|s| - 1]) {
      TrimRightIsPrefix(s[..|s| - 1]);
    }
  }

  /** Where the result starts in the buffer. */
  function Start(s: string): nat {
    var buf := Filter(s, |s|).0;
    TrimLeftIsSuffix(buf);
    |buf| - |TrimLeft(buf)|
  }

  lemma SanitizeWindow(s: string, maxLen: nat)
    ensures var buf, r := Filter(s, |s|).0, Sanitize(s, maxLen);
      && Start(s) + |r| <= |buf| && r == buf[Start(s)..Start(s) + |r|]
      && |r| <= maxLen
      && (r != "" ==> !IsSeparator(r[0]) && !IsSeparator(r[|r| - 1]))
  {
    var buf := Filter(s, |s|).0;
    var left := TrimLeft(buf);
    TrimLeftIsSuffix(buf);
    var cleaned := TrimRight(left);
    TrimRightIsPrefix(left);
    assert buf[Start(s)..] == left;
    if |cleaned| > maxLen {
      TrimRightIsPrefix(cleaned[..maxLen]);
    }
    var r := Sanitize(s, maxLen);
    assert r == cleaned[..|r|] == left[..|r|];
    assert left[..|r|] == buf[Start(s)..Start(s) + |r|];
    assert r != "" ==> r[0] == left[0];
  }

  /** The sanitised text has at most `maxLen` bytes, all from `[a-z0-9_-]`, with alphanumeric ends. */
  lemma SanitizeShape(s: string, maxLen: nat)
    ensures var r := Sanitize(s, maxLen);
      && |r| <= maxLen && (forall c :: c in r ==> 'a' <= c <= 'z' || '0' <= c <= '9' || c == '-' || c == '_')
      && (r != "" ==> IsAlphanumeric(r[0]) && IsAlphanumeric(r[|r| - 1]))
  {
    SanitizeWindow(s, maxLen);
    FilterState(s, |s|);
    var buf, r := Filter(s, |s|).0, Sanitize(s, maxLen);
    forall i | 0 <= i < |r| ensures IsKept(r[i]) {
      assert r[i] == buf[Start(s) + i] && buf[Start(s) + i] in buf;
    }
  }

  /** A split pair lands inside the part of the buffer that survives trimming and truncation. */
  ghost predicate LandsInside(s: string, maxLen: nat) {
    exists j, k :: PairLands(s, j, k) && Start(s) <= k && k + 1 < Start(s) + |Sanitize(s, maxLen)|
  }

  lemma DoubledInside(s: string, maxLen: nat)
    ensures Doubled(Sanitize(s, maxLen)) <==> LandsInside(s, maxLen)
  {
    SanitizeWindow(s, maxLen);
    var buf, r, lo := Filter(s, |s|).0, Sanitize(s, maxLen), Start(s);
    if k :| DoubledAt(r, k) {
      assert DoubledAt(buf, lo + k);
      DoubledIff(s, |s|, lo + k);
      var j :| j < |s| && PairLands(s, j, lo + k);
    }
    if j, k :| PairLands(s, j, k) && lo <= k && k + 1 < lo + |r| {
      DoubledIff(s, |s|, k);
      assert DoubledAt(buf, k);
      assert DoubledAt(r, k - lo);
    }
  }

  // ----- The same, read off the input -----

  /** Byte `i` goes into the buffer: it is kept, and not a separator right after its like. */
  predicate Stays(s: string, i: nat)
    requires i < |s|
  {
    IsKept(s[i]) && !(IsSeparator(s[i]) && i > 0 && s[i - 1] == s[i])
  }

  /** How many bytes of the input from `a` up to `b` go into the buffer. */
  function Count(s: string, a: nat, b: nat): nat
    requires a <= b <= |s|
    decreases b - a
  {
    if a == b then 0 else Count(s, a, b - 1) + if Stays(s, b - 1) then 1 else 0
  }

  predicate FirstAlphanumeric(s: string, a: nat) {
    a < |s| && IsAlphanumeric(s[a]) && forall i :: 0 <= i < a ==> !IsAlphanumeric(s[i])
  }

  /** Two equal separators with only dropped bytes, and at least one, between them come after the
      first alphanumeric byte, and before an alphanumeric byte that still fits. */
  predicate PairSurvives(s: string, maxLen: nat) {
    exists a, p, j, b :: 0 <= a < p < j < b < |s| && FirstAlphanumeric(s, a) && SplitPair(s, p, j)
        && IsAlphanumeric(s[b]) && Count(s, a, b) < maxLen
  }

  lemma FilterAppends(s: string, i: nat)
    requires i < |s|
    ensures Filter(s, i + 1).0 == if Stays(s, i) then Filter(s, i).0 + [s[i]] else Filter(s, i).0
  {
    FilterState(s, i);
  }

  lemma {:induction false} FilterCount(s: string, a: nat, b: nat)
    requires a <= b <= |s|
    ensures Filter(s, a).0 <= Filter(s, b).0 && |Filter(s, b).0| == |Filter(s, a).0| + Count(s, a, b)
    decreases b - a
  {
    if a < b {
      FilterCount(s, a, b - 1);
      FilterAppends(s, b - 1);
    }
  }

  /** The byte of the input that went to position `q` of the buffer. */
  lemma {:induction false} Origin(s: string, n: nat, q: nat) returns (i: nat)
    requires n <= |s| && q < |Filter(s, n).0|
    ensures i < n && Stays(s, i) && |Filter(s, i).0| == q && s[i] == Filter(s, n).0[q]
  {
    FilterAppends(s, n - 1);
    if q < |Filter(s, n - 1).0| {
      i := Origin(s, n - 1, q);
    } else {
      i := n - 1;
    }
  }

  /** A byte that stays is found in the buffer where it was put. */
  lemma Placed(s: string, i: nat)
    requires i < |s| && Stays(s, i)
    ensures var buf, q := Filter(s, |s|).0, |Filter(s, i).0|; q < |buf| && buf[q] == s[i]
  {
    FilterAppends(s, i);
    FilterCount(s, i + 1, |s|);
  }

  lemma {:induction false} TrimLeftAt(t: string, q: nat)
    requires q < |t| && !IsSeparator(t[q]) && forall i :: 0 <= i < q ==> IsSeparator(t[i])
    ensures |TrimLeft(t)| == |t| - q
  {
    if q > 0 {
      assert forall i :: 0 <= i < q - 1 ==> t[1..][i] == t[i + 1];
      TrimLeftAt(t[1..], q - 1);
    }
  }

  lemma {:induction false} TrimRightKeeps(t: string, q: nat)
    requires q < |t| && !IsSeparator(t[q])
    ensures |TrimRight(t)| > q
  {
    if IsSeparator(t[|t| - 1]) {
      TrimRightKeeps(t[..|t| - 1], q);
    }
  }

  /** The result starts at the first alphanumeric byte. */
  lemma StartIs(s: string, a: nat)
    requires FirstAlphanumeric(s, a)
    ensures Start(s) == |Filter(s, a).0|
  {
    var buf, q := Filter(s, |s|).0, |Filter(s, a).0|;
    Placed(s, a);
    FilterCount(s, a, |s|);
    forall i | 0 <= i < q
      ensures IsSeparator(buf[i])
    {
      var from := Origin(s, a, i);
    }
    TrimLeftAt(buf, q);
  }

  lemma {:induction false} FindFirst(s: string, b: nat) returns (a: nat)
    requires b < |s| && IsAlphanumeric(s[b])
    ensures a <= b && FirstAlphanumeric(s, a)
    decreases b
  {
    if i :| 0 <= i < b && IsAlphanumeric(s[i]) {
      a := FindFirst(s, i);
    } else {
      a := b;
    }
  }

  /** The result reaches every alphanumeric byte that fits. */
  lemma Reaches(s: string, maxLen: nat, a: nat, b: nat)
    requires FirstAlphanumeric(s, a) && a <= b < |s| && IsAlphanumeric(s[b]) && Count(s, a, b) < maxLen
    ensures |Filter(s, b).0| < Start(s) + |Sanitize(s, maxLen)|
  {
    var buf, n := Filter(s, |s|).0, Count(s, a, b);
    StartIs(s, a);
    FilterCount(s, a, b);
    Placed(s, b);
    var left := TrimLeft(buf);
    TrimLeftIsSuffix(buf);
    assert left[n] == buf[Start(s) + n] == s[b];
    TrimRightKeeps(left, n);
    var cleaned := TrimRight(left);
    TrimRightIsPrefix(left);
    if |cleaned| > maxLen {
      assert cleaned[..maxLen][n] == left[n];
      TrimRightKeeps(cleaned[..maxLen], n);
    }
  }

  lemma SurvivorLands(s: string, maxLen: nat)
    requires PairSurvives(s, maxLen)
    ensures LandsInside(s, maxLen)
  {
    var a, p, j, b :| 0 <= a < p < j < b < |s| && FirstAlphanumeric(s, a) && SplitPair(s, p, j)
        && IsAlphanumeric(s[b]) && Count(s, a, b) < maxLen;
    Reaches(s, maxLen, a, b);
    StartIs(s, a);
    FilterAppends(s, a);
    FilterCount(s, a + 1, j);
    FilterAppends(s, j);
    FilterCount(s, j + 1, b);
    assert PairLands(s, j, |Filter(s, j).0| - 1);
  }

  /** A pair that lands after the start comes after the first alphanumeric byte. */
  lemma LandsAfter(s: string, a: nat, p: nat, j: nat)
    requires FirstAlphanumeric(s, a) && SplitPair(s, p, j) && |Filter(s, j).0| > Start(s)
    ensures a < p
  {
    StartIs(s, a);
    if a > j {
      FilterCount(s, j, a);
    } else if p < a {
      assert IsKept(s[a]);
    }
  }

  lemma ComesLater(s: string, b: nat, j: nat)
    requires b < |s| && j < |s| && Stays(s, b) && s[b] != s[j] && |Filter(s, j).0| <= |Filter(s, b).0|
    ensures j < b
  {
    if b < j {
      FilterAppends(s, b);
      FilterCount(s, b + 1, j);
    }
  }

  lemma LanderSurvives(s: string, maxLen: nat)
    requires LandsInside(s, maxLen)
    ensures PairSurvives(s, maxLen)
  {
    var j, k :| PairLands(s, j, k) && Start(s) <= k && k + 1 < Start(s) + |Sanitize(s, maxLen)|;
    var p :| SplitPair(s, p, j);
    var buf, r := Filter(s, |s|).0, Sanitize(s, maxLen);
    SanitizeWindow(s, maxLen);
    SanitizeShape(s, maxLen);
    var e := Start(s) + |r| - 1;
    assert buf[e] == r[|r| - 1];
    var b := Origin(s, |s|, e);
    ComesLater(s, b, j);
    var a := FindFirst(s, b);
    StartIs(s, a);
    FilterCount(s, a, b);
    LandsAfter(s, a, p, j);
    assert FirstAlphanumeric(s, a) && SplitPair(s, p, j);
  }

  /** The sanitised text has a doubled separator exactly when such a pair of the input survives. */
  lemma SanitizeDoubledIff(s: string, maxLen: nat)
    ensures Doubled(Sanitize(s, maxLen)) <==> PairSurvives(s, maxLen)
  {
    DoubledInside(s, maxLen);
    if PairSurvives(s, maxLen) {
      SurvivorLands(s, maxLen);
    }
    if LandsInside(s, maxLen) {
      LanderSurvives(s, maxLen);
    }
  }

  // ----- Clean text is kept -----

  /** Name characters only, alphanumeric ends, and no separator right after its like. */
  predicate Clean(s: string) {
    && s != "" && (forall i :: 0 <= i < |s| ==> 'a' <= s[i] <= 'z' || '0' <= s[i] <= '9' || s[i] == '-' || s[i] == '_')
    && s[0] != '-' && s[0] != '_' && s[|s| - 1] != '-' && s[|s| - 1] != '_'
    && forall i :: 0 < i < |s| ==> !(s[i] == s[i - 1] && (s[i] == '-' || s[i] == '_'))
  }

  lemma {:induction false} FilterClean(s: string, i: nat)
    requires Clean(s) && i <= |s|
    ensures Filter(s, i).0 == s[..i]
  {
    if i > 0 {
      FilterClean(s, i - 1);
      FilterAppends(s, i - 1);
      assert s[..i] == s[..i - 1] + [s[i - 1]];
    }
  }

  /** Clean text that fits is its own sanitised form; of longer text the front is kept, up to a
      separator it would end in. */
  lemma SanitizeClean(s: string, maxLen: nat)
    requires Clean(s)
    ensures |s| <= maxLen ==> Sanitize(s, maxLen) == s
    ensures |s| > maxLen ==> Sanitize(s, maxLen) <= s[..maxLen]
    ensures |s| > maxLen > 0 && !IsSeparator(s[maxLen - 1]) ==> Sanitize(s, maxLen) == s[..maxLen]
  {
    FilterClean(s, |s|);
    assert s[..|s|] == s;
    assert TrimLeft(s) == s && TrimRight(s) == s;
    if |s| > maxLen {
      TrimRightIsPrefix(s[..maxLen]);
    }
  }

  // ----- generateUsername against ValidateUserName -----

  /** The anchored expression that empties a prefix of exactly 36 name characters. */
  predicate IsFullName(s: string) {
    && |s| == 36 && IsAlphanumeric(s[0]) && IsAlphanumeric(s[35])
    && forall i :: 0 <= i < 36 ==> IsKept(s[i])
  }

  /** The lower-cased text that is sanitised; `lower` is `strings.ToLower`. */
  function PrefixText(lower: string -> string, email: string): string {
    var prefix := Split(email, '@')[0];
    if IsFullName(prefix) || prefix == "" then "" else lower(prefix)
  }

  function ExtractPrefix(lower: string -> string, email: string): string {
    var cleaned := Sanitize(PrefixText(lower, email), PREFIX_LENGTH);
    if cleaned == "" then DEFAULT_PREFIX else cleaned
  }

  predicate IsHex(s: string) {
    forall i :: 0 <= i < |s| ==> '0' <= s[i] <= '9' || 'a' <= s[i] <= 'f'
  }

  function GenerateUsername(lower: string -> string, email: string, suffix: string): string {
    ExtractPrefix(lower, email) + "_" + suffix
  }

  predicate InNameClass(c: char) {
    IsKept(c) || 'A' <= c <= 'Z'
  }

  /** `ValidateUserName`: 1 to 32 name characters, the first alphanumeric, no doubled separator. */
  predicate ValidUserName(name: string) {
    && 1 <= |name| <= MAX_LENGTH
    && InNameClass(name[0]) && !IsSeparator(name[0])
    && (forall c :: c in name ==> InNameClass(c))
    && !Doubled(name)
  }

  predicate FoundAt(s: string, part: string, i: int) {
    0 <= i <= |s| - |part| && s[i..i + |part|] == part
  }

  /** `strings.Contains` */
  ghost predicate Contains(s: string, part: string) {
    exists i :: FoundAt(s, part, i)
  }

  lemma FoundDoubled(name: string, k: int)
    ensures DoubledAt(name, k) <==> FoundAt(name, "__", k) || FoundAt(name, "--", k)
  {
    if 0 <= k <= |name| - 2 {
      assert name[k..k + 2] == [name[k], name[k + 1]];
    }
  }

  lemma DoubledContains(name: string)
    ensures Doubled(name) <==> Contains(name, "__") || Contains(name, "--")
  {
    if k :| DoubledAt(name, k) {
      FoundDoubled(name, k);
    }
    if k :| FoundAt(name, "__", k) {
      FoundDoubled(name, k);
    }
    if k :| FoundAt(name, "--", k) {
      FoundDoubled(name, k);
    }
  }

  /** The validator, as its expression and its two substring tests put it. */
  lemma ValidUserNameMeans(name: string)
    ensures ValidUserName(name)
       <==> (1 <= |name| <= 32 && name[0] != '_' && name[0] != '-' && !Contains(name, "__") && !Contains(name, "--")
             && forall i :: 0 <= i < |name| ==>
                  'a' <= name[i] <= 'z' || 'A' <= name[i] <= 'Z' || '0' <= name[i] <= '9' || name[i] == '_'
                      || name[i] == '-')
  {
    DoubledContains(name);
    assert forall i :: 0 <= i < |name| ==> name[i] in name;
  }

  lemma PrefixFacts(lower: string -> string, email: string)
    ensures var r := ExtractPrefix(lower, email);
      && 1 <= |r| <= PREFIX_LENGTH && (forall c :: c in r ==> IsKept(c))
      && IsAlphanumeric(r[0]) && IsAlphanumeric(r[|r| - 1])
      && (Doubled(r) <==> PairSurvives(PrefixText(lower, email), PREFIX_LENGTH))
  {
    var text := PrefixText(lower, email);
    SanitizeShape(text, PREFIX_LENGTH);
    SanitizeDoubledIff(text, PREFIX_LENGTH);
  }

  /** The name of an address starts with its sanitised local part, cut at 15 bytes, or with `user` if
      nothing is left of it or it has the 36 characters of an identifier. */
  lemma NameOfAddress(lower: string -> string, local: string, host: string, suffix: string)
    requires '@' !in local
    ensures var cleaned := if local == "" || IsFullName(local) then "" else Sanitize(lower(local), 15);
      GenerateUsername(lower, local + "@" + host, suffix) == (if cleaned == "" then "user" else cleaned) + "_" + suffix
    ensures IsFullName(local) ==> |local| == 36 && IsAlphanumeric(local[0]) && IsAlphanumeric(local[35])
    ensures var cleaned := if local == "" || IsFullName(local) then "" else Sanitize(lower(local), 15);
      GenerateUsername(lower, local, suffix) == (if cleaned == "" then "user" else cleaned) + "_" + suffix
  {
    SplitFirst(local, host, '@');
    assert local + ['@'] + host == local + "@" + host;
    SplitNone(local, '@');
  }

  lemma AppendSuffix(prefix: string, suffix: string)
    requires prefix != "" && IsAlphanumeric(prefix[|prefix| - 1]) && IsHex(suffix) && suffix != ""
    ensures Doubled(prefix + "_" + suffix) <==> Doubled(prefix)
  {
    var name := prefix + "_" + suffix;
    if k :| DoubledAt(prefix, k) {
      assert DoubledAt(name, k);
    }
    if k :| DoubledAt(name, k) {
      assert name[|prefix|] == '_';
      if k + 1 < |prefix| {
        assert DoubledAt(prefix, k);
      }
    }
  }

  /** A generated username has at most 26 bytes, and passes validation exactly when no pair of
      equal separators split by dropped bytes survives in the prefix. */
  lemma GeneratedValidIff(lower: string -> string, email: string, suffix: string)
    requires |suffix| == SUFFIX_LENGTH && IsHex(suffix)
    ensures |GenerateUsername(lower, email, suffix)| <= 26
    ensures ValidUserName(GenerateUsername(lower, email, suffix))
        <==> !PairSurvives(PrefixText(lower, email), PREFIX_LENGTH)
  {
    var prefix, name := ExtractPrefix(lower, email), GenerateUsername(lower, email, suffix);
    PrefixFacts(lower, email);
    AppendSuffix(prefix, suffix);
    assert name[0] == prefix[0];
    forall c | c in name ensures InNameClass(c) {
      var i :| 0 <= i < |name| && name[i] == c;
      if i < |prefix| {
        assert c == prefix[i] && c in prefix;
      } else if i > |prefix| {
        assert c == suffix[i - |prefix| - 1];
      }
    }
  }

  lemma SanitizeExample()
    ensures Sanitize("a-.-b", PREFIX_LENGTH) == "a--b"
  {
    var s := "a-.-b";
    assert "" + [s[0]] == "a" && "a" + [s[1]] == "a-" && "a-" + [s[3]] == "a--" && "a--" + [s[4]] == "a--b";
    assert Filter(s, 1) == ("a", 'a');
    assert Filter(s, 2) == ("a-", '-');
    assert Filter(s, 3) == ("a-", 0 as char);
    assert Filter(s, 4) == ("a--", '-');
    assert Filter(s, 5) == ("a--b", 'b');
    assert TrimLeft("a--b") == "a--b" && TrimRight("a--b") == "a--b";
  }

  /** An address whose generated name the validator refuses. */
  lemma RefusedExample(suffix: string)
    requires |suffix| == SUFFIX_LENGTH && IsHex(suffix)
    ensures !ValidUserName(GenerateUsername(s => s, "a-.-b@x", suffix))
  {
    SplitFirst("a-.-b", "x", '@');
    assert "a-.-b" + ['@'] + "x" == "a-.-b@x";
    SanitizeExample();
    var name := "a--b" + "_" + suffix;
    assert DoubledAt(name, 1);
  }
}
