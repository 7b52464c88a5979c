/** UTF-8 as in section 4 of RFC 3629, Go's backward rune decoder, and
    truncation at a rune boundary (ircmsg/unicode.go). */
module Utf8 {
  import opened ByteStrings

  // ----- the grammar -----

  predicate IsContinuation(b: byte) {
    0x80 <= b <= 0xBF
  }

  /** Length of the well-formed character at the front of `s`, 0 if there is none. */
  function RuneLen(s: Bytes): (n: nat)
    ensures n <= 4 && n <= |s|
  {
    if |s| == 0 then 0
    else if s[0] <= 0x7F then 1
    else if |s| == 1 then 0
    else if 0xC2 <= s[0] <= 0xDF then
      if IsContinuation(s[1]) then 2 else 0
    else if |s| == 2 then 0
    else if 0xE0 <= s[0] <= 0xEF then
      if SecondOfThree(s[0], s[1]) && IsContinuation(s[2]) then 3 else 0
    else if |s| == 3 then 0
    else if 0xF0 <= s[0] <= 0xF4 then
      if SecondOfFour(s[0], s[1]) && IsContinuation(s[2]) && IsContinuation(s[3]) then 4 else 0
    else 0
  }

  predicate SecondOfThree(first: byte, second: byte) {
    if first == 0xE0 then 0xA0 <= second <= 0xBF
    else if first == 0xED then 0x80 <= second <= 0x9F
    else IsContinuation(second)
  }

  predicate SecondOfFour(first: byte, second: byte) {
    if first == 0xF0 then 0x90 <= second <= 0xBF
    else if first == 0xF4 then 0x80 <= second <= 0x8F
    else IsContinuation(second)
  }

  /** utf8.ValidString. */
  predicate Valid(s: Bytes)
    decreases |s|
  {
    s == [] || (RuneLen(s) > 0 && Valid(s[RuneLen(s)..]))
  }

  lemma {:induction false} RuneLenExtends(s: Bytes, t: Bytes)
    requires RuneLen(s) > 0
    ensures RuneLen(s + t) == RuneLen(s)
  {
  }

  lemma {:induction false} RuneLenPrefix(s: Bytes, k: nat)
    requires RuneLen(s) > 0 && k <= |s|
    ensures RuneLen(s[..k]) == if k < RuneLen(s) then 0 else RuneLen(s)
  {
  }

  lemma {:induction false} ValidConcat(s: Bytes, t: Bytes)
    requires Valid(s) && Valid(t)
    ensures Valid(s + t)
    decreases |s|
  {
    hide RuneLen;
    if s == [] {
      assert s + t == t;
    } else {
      var n := RuneLen(s);
      RuneLenExtends(s, t);
      ValidConcat(s[n..], t);
      assert (s + t)[n..] == s[n..] + t;
    }
  }

  // ----- the last rune -----

  predicate EndsWithRuneOf(s: Bytes, k: nat) {
    0 < k <= |s| && RuneLen(s[|s| - k..]) == k
  }

  /** Length of the well-formed character that ends `s`, 0 if there is none. */
  function LastRuneLen(s: Bytes): (n: nat) {
    ScanBack(s, 1)
  }

  function ScanBack(s: Bytes, k: nat): (n: nat)
    decreases 5 - k
  {
    if k > 4 then 0 else if EndsWithRuneOf(s, k) then k else ScanBack(s, k + 1)
  }

  lemma {:induction false} ScanBackFinds(s: Bytes, k: nat)
    requires k > 0
    ensures ScanBack(s, k) > 0 ==> EndsWithRuneOf(s, ScanBack(s, k))
    ensures forall j :: k <= j <= 4 && EndsWithRuneOf(s, j) ==> 0 < ScanBack(s, k) <= j
    decreases 5 - k
  {
    hide EndsWithRuneOf;
    if k <= 4 {
      ScanBackFinds(s, k + 1);
    }
  }

  lemma {:induction false} LastRuneFinds(s: Bytes)
    ensures LastRuneLen(s) > 0 ==> EndsWithRuneOf(s, LastRuneLen(s))
    ensures forall j: nat :: EndsWithRuneOf(s, j) ==> 0 < LastRuneLen(s) <= j
  {
    hide RuneLen;
    ScanBackFinds(s, 1);
    forall j: nat | EndsWithRuneOf(s, j) ensures j <= 4 { LastRuneShape(s, j); }
  }

  /** A rune is a byte that is no continuation byte, followed by continuation bytes. */
  lemma {:induction false} RuneShape(s: Bytes)
    requires RuneLen(s) > 0
    ensures !IsContinuation(s[0])
    ensures forall i :: 0 < i < RuneLen(s) ==> IsContinuation(s[i])
  {
  }

  lemma {:induction false} LastRuneShape(s: Bytes, k: nat)
    requires EndsWithRuneOf(s, k)
    ensures !IsContinuation(s[|s| - k])
    ensures forall j :: |s| - k < j < |s| ==> IsContinuation(s[j])
    ensures k <= 4
  {
    var tail := s[|s| - k..];
    RuneShape(tail);
    forall j | |s| - k < j < |s| ensures IsContinuation(s[j]) {
      assert s[j] == tail[j - (|s| - k)];
    }
  }

  /** A rune at the end starts at the last byte that is not a continuation byte,
      so there is at most one candidate. */
  lemma {:induction false} LastRuneFrom(s: Bytes, i: nat)
    requires i < |s| && !IsContinuation(s[i])
    requires forall j :: i < j < |s| ==> IsContinuation(s[j])
    ensures LastRuneLen(s) == if RuneLen(s[i..]) == |s| - i then |s| - i else 0
  {
    hide LastRuneLen;
    hide RuneLen;
    forall k: nat | EndsWithRuneOf(s, k)
      ensures k == |s| - i
    {
      LastRuneShape(s, k);
    }
    LastRuneFinds(s);
    var k := |s| - i;
    if RuneLen(s[i..]) == k {
      assert EndsWithRuneOf(s, k);
    }
  }

  lemma {:induction false} NoLeadNoRune(s: Bytes)
    requires forall j :: |s| - 4 <= j < |s| && 0 <= j ==> IsContinuation(s[j])
    ensures LastRuneLen(s) == 0
  {
    hide LastRuneLen;
    hide RuneLen;
    LastRuneFinds(s);
    if LastRuneLen(s) > 0 {
      LastRuneShape(s, LastRuneLen(s));
      assert false;
    }
  }

  /** utf8.DecodeLastRune: `bad` stands for "RuneError of width at most 1". */
  method DecodeLastRune(p: Bytes) returns (bad: bool, n: nat)
    ensures bad <==> LastRuneLen(p) == 0
    ensures n == if !bad then LastRuneLen(p) else if p == [] then 0 else 1
  {
    hide LastRuneLen;
    var end := |p|;
    if end == 0 {
      NoLeadNoRune(p);
      return true, 0;
    }
    var start := end - 1;
    if p[start] < 0x80 {
      LastRuneFrom(p, start);
      return false, 1;
    }
    var lim := if end - 4 < 0 then 0 else end - 4;
    start := start - 1;
    while start >= lim && IsContinuation(p[start])
      invariant lim - 1 <= start < end - 1
      invariant forall j :: start < j < end - 1 ==> IsContinuation(p[j])
    {
      start := start - 1;
    }
    if start < 0 {
      start := 0;
    }
    var size := RuneLen(p[start..]);
    if IsContinuation(p[end - 1]) {
      if !IsContinuation(p[start]) {
        LastRuneFrom(p, start);
      } else {
        NoLeadNoRune(p);
      }
    } else {
      LastRuneFrom(p, end - 1);
      assert p[start..][end - 1 - start] == p[end - 1];
      if size > 0 {
        RuneShape(p[start..]);
      }
    }
    if size == 0 || start + size != end {
      return true, 1;
    }
    return false, size;
  }

  // ----- truncation -----

  /** Drop up to `tries` bytes, stopping as soon as the text ends with a rune.
      None is Go's run-time panic on reslicing an empty string. */
  function DropBroken(p: Bytes, tries: nat): (r: Option<Bytes>)
    ensures r.Some? ==> r.value <= p && |p| - tries <= |r.value|
    decreases tries
  {
    if tries == 0 || LastRuneLen(p) > 0 then Some(p)
    else if p == [] then None
    else DropBroken(p[..|p| - 1], tries - 1)
  }

  /** What TruncateUTF8Safe computes; None is a panic. */
  function Truncated(message: Bytes, byteLimit: int): (r: Option<Bytes>) {
    if |message| <= byteLimit then Some(message)
    else if byteLimit < 0 then None
    else DropBroken(message[..byteLimit], 3)
  }

  method TruncateUTF8Safe(message: Bytes, byteLimit: int) returns (r: Option<Bytes>)
    ensures r == Truncated(message, byteLimit)
  {
    hide LastRuneLen;
    if |message| <= byteLimit {
      return Some(message);
    }
    if byteLimit < 0 {
      return None;
    }
    var cut := message[..byteLimit];
    var i := 0;
    while i < 3
      invariant 0 <= i <= 3
      invariant Truncated(message, byteLimit) == DropBroken(cut, 3 - i)
    {
      var bad, n := DecodeLastRune(cut);
      if !bad {
        break;
      }
      if |cut| == 0 {
        return None;
      }
      cut := cut[..|cut| - 1];
      i := i + 1;
    }
    return Some(cut);
  }

  /** Length of the longest prefix of valid `m` that is valid and within `limit`. */
  function Boundary(m: Bytes, limit: nat): (v: nat)
    requires Valid(m)
    ensures v <= limit && v <= |m|
    decreases |m|
  {
    if m == [] || RuneLen(m) > limit then 0
    else RuneLen(m) + Boundary(m[RuneLen(m)..], limit - RuneLen(m))
  }

  lemma {:induction false} BoundaryIsValid(m: Bytes, limit: nat)
    requires Valid(m)
    ensures Valid(m[..Boundary(m, limit)])
    decreases |m|
  {
    var v := Boundary(m, limit);
    if v > 0 {
      var n := RuneLen(m);
      BoundaryIsValid(m[n..], limit - n);
      RuneLenPrefix(m, v);
      assert m[..v][n..] == m[n..][..v - n];
    }
  }

  /** Nothing longer fits: every valid prefix within the limit is at most Boundary long. */
  lemma {:induction false} BoundaryIsLongest(m: Bytes, limit: nat, k: nat)
    requires Valid(m) && k <= limit && k <= |m| && Valid(m[..k])
    ensures k <= Boundary(m, limit)
    decreases |m|
  {
    if k > 0 {
      var n := RuneLen(m);
      RuneLenPrefix(m, k);
      assert m[..k][n..] == m[n..][..k - n];
      BoundaryIsLongest(m[n..], limit - n, k - n);
    }
  }

  /** A prefix of valid text ends with a rune exactly at a boundary. */
  lemma {:induction false} PrefixEnd(m: Bytes, k: nat)
    requires Valid(m) && 0 < k <= |m|
    ensures LastRuneLen(m[..k]) > 0 <==> Boundary(m, k) == k
    ensures k - Boundary(m, k) <= 3
    decreases |m|
  {
    hide LastRuneLen;
    var n := RuneLen(m);
    var p := m[..k];
    RuneLenPrefix(m, k);
    if k < n {
      RuneShape(m);
      hide RuneLen;
      LastRuneFrom(p, 0);
      assert p[0..] == p;
    } else if k == n {
      BoundaryOfRune(m);
      hide RuneLen;
      assert p[|p| - n..] == p;
      assert EndsWithRuneOf(p, n);
      LastRuneFinds(p);
    } else {
      var rest := m[n..];
      FirstOfRest(m);
      hide RuneLen;
      PrefixEnd(rest, k - n);
      var q := rest[..k - n];
      assert p == m[..n] + q;
      LastRuneLocal(m[..n], q);
    }
  }

  lemma {:induction false} BoundaryOfRune(m: Bytes)
    requires Valid(m) && m != []
    ensures RuneLen(m) > 0 && Boundary(m, RuneLen(m)) == RuneLen(m)
  {
    hide RuneLen;
  }

  lemma {:induction false} FirstOfRest(m: Bytes)
    requires Valid(m) && m != [] && RuneLen(m) < |m|
    ensures Valid(m[RuneLen(m)..]) && !IsContinuation(m[RuneLen(m)..][0])
  {
    RuneShape(m[RuneLen(m)..]);
    hide RuneLen;
  }

  /** Well-formed text in front does not change which rune ends the string. */
  lemma {:induction false} LastRuneLocal(pre: Bytes, q: Bytes)
    requires q != [] && !IsContinuation(q[0])
    ensures LastRuneLen(pre + q) == LastRuneLen(q)
  {
    hide LastRuneLen;
    var p := pre + q;
    var i := |q| - 1;
    while i > 0 && IsContinuation(q[i])
      invariant 0 <= i < |q|
      invariant forall j :: i < j < |q| ==> IsContinuation(q[j])
    {
      i := i - 1;
    }
    LastRuneFrom(q, i);
    forall j | |pre| + i < j < |p| ensures IsContinuation(p[j]) {
      assert p[j] == q[j - |pre|];
    }
    LastRuneFrom(p, |pre| + i);
    assert p[|pre| + i..] == q[i..];
  }

  lemma {:induction false} BoundaryBelow(m: Bytes, k: nat)
    requires Valid(m) && 0 < k <= |m| && Boundary(m, k) < k
    ensures Boundary(m, k - 1) == Boundary(m, k)
    decreases |m|
  {
    if RuneLen(m) < k {
      BoundaryBelow(m[RuneLen(m)..], k - RuneLen(m));
    }
  }

  /** The longest nonempty prefix of `m`, up to `limit` bytes, that ends with a rune; 0 if none does. */
  function LastGood(m: Bytes, limit: nat): (g: nat)
    requires limit <= |m|
    ensures g <= limit
    ensures g > 0 ==> LastRuneLen(m[..g]) > 0
    ensures forall k :: g < k <= limit ==> LastRuneLen(m[..k]) == 0
  {
    if limit == 0 || LastRuneLen(m[..limit]) > 0 then limit else LastGood(m, limit - 1)
  }

  lemma {:induction false} DropBrokenSteps(m: Bytes, limit: nat, tries: nat)
    requires limit <= |m|
    ensures var g := LastGood(m, limit);
            DropBroken(m[..limit], tries) ==
            if limit - g >= tries then Some(m[..limit - tries])
            else if g == 0 then None
            else Some(m[..g])
    decreases tries
  {
    hide LastRuneLen;
    if limit == 0 {
      NoLeadNoRune(m[..limit]);
    } else if tries > 0 && LastGood(m, limit) < limit {
      assert m[..limit][..limit - 1] == m[..limit - 1];
      DropBrokenSteps(m, limit - 1, tries - 1);
    }
  }

  lemma {:induction false} LastGoodIsBoundary(m: Bytes, k: nat)
    requires Valid(m) && k <= |m|
    ensures LastGood(m, k) == Boundary(m, k)
  {
    hide LastRuneLen;
    if k > 0 {
      PrefixEnd(m, k);
      if Boundary(m, k) < k {
        BoundaryBelow(m, k);
        LastGoodIsBoundary(m, k - 1);
      }
    }
  }

  lemma {:induction false} TruncateCutsAtBoundary(m: Bytes, limit: nat)
    requires Valid(m) && limit < |m|
    ensures Truncated(m, limit) ==
            if limit < 3 && Boundary(m, limit) == 0 then None else Some(m[..Boundary(m, limit)])
  {
    hide LastRuneLen;
    DropBrokenSteps(m, limit, 3);
    LastGoodIsBoundary(m, limit);
    if limit > 0 {
      PrefixEnd(m, limit);
    }
  }

  /** For valid UTF-8 the result is the longest valid prefix within the limit; the
      only failures are limits below 3 that leave no whole character. */
  lemma {:induction false} TruncateValidUtf8(m: Bytes, limit: int, k: nat)
    requires Valid(m)
    ensures Truncated(m, limit).None? <==> limit < |m| && (limit < 0 || (limit < 3 && Boundary(m, limit) == 0))
    ensures Truncated(m, limit).Some? ==>
              var r := Truncated(m, limit).value;
              && r <= m && |r| <= limit && Valid(r)
              && (k <= limit && k <= |m| && Valid(m[..k]) ==> k <= |r|)
  {
    hide LastRuneLen;
    if 0 <= limit < |m| {
      TruncateCutsAtBoundary(m, limit);
      BoundaryIsValid(m, limit);
      if k <= limit && Valid(m[..k]) {
        BoundaryIsLongest(m, limit, k);
      }
    }
  }

  /** For arbitrary bytes at most three are dropped beyond the limit, and every longer
      prefix within the limit did not end with a character. */
  lemma {:induction false} TruncateAnyBytes(m: Bytes, limit: int)
    requires limit < |m|
    ensures Truncated(m, limit).None? <==> limit < 0 || (limit < 3 && LastGood(m, limit) == 0)
    ensures Truncated(m, limit).Some? ==>
              var r := Truncated(m, limit).value;
              && r <= m && limit - 3 <= |r| <= limit
              && LastGood(m, limit) <= |r|
              && (|r| == limit - 3 || |r| == LastGood(m, limit) > 0)
  {
    hide LastRuneLen;
    if limit >= 0 {
      DropBrokenSteps(m, limit, 3);
    }
  }

  // ----- code points -----

  /** A Unicode scalar value: no surrogate, at most U+10FFFF. */
  predicate IsScalar(cp: int) {
    0 <= cp <= 0xD7FF || 0xE000 <= cp <= 0x10FFFF
  }

  /** The encoding of section 3 of RFC 3629. */
  function EncodeRune(cp: int): (r: Bytes)
    requires IsScalar(cp)
    ensures 1 <= |r| <= 4
  {
    if cp < 0x80 then [cp]
    else if cp < 0x800 then [0xC0 + cp / 64, 0x80 + cp % 64]
    else if cp < 0x10000 then [0xE0 + cp / 4096, 0x80 + cp / 64 % 64, 0x80 + cp % 64]
    else [0xF0 + cp / 262144, 0x80 + cp / 4096 % 64, 0x80 + cp / 64 % 64, 0x80 + cp % 64]
  }

  lemma {:induction false} EncodedLong(cp: int, rest: Bytes)
    requires IsScalar(cp) && cp >= 0x800
    ensures RuneLen(EncodeRune(cp) + rest) == |EncodeRune(cp)|
  {
    var e := EncodeRune(cp);
    var s := e + rest;
    assert s[0] == e[0] && s[1] == e[1] && s[2] == e[2];
    if cp < 0x10000 {
      assert 0xE0 <= e[0] <= 0xEF && SecondOfThree(e[0], e[1]) && IsContinuation(e[2]);
    } else {
      assert s[3] == e[3];
      assert 0xF0 <= e[0] <= 0xF4 && SecondOfFour(e[0], e[1]) && IsContinuation(e[2]) && IsContinuation(e[3]);
    }
  }

  lemma {:induction false} EncodedIsRune(cp: int, rest: Bytes)
    requires IsScalar(cp)
    ensures RuneLen(EncodeRune(cp) + rest) == |EncodeRune(cp)|
    ensures (EncodeRune(cp) + rest)[|EncodeRune(cp)|..] == rest
  {
    if cp >= 0x800 {
      EncodedLong(cp, rest);
      hide RuneLen;
      hide EncodeRune;
    }
  }

  lemma {:induction false} Sextets(a: nat, b: nat, c: nat, d: nat)
    requires b < 64 && c < 64 && d < 64
    ensures var n := a * 262144 + b * 4096 + c * 64 + d;
            n / 262144 == a && n / 4096 % 64 == b && n / 64 % 64 == c && n % 64 == d && n / 4096 == a * 64 + b
  {
    var n := a * 262144 + b * 4096 + c * 64 + d;
    assert n / 64 == a * 4096 + b * 64 + c;
    assert n / 4096 == a * 64 + b;
  }

  lemma {:induction false} TwoByteRune(s: Bytes) returns (cp: int)
    requires RuneLen(s) == 2
    ensures IsScalar(cp) && s[..2] == EncodeRune(cp)
  {
    cp := (s[0] as int - 0xC0) * 64 + (s[1] as int - 0x80);
    assert s[..2] == [s[0], s[1]];
  }

  lemma {:induction false} ThreeByteRune(s: Bytes) returns (cp: int)
    requires RuneLen(s) == 3
    ensures IsScalar(cp) && s[..3] == EncodeRune(cp)
  {
    assert 0xE0 <= s[0] <= 0xEF && SecondOfThree(s[0], s[1]) && IsContinuation(s[2]);
    var a, b, c: int := s[0] as int - 0xE0, s[1] as int - 0x80, s[2] as int - 0x80;
    Sextets(0, a, b, c);
    cp := a * 4096 + b * 64 + c;
    hide RuneLen;
    assert 0x800 <= cp < 0x10000;
    assert s[..3] == [s[0], s[1], s[2]];
  }

  lemma {:induction false} FourByteRune(s: Bytes) returns (cp: int)
    requires RuneLen(s) == 4
    ensures IsScalar(cp) && s[..4] == EncodeRune(cp)
  {
    assert 0xF0 <= s[0] <= 0xF4 && SecondOfFour(s[0], s[1]) && IsContinuation(s[2]) && IsContinuation(s[3]);
    var a, b, c, d: int := s[0] as int - 0xF0, s[1] as int - 0x80, s[2] as int - 0x80, s[3] as int - 0x80;
    Sextets(a, b, c, d);
    cp := a * 262144 + b * 4096 + c * 64 + d;
    hide RuneLen;
    assert 0x10000 <= cp <= 0x10FFFF;
    assert s[..4] == [s[0], s[1], s[2], s[3]];
  }

  /** Every well-formed character encodes a code point. */
  lemma {:induction false} RuneIsEncoded(s: Bytes) returns (cp: int)
    requires RuneLen(s) > 0
    ensures IsScalar(cp) && s[..RuneLen(s)] == EncodeRune(cp)
  {
    if RuneLen(s) == 1 {
      assert s[..1] == [s[0]];
      cp := s[0];
    } else if RuneLen(s) == 2 {
      cp := TwoByteRune(s);
    } else if RuneLen(s) == 3 {
      cp := ThreeByteRune(s);
    } else {
      cp := FourByteRune(s);
    }
  }

  function EncodeAll(cps: seq<int>): (r: Bytes)
    requires forall i :: 0 <= i < |cps| ==> IsScalar(cps[i])
  {
    if cps == [] then [] else EncodeRune(cps[0]) + EncodeAll(cps[1..])
  }

  lemma {:induction false} EncodedIsValid(cps: seq<int>)
    requires forall i :: 0 <= i < |cps| ==> IsScalar(cps[i])
    ensures Valid(EncodeAll(cps))
  {
    hide RuneLen;
    hide EncodeRune;
    if cps != [] {
      EncodedIsValid(cps[1..]);
      EncodedIsRune(cps[0], EncodeAll(cps[1..]));
    }
  }

  lemma {:induction false} ValidIsEncoded(s: Bytes) returns (cps: seq<int>)
    requires Valid(s)
    ensures forall i :: 0 <= i < |cps| ==> IsScalar(cps[i])
    ensures s == EncodeAll(cps)
    decreases |s|
  {
    hide RuneLen;
    hide EncodeRune;
    hide IsScalar;
    if s == [] {
      return [];
    }
    var cp := RuneIsEncoded(s);
    var rest := ValidIsEncoded(s[RuneLen(s)..]);
    cps := [cp] + rest;
    assert cps[1..] == rest;
    assert s == s[..RuneLen(s)] + s[RuneLen(s)..];
  }

  // ----- white space -----

  /** The code points with Unicode's White_Space property. */
  predicate IsWhite(cp: int) {
    || 9 <= cp <= 13 || cp == 0x20 || cp == 0x85 || cp == 0xA0 || cp == 0x1680
    || 0x2000 <= cp <= 0x200A || cp == 0x2028 || cp == 0x2029 || cp == 0x202F || cp == 0x205F || cp == 0x3000
  }

  lemma {:induction false} WhiteEncoded(cp: int, rest: Bytes)
    requires IsWhite(cp)
    ensures SpaceLen(EncodeRune(cp) + rest) == |EncodeRune(cp)|
  {
  }

  lemma {:induction false} SpaceDecoded(s: Bytes) returns (cp: int)
    requires SpaceLen(s) > 0
    ensures IsWhite(cp) && EncodeRune(cp) <= s
  {
    if SpaceLen(s) == 1 {
      return s[0];
    } else if SpaceLen(s) == 2 {
      return s[1];
    } else {
      return (s[0] as int - 0xE0) * 4096 + (s[1] as int - 0x80) * 64 + (s[2] as int - 0x80);
    }
  }

  /** The text starts with white space if and only if it starts with the encoding of such a code
      point, and SpaceLen is its length. */
  lemma {:induction false} SpaceLenMeans(s: Bytes)
    ensures SpaceLen(s) > 0 <==> exists cp :: IsWhite(cp) && EncodeRune(cp) <= s
    ensures forall cp :: IsWhite(cp) && EncodeRune(cp) <= s ==> SpaceLen(s) == |EncodeRune(cp)|
  {
    hide EncodeRune;
    hide SpaceLen;
    forall cp | IsWhite(cp) && EncodeRune(cp) <= s
      ensures SpaceLen(s) == |EncodeRune(cp)|
    {
      WhiteEncoded(cp, s[|EncodeRune(cp)|..]);
      assert s == EncodeRune(cp) + s[|EncodeRune(cp)|..];
    }
    if SpaceLen(s) > 0 {
      var cp := SpaceDecoded(s);
    }
  }
}
