/** Labels as text: serializeLabel and deserializeLabel of ircevent/irc_callback.go
    (Go's strconv in base 32). */
module LabelText {
  import opened ByteStrings

  const MAX_INT64 := 0x7FFF_FFFF_FFFF_FFFF

  predicate IsInt64(n: int) {
    -MAX_INT64 - 1 <= n <= MAX_INT64
  }

  function Digit(d: int): (c: byte)
    requires 0 <= d < 32
    ensures DigitValue(c) == Some(d) && c != PLUS && c != MINUS
  {
    if d < 10 then 0x30 + d else 0x61 + d - 10
  }

  function DigitValue(c: byte): (r: Option<nat>) {
    if 0x30 <= c <= 0x39 then Some(c - 0x30)
    else if 0x61 <= c <= 0x76 then Some(c - 0x61 + 10)
    else if 0x41 <= c <= 0x56 then Some(c - 0x41 + 10)
    else None
  }

  function FormatNat(n: nat): (r: Bytes)
    ensures r != [] && r[0] != PLUS && r[0] != MINUS
  {
    if n < 32 then [Digit(n)] else FormatNat(n / 32) + [Digit(n % 32)]
  }

  /** serializeLabel. */
  function Serialize(n: int): (r: Bytes) {
    if n < 0 then [MINUS] + FormatNat(-n) else FormatNat(n)
  }

  /** The digits' value; None on an empty string or a byte that is no digit. */
  function ParseNat(s: Bytes): (r: Option<nat>) {
    if s == [] then None
    else
      match DigitValue(s[|s| - 1])
      case None => None
      case Some(d) =>
        if |s| == 1 then Some(d)
        else
          match ParseNat(s[..|s| - 1])
          case None => None
          case Some(high) => Some(32 * high + d)
  }

  /** deserializeLabel: 0 stands for anything that is not a 64-bit number. */
  function Deserialize(s: Bytes): (r: int)
    ensures IsInt64(r)
  {
    if s == [] then 0
    else
      var negative := s[0] == MINUS;
      match ParseNat(if s[0] == PLUS || s[0] == MINUS then s[1..] else s)
      case None => 0
      case Some(n) =>
        var value: int := if negative then -(n as int) else n as int;
        if IsInt64(value) then value else 0
  }

  lemma {:induction false} ParseFormat(n: nat)
    ensures ParseNat(FormatNat(n)) == Some(n)
    decreases n
  {
    if n >= 32 {
      var high := FormatNat(n / 32);
      assert (high + [Digit(n % 32)])[..|high|] == high;
      ParseFormat(n / 32);
    }
  }

  /** Labels survive printing and parsing. */
  lemma {:induction false} LabelRoundTrip(n: int)
    requires IsInt64(n)
    ensures Deserialize(Serialize(n)) == n
  {
    hide DigitValue;
    if n < 0 {
      ParseFormat(-n);
      assert ([MINUS] + FormatNat(-n))[1..] == FormatNat(-n);
    } else {
      ParseFormat(n);
    }
  }

  /** Different labels have different texts. */
  lemma {:induction false} LabelsDistinct(a: int, b: int)
    requires IsInt64(a) && IsInt64(b) && Serialize(a) == Serialize(b)
    ensures a == b
  {
    LabelRoundTrip(a);
    LabelRoundTrip(b);
  }

  // ----- the text itself -----

  const DIGITS := "0123456789abcdefghijklmnopqrstuv"

  /** The digits of base 32; upper-case letters are read as well, and nothing else is. */
  lemma {:induction false} DigitsAre(d: nat, c: byte)
    ensures d < 32 ==> Digit(d) == DIGITS[d] as int
    ensures DigitValue(c) ==
            if '0' <= c as char <= '9' then Some(c - 48)
            else if 'a' <= c as char <= 'v' then Some(c - 87)
            else if 'A' <= c as char <= 'V' then Some(c - 55)
            else None
  {
  }

  /** The most significant digit comes first, without leading zeros, behind the sign. */
  lemma {:induction false} SerializeMeans(n: nat, d: nat)
    requires d < 32
    ensures Serialize(d) == [DIGITS[d] as int]
    ensures n > 0 ==> Serialize(32 * n + d) == Serialize(n) + [DIGITS[d] as int]
    ensures n > 0 ==> Serialize(0 - n) == [0x2D] + Serialize(n)
  {
    DigitsAre(d, 0);
    assert (32 * n + d) / 32 == n && (32 * n + d) % 32 == d;
  }

  /** What is no number is 0: the empty text, and any text with a byte that is no digit. */
  lemma {:induction false} UnreadableIsZero(s: Bytes, i: nat)
    requires i < |s| && DigitValue(s[i]) == None && (i == 0 ==> s[0] != 0x2B && s[0] != 0x2D)
    ensures Deserialize(s) == 0 && Deserialize([]) == 0
  {
    var digits := if s[0] == PLUS || s[0] == MINUS then s[1..] else s;
    var j := if s[0] == PLUS || s[0] == MINUS then i - 1 else i;
    NoNumber(digits, j);
  }

  lemma {:induction false} NoNumber(s: Bytes, i: nat)
    requires i < |s| && DigitValue(s[i]) == None
    ensures ParseNat(s) == None
  {
    if i < |s| - 1 {
      NoNumber(s[..|s| - 1], i);
    }
  }

  /** A number that does not fit into 64 bits is 0 as well; a plus sign changes nothing. */
  lemma {:induction false} OutOfRangeIsZero(n: nat)
    ensures Deserialize(Serialize(n)) == if n <= 0x7FFF_FFFF_FFFF_FFFF then n else 0
    ensures Deserialize([0x2B] + Serialize(n)) == Deserialize(Serialize(n))
    ensures n > 0 ==> Deserialize(Serialize(0 - n)) == if n <= 0x8000_0000_0000_0000 then 0 - n else 0
  {
    hide DigitValue;
    ParseFormat(n);
    assert ([0x2B] + FormatNat(n))[1..] == FormatNat(n);
    assert ([MINUS] + FormatNat(n))[1..] == FormatNat(n);
  }
}
