/** Byte strings: the representation of Go's `string` and `[]byte`. */
module ByteStrings {

  type byte = b: int | 0 <= b < 256
  type Bytes = seq<byte>

  const NUL: byte := 0x00
  const LF: byte := 0x0A
  const CR: byte := 0x0D
  const SPACE: byte := 0x20
  const COMMA: byte := 0x2C
  const COLON: byte := 0x3A
  const SEMICOLON: byte := 0x3B
  const EQUALS: byte := 0x3D
  const AT: byte := 0x40
  const PLUS: byte := 0x2B
  const MINUS: byte := 0x2D
  const BACKSLASH: byte := 0x5C

  datatype Option<+T> = None | Some(value: T)

  predicate IsDigit(b: byte) {
    0x30 <= b <= 0x39
  }

  /** strings.IndexByte: the position of the first occurrence, or -1. */
  function IndexByte(s: Bytes, c: byte): (r: int)
    ensures -1 <= r < |s|
    ensures r == -1 <==> c !in s
    ensures r >= 0 ==> s[r] == c && c !in s[..r]
  {
    if s == [] then -1
    else if s[0] == c then 0
    else
      var r := IndexByte(s[1..], c);
      if r == -1 then -1 else assert s[..r + 1] == [s[0]] + s[1..][..r]; r + 1
  }

  /** The first occurrence is where a separator-free prefix ends. */
  lemma {:induction false} IndexAfter(pre: Bytes, c: byte, post: Bytes)
    requires c !in pre
    ensures IndexByte(pre + [c] + post, c) == |pre|
  {
    var s := pre + [c] + post;
    if pre == [] {
      assert s[0] == c;
    } else {
      assert s[0] == pre[0];
      IndexAfter(pre[1..], c, post);
      assert s[1..] == pre[1..] + [c] + post;
    }
  }

  /** strings.TrimSuffix with a one-byte suffix. */
  function TrimLast(s: Bytes, c: byte): (r: Bytes) {
    if s != [] && s[|s| - 1] == c then s[..|s| - 1] else s
  }

  // ----- name and value -----

  /** What stands before the first `=`, and what stands behind it. */
  function NameOf(pair: Bytes): (r: Bytes) {
    var eq := IndexByte(pair, EQUALS);
    if eq == -1 then pair else pair[..eq]
  }

  function ValueOf(pair: Bytes): (r: Bytes) {
    var eq := IndexByte(pair, EQUALS);
    if eq == -1 then [] else pair[eq + 1..]
  }

  /** A pair is its name, and behind the first `=` its value. */
  lemma {:induction false} NameAndValue(pair: Bytes)
    ensures 0x3D !in NameOf(pair)
    ensures pair == NameOf(pair) + if 0x3D in pair then [0x3D] + ValueOf(pair) else []
    ensures 0x3D !in pair ==> ValueOf(pair) == []
  {
    var eq := IndexByte(pair, EQUALS);
    if eq != -1 {
      assert pair == pair[..eq] + [pair[eq]] + pair[eq + 1..];
    }
  }

  // ----- text -----

  /** ASCII text as bytes. */
  function Ascii(s: string): (r: Bytes)
    requires forall i :: 0 <= i < |s| ==> s[i] as int < 128
    ensures |r| == |s| && forall i :: 0 <= i < |s| ==> r[i] == s[i] as int
  {
    seq(|s|, i requires 0 <= i < |s| => s[i] as int)
  }

  /** The named bytes are the characters they are named after. */
  lemma {:induction false} NamedBytes()
    ensures [NUL, LF, CR, SPACE] == Ascii("\0\n\r ")
    ensures [COMMA, COLON, SEMICOLON, EQUALS] == Ascii(",:;=")
    ensures [AT, PLUS, MINUS, BACKSLASH] == Ascii("@+-\\")
  {
  }

  /** What the trimming of one byte does. */
  lemma {:induction false} TrimLastMeans(s: Bytes, c: byte)
    ensures TrimLast(s + [c], c) == s
    ensures s == [] || s[|s| - 1] != c ==> TrimLast(s, c) == s
  {
  }

  // ----- white space -----

  /** The three-byte encodings of white space: U+1680, U+2000 to U+200A, U+2028, U+2029, U+202F,
      U+205F and U+3000. */
  predicate SpaceTriple(a: byte, b: byte, c: byte) {
    || (a == 0xE1 && b == 0x9A && c == 0x80)
    || (a == 0xE2 && b == 0x80 && (0x80 <= c <= 0x8A || c == 0xA8 || c == 0xA9 || c == 0xAF))
    || (a == 0xE2 && b == 0x81 && c == 0x9F)
    || (a == 0xE3 && b == 0x80 && c == 0x80)
  }

  /** Length of the white-space character (unicode.IsSpace) at the front of `s`, 0 if there is
      none. Its first byte is never inside another character, so bytes may be scanned one by one. */
  function SpaceLen(s: Bytes): (n: nat)
    ensures n <= |s|
  {
    if s == [] then 0
    else if s[0] == SPACE || 0x09 <= s[0] <= 0x0D then 1
    else if |s| > 1 && s[0] == 0xC2 && (s[1] == 0x85 || s[1] == 0xA0) then 2
    else if |s| > 2 && SpaceTriple(s[0], s[1], s[2]) then 3
    else 0
  }
}
