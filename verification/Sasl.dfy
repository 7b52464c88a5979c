/** Base64 as in section 4 of RFC 4648, with the decoder's leniency of Go's encoding/base64. */
module Base64 {
  import opened ByteStrings

  const PAD: byte := 0x3D

  predicate IsSextet(i: int) {
    0 <= i < 64
  }

  function Char(i: int): (c: byte)
    requires IsSextet(i)
    ensures IsAlphabet(c)
  {
    if i < 26 then 0x41 + i
    else if i < 52 then 0x61 + (i - 26)
    else if i < 62 then 0x30 + (i - 52)
    else if i == 62 then 0x2B
    else 0x2F
  }

  predicate IsAlphabet(c: byte) {
    0x41 <= c <= 0x5A || 0x61 <= c <= 0x7A || 0x30 <= c <= 0x39 || c == 0x2B || c == 0x2F
  }

  function Index(c: byte): (i: int)
    requires IsAlphabet(c)
    ensures IsSextet(i)
  {
    if 0x41 <= c <= 0x5A then c - 0x41
    else if 0x61 <= c <= 0x7A then c - 0x61 + 26
    else if 0x30 <= c <= 0x39 then c - 0x30 + 52
    else if c == 0x2B then 62
    else 63
  }

  lemma {:induction false} IndexChar(i: int)
    requires IsSextet(i)
    ensures Index(Char(i)) == i
  {
  }

  /** Three bytes as four characters; a missing byte counts as zero. */
  function Quad(b0: byte, b1: byte, b2: byte): (r: Bytes)
    ensures |r| == 4 && forall i :: 0 <= i < 4 ==> IsAlphabet(r[i])
  {
    [Char(b0 / 4), Char(b0 % 4 * 16 + b1 / 16), Char(b1 % 16 * 4 + b2 / 64), Char(b2 % 64)]
  }

  /** base64.StdEncoding.EncodeToString. */
  function Encode(raw: Bytes): (r: Bytes)
    ensures |r| == (|raw| + 2) / 3 * 4
  {
    if raw == [] then []
    else if |raw| == 1 then Quad(raw[0], 0, 0)[..2] + [PAD, PAD]
    else if |raw| == 2 then Quad(raw[0], raw[1], 0)[..3] + [PAD]
    else Quad(raw[0], raw[1], raw[2]) + Encode(raw[3..])
  }

  /** The bytes of four sextets. */
  function Join(s0: int, s1: int, s2: int, s3: int): (r: Bytes)
    requires IsSextet(s0) && IsSextet(s1) && IsSextet(s2) && IsSextet(s3)
    ensures |r| == 3
  {
    [s0 * 4 + s1 / 16, s1 % 16 * 16 + s2 / 4, s2 % 4 * 64 + s3]
  }

  function SkipBreaks(s: Bytes): (r: Bytes)
    ensures |r| <= |s|
  {
    if s == [] then []
    else if s[0] == CR || s[0] == LF then SkipBreaks(s[1..])
    else [s[0]] + SkipBreaks(s[1..])
  }

  /** Decoding text without line breaks; None is a CorruptInputError. */
  function DecodeQuads(s: Bytes): (r: Option<Bytes>)
    ensures r.Some? ==> |r.value| <= |s| / 4 * 3
  {
    if s == [] then Some([])
    else if |s| < 4 || !IsAlphabet(s[0]) || !IsAlphabet(s[1]) then None
    else if s[2] == PAD && s[3] == PAD && |s| == 4 then Some(Join(Index(s[0]), Index(s[1]), 0, 0)[..1])
    else if !IsAlphabet(s[2]) then None
    else if s[3] == PAD && |s| == 4 then Some(Join(Index(s[0]), Index(s[1]), Index(s[2]), 0)[..2])
    else if !IsAlphabet(s[3]) then None
    else
      match DecodeQuads(s[4..])
      case None => None
      case Some(rest) => Some(Join(Index(s[0]), Index(s[1]), Index(s[2]), Index(s[3])) + rest)
  }

  /** base64.StdEncoding.Decode, which ignores CR and LF anywhere. */
  function Decode(s: Bytes): (r: Option<Bytes>)
    ensures r.Some? ==> |r.value| <= |s| / 4 * 3
  {
    DecodeQuads(SkipBreaks(s))
  }

  // ----- decoding undoes encoding -----

  lemma {:induction false} JoinSextets(b0: byte, b1: byte, b2: byte)
    ensures var s1, s2 := b0 % 4 * 16 + b1 / 16, b1 % 16 * 4 + b2 / 64;
            IsSextet(b0 / 4) && IsSextet(s1) && IsSextet(s2) && IsSextet(b2 % 64)
            && Join(b0 / 4, s1, s2, b2 % 64) == [b0, b1, b2]
  {
    var s1, s2 := b0 % 4 * 16 + b1 / 16, b1 % 16 * 4 + b2 / 64;
    assert s1 / 16 == b0 % 4 && s1 % 16 == b1 / 16;
    assert s2 / 4 == b1 % 16 && s2 % 4 == b2 / 64;
  }

  lemma {:induction false} JoinQuad(b0: byte, b1: byte, b2: byte)
    ensures var q := Quad(b0, b1, b2);
            Join(Index(q[0]), Index(q[1]), Index(q[2]), Index(q[3])) == [b0, b1, b2]
  {
    hide Char;
    hide Index;
    hide Join;
    JoinSextets(b0, b1, b2);
    IndexChar(b0 / 4);
    IndexChar(b0 % 4 * 16 + b1 / 16);
    IndexChar(b1 % 16 * 4 + b2 / 64);
    IndexChar(b2 % 64);
  }

  predicate NoBreaks(s: Bytes) {
    CR !in s && LF !in s
  }

  lemma {:induction false} SkipNothing(s: Bytes)
    requires NoBreaks(s)
    ensures SkipBreaks(s) == s
  {
    if s != [] {
      SkipNothing(s[1..]);
    }
  }

  lemma {:induction false} EncodeShape(raw: Bytes)
    ensures NoBreaks(Encode(raw))
  {
    if raw != [] && |raw| > 2 {
      EncodeShape(raw[3..]);
    }
  }

  lemma {:induction false} DecodeEncode(raw: Bytes)
    ensures Decode(Encode(raw)) == Some(raw)
  {
    EncodeShape(raw);
    SkipNothing(Encode(raw));
    DecodeQuadsEncode(raw);
  }

  lemma {:induction false} DecodeOneByte(b0: byte)
    ensures DecodeQuads(Quad(b0, 0, 0)[..2] + [PAD, PAD]) == Some([b0])
  {
    var q := Quad(b0, 0, 0);
    JoinQuad(b0, 0, 0);
    assert q[2] == Char(0) && q[3] == Char(0);
    assert q[..2] + [PAD, PAD] == [q[0], q[1], PAD, PAD];
    assert Join(Index(q[0]), Index(q[1]), 0, 0)[..1] == [b0];
  }

  lemma {:induction false} DecodeTwoBytes(b0: byte, b1: byte)
    ensures DecodeQuads(Quad(b0, b1, 0)[..3] + [PAD]) == Some([b0, b1])
  {
    var q := Quad(b0, b1, 0);
    JoinQuad(b0, b1, 0);
    assert q[3] == Char(0);
    assert q[..3] + [PAD] == [q[0], q[1], q[2], PAD];
    assert Join(Index(q[0]), Index(q[1]), Index(q[2]), 0)[..2] == [b0, b1];
  }

  lemma {:induction false} DecodeQuadThen(b0: byte, b1: byte, b2: byte, rest: Bytes)
    requires DecodeQuads(rest).Some?
    ensures DecodeQuads(Quad(b0, b1, b2) + rest) == Some([b0, b1, b2] + DecodeQuads(rest).value)
  {
    hide Char;
    JoinQuad(b0, b1, b2);
    var q := Quad(b0, b1, b2);
    var s := q + rest;
    assert s[4..] == rest && s[0] == q[0] && s[1] == q[1] && s[2] == q[2] && s[3] == q[3];
  }

  lemma {:induction false} DecodeQuadsEncode(raw: Bytes)
    ensures DecodeQuads(Encode(raw)) == Some(raw)
  {
    hide Quad;
    hide DecodeQuads;
    if raw == [] {
      DecodeNothing();
    } else if |raw| == 1 {
      DecodeOneByte(raw[0]);
      assert raw == [raw[0]];
    } else if |raw| == 2 {
      DecodeTwoBytes(raw[0], raw[1]);
      assert raw == [raw[0], raw[1]];
    } else {
      DecodeQuadsEncode(raw[3..]);
      DecodeQuadThen(raw[0], raw[1], raw[2], Encode(raw[3..]));
      assert [raw[0], raw[1], raw[2]] + raw[3..] == raw;
    }
  }

  lemma {:induction false} DecodeNothing()
    ensures DecodeQuads([]) == Some([])
  {
  }

  /** The text can be cut at any multiple of four characters. */
  lemma {:induction false} EncodeCut(raw: Bytes, k: nat)
    requires 3 * k <= |raw|
    ensures Encode(raw) == Encode(raw[..3 * k]) + Encode(raw[3 * k..])
    ensures |Encode(raw[..3 * k])| == 4 * k
    decreases k
  {
    hide Quad;
    if k == 0 {
      assert raw[..0] == [] && raw[0..] == raw;
    } else {
      var rest := raw[3..];
      EncodeCut(rest, k - 1);
      assert raw[..3 * k][3..] == rest[..3 * (k - 1)];
      assert raw[3 * k..] == rest[3 * (k - 1)..];
      var q := Quad(raw[0], raw[1], raw[2]);
      assert Encode(raw[..3 * k]) == q + Encode(rest[..3 * (k - 1)]);
      assert q + (Encode(rest[..3 * (k - 1)]) + Encode(raw[3 * k..])) == q + Encode(rest[..3 * (k - 1)]) + Encode(raw[3 * k..]);
    }
  }

  lemma {:induction false} EncodeOne(b0: byte)
    ensures Encode([b0]) == Quad(b0, 0, 0)[..2] + [PAD, PAD]
  {
    hide Quad;
  }

  lemma {:induction false} EncodeTwo(b0: byte, b1: byte)
    ensures Encode([b0, b1]) == Quad(b0, b1, 0)[..3] + [PAD]
  {
    hide Quad;
  }

  lemma {:induction false} EncodeThree(b0: byte, b1: byte, b2: byte, rest: Bytes)
    ensures Encode([b0, b1, b2] + rest) == Quad(b0, b1, b2) + Encode(rest)
  {
    hide Quad;
    assert ([b0, b1, b2] + rest)[3..] == rest;
  }

  const FOO: Bytes := [0x66, 0x6F, 0x6F]
  const FOO_TEXT: Bytes := [0x5A, 0x6D, 0x39, 0x76]

  lemma {:induction false} ShortVectors(b0: byte, b1: byte, b2: byte)
    ensures Encode([b0]) == [Quad(b0, 0, 0)[0], Quad(b0, 0, 0)[1], PAD, PAD]
    ensures Encode([b0, b1]) == [Quad(b0, b1, 0)[0], Quad(b0, b1, 0)[1], Quad(b0, b1, 0)[2], PAD]
    ensures Encode([b0, b1, b2]) == Quad(b0, b1, b2)
  {
    EncodeOne(b0);
    EncodeTwo(b0, b1);
    EncodeThree(b0, b1, b2, []);
    hide Quad;
    assert [b0, b1, b2] + [] == [b0, b1, b2] && Encode([]) == [];
  }

  /** The test vectors of section 10 of RFC 4648. */
  lemma {:induction false} Rfc4648Vectors()
    ensures Encode([]) == []
    ensures Encode([0x66]) == [0x5A, 0x67, PAD, PAD]
    ensures Encode([0x66, 0x6F]) == [0x5A, 0x6D, 0x38, PAD]
    ensures Encode(FOO) == FOO_TEXT
    ensures Encode(FOO + [0x62]) == FOO_TEXT + [0x59, 0x67, PAD, PAD]
    ensures Encode(FOO + [0x62, 0x61]) == FOO_TEXT + [0x59, 0x6D, 0x45, PAD]
    ensures Encode(FOO + [0x62, 0x61, 0x72]) == FOO_TEXT + [0x59, 0x6D, 0x46, 0x79]
  {
    hide Encode;
    hide Quad;
    EncodeNothing();
    FooQuads();
    BarQuads();
    ShortVectors(0x66, 0x6F, 0x6F);
    ShortVectors(0x62, 0x61, 0x72);
    EncodeThree(0x66, 0x6F, 0x6F, [0x62]);
    EncodeThree(0x66, 0x6F, 0x6F, [0x62, 0x61]);
    EncodeThree(0x66, 0x6F, 0x6F, [0x62, 0x61, 0x72]);
  }

  lemma {:induction false} EncodeNothing()
    ensures Encode([]) == []
  {
  }

  lemma {:induction false} FooQuads()
    ensures Quad(0x66, 0, 0) == [0x5A, 0x67, 0x41, 0x41]
    ensures Quad(0x66, 0x6F, 0) == [0x5A, 0x6D, 0x38, 0x41]
    ensures Quad(0x66, 0x6F, 0x6F) == FOO_TEXT
  {
  }

  lemma {:induction false} BarQuads()
    ensures Quad(0x62, 0, 0) == [0x59, 0x67, 0x41, 0x41]
    ensures Quad(0x62, 0x61, 0) == [0x59, 0x6D, 0x45, 0x41]
    ensures Quad(0x62, 0x61, 0x72) == [0x59, 0x6D, 0x46, 0x79]
  {
  }

  // ----- the text itself -----

  lemma {:induction false} AlphabetIs(i: int, c: byte)
    requires IsSextet(i)
    ensures i < 26 ==> Char(i) == 'A' as int + i
    ensures 26 <= i < 52 ==> Char(i) == 'a' as int + i - 26
    ensures 52 <= i < 62 ==> Char(i) == '0' as int + i - 52
    ensures Char(62) == '+' as int && Char(63) == '/' as int
    ensures IsAlphabet(c) <==>
              var ch := c as char;
              'A' <= ch <= 'Z' || 'a' <= ch <= 'z' || '0' <= ch <= '9' || ch == '+' || ch == '/'
  {
  }

  /** Four characters are the digits in base 64, most significant first, of the number that
      three bytes are the digits of in base 256. */
  lemma {:induction false} QuadIsNumber(b0: byte, b1: byte, b2: byte)
    ensures var q := Quad(b0, b1, b2);
            262144 * Index(q[0]) + 4096 * Index(q[1]) + 64 * Index(q[2]) + Index(q[3]) == 65536 * b0 + 256 * b1 + b2
  {
    IndexChar(b0 / 4);
    IndexChar(b0 % 4 * 16 + b1 / 16);
    IndexChar(b1 % 16 * 4 + b2 / 64);
    IndexChar(b2 % 64);
    hide Char;
    hide Index;
  }

  /** Groups of four characters of the alphabet; in the last group one or two `=` may stand last. */
  predicate WellFormed(s: Bytes) {
    var n := |s|;
    && n % 4 == 0
    && (forall i :: 0 <= i < n - 2 ==> IsAlphabet(s[i]))
    && (n > 0 ==>
          (IsAlphabet(s[n - 2]) && (IsAlphabet(s[n - 1]) || s[n - 1] as char == '='))
          || (s[n - 2] as char == '=' && s[n - 1] as char == '='))
  }

  lemma {:induction false} DecodableIff(s: Bytes)
    ensures DecodeQuads(s).Some? <==> WellFormed(s)
  {
    if |s| > 4 {
      DecodableIff(s[4..]);
      var t := s[4..];
      assert |t| % 4 == 0 <==> |s| % 4 == 0;
      assert forall i :: 4 <= i < |s| ==> s[i] == t[i - 4];
      if WellFormed(s) {
        assert forall i :: 0 <= i < |t| ==> t[i] == s[i + 4];
        assert WellFormed(t);
      }
    }
  }

  /** Line breaks are the only bytes skipped. */
  lemma {:induction false} BreaksSkipped(s: Bytes, c: byte)
    ensures SkipBreaks([]) == []
    ensures SkipBreaks([c] + s) == if c == 0x0D || c == 0x0A then SkipBreaks(s) else [c] + SkipBreaks(s)
  {
    assert ([c] + s)[1..] == s;
  }
}

/** AUTHENTICATE payloads: chunking and reassembly (ircutils/sasl.go). */
module Sasl {
  import opened ByteStrings
  import Base64

  datatype Error = LimitExceeded | TooLong | Corrupt

  datatype AddResult = More | Done(output: Bytes) | Failed(err: Error)

  const PLUS_CHUNK: Bytes := [PLUS]

  // ----- sending -----

  /** The text in pieces of 400 bytes, the last one possibly shorter. */
  function Pieces(text: Bytes): (r: seq<Bytes>)
    ensures r == [] <==> text == []
    decreases |text|
  {
    if text == [] then [] else if |text| <= 400 then [text] else [text[..400]] + Pieces(text[400..])
  }

  lemma {:induction false} PiecesStep(text: Bytes, n: nat)
    requires text != [] && n == if |text| > 400 then 400 else |text|
    ensures Pieces(text) == [text[..n]] + Pieces(text[n..])
  {
    if |text| <= 400 {
      assert text[..n] == text && text[n..] == [];
    }
  }

  /** The parameters of the successive AUTHENTICATE commands. */
  function Response(raw: Bytes): (r: seq<Bytes>) {
    if raw == [] then [PLUS_CHUNK]
    else
      var text := Base64.Encode(raw);
      Pieces(text) + if |text| % 400 == 0 then [PLUS_CHUNK] else []
  }

  lemma {:induction false} LastPiece(full: nat, lastLen: nat)
    requires 0 < lastLen <= 400
    ensures (400 * full + lastLen) % 400 == 0 <==> lastLen == 400
  {
  }

  lemma {:induction false} PiecesNone()
    ensures Pieces([]) == []
  {
  }

  method EncodeSASLResponse(raw: Bytes) returns (result: seq<Bytes>)
    ensures result == Response(raw)
  {
    hide Pieces;
    if |raw| == 0 {
      return [PLUS_CHUNK];
    }
    hide Base64.Encode;
    ghost var text := Base64.Encode(raw);
    var response := Base64.Encode(raw);
    result := [];
    var lastLen := 0;
    ghost var full := 0;
    while |response| > 0
      invariant Pieces(text) == result + Pieces(response)
      invariant response != [] ==> |text| == 400 * full + |response|
      invariant response == [] ==> |text| == 400 * full + lastLen && 0 < lastLen <= 400
    {
      full := if |response| <= 400 then full else full + 1;
      lastLen := |response|;
      if lastLen > 400 {
        lastLen := 400;
      }
      PiecesStep(response, lastLen);
      var piece, rest := response[..lastLen], response[lastLen..];
      assert result + ([piece] + Pieces(rest)) == (result + [piece]) + Pieces(rest);
      result := result + [piece];
      response := rest;
    }
    PiecesNone();
    LastPiece(full, lastLen);
    assert result + [] == result;
    if lastLen == 400 {
      result := result + [PLUS_CHUNK];
    }
  }

  // ----- receiving -----

  /** What Add does to the buffered bytes, and what it reports. */
  function Added(buf: Bytes, maxLength: int, value: Bytes): (r: (Bytes, AddResult)) {
    if value == PLUS_CHUNK then ([], Done(buf))
    else if |value| > 400 then ([], Failed(TooLong))
    else if maxLength != 0 && |buf| + |value| / 4 * 3 > maxLength then ([], Failed(LimitExceeded))
    else
      match Base64.Decode(value)
      case None => ([], Failed(Corrupt))
      case Some(bytes) => if |value| < 400 then ([], Done(buf + bytes)) else (buf + bytes, More)
  }

  class SASLBuffer {
    var maxLength: int
    var buf: Bytes

    constructor (max: int)
      ensures maxLength == max && buf == []
    {
      maxLength, buf := max, [];
    }

    method Clear()
      modifies this`buf
      ensures buf == []
    {
      buf := [];
    }

    method Add(value: Bytes) returns (r: AddResult)
      modifies this`buf
      ensures (buf, r) == Added(old(buf), maxLength, value)
      // every finished response, good or bad, leaves the buffer empty
      ensures r != More ==> buf == []
    {
      if value == PLUS_CHUNK {
        r := Done(buf);
        Clear();
        return;
      }
      if |value| > 400 {
        Clear();
        return Failed(TooLong);
      }
      var curLen := |buf|;
      var chunkDecodedLen := |value| / 4 * 3;
      if maxLength != 0 && curLen + chunkDecodedLen > maxLength {
        Clear();
        return Failed(LimitExceeded);
      }
      var decoded := Base64.Decode(value);
      if decoded.None? {
        Clear();
        return Failed(Corrupt);
      }
      buf := buf + decoded.value;
      if |value| < 400 {
        r := Done(buf);
        Clear();
        return;
      }
      return More;
    }

    /** Feed chunks until one reports done. */
    method AddAll(chunks: seq<Bytes>) returns (used: nat, r: AddResult)
      modifies this`buf
      ensures (used, r) == Fed(old(buf), maxLength, chunks)
      ensures r != More ==> buf == []
    {
      used, r := 0, More;
      while used < |chunks|
        invariant used <= |chunks| && r == More
        invariant Fed(old(buf), maxLength, chunks) ==
                  (used + Fed(buf, maxLength, chunks[used..]).0, Fed(buf, maxLength, chunks[used..]).1)
      {
        var chunk := chunks[used];
        assert chunks[used..][0] == chunk && chunks[used..][1..] == chunks[used + 1..];
        r := Add(chunk);
        used := used + 1;
        if r != More {
          return;
        }
      }
    }
  }

  /** How many chunks are consumed, and the first outcome that is not "more". */
  function Fed(buf: Bytes, maxLength: int, chunks: seq<Bytes>): (r: (nat, AddResult))
    ensures r.0 <= |chunks|
    decreases |chunks|
  {
    if chunks == [] then (0, More)
    else
      var (next, outcome) := Added(buf, maxLength, chunks[0]);
      if outcome != More then (1, outcome)
      else var rest := Fed(next, maxLength, chunks[1..]); (1 + rest.0, rest.1)
  }

  // ----- the round trip -----

  /** Whether a response of `n` bytes fits on top of `held` buffered ones: the limit is
      charged in whole groups of three bytes. */
  predicate Fits(held: nat, n: nat, maxLength: int) {
    n == 0 || maxLength == 0 || held + (n + 2) / 3 * 3 <= maxLength
  }

  lemma {:induction false} ResponseLong(raw: Bytes)
    requires |raw| > 300
    ensures Response(raw) == [Base64.Encode(raw[..300])] + Response(raw[300..])
    ensures |Base64.Encode(raw[..300])| == 400
  {
    hide Base64.Encode;
    Base64.EncodeCut(raw, 100);
    var a, b := Base64.Encode(raw[..300]), Base64.Encode(raw[300..]);
    var text := Base64.Encode(raw);
    assert text[..400] == a && text[400..] == b;
    assert Pieces(text) == [a] + Pieces(b);
  }

  lemma {:induction false} ResponseShort(raw: Bytes)
    requires 0 < |raw| <= 300
    ensures Response(raw) == [Base64.Encode(raw)] + if |raw| < 298 then [] else [PLUS_CHUNK]
  {
    hide Base64.Encode;
    assert |Base64.Encode(raw)| == (|raw| + 2) / 3 * 4;
  }

  lemma {:induction false} AddEncoded(buf: Bytes, maxLength: int, raw: Bytes)
    requires 0 < |raw| <= 300
    ensures Added(buf, maxLength, Base64.Encode(raw)) ==
            if !Fits(|buf|, |raw|, maxLength) then ([], Failed(LimitExceeded))
            else if |raw| < 298 then ([], Done(buf + raw))
            else (buf + raw, More)
  {
    hide Base64.Encode;
    hide Base64.Decode;
    Base64.DecodeEncode(raw);
    assert |Base64.Encode(raw)| == (|raw| + 2) / 3 * 4;
  }

  lemma {:induction false} ResponseNone()
    ensures Response([]) == [PLUS_CHUNK]
  {
  }

  /** The receiver gets the original bytes exactly when the limit allows it, with the last
      chunk and no earlier; otherwise it reports the limit. */
  lemma {:induction false} FeedResponse(buf: Bytes, maxLength: int, raw: Bytes)
    ensures var r := Fed(buf, maxLength, Response(raw));
            if Fits(|buf|, |raw|, maxLength) then r == (|Response(raw)|, Done(buf + raw))
            else r.1 == Failed(LimitExceeded)
    decreases |raw|
  {
    hide Base64.Encode;
    hide Base64.Decode;
    hide Response;
    var chunks := Response(raw);
    ResponseNone();
    if raw == [] {
      assert buf + raw == buf;
    } else if |raw| <= 300 {
      AddEncoded(buf, maxLength, raw);
      ResponseShort(raw);
      if |raw| >= 298 {
        assert chunks[1..] == [PLUS_CHUNK] && [PLUS_CHUNK][1..] == [];
      }
    } else {
      var first, rest := raw[..300], raw[300..];
      ResponseLong(raw);
      AddEncoded(buf, maxLength, first);
      FeedResponse(buf + first, maxLength, rest);
      assert buf + first + rest == buf + raw;
      assert chunks[0] == Base64.Encode(first) && chunks[1..] == Response(rest);
    }
  }

  /** For every byte string and limit: the response is reassembled if and only if there is
      no limit or its length rounded up to a multiple of 3 is within it (an empty response always is). */
  lemma {:induction false} SaslRoundTrip(raw: Bytes, maxLength: int)
    ensures Fed([], maxLength, Response(raw)) == (|Response(raw)|, Done(raw)) <==>
              || raw == []
              || maxLength == 0
              || (|raw| + 2) / 3 * 3 <= maxLength
    ensures Fed([], maxLength, Response(raw)).1 != Done(raw) ==>
              Fed([], maxLength, Response(raw)).1 == Failed(LimitExceeded)
  {
    hide Response;
    hide Fed;
    FeedResponse([], maxLength, raw);
    assert [] + raw == raw;
  }

  /** The number of commands, and that each parameter is `+` or at most 400 bytes. */
  lemma {:induction false} ResponseCount(raw: Bytes)
    ensures |Response(raw)| == |Base64.Encode(raw)| / 400 + 1
    ensures forall c :: c in Response(raw) ==> 0 < |c| <= 400
    decreases |raw|
  {
    hide Base64.Encode;
    if raw == [] {
      assert |Base64.Encode(raw)| == 0;
    } else if |raw| <= 300 {
      assert |Base64.Encode(raw)| == (|raw| + 2) / 3 * 4;
    } else {
      ResponseLong(raw);
      ResponseCount(raw[300..]);
      Base64.EncodeCut(raw, 100);
    }
  }

  // ----- chunk by chunk -----

  function Joined(chunks: seq<Bytes>): (r: Bytes) {
    if chunks == [] then [] else chunks[0] + Joined(chunks[1..])
  }

  lemma {:induction false} PiecesJoin(text: Bytes)
    ensures Joined(Pieces(text)) == text
    ensures forall i :: 0 <= i < |Pieces(text)| - 1 ==> |Pieces(text)[i]| == 400
    ensures text != [] ==> 0 < |Pieces(text)[|Pieces(text)| - 1]| <= 400
    decreases |text|
  {
    if |text| > 400 {
      PiecesJoin(text[400..]);
    }
  }

  lemma {:induction false} PiecesSpell(text: Bytes)
    requires text != []
    ensures var p := Pieces(text);
            var r := p + if |text| % 400 == 0 then [PLUS_CHUNK] else [];
            && p != []
            && (forall i :: 0 <= i < |r| - 1 ==> |r[i]| == 400)
            && |r[|r| - 1]| < 400
            && if |text| % 400 == 0 then r[|r| - 1] == PLUS_CHUNK && r[..|r| - 1] == p else r == p
  {
    PiecesJoin(text);
    PiecesLast(text);
    hide Pieces;
    var p := Pieces(text);
    if |text| % 400 == 0 {
      assert (p + [PLUS_CHUNK])[..|p|] == p;
    } else {
      assert p + [] == p;
    }
  }

  /** The chunks in front of the last are full and the last is not; up to a `+` in place of an
      empty last chunk, they spell the base64 text. */
  lemma {:induction false} ResponseSpells(raw: Bytes)
    ensures var r, text := Response(raw), Base64.Encode(raw);
            && r != []
            && (forall i :: 0 <= i < |r| - 1 ==> |r[i]| == 400)
            && |r[|r| - 1]| < 400
            && if |text| % 400 == 0 then r[|r| - 1] == Ascii("+") && Joined(r[..|r| - 1]) == text
               else Joined(r) == text
  {
    hide Base64.Encode;
    hide Pieces;
    hide Joined;
    var text := Base64.Encode(raw);
    assert Ascii("+") == PLUS_CHUNK;
    JoinedNone();
    if raw == [] {
      assert |text| == 0 && [PLUS_CHUNK][..0] == [];
    } else {
      PiecesSpell(text);
      PiecesJoin(text);
    }
  }

  lemma {:induction false} JoinedNone()
    ensures Joined([]) == []
  {
  }

  lemma {:induction false} PiecesLast(text: Bytes)
    requires text != []
    ensures var p := Pieces(text); |p[|p| - 1]| == if |text| % 400 == 0 then 400 else |text| % 400
    decreases |text|
  {
    if |text| > 400 {
      PiecesLast(text[400..]);
    }
  }

  /** Every case of receiving a chunk, by its bytes. */
  lemma {:induction false} AddedCases(buf: Bytes, maxLength: int, value: Bytes)
    ensures var r := Added(buf, maxLength, value);
            var clean := Base64.SkipBreaks(value);
            if value == Ascii("+") then r == ([], Done(buf))
            else if |value| > 400 then r == ([], Failed(TooLong))
            else if maxLength != 0 && |buf| + |value| / 4 * 3 > maxLength then r == ([], Failed(LimitExceeded))
            else if !Base64.WellFormed(clean) then r == ([], Failed(Corrupt))
            else
              && Base64.DecodeQuads(clean).Some?
              && var all := buf + Base64.DecodeQuads(clean).value;
                 r == if |value| == 400 then (all, More) else ([], Done(all))
  {
    hide Base64.WellFormed;
    hide Base64.DecodeQuads;
    Base64.DecodableIff(Base64.SkipBreaks(value));
    assert Ascii("+") == PLUS_CHUNK;
  }
}
