/** Message-tag values and names (ircmsg/tags.go). */
module Tags {
  import opened ByteStrings
  import Utf8

  // ----- escaping -----

  function EscapeByte(b: byte): (r: Bytes)
    ensures 1 <= |r| <= 2
  {
    if b == BACKSLASH then [BACKSLASH, BACKSLASH]
    else if b == SEMICOLON then [BACKSLASH, COLON]
    else if b == SPACE then [BACKSLASH, 0x73]
    else if b == CR then [BACKSLASH, 0x72]
    else if b == LF then [BACKSLASH, 0x6E]
    else [b]
  }

  /** EscapeTagValue: each byte replaced on its own, as strings.Replacer does. */
  function Escape(value: Bytes): (r: Bytes) {
    if value == [] then [] else EscapeByte(value[0]) + Escape(value[1..])
  }

  /** escapedCharLookupTable: what the byte after a backslash stands for. */
  function Lookup(b: byte): (r: byte) {
    if b == COLON then SEMICOLON
    else if b == 0x73 then SPACE
    else if b == 0x72 then CR
    else if b == 0x6E then LF
    else b
  }

  /** The byte-at-a-time unescaping automaton. */
  function Unescape(s: Bytes): (r: Bytes) {
    if s == [] then []
    else if s[0] != BACKSLASH then [s[0]] + Unescape(s[1..])
    else if |s| == 1 then []
    else [Lookup(s[1])] + Unescape(s[2..])
  }

  lemma {:induction false} UnescapePlain(pre: Bytes, rest: Bytes)
    requires BACKSLASH !in pre
    ensures Unescape(pre + rest) == pre + Unescape(rest)
  {
    if pre == [] {
      assert pre + rest == rest;
    } else {
      assert (pre + rest)[0] == pre[0];
      assert (pre + rest)[1..] == pre[1..] + rest;
      UnescapePlain(pre[1..], rest);
    }
  }

  ghost predicate IsTable(table: array<byte>)
    reads table
  {
    table.Length == 256 && forall b: byte :: table[b] == Lookup(b)
  }

  /** The table as init fills it. */
  method InitTable() returns (table: array<byte>)
    ensures fresh(table) && IsTable(table)
    ensures table[0x3A] == 0x3B && table[0x73] == 0x20 && table[0x72] == 0x0D && table[0x6E] == 0x0A
    ensures forall b: byte :: b != 0x3A && b != 0x73 && b != 0x72 && b != 0x6E ==> table[b] == b
  {
    table := new byte[256];
    var i := 0;
    while i < 256
      invariant 0 <= i <= 256
      invariant forall j :: 0 <= j < i ==> table[j] == j
    {
      table[i] := i;
      i := i + 1;
    }
    table[COLON] := SEMICOLON;
    table[0x73] := SPACE;
    table[0x72] := CR;
    table[0x6E] := LF;
  }

  /** One round of the scan for backslashes. */
  lemma {:induction false} UnescapeToBackslash(s: Bytes, pos: int)
    requires pos == IndexByte(s, BACKSLASH)
    ensures pos == -1 ==> Unescape(s) == s
    ensures 0 <= pos == |s| - 1 ==> Unescape(s) == s[..pos]
    ensures 0 <= pos < |s| - 1 ==> Unescape(s) == s[..pos] + [Lookup(s[pos + 1])] + Unescape(s[pos + 2..])
  {
    hide IndexByte;
    hide Lookup;
    var cut := if pos == -1 then |s| else pos;
    var head, tail := s[..cut], s[cut..];
    assert s == head + tail;
    UnescapePlain(head, tail);
    if pos == -1 {
      assert tail == [] && head == s;
    } else if pos == |s| - 1 {
      assert tail == [BACKSLASH];
    } else {
      assert tail[0] == BACKSLASH && tail[1] == s[pos + 1] && tail[2..] == s[pos + 2..];
      assert Unescape(tail) == [Lookup(s[pos + 1])] + Unescape(s[pos + 2..]);
    }
  }

  /** UnescapeTagValue, with the fast paths that return the input or a slice of it. */
  method UnescapeTagValue(inString: Bytes, table: array<byte>) returns (r: Bytes)
    requires IsTable(table)
    ensures r == Unescape(inString)
  {
    var buf: Bytes := [];
    var remainder := inString;
    while true
      invariant Unescape(inString) == buf + Unescape(remainder)
      invariant buf == [] ==> remainder == inString
      decreases |remainder|
    {
      var pos := IndexByte(remainder, BACKSLASH);
      UnescapeToBackslash(remainder, pos);
      if pos == -1 {
        if buf == [] {
          return inString;
        }
        return buf + remainder;
      } else if pos == |remainder| - 1 {
        if buf == [] {
          return inString[..|inString| - 1];
        }
        return buf + remainder[..|remainder| - 1];
      }
      var next := buf + remainder[..pos] + [table[remainder[pos + 1]]];
      assert Unescape(inString) == next + Unescape(remainder[pos + 2..]);
      buf := next;
      remainder := remainder[pos + 2..];
    }
  }

  /** The five escapes, byte for byte; everything else stands for itself. */
  lemma {:induction false} EscapeMeans(b: byte, rest: Bytes)
    ensures Escape([]) == []
    ensures Escape([b] + rest) ==
            (match b as char
             case '\\' => Ascii("\\\\")
             case ';' => Ascii("\\:")
             case ' ' => Ascii("\\s")
             case '\r' => Ascii("\\r")
             case '\n' => Ascii("\\n")
             case _ => [b]) + Escape(rest)
  {
    assert ([b] + rest)[1..] == rest;
  }

  /** What a backslash and the byte behind it stand for; other bytes stand for themselves. */
  lemma {:induction false} UnescapeMeans(c: byte, rest: Bytes)
    ensures Unescape([0x5C, c] + rest) ==
            [if c as char == ':' then 0x3B
             else if c as char == 's' then 0x20
             else if c as char == 'r' then 0x0D
             else if c as char == 'n' then 0x0A
             else c] + Unescape(rest)
    ensures c != 0x5C ==> Unescape([c] + rest) == [c] + Unescape(rest)
    ensures Unescape([]) == [] && Unescape([0x5C]) == []
  {
    assert ([0x5C, c] + rest)[2..] == rest;
    assert ([c] + rest)[1..] == rest;
  }

  /** Unescaping undoes escaping, for every value. */
  lemma {:induction false} UnescapeEscape(value: Bytes)
    ensures Unescape(Escape(value)) == value
  {
    if value != [] {
      var e, rest := EscapeByte(value[0]), Escape(value[1..]);
      assert (e + rest)[|e|..] == rest;
      UnescapeEscape(value[1..]);
    }
  }

  /** Escaped text can stand inside a tag section: no separators, no line breaks;
      and escaping invents no NUL. */
  lemma {:induction false} EscapeIsSafe(value: Bytes)
    ensures SEMICOLON !in Escape(value) && SPACE !in Escape(value)
    ensures CR !in Escape(value) && LF !in Escape(value)
    ensures NUL in Escape(value) <==> NUL in value
  {
    if value != [] {
      EscapeIsSafe(value[1..]);
    }
  }

  lemma {:induction false} EscapeEmpty(value: Bytes)
    ensures Escape(value) == [] <==> value == []
  {
  }

  // ----- UTF-8 survives both directions -----

  lemma {:induction false} AsciiConcatValid(a: Bytes, t: Bytes)
    requires forall i :: 0 <= i < |a| ==> a[i] < 0x80
    requires Utf8.Valid(t)
    ensures Utf8.Valid(a + t)
  {
    if a == [] {
      assert a + t == t;
    } else {
      AsciiConcatValid(a[1..], t);
      assert (a + t)[1..] == a[1..] + t;
    }
  }

  /** Bytes that are not ASCII pass through both functions unchanged. */
  lemma {:induction false} EscapeNonAscii(pre: Bytes, rest: Bytes)
    requires forall i :: 0 <= i < |pre| ==> pre[i] >= 0x80
    ensures Escape(pre + rest) == pre + Escape(rest)
  {
    if pre == [] {
      assert pre + rest == rest;
    } else {
      assert (pre + rest)[1..] == pre[1..] + rest;
      EscapeNonAscii(pre[1..], rest);
    }
  }

  lemma {:induction false} RuneBytes(s: Bytes)
    requires Utf8.RuneLen(s) > 0
    ensures Utf8.RuneLen(s) == 1 ==> s[0] < 0x80
    ensures Utf8.RuneLen(s) > 1 ==> forall i :: 0 <= i < Utf8.RuneLen(s) ==> s[i] >= 0x80
  {
  }

  lemma {:induction false} EscapeKeepsUtf8(value: Bytes)
    requires Utf8.Valid(value)
    ensures Utf8.Valid(Escape(value))
    decreases |value|
  {
    if value != [] {
      var n := Utf8.RuneLen(value);
      var rune, rest := value[..n], value[n..];
      RuneBytes(value);
      EscapeKeepsUtf8(rest);
      if n == 1 {
        AsciiConcatValid(EscapeByte(value[0]), Escape(rest));
      } else {
        assert value == rune + rest;
        EscapeNonAscii(rune, rest);
        Utf8.RuneLenPrefix(value, n);
        Utf8.ValidConcat(rune, Escape(rest));
      }
    }
  }

  /** An escape in front of a whole character of `n` bytes. */
  lemma {:induction false} UnescapeRune(t: Bytes, n: nat)
    requires 1 <= n <= |t|
    requires n > 1 ==> forall i :: 0 <= i < n ==> t[i] >= 0x80
    ensures Unescape([BACKSLASH] + t) == [Lookup(t[0])] + t[1..n] + Unescape(t[n..])
  {
    var s, mid, rest := [BACKSLASH] + t, t[1..n], t[n..];
    assert BACKSLASH !in mid;
    UnescapePlain(mid, rest);
    assert s[2..] == mid + rest;
    calc {
      Unescape(s);
      [Lookup(s[1])] + Unescape(s[2..]);
      [Lookup(t[0])] + (mid + Unescape(rest));
    }
  }

  /** Unescaping keeps UTF-8 valid, whatever follows the backslashes. */
  lemma {:induction false} UnescapeKeepsUtf8(s: Bytes)
    requires Utf8.Valid(s)
    ensures Utf8.Valid(Unescape(s))
    decreases |s|
  {
    hide Utf8.RuneLen;
    if s != [] {
      RuneBytes(s);
    }
    if s == [] || s == [BACKSLASH] {
    } else if s[0] == BACKSLASH {
      var t := s[1..];
      assert s == [BACKSLASH] + t;
      var n := Utf8.RuneLen(t);
      RuneBytes(t);
      UnescapeRune(t, n);
      UnescapeKeepsUtf8(t[n..]);
      var head := [Lookup(t[0])] + t[1..n];
      assert n > 1 ==> head == t[..n];
      RuneValid(t, head);
      Utf8.ValidConcat(head, Unescape(t[n..]));
    } else {
      var n := Utf8.RuneLen(s);
      RuneBytes(s);
      UnescapeKeepsUtf8(s[n..]);
      assert s == s[..n] + s[n..];
      UnescapePlain(s[..n], s[n..]);
      RuneValid(s, s[..n]);
      Utf8.ValidConcat(s[..n], Unescape(s[n..]));
    }
  }

  lemma {:induction false} RuneValid(s: Bytes, head: Bytes)
    requires Utf8.RuneLen(s) > 0
    requires head == s[..Utf8.RuneLen(s)] || (|head| == 1 && head[0] < 0x80)
    ensures Utf8.Valid(head)
  {
    Utf8.RuneLenPrefix(s, Utf8.RuneLen(s));
    assert head[|head|..] == [];
  }

  lemma {:induction false} UnescapeMakesNoNul(s: Bytes)
    requires NUL !in s
    ensures NUL !in Unescape(s)
    decreases |s|
  {
    if s != [] && s[0] != BACKSLASH {
      UnescapeMakesNoNul(s[1..]);
    } else if |s| > 1 {
      UnescapeMakesNoNul(s[2..]);
    }
  }

  // ----- names and values -----

  predicate NameByte(c: byte) {
    || 0x2D <= c <= 0x2F
    || IsDigit(c)
    || 0x41 <= c <= 0x5A
    || 0x61 <= c <= 0x7A
  }

  function Bare(name: Bytes): (r: Bytes) {
    if name != [] && name[0] == PLUS then name[1..] else name
  }

  /** A nonempty run of name bytes, with at most one `+` in front. */
  predicate ValidTagName(name: Bytes) {
    Bare(name) != [] && forall i :: 0 <= i < |Bare(name)| ==> NameByte(Bare(name)[i])
  }

  method ValidateTagName(name: Bytes) returns (ok: bool)
    ensures ok == ValidTagName(name)
  {
    if |name| == 0 {
      return false;
    }
    var bare := name;
    if name[0] == PLUS {
      bare := name[1..];
    }
    assert bare == Bare(name);
    if |bare| == 0 {
      return false;
    }
    var i := 0;
    while i < |bare|
      invariant 0 <= i <= |bare|
      invariant forall j :: 0 <= j < i ==> NameByte(bare[j])
    {
      if !NameByte(bare[i]) {
        return false;
      }
      i := i + 1;
    }
    return true;
  }

  lemma {:induction false} RunIsValidName(bare: Bytes)
    requires bare != [] && AllNameChars(bare)
    ensures ValidTagName(bare) && ValidTagName(Ascii("+") + bare)
  {
    assert Bare(Ascii("+") + bare) == bare;
  }

  /** A valid name is a nonempty run of letters, digits, `-`, `.` and `/`, or such a run behind `+`. */
  lemma {:induction false} ValidNameIff(name: Bytes)
    ensures ValidTagName(name) <==>
            exists bare :: (name == bare || name == Ascii("+") + bare) && bare != [] && AllNameChars(bare)
  {
    if ValidTagName(name) {
      var bare := Bare(name);
      assert name == bare || name == Ascii("+") + bare;
      assert AllNameChars(bare);
    }
    forall bare: Bytes | (name == bare || name == Ascii("+") + bare) && bare != [] && AllNameChars(bare)
      ensures ValidTagName(name)
    {
      RunIsValidName(bare);
    }
  }

  predicate AllNameChars(s: Bytes) {
    forall i :: 0 <= i < |s| ==>
      var c := s[i] as char;
      'a' <= c <= 'z' || 'A' <= c <= 'Z' || '0' <= c <= '9' || c == '-' || c == '.' || c == '/'
  }

  /** A valid name holds none of the bytes that delimit a tag section. */
  lemma {:induction false} NameIsSafe(name: Bytes)
    requires ValidTagName(name)
    ensures name != []
    ensures SEMICOLON !in name && EQUALS !in name && SPACE !in name
    ensures NUL !in name && CR !in name && LF !in name
  {
    var bare := Bare(name);
    forall b | b in name
      ensures b == PLUS || NameByte(b)
    {
      var i :| 0 <= i < |name| && name[i] == b;
      if name[0] == PLUS && i > 0 {
        assert name[i] == bare[i - 1];
      }
    }
  }
}
