/** The growing line reader (ircreader/ircreader.go) and the loop that drains it
    (readMsgLoop in ircevent/irc.go). */
module LineReader {
  import opened ByteStrings
  import PowerOfTwo

  datatype ConnError = EOF | Other(code: int)

  datatype ReadError = Io(err: ConnError) | ReadQ

  datatype Result = Line(line: Bytes) | Error(err: ReadError)

  // ----- the connection: a script of what reads will yield -----

  /** Data that arrives together, with an error that accompanies its last byte. */
  datatype Event = Event(data: Bytes, err: Option<ConnError>)

  function DataOf(script: seq<Event>): (r: Bytes) {
    if script == [] then [] else script[0].data + DataOf(script[1..])
  }

  lemma {:induction false} NoData()
    ensures DataOf([]) == []
  {
  }

  /** No error before the end of the stream. */
  predicate Orderly(script: seq<Event>) {
    forall i :: 0 <= i < |script| ==>
      script[i].err == None || (script[i].err == Some(EOF) && i == |script| - 1)
  }

  lemma {:induction false} OrderlyNext(script: seq<Event>, d: Bytes)
    requires Orderly(script) && script != []
    ensures Orderly(script[1..]) && Orderly([Event(d, script[0].err)] + script[1..])
    ensures script[0].err == None || (script[0].err == Some(EOF) && script[1..] == [])
  {
  }

  /** A read with the given room returns all that fits of the next event, and its error once
      nothing is left of its data; behind the last event is the end of the stream. */
  predicate Yields(script: seq<Event>, room: nat, n: nat, err: Option<ConnError>) {
    if script == [] then n == 0 && err == Some(EOF)
    else
      var e := script[0];
      && n == (if |e.data| <= room then |e.data| else room)
      && err == (if n == |e.data| then e.err else None)
  }

  class Conn {
    var script: seq<Event>
    ghost const total: Bytes
    ghost const orderly: bool
    ghost var delivered: Bytes
    ghost var lastErr: Option<ConnError> // what the last Read returned

    ghost predicate Valid()
      reads this
    {
      delivered + DataOf(script) == total && (orderly ==> Orderly(script))
    }

    constructor (events: seq<Event>)
      ensures Valid() && script == events && delivered == []
      ensures total == DataOf(events) && orderly == Orderly(events)
    {
      script, delivered, lastErr := events, [], None;
      total, orderly := DataOf(events), Orderly(events);
    }

    static method CopyIn(buf: array<byte>, from: nat, data: Bytes)
      requires from + |data| <= buf.Length
      modifies buf
      ensures buf[..from] == old(buf[..from]) && buf[from..from + |data|] == data
    {
      forall i | 0 <= i < |data| {
        buf[from + i] := data[i];
      }
    }

    /** io.Reader.Read into buf[from..]: as much of the next event as fits. */
    method Read(buf: array<byte>, from: nat) returns (n: nat, err: Option<ConnError>)
      requires Valid() && from < buf.Length
      modifies this, buf
      ensures Valid() && from + n <= buf.Length
      ensures buf[..from] == old(buf[..from])
      ensures delivered == old(delivered) + buf[from..from + n]
      ensures (n == 0 && err == Some(EOF)) || |DataOf(script)| + |script| < old(|DataOf(script)| + |script|)
      ensures orderly ==> err == None || (err == Some(EOF) && script == [])
      // as much of the next event as fits; its error comes with its last byte
      ensures lastErr == err
      ensures Yields(old(script), buf.Length - from, n, err)
    {
      hide Orderly;
      if script == [] {
        lastErr := Some(EOF);
        return 0, Some(EOF);
      }
      var e := script[0];
      n := if |e.data| <= buf.Length - from then |e.data| else buf.Length - from;
      CopyIn(buf, from, e.data[..n]);
      delivered := delivered + e.data[..n];
      ghost var rest := script[1..];
      if orderly {
        OrderlyNext(script, e.data[n..]);
      }
      if n == |e.data| {
        err := e.err;
        script := script[1..];
        assert e.data[..n] == e.data;
      } else {
        err := None;
        script := [Event(e.data[n..], e.err)] + script[1..];
        assert script[1..] == rest;
        assert e.data == e.data[..n] + e.data[n..];
      }
      lastErr := err;
    }
  }

  // ----- the buffer's size -----

  /** Half of an int, rounded towards zero. */
  function Half(n: int): (r: int) {
    if n >= 0 then n / 2 else -(-n / 2)
  }

  /** Whether ReadLine allocates before a read, and how much. */
  predicate Grows(len: nat, pending: int, initialSize: int, maxSize: int) {
    len < maxSize && len - pending < Half(initialSize)
  }

  function NewLength(len: nat, initialSize: int, maxSize: int): (r: int)
    ensures len < maxSize && initialSize <= maxSize ==> len < r <= maxSize
    ensures r == maxSize || r >= initialSize
  {
    var n := PowerOfTwo.RoundUp(len + 1);
    if n > maxSize then maxSize else if n < initialSize then initialSize else n
  }

  /** The new length: the least power of two above the old one, but at least the initial size
      and at most the cap. */
  lemma {:induction false} NewLengthMeans(len: nat, initialSize: int, maxSize: int) returns (j: nat)
    requires len < PowerOfTwo.Pow2(32) && len < maxSize && initialSize <= maxSize
    ensures len < PowerOfTwo.Pow2(j) && (j > 0 ==> PowerOfTwo.Pow2(j - 1) <= len)
    ensures var least := PowerOfTwo.Pow2(j);
            NewLength(len, initialSize, maxSize) ==
            if least > maxSize then maxSize else if least < initialSize then initialSize else least
  {
    hide PowerOfTwo.Pow2;
    hide PowerOfTwo.RoundUp;
    j := PowerOfTwo.RoundUpIsLeastPower(len + 1, 0);
    if j > 0 && PowerOfTwo.Pow2(j - 1) > len {
      var k := PowerOfTwo.RoundUpIsLeastPower(len + 1, j - 1);
      PowerOfTwo.Pow2Doubles(j - 1);
      assert false;
    }
  }

  /** Initialize takes any sizes. The first read is offered a nonempty buffer within the cap if
      and only if 2 <= initialSize <= maxSize. */
  lemma {:induction false} SizesNeeded(initialSize: int, maxSize: int)
    ensures var len := if Grows(0, 0, initialSize, maxSize) then NewLength(0, initialSize, maxSize) else 0;
            0 < len <= maxSize <==> 2 <= initialSize <= maxSize
  {
    assert PowerOfTwo.RoundUp(1) == 1;
  }

  // ----- the reader -----

  class Reader {
    const conn: Conn
    const initialSize: int
    const maxSize: int
    var buf: array<byte>
    var start: int
    var end: int
    var searchFrom: int
    var eof: bool
    ghost var consumed: Bytes // the returned lines with their terminators

    ghost predicate Valid()
      reads this, conn, buf
    {
      && 2 <= initialSize <= maxSize
      && 0 <= start <= searchFrom <= end <= buf.Length <= maxSize
      && LF !in buf[start..searchFrom]
      && conn.Valid()
      && conn.delivered == consumed + buf[start..end]
      && (conn.orderly && eof ==> conn.script == [])
    }

    /** The bytes read and not yet returned. */
    ghost function Pending(): (r: Bytes)
      requires Valid()
      reads this, conn, buf
    {
      buf[start..end]
    }

    constructor (c: Conn, initial: int, max: int)
      requires c.Valid() && c.delivered == []
      ensures fresh(buf) && conn == c && maxSize == max && initialSize == initial && consumed == []
      ensures start == 0 && end == 0 && searchFrom == 0 && buf.Length == 0 && !eof
      ensures 2 <= initial <= max ==> Valid()
    {
      conn, initialSize, maxSize := c, initial, max;
      buf := new byte[0];
      start, end, searchFrom, eof, consumed := 0, 0, 0, false, [];
    }

    /** Nothing is lost or invented. */
    lemma {:induction false} Ledger()
      requires Valid()
      ensures conn.delivered == consumed + Pending()
      ensures conn.total == consumed + (Pending() + DataOf(conn.script))
      ensures |Pending()| <= maxSize
    {
      hide DataOf;
      assert consumed + Pending() + DataOf(conn.script) == consumed + (Pending() + DataOf(conn.script));
    }

    /** Allocate a larger buffer or slide the pending bytes to the front: afterwards
        there is room to read into. */
    method MakeRoom()
      requires Valid() && !(start == 0 && end == buf.Length && buf.Length == maxSize)
      requires LF !in buf[start..end]
      modifies this`buf, this`start, this`end, this`searchFrom, buf
      ensures Valid() && (fresh(buf) || buf == old(buf))
      ensures buf != old(buf) ==> old(buf.Length) < buf.Length
      ensures 0 == start <= searchFrom == end < buf.Length <= maxSize
      ensures buf[start..end] == old(buf[start..end])
      // a new buffer exactly if the old one is below the cap and has little room
      ensures buf != old(buf) <==>
                old(buf.Length) < maxSize && old(buf.Length - (end - start)) < Half(initialSize)
      ensures buf != old(buf) ==> buf.Length == NewLength(old(buf.Length), initialSize, maxSize)
    {
      hide Conn.Valid;
      hide NewLength;
      hide DataOf;
      hide Orderly;
      ghost var pending := buf[start..end];
      var len := end - start;
      if Grows(buf.Length, len, initialSize, maxSize) {
        var newLen := NewLength(buf.Length, initialSize, maxSize);
        buf := Reallocate(buf, start, len, newLen);
      } else if start != 0 {
        Slide(buf, start, len);
      }
      end := end - start;
      start := 0;
      searchFrom := end;
      assert buf[start..end] == buf[..len] == pending;
    }

    /** make and copy. */
    static method Reallocate(src: array<byte>, from: int, len: int, newLen: int) returns (dst: array<byte>)
      requires 0 <= from <= from + len <= src.Length && len <= newLen
      ensures fresh(dst) && dst.Length == newLen && dst[..len] == src[from..from + len]
    {
      dst := new byte[newLen];
      forall i | 0 <= i < len {
        dst[i] := src[from + i];
      }
    }

    /** copy within one buffer. */
    static method Slide(a: array<byte>, from: int, len: int)
      requires 0 <= from <= from + len <= a.Length
      modifies a
      ensures a[..len] == old(a[from..from + len])
    {
      forall i | 0 <= i < len {
        a[i] := a[from + i];
      }
    }

    /** The first newline in the pending bytes, or -1; what was searched before is skipped. */
    method FindNewline() returns (stop: int)
      requires Valid()
      ensures stop == -1 ==> LF !in buf[start..end]
      ensures stop != -1 ==> searchFrom <= stop < end && buf[stop] == LF && LF !in buf[start..stop]
    {
      var nlidx := IndexByte(buf[searchFrom..end], LF);
      if nlidx == -1 {
        assert buf[start..end] == buf[start..searchFrom] + buf[searchFrom..end];
        return -1;
      }
      stop := searchFrom + nlidx;
      assert buf[start..stop] == buf[start..searchFrom] + buf[searchFrom..end][..nlidx];
    }

    /** Consume through the newline at buf[stop]. */
    method TakeLine(stop: int) returns (line: Bytes, ghost raw: Bytes)
      requires Valid() && searchFrom <= stop < end
      requires buf[stop] == LF && LF !in buf[start..stop]
      modifies this`start, this`searchFrom, this`consumed
      ensures Valid()
      ensures LF !in raw && |raw| < maxSize && line == TrimLast(raw, CR)
      ensures consumed == old(consumed) + raw + [LF]
      ensures |Pending()| < maxSize
    {
      hide Conn.Valid;
      line := buf[start..stop];
      raw := line;
      assert buf[start..end] == line + [LF] + buf[stop + 1..end];
      consumed := consumed + raw + [LF];
      start := stop + 1;
      searchFrom := start;
      if 0 < |line| && line[|line| - 1] == CR {
        line := line[..|line| - 1];
      }
    }

    /** Make room and read once. */
    method Fill() returns (n: nat, err: Option<ConnError>)
      requires Valid() && !(start == 0 && end == buf.Length && buf.Length == maxSize)
      requires !eof && LF !in buf[start..end]
      modifies this`buf, this`start, this`end, this`searchFrom, buf, conn
      ensures Valid() && (fresh(buf) || buf == old(buf))
      ensures n == 0 ==> |Pending()| < maxSize && LF !in Pending()
      ensures (n == 0 && err == Some(EOF)) || |DataOf(conn.script)| + |conn.script| < old(|DataOf(conn.script)| + |conn.script|)
      ensures conn.orderly ==> err == None || (err == Some(EOF) && conn.script == [])
      ensures conn.lastErr == err
    {
      hide Conn.Valid;
      hide Yields;
      hide NewLength;
      hide Half;
      hide DataOf;
      hide Orderly;
      ghost var pending := buf[start..end];
      MakeRoom();
      n, err := conn.Read(buf, end);
      ghost var got := buf[end..end + n];
      assert buf[..end] == pending && buf[..end + n] == pending + got;
      assert consumed + (pending + got) == consumed + pending + got;
      end := end + n;
    }

    /** ReadLine; `raw` is the returned line as it was on the wire, without the newline. */
    method ReadLine() returns (r: Result, ghost raw: Bytes)
      requires Valid()
      modifies this`buf, this`start, this`end, this`searchFrom, this`eof, this`consumed, buf, conn
      ensures Valid() && (fresh(buf) || buf == old(buf))
      // a line is the stretch up to the next newline, without one trailing CR
      ensures r.Line? ==>
                && LF !in raw && |raw| < maxSize
                && r.line == TrimLast(raw, CR)
                && consumed == old(consumed) + raw + [LF]
      // on every error nothing is consumed
      ensures r.Error? ==> consumed == old(consumed)
      ensures r == Error(ReadQ) ==> |Pending()| == maxSize && LF !in Pending()
      ensures |Pending()| == maxSize && LF !in Pending() ==> r == Error(ReadQ) || (r.Error? && r.err.Io? && r.err.err.Other?)
      ensures r == Error(Io(EOF)) ==> LF !in Pending() && (conn.orderly ==> conn.script == [])
      ensures conn.orderly ==> r.Line? || r == Error(ReadQ) || r == Error(Io(EOF))
      // an error of the connection is passed on as it came; one that came with data was noted
      ensures r.Error? && r.err.Io? ==> conn.lastErr == Some(r.err.err) || (eof && r.err.err == EOF)
    {
      hide Conn.Valid;
      hide DataOf;
      hide Orderly;
      hide TrimLast;
      raw := [];
      while true
        invariant Valid() && consumed == old(consumed)
        invariant fresh(buf) || buf == old(buf)
        decreases !eof, |DataOf(conn.script)| + |conn.script|
      {
        var stop := FindNewline();
        if stop != -1 {
          var line;
          line, raw := TakeLine(stop);
          return Line(line), raw;
        }
        if start == 0 && end == buf.Length && buf.Length == maxSize {
          return Error(ReadQ), raw;
        }
        if eof {
          return Error(Io(EOF)), raw;
        }
        var n, err := Fill();
        if n != 0 && err == Some(EOF) {
          eof := true;
        } else if err != None {
          return Error(Io(err.value)), raw;
        }
      }
    }
  }

  // ----- whole sessions -----

  /** What a reader with a cap of `max` bytes must make of a byte stream, however it is cut
      into reads: the newline-separated lines without one trailing CR, up to the first
      line that does not fit. */
  function Session(stream: Bytes, max: int): (r: (seq<Bytes>, ReadError))
    decreases |stream|
  {
    var i := IndexByte(stream, LF);
    if 0 <= i < max then
      var rest := Session(stream[i + 1..], max);
      ([TrimLast(stream[..i], CR)] + rest.0, rest.1)
    else if |stream| >= max then ([], ReadQ)
    else ([], Io(EOF))
  }

  /** The complete lines of a byte string. */
  function LinesOf(s: Bytes): (r: seq<Bytes>)
    decreases |s|
  {
    var i := IndexByte(s, LF);
    if i == -1 then [] else [TrimLast(s[..i], CR)] + LinesOf(s[i + 1..])
  }

  lemma {:induction false} SessionStep(raw: Bytes, rest: Bytes, max: int)
    requires LF !in raw && |raw| < max
    ensures Session(raw + [LF] + rest, max) == ([TrimLast(raw, CR)] + Session(rest, max).0, Session(rest, max).1)
  {
    var s := raw + [LF] + rest;
    IndexAfter(raw, LF, rest);
    assert s[..|raw|] == raw && s[|raw| + 1..] == rest;
  }

  lemma {:induction false} SessionStops(pending: Bytes, rest: Bytes, max: int)
    requires LF !in pending && |pending| <= max && (|pending| == max || rest == [])
    ensures Session(pending + rest, max) == ([], if |pending| == max then ReadQ else Io(EOF))
  {
    var s := pending + rest;
    var i := IndexByte(s, LF);
    assert forall k :: 0 <= k < |pending| ==> s[k] == pending[k] != LF;
    assert rest == [] ==> s == pending;
  }

  lemma {:induction false} LinesStep(raw: Bytes, rest: Bytes)
    requires LF !in raw
    ensures LinesOf(raw + [LF] + rest) == [TrimLast(raw, CR)] + LinesOf(rest)
  {
    var s := raw + [LF] + rest;
    IndexAfter(raw, LF, rest);
    assert s[..|raw|] == raw && s[|raw| + 1..] == rest;
  }

  predicate EndsLine(s: Bytes) {
    s == [] || s[|s| - 1] == LF
  }

  lemma {:induction false} LinesOfAppend(s: Bytes, raw: Bytes)
    requires LF !in raw && EndsLine(s)
    ensures LinesOf(s + raw + [LF]) == LinesOf(s) + [TrimLast(raw, CR)]
    decreases |s|
  {
    hide LinesOf;
    hide TrimLast;
    LinesOfEmpty();
    if s == [] {
      assert s + raw + [LF] == raw + [LF] + [];
      LinesStep(raw, []);
    } else {
      var i := IndexByte(s, LF);
      var first, rest := s[..i], s[i + 1..];
      assert s == first + [LF] + rest;
      LinesStep(first, rest);
      LinesOfAppend(rest, raw);
      LinesStep(first, rest + raw + [LF]);
      assert s + raw + [LF] == first + [LF] + (rest + raw + [LF]);
    }
  }

  lemma {:induction false} EndsLineStart()
    ensures EndsLine([])
  {
  }

  lemma {:induction false} EndsLineMore(s: Bytes)
    ensures EndsLine(s + [LF])
  {
  }

  lemma {:induction false} LinesOfEmpty()
    ensures LinesOf([]) == []
  {
  }

  /** A session returns the newline-split lines in order, all of them unless one does not fit. */
  lemma {:induction false} SessionReadsLines(stream: Bytes, max: int)
    ensures Session(stream, max).0 <= LinesOf(stream)
    ensures Session(stream, max).1 == Io(EOF) ==> Session(stream, max).0 == LinesOf(stream)
    ensures Session(stream, max).1 == Io(EOF) || Session(stream, max).1 == ReadQ
    decreases |stream|
  {
    var i := IndexByte(stream, LF);
    if 0 <= i < max {
      SessionReadsLines(stream[i + 1..], max);
    }
  }

  /** `lines` have been read and `ahead` is still to come. */
  predicate Progress(total: Bytes, max: int, lines: seq<Bytes>, ahead: Bytes) {
    Session(total, max) == (lines + Session(ahead, max).0, Session(ahead, max).1)
  }

  lemma {:induction false} ProgressStart(total: Bytes, max: int)
    ensures Progress(total, max, [], total)
  {
    assert [] + Session(total, max).0 == Session(total, max).0;
  }

  lemma {:induction false} ProgressLine(total: Bytes, max: int, lines: seq<Bytes>, raw: Bytes, rest: Bytes)
    requires LF !in raw && |raw| < max && Progress(total, max, lines, raw + [LF] + rest)
    ensures Progress(total, max, lines + [TrimLast(raw, CR)], rest)
  {
    hide Session;
    SessionStep(raw, rest, max);
    var line := TrimLast(raw, CR);
    assert lines + ([line] + Session(rest, max).0) == lines + [line] + Session(rest, max).0;
  }

  lemma {:induction false} ProgressEnd(total: Bytes, max: int, lines: seq<Bytes>, pending: Bytes, rest: Bytes)
    requires LF !in pending && |pending| <= max && (|pending| == max || rest == [])
    requires Progress(total, max, lines, pending + rest)
    ensures Session(total, max) == (lines, if |pending| == max then ReadQ else Io(EOF))
  {
    hide Session;
    SessionStops(pending, rest, max);
    assert lines + [] == lines;
  }

  lemma {:induction false} SameTail(s: Bytes, a: Bytes, b: Bytes)
    requires s + a == s + b
    ensures a == b
  {
    assert a == (s + a)[|s|..] && b == (s + b)[|s|..];
  }

  /** One ReadLine seen from the whole stream: `ahead` is what had not been consumed. */
  method Advance(reader: Reader, ghost ahead: Bytes) returns (r: Result, ghost raw: Bytes, ghost rest: Bytes)
    requires reader.Valid() && reader.conn.total == reader.consumed + ahead
    modifies reader, reader.buf, reader.conn
    ensures reader.Valid() && (fresh(reader.buf) || reader.buf == old(reader.buf))
    ensures reader.conn.total == reader.consumed + rest
    ensures r.Line? ==>
              && LF !in raw && |raw| < reader.maxSize && r.line == TrimLast(raw, CR)
              && reader.consumed == old(reader.consumed) + raw + [LF] && ahead == raw + [LF] + rest
    ensures r.Error? ==> reader.consumed == old(reader.consumed) && ahead == rest
    ensures r.Error? && reader.conn.orderly ==>
              && LF !in reader.Pending() && |reader.Pending()| <= reader.maxSize
              && rest == reader.Pending() + DataOf(reader.conn.script)
              && (|reader.Pending()| == reader.maxSize || DataOf(reader.conn.script) == [])
              && r.err == if |reader.Pending()| == reader.maxSize then ReadQ else Io(EOF)
  {
    hide TrimLast;
    hide Orderly;
    hide DataOf;
    ghost var before := reader.consumed;
    r, raw := reader.ReadLine();
    reader.Ledger();
    NoData();
    rest := reader.Pending() + DataOf(reader.conn.script);
    if r.Line? {
      assert before + raw + [LF] + rest == before + (raw + [LF] + rest);
      SameTail(before, ahead, raw + [LF] + rest);
    } else {
      SameTail(before, ahead, rest);
    }
  }

  /** readMsgLoop: read lines until the first error. */
  method ReadAll(conn: Conn, initialSize: int, maxSize: int) returns (lines: seq<Bytes>, err: ReadError, reader: Reader)
    requires conn.Valid() && conn.delivered == [] && 2 <= initialSize <= maxSize
    modifies conn
    ensures fresh(reader) && reader.conn == conn && reader.Valid() && reader.maxSize == maxSize
    // nothing is lost or invented, whatever the connection does
    ensures lines == LinesOf(reader.consumed) && conn.delivered == reader.consumed + reader.Pending()
    // the outcome depends on the bytes only, not on how they were cut into reads
    ensures conn.orderly ==> (lines, err) == Session(conn.total, maxSize)
  {
    hide LinesOf;
    hide TrimLast;
    hide Session;
    hide Progress;
    hide Orderly;
    hide DataOf;
    hide EndsLine;
    reader := new Reader(conn, initialSize, maxSize);
    lines := [];
    LinesOfEmpty();
    EndsLineStart();
    ProgressStart(conn.total, maxSize);
    ghost var ahead := conn.total;
    assert conn.total == reader.consumed + ahead;
    hide Reader.Valid;
    hide Reader.Pending;
    while true
      invariant reader.Valid() && fresh(reader) && fresh(reader.buf) && reader.conn == conn && reader.maxSize == maxSize
      invariant lines == LinesOf(reader.consumed) && EndsLine(reader.consumed)
      invariant conn.total == reader.consumed + ahead
      invariant Progress(conn.total, maxSize, lines, ahead)
      decreases |ahead|
    {
      ghost var before := reader.consumed;
      var r, raw, rest := Advance(reader, ahead);
      match r {
        case Line(line) =>
          ProgressLine(conn.total, maxSize, lines, raw, rest);
          LinesOfAppend(before, raw);
          EndsLineMore(before + raw);
          lines := lines + [line];
          ahead := rest;
        case Error(e) =>
          if conn.orderly {
            ProgressEnd(conn.total, maxSize, lines, reader.Pending(), DataOf(conn.script));
          }
          reader.Ledger();
          return lines, e, reader;
      }
    }
  }
}
