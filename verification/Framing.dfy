// Reading one HTTP request from a socket that delivers the stream in arbitrary pieces.

module Framing {
  import opened Wrappers
  import opened Numerals
  import opened Rdf

  type Byte = n: int | 0 <= n < 256

  const HEADER_LIMIT: nat := 65536
  const READ_SIZE: nat := 4096
  const USIZE_MAX: nat := 0xFFFF_FFFF_FFFF_FFFF
  const TERMINATOR: seq<Byte> := [13, 10, 13, 10]

  datatype RemoteError =
    | ReadFailed | ClosedBeforeHeaders | HeadersTooLong | NotUtf8
    | MissingMethod | MissingPath | BadContentLength | BodyTruncated

  datatype Request = Request(verb: string, path: string, body: seq<Byte>)

  // How the stream ends after its last byte.
  datatype Ending = Closes | Fails

  function EndError(ending: Ending, atClose: RemoteError): RemoteError {
    if ending.Fails? then ReadFailed else atClose
  }

  // ----- The header terminator -----

  predicate TerminatorAt(buf: seq<Byte>, i: nat) {
    i + 4 <= |buf| && buf[i] == 13 && buf[i + 1] == 10 && buf[i + 2] == 13 && buf[i + 3] == 10
  }

  ghost predicate FirstTerminator(buf: seq<Byte>, i: nat) {
    TerminatorAt(buf, i) && forall j: nat | j < i :: !TerminatorAt(buf, j)
  }

  // `find_header_terminator`
  method FindHeaderTerminator(buf: seq<Byte>) returns (r: Option<nat>)
    ensures r.Some? ==> FirstTerminator(buf, r.value)
    ensures r.None? ==> forall i: nat :: !TerminatorAt(buf, i)
  {
    var i := 0;
    while i + 4 <= |buf|
      invariant forall j: nat | j < i :: !TerminatorAt(buf, j)
    {
      if buf[i..i + 4] == TERMINATOR {
        WindowIs(buf, i);
        return Some(i);
      }
      WindowIs(buf, i);
      i := i + 1;
    }
    r := None;
  }

  lemma WindowIs(buf: seq<Byte>, i: nat)
    requires i + 4 <= |buf|
    ensures buf[i..i + 4] == TERMINATOR <==> TerminatorAt(buf, i)
  {
    var w := buf[i..i + 4];
    assert w[0] == buf[i] && w[1] == buf[i + 1] && w[2] == buf[i + 2] && w[3] == buf[i + 3];
  }

  // ----- The header -----

  predicate AsciiSpace(c: char) { c == ' ' || c == '\t' || c == '\n' || c == '\r' || c as int == 12 }

  predicate NotAsciiSpace(c: char) { !AsciiSpace(c) }

  // The next word and what follows it, if there is a word.
  function NextWord(s: string): Option<(string, string)> {
    var t := s[Find(s, NotAsciiSpace)..];
    if t == [] then None else var n := Find(t, AsciiSpace); Some((t[..n], t[n..]))
  }

  function FindCrLf(s: string): (n: nat)
    ensures n <= |s| && (n < |s| ==> n + 2 <= |s|)
  {
    if |s| < 2 then |s| else if s[0] == '\r' && s[1] == '\n' then 0 else 1 + FindCrLf(s[1..])
  }

  // `split("\r\n")`
  function Split(s: string): (lines: seq<string>)
    ensures lines != []
    decreases |s|
  {
    var n := FindCrLf(s);
    if n == |s| then [s] else [s[..n]] + Split(s[n + 2..])
  }

  function Lower(c: char): char {
    if 'A' <= c <= 'Z' then (c as int + 32) as char else c
  }

  predicate EqIgnoreCase(a: string, b: string) {
    |a| == |b| && forall i | 0 <= i < |a| :: Lower(a[i]) == Lower(b[i])
  }

  // The value of a content-length line.
  function LengthField(line: string): Option<string> {
    var colon := Find(line, IsColon);
    if colon < |line| && EqIgnoreCase(Trim(line[..colon]), "content-length") then Some(Trim(line[colon + 1..]))
    else None
  }

  // The last content length, zero without one; an error as soon as one does not parse.
  function ContentLength(lines: seq<string>): Result<nat, RemoteError>
    decreases |lines|
  {
    if lines == [] then Ok(0)
    else
      var before, field := ContentLength(lines[..|lines| - 1]), LengthField(lines[|lines| - 1]);
      if before.Err? || field.None? then before
      else if ParseUnsigned(field.value, USIZE_MAX).None? then Err(BadContentLength)
      else Ok(ParseUnsigned(field.value, USIZE_MAX).value)
  }

  datatype Head = Head(verb: string, path: string, length: nat)

  function ReadHead(text: string): Result<Head, RemoteError> {
    var lines := Split(text);
    var verb := NextWord(lines[0]);
    if verb.None? then Err(MissingMethod)
    else
      var path := NextWord(verb.value.1);
      if path.None? then Err(MissingPath)
      else
        var length := ContentLength(lines[1..]);
        if length.Err? then Err(length.error) else Ok(Head(verb.value.0, path.value.0, length.value))
  }

  // `decode` stands for `std::str::from_utf8`.
  type Decoder = seq<Byte> -> Option<string>

  function DecodeHead(decode: Decoder, header: seq<Byte>): Result<Head, RemoteError> {
    var text := decode(header);
    if text.None? then Err(NotUtf8) else ReadHead(text.value)
  }

  // ----- What a stream means -----

  // The reply to a stream whose header ends (with its terminator) at `end`.
  function Framed(decode: Decoder, stream: seq<Byte>, ending: Ending, end: nat): Result<Request, RemoteError>
    requires 4 <= end <= |stream|
  {
    var head := DecodeHead(decode, stream[..end - 4]);
    if head.Err? then Err(head.error)
    else if |stream| - end < head.value.length then Err(EndError(ending, BodyTruncated))
    else Ok(Request(head.value.verb, head.value.path, stream[end..end + head.value.length]))
  }

  // ----- Delivery in pieces -----

  function Joined(chunks: seq<seq<Byte>>): seq<Byte> {
    if chunks == [] then [] else chunks[0] + Joined(chunks[1..])
  }

  // One read returns between one byte and the size of its buffer.
  predicate Delivered(chunks: seq<seq<Byte>>) {
    forall i | 0 <= i < |chunks| :: 1 <= |chunks[i]| <= READ_SIZE
  }

  // Some read after `seen` bytes ends beyond the limit but before `end`.
  predicate Overrun(chunks: seq<seq<Byte>>, seen: nat, end: nat)
    decreases |chunks|
  {
    chunks != []
    && (HEADER_LIMIT < seen + |chunks[0]| < end
       || (seen + |chunks[0]| < end && Overrun(chunks[1..], seen + |chunks[0]|, end)))
  }

  // The socket: reads take the pieces one by one, then see the end of the stream.
  class Socket {
    const ending: Ending
    var pending: seq<seq<Byte>>

    constructor (chunks: seq<seq<Byte>>, ending: Ending)
      ensures pending == chunks && this.ending == ending
    {
      pending, this.ending := chunks, ending;
    }

    method Read() returns (r: Result<seq<Byte>, RemoteError>)
      modifies this
      ensures old(pending) != [] ==> r == Ok(old(pending)[0]) && pending == old(pending)[1..]
      ensures old(pending) == [] ==> pending == [] && r == if ending.Fails? then Err(ReadFailed) else Ok([])
    {
      if pending != [] {
        r := Ok(pending[0]);
        pending := pending[1..];
      } else {
        r := if ending.Fails? then Err(ReadFailed) else Ok([]);
      }
    }
  }

  // The first terminator of a prefix is that of the whole.
  lemma TerminatorStays(buf: seq<Byte>, rest: seq<Byte>, i: nat)
    requires FirstTerminator(buf, i)
    ensures FirstTerminator(buf + rest, i)
  {
    forall j: nat | j < i ensures !TerminatorAt(buf + rest, j) {
      assert !TerminatorAt(buf, j);
    }
  }

  lemma TerminatorUnique(buf: seq<Byte>, i: nat, j: nat)
    requires FirstTerminator(buf, i) && FirstTerminator(buf, j)
    ensures i == j
  {
    assert !(i < j) && !(j < i);
  }

  // What the header loop finds.
  datatype HeaderRead = Found(at: nat) | Failed(error: RemoteError)

  // The loop ends at the first read that reaches the terminator, unless a read before it ends beyond
  // the limit.
  ghost predicate HeaderOutcome(stream: seq<Byte>, chunks: seq<seq<Byte>>, ending: Ending, r: HeaderRead) {
    && (forall i: nat | FirstTerminator(stream, i) ::
       r == if Overrun(chunks, 0, i + 4) then Failed(HeadersTooLong) else Found(i))
    && (Unterminated(stream) ==>
          r == Failed(if |stream| > HEADER_LIMIT then HeadersTooLong else EndError(ending, ClosedBeforeHeaders)))
  }

  ghost predicate Unterminated(stream: seq<Byte>) { forall i: nat :: !TerminatorAt(stream, i) }

  lemma JoinedStep(buf: seq<Byte>, chunks: seq<seq<Byte>>)
    requires chunks != []
    ensures buf + Joined(chunks) == (buf + chunks[0]) + Joined(chunks[1..])
  {
  }

  lemma NothingPending(buf: seq<Byte>)
    ensures buf + Joined([]) == buf
  {
  }

  // The header loop of `read_request`.
  method ReadHeader(socket: Socket) returns (r: HeaderRead, buf: seq<Byte>)
    requires Delivered(socket.pending)
    modifies socket
    ensures HeaderOutcome(Joined(old(socket.pending)), old(socket.pending), socket.ending, r)
    ensures Delivered(socket.pending)
    ensures r.Found? ==> r.at + 4 <= |buf| && buf + Joined(socket.pending) == Joined(old(socket.pending))
  {
    hide HeaderOutcome, FirstTerminator, TerminatorAt, Overrun;
    ghost var chunks, stream := socket.pending, Joined(socket.pending);
    buf := [];
    StartOverrun(chunks, stream);
    while true
      invariant Delivered(socket.pending) && buf + Joined(socket.pending) == stream && |buf| <= HEADER_LIMIT
      invariant forall i: nat :: !TerminatorAt(buf, i)
      invariant forall end: nat | |buf| < end :: Overrun(chunks, 0, end) == Overrun(socket.pending, |buf|, end)
      decreases |socket.pending|
    {
      ghost var before, pending := buf, socket.pending;
      var chunk := socket.Read();
      if chunk.Err? {
        NothingPending(buf);
        NeverTerminated(stream, chunks, socket.ending);
        return Failed(chunk.error), buf;
      }
      if chunk.value == [] {
        NothingPending(buf);
        NeverTerminated(stream, chunks, socket.ending);
        return Failed(ClosedBeforeHeaders), buf;
      }
      JoinedStep(buf, pending);
      buf := buf + chunk.value;
      var found := FindHeaderTerminator(buf);
      if found.Some? {
        FoundIsFirst(before, buf, Joined(socket.pending), found.value);
        OverrunStep(pending, |before|, found.value + 4);
        FoundOutcome(stream, chunks, socket.ending, found.value);
        FoundInside(buf, found.value);
        return Found(found.value), buf;
      }
      if |buf| > HEADER_LIMIT {
        TooLongOutcome(stream, chunks, socket.ending, pending, before, buf, Joined(socket.pending));
        return Failed(HeadersTooLong), buf;
      }
      forall end: nat | |buf| < end ensures Overrun(chunks, 0, end) == Overrun(socket.pending, |buf|, end) {
        OverrunStep(pending, |before|, end);
      }
    }
  }

  lemma FoundInside(buf: seq<Byte>, i: nat)
    requires FirstTerminator(buf, i)
    ensures i + 4 <= |buf|
  {
  }

  lemma StartOverrun(chunks: seq<seq<Byte>>, stream: seq<Byte>)
    ensures forall i: nat :: !TerminatorAt([], i)
    ensures [] + stream == stream
  {
  }

  lemma OverrunStep(chunks: seq<seq<Byte>>, seen: nat, end: nat)
    requires chunks != []
    ensures var next := seen + |chunks[0]|;
            Overrun(chunks, seen, end) <==> next < end && (HEADER_LIMIT < next || Overrun(chunks[1..], next, end))
  {
  }

  lemma NeverTerminated(stream: seq<Byte>, chunks: seq<seq<Byte>>, ending: Ending)
    requires |stream| <= HEADER_LIMIT && forall i: nat :: !TerminatorAt(stream, i)
    ensures HeaderOutcome(stream, chunks, ending, Failed(EndError(ending, ClosedBeforeHeaders)))
  {
  }

  lemma FoundIsFirst(before: seq<Byte>, buf: seq<Byte>, rest: seq<Byte>, i: nat)
    requires before <= buf && FirstTerminator(buf, i) && forall j: nat :: !TerminatorAt(before, j)
    ensures FirstTerminator(buf + rest, i) && |before| < i + 4 <= |buf|
  {
    TerminatorStays(buf, rest, i);
    assert !TerminatorAt(before, i);
  }

  lemma FoundOutcome(stream: seq<Byte>, chunks: seq<seq<Byte>>, ending: Ending, i: nat)
    requires FirstTerminator(stream, i) && !Overrun(chunks, 0, i + 4)
    ensures HeaderOutcome(stream, chunks, ending, Found(i))
  {
    forall j: nat | FirstTerminator(stream, j) ensures j == i {
      TerminatorUnique(stream, i, j);
    }
  }

  lemma TooLongOutcome(stream: seq<Byte>, chunks: seq<seq<Byte>>, ending: Ending,
      pending: seq<seq<Byte>>, before: seq<Byte>, buf: seq<Byte>, rest: seq<Byte>)
    requires stream == buf + rest && |buf| > HEADER_LIMIT && forall i: nat :: !TerminatorAt(buf, i)
    requires pending != [] && buf == before + pending[0] && |before| <= HEADER_LIMIT
    requires forall end: nat | |before| < end :: Overrun(chunks, 0, end) == Overrun(pending, |before|, end)
    ensures HeaderOutcome(stream, chunks, ending, Failed(HeadersTooLong))
  {
    hide Overrun;
    forall i: nat | FirstTerminator(stream, i) ensures Overrun(chunks, 0, i + 4) {
      assert !TerminatorAt(buf, i);
      assert i + 4 > |buf|;
      OverrunStep(pending, |before|, i + 4);
    }
  }

  // ----- The request -----

  method HeadOf(text: string) returns (r: Result<Head, RemoteError>)
    ensures r == ReadHead(text)
  {
    hide NextWord, LengthField, ParseUnsigned;
    var lines := Split(text);
    var verb := NextWord(lines[0]);
    if verb.None? {
      return Err(MissingMethod);
    }
    var path := NextWord(verb.value.1);
    if path.None? {
      return Err(MissingPath);
    }
    var later, length := lines[1..], 0;
    for i := 0 to |later|
      invariant ContentLength(later[..i]) == Ok(length)
    {
      assert later[..i + 1][..i] == later[..i];
      var field := LengthField(later[i]);
      if field.Some? {
        var n := ParseUnsigned(field.value, USIZE_MAX);
        if n.None? {
          BadLengthStays(later, i + 1);
          return Err(BadContentLength);
        }
        length := n.value;
      }
    }
    assert later[..|later|] == later;
    r := Ok(Head(verb.value.0, path.value.0, length));
  }

  lemma {:induction false} BadLengthStays(lines: seq<string>, n: nat)
    requires n <= |lines| && ContentLength(lines[..n]).Err?
    ensures ContentLength(lines) == ContentLength(lines[..n])
    decreases |lines|
  {
    hide LengthField, ParseUnsigned;
    if n < |lines| {
      assert lines[..|lines| - 1][..n] == lines[..n];
      BadLengthStays(lines[..|lines| - 1], n);
    } else {
      assert lines[..n] == lines;
    }
  }

  // The body loop of `read_request`.
  method ReadBody(socket: Socket, start: seq<Byte>, length: nat) returns (r: Result<seq<Byte>, RemoteError>)
    requires Delivered(socket.pending)
    modifies socket
    ensures var all := start + Joined(old(socket.pending));
            r == if |all| < length then Err(EndError(socket.ending, BodyTruncated)) else Ok(all[..length])
  {
    ghost var all := start + Joined(socket.pending);
    var body := start;
    while |body| < length
      invariant Delivered(socket.pending) && body + Joined(socket.pending) == all
      decreases |socket.pending|
    {
      ghost var pending := socket.pending;
      var chunk := socket.Read();
      if chunk.Err? {
        NothingPending(body);
        return Err(ReadFailed);
      }
      if chunk.value == [] {
        NothingPending(body);
        return Err(BodyTruncated);
      }
      JoinedStep(body, pending);
      body := body + chunk.value;
    }
    assert all[..length] == body[..length];
    r := Ok(body[..length]);
  }

  // What the whole read returns, by stream and pieces.
  ghost predicate Replies(decode: Decoder, chunks: seq<seq<Byte>>, ending: Ending, r: Result<Request, RemoteError>) {
    exists h | HeaderOutcome(Joined(chunks), chunks, ending, h) ::
      match h
      case Failed(error) => r == Err(error)
      case Found(i) => i + 4 <= |Joined(chunks)| && r == Framed(decode, Joined(chunks), ending, i + 4)
  }

  // `read_request`
  method ReadRequest(socket: Socket, decode: Decoder) returns (r: Result<Request, RemoteError>)
    requires Delivered(socket.pending)
    modifies socket
    ensures Replies(decode, old(socket.pending), socket.ending, r)
  {
    hide HeaderOutcome, ReadHead, Joined;
    ghost var chunks, stream := socket.pending, Joined(socket.pending);
    var header, buf := ReadHeader(socket);
    if header.Failed? {
      return Err(header.error);
    }
    var bodyStart := header.at + 4;
    assert buf[..header.at] == stream[..header.at];
    var text := decode(buf[..header.at]);
    if text.None? {
      return Err(NotUtf8);
    }
    var head := HeadOf(text.value);
    if head.Err? {
      return Err(head.error);
    }
    ghost var later := Joined(socket.pending);
    var body := ReadBody(socket, buf[bodyStart..], head.value.length);
    assert buf[bodyStart..] + later == stream[bodyStart..];
    if body.Err? {
      return Err(body.error);
    }
    assert stream[bodyStart..][..head.value.length] == stream[bodyStart..bodyStart + head.value.length];
    r := Ok(Request(head.value.verb, head.value.path, body.value));
  }

  // ----- How much the pieces matter -----

  // The bytes of the first pieces.
  lemma {:induction false} OverrunExact(chunks: seq<seq<Byte>>, seen: nat, end: nat)
    requires forall i | 0 <= i < |chunks| :: |chunks[i]| >= 1
    ensures Overrun(chunks, seen, end)
            <==> exists n | 0 < n <= |chunks| :: HEADER_LIMIT < seen + |Joined(chunks[..n])| < end
    decreases |chunks|
  {
    if chunks != [] {
      var next, later := seen + |chunks[0]|, chunks[1..];
      OverrunExact(later, next, end);
      assert Joined(chunks[..1]) == chunks[0] by {
        assert chunks[..1][1..] == [] && chunks[0] + [] == chunks[0];
      }
      forall n | 0 < n <= |later| ensures seen + |Joined(chunks[..n + 1])| == next + |Joined(later[..n])| {
        assert chunks[..n + 1][1..] == later[..n];
      }
      if Overrun(chunks, seen, end) && !(HEADER_LIMIT < next < end) {
        var n :| 0 < n <= |later| && HEADER_LIMIT < next + |Joined(later[..n])| < end;
        assert HEADER_LIMIT < seen + |Joined(chunks[..n + 1])| < end;
      }
      if n :| 0 < n <= |chunks| && HEADER_LIMIT < seen + |Joined(chunks[..n])| < end {
        if n > 1 {
          assert chunks[..n][1..] == later[..n - 1];
        }
      }
    }
  }

  // A terminator that ends no later than one byte past the limit is always reached in time.
  lemma {:induction false} InTime(chunks: seq<seq<Byte>>, seen: nat, end: nat)
    requires end <= HEADER_LIMIT + 1
    ensures !Overrun(chunks, seen, end)
    decreases |chunks|
  {
    if chunks != [] {
      InTime(chunks[1..], seen + |chunks[0]|, end);
    }
  }

  // One that ends more than a whole read past the limit never is.
  lemma {:induction false} TooLate(chunks: seq<seq<Byte>>, seen: nat, end: nat)
    requires Delivered(chunks) && seen <= HEADER_LIMIT && end > HEADER_LIMIT + READ_SIZE
             && seen + |Joined(chunks)| >= end
    ensures Overrun(chunks, seen, end)
    decreases |chunks|
  {
    if chunks != [] && seen + |chunks[0]| <= HEADER_LIMIT {
      assert forall i | 0 <= i < |chunks[1..]| :: chunks[1..][i] == chunks[i + 1];
      TooLate(chunks[1..], seen + |chunks[0]|, end);
    }
  }

  lemma {:induction false} FirstExists(stream: seq<Byte>, i: nat) returns (first: nat)
    requires TerminatorAt(stream, i)
    ensures FirstTerminator(stream, first)
    decreases i
  {
    if j: nat :| j < i && TerminatorAt(stream, j) {
      first := FirstExists(stream, j);
    } else {
      first := i;
    }
  }

  // The reply to a stream whose header ends in time: the request framed by its content length,
  // however the stream is cut into pieces.
  lemma FramedInTime(decode: Decoder, chunks: seq<seq<Byte>>, ending: Ending, r: Result<Request, RemoteError>, i: nat)
    requires Replies(decode, chunks, ending, r) && FirstTerminator(Joined(chunks), i) && i + 4 <= HEADER_LIMIT + 1
    ensures i + 4 <= |Joined(chunks)| && r == Framed(decode, Joined(chunks), ending, i + 4)
  {
    hide Overrun, FirstTerminator, Joined, ReadHead;
    InTime(chunks, 0, i + 4);
    FoundInside(Joined(chunks), i);
  }

  lemma {:induction false} JoinedAppend(a: seq<seq<Byte>>, b: seq<seq<Byte>>)
    ensures Joined(a + b) == Joined(a) + Joined(b)
  {
    if a == [] {
      assert a + b == b;
    } else {
      assert (a + b)[1..] == a[1..] + b;
      JoinedAppend(a[1..], b);
    }
  }

  lemma JoinedOne(chunk: seq<Byte>)
    ensures Joined([chunk]) == chunk
  {
    assert [chunk][1..] == [] && chunk + [] == chunk;
  }

  lemma DeliveredMeans(chunks: seq<seq<Byte>>)
    requires Delivered(chunks)
    ensures forall i | 0 <= i < |chunks| :: |chunks[i]| >= 1
  {
  }

  lemma DeliveredAppend(a: seq<seq<Byte>>, b: seq<seq<Byte>>)
    requires Delivered(a) && Delivered(b)
    ensures Delivered(a + b)
  {
  }

  lemma {:induction false} JoinedGrows(chunks: seq<seq<Byte>>, m: nat, n: nat)
    requires m <= n <= |chunks|
    ensures |Joined(chunks[..m])| <= |Joined(chunks[..n])|
    decreases m
  {
    if m > 0 {
      assert chunks[..m][1..] == chunks[1..][..m - 1] && chunks[..n][1..] == chunks[1..][..n - 1];
      JoinedGrows(chunks[1..], m - 1, n - 1);
    }
  }

  // The first terminator ends beyond the limit, but within the read that crosses it.
  ghost predicate InWindow(stream: seq<Byte>) {
    exists i: nat :: FirstTerminator(stream, i) && HEADER_LIMIT + 1 < i + 4 <= HEADER_LIMIT + READ_SIZE
  }

  // Two deliveries of one stream get the same reply, unless the first terminator ends in the window.
  lemma ChunksDoNotMatter(decode: Decoder, a: seq<seq<Byte>>, b: seq<seq<Byte>>, ending: Ending,
      ra: Result<Request, RemoteError>, rb: Result<Request, RemoteError>)
    requires Delivered(a) && Delivered(b) && Joined(a) == Joined(b) && !InWindow(Joined(a))
    requires Replies(decode, a, ending, ra) && Replies(decode, b, ending, rb)
    ensures ra == rb
  {
    hide Overrun, TerminatorAt, Joined, ReadHead, FirstTerminator;
    var stream := Joined(a);
    if i: nat :| TerminatorAt(stream, i) {
      var first := FirstExists(stream, i);
      FoundInside(stream, first);
      if first + 4 <= HEADER_LIMIT + 1 {
        InTime(a, 0, first + 4);
        InTime(b, 0, first + 4);
      } else {
        TooLate(a, 0, first + 4);
        TooLate(b, 0, first + 4);
      }
    }
  }

  // ----- Where the pieces do matter -----

  // The stream byte by byte.
  function Singles(s: seq<Byte>): seq<seq<Byte>> {
    if s == [] then [] else [[s[0]]] + Singles(s[1..])
  }

  lemma {:induction false} SinglesJoin(s: seq<Byte>)
    ensures |Singles(s)| == |s| && Delivered(Singles(s)) && Joined(Singles(s)) == s
    decreases |s|
  {
    if s != [] {
      SinglesJoin(s[1..]);
      assert Singles(s)[1..] == Singles(s[1..]);
      DeliveredAppend([[s[0]]], Singles(s[1..]));
    }
  }

  lemma {:induction false} SinglesPrefix(s: seq<Byte>, n: nat)
    requires n <= |s|
    ensures |Singles(s)| == |s| && Joined(Singles(s)[..n]) == s[..n]
    decreases n
  {
    SinglesJoin(s);
    if n > 0 {
      SinglesPrefix(s[1..], n - 1);
      assert Singles(s)[..n][1..] == Singles(s[1..])[..n - 1];
      assert [s[0]] + s[1..][..n - 1] == s[..n];
    }
  }

  // Byte by byte, one read ends just past the limit.
  lemma SinglesOverrun(stream: seq<Byte>, end: nat)
    requires HEADER_LIMIT + 1 < end <= |stream|
    ensures Overrun(Singles(stream), 0, end)
  {
    hide Singles, Joined, Overrun;
    SinglesJoin(stream);
    SinglesPrefix(stream, HEADER_LIMIT + 1);
    DeliveredMeans(Singles(stream));
    OverrunExact(Singles(stream), 0, end);
  }

  // Byte by byte up to the limit, then one read up to the end of the terminator.
  function Cut(stream: seq<Byte>, end: nat): seq<seq<Byte>>
    requires HEADER_LIMIT <= end <= |stream|
  {
    Singles(stream[..HEADER_LIMIT]) + ([stream[HEADER_LIMIT..end]] + Singles(stream[end..]))
  }

  lemma CutJoins(stream: seq<Byte>, end: nat)
    requires HEADER_LIMIT < end <= HEADER_LIMIT + READ_SIZE && end <= |stream|
    ensures Delivered(Cut(stream, end)) && Joined(Cut(stream, end)) == stream
  {
    hide Singles, Joined;
    var first, second, rest := stream[..HEADER_LIMIT], stream[HEADER_LIMIT..end], stream[end..];
    SinglesJoin(first);
    SinglesJoin(rest);
    DeliveredAppend([second], Singles(rest));
    DeliveredAppend(Singles(first), [second] + Singles(rest));
    JoinedOne(second);
    JoinedAppend([second], Singles(rest));
    JoinedAppend(Singles(first), [second] + Singles(rest));
    assert first + (second + rest) == stream;
  }

  lemma CutInTime(stream: seq<Byte>, end: nat)
    requires HEADER_LIMIT < end <= HEADER_LIMIT + READ_SIZE && end <= |stream|
    ensures !Overrun(Cut(stream, end), 0, end)
  {
    hide Singles, Joined, Overrun;
    var chunks, first := Cut(stream, end), Singles(stream[..HEADER_LIMIT]);
    CutJoins(stream, end);
    SinglesJoin(stream[..HEADER_LIMIT]);
    DeliveredMeans(chunks);
    OverrunExact(chunks, 0, end);
    assert |first| == HEADER_LIMIT && chunks[..HEADER_LIMIT] == first;
    assert chunks[..HEADER_LIMIT + 1] == first + [stream[HEADER_LIMIT..end]];
    JoinedAppend(first, [stream[HEADER_LIMIT..end]]);
    JoinedOne(stream[HEADER_LIMIT..end]);
    forall n | 0 < n <= |chunks| ensures !(HEADER_LIMIT < |Joined(chunks[..n])| < end) {
      if n <= HEADER_LIMIT {
        JoinedGrows(chunks, n, HEADER_LIMIT);
      } else {
        JoinedGrows(chunks, HEADER_LIMIT + 1, n);
      }
    }
  }

  // The framing of a header never complains of its length.
  lemma {:induction false} LengthErrors(lines: seq<string>)
    ensures ContentLength(lines).Err? ==> ContentLength(lines).error == BadContentLength
    decreases |lines|
  {
    if lines != [] {
      LengthErrors(lines[..|lines| - 1]);
    }
  }

  lemma FramedErrors(decode: Decoder, stream: seq<Byte>, ending: Ending, end: nat)
    requires 4 <= end <= |stream|
    ensures Framed(decode, stream, ending, end) != Err(HeadersTooLong)
  {
    hide NextWord, Split, ContentLength;
    var text := decode(stream[..end - 4]);
    if text.Some? {
      LengthErrors(Split(text.value)[1..]);
    }
  }

  // In the window one delivery is rejected for the length of its header and another is not.
  lemma ChunksMatter(decode: Decoder, stream: seq<Byte>, ending: Ending)
    returns (a: seq<seq<Byte>>, b: seq<seq<Byte>>, rb: Result<Request, RemoteError>)
    requires InWindow(stream)
    ensures Delivered(a) && Delivered(b) && Joined(a) == Joined(b) == stream
    ensures Replies(decode, a, ending, Err(HeadersTooLong)) && Replies(decode, b, ending, rb)
    ensures rb != Err(HeadersTooLong)
  {
    hide Overrun, Joined, Framed, Singles, Cut, TerminatorAt, FirstTerminator;
    var i: nat :| FirstTerminator(stream, i) && HEADER_LIMIT + 1 < i + 4 <= HEADER_LIMIT + READ_SIZE;
    var end := i + 4;
    FoundInside(stream, i);
    a, b := Singles(stream), Cut(stream, end);
    SinglesJoin(stream);
    CutJoins(stream, end);
    SinglesOverrun(stream, end);
    CutInTime(stream, end);
    OverrunOutcome(stream, a, ending, i);
    FoundOutcome(stream, b, ending, i);
    rb := Framed(decode, stream, ending, end);
    FramedErrors(decode, stream, ending, end);
    RepliesBy(decode, a, ending, Failed(HeadersTooLong), Err(HeadersTooLong));
    RepliesBy(decode, b, ending, Found(i), rb);
  }

  lemma RepliesBy(decode: Decoder, chunks: seq<seq<Byte>>, ending: Ending, h: HeaderRead,
                  r: Result<Request, RemoteError>)
    requires HeaderOutcome(Joined(chunks), chunks, ending, h)
    requires match h
             case Failed(error) => r == Err(error)
             case Found(i) => i + 4 <= |Joined(chunks)| && r == Framed(decode, Joined(chunks), ending, i + 4)
    ensures Replies(decode, chunks, ending, r)
  {
    hide HeaderOutcome, Framed, Joined;
  }

  lemma OverrunOutcome(stream: seq<Byte>, chunks: seq<seq<Byte>>, ending: Ending, i: nat)
    requires FirstTerminator(stream, i) && Overrun(chunks, 0, i + 4)
    ensures HeaderOutcome(stream, chunks, ending, Failed(HeadersTooLong))
  {
    forall j: nat | FirstTerminator(stream, j) ensures j == i {
      TerminatorUnique(stream, i, j);
    }
  }

  // Every delivery of the stream gets one and the same reply.
  ghost predicate OneReply(decode: Decoder, stream: seq<Byte>, ending: Ending) {
    forall a, b, ra, rb | Delivered(a) && Delivered(b) && Joined(a) == Joined(b) == stream
                          && Replies(decode, a, ending, ra) && Replies(decode, b, ending, rb) :: ra == rb
  }

  // The reply to a stream depends on how it is cut exactly when its first terminator ends in the window.
  lemma ChunksMatterExactly(decode: Decoder, stream: seq<Byte>, ending: Ending)
    ensures OneReply(decode, stream, ending) <==> !InWindow(stream)
  {
    hide Delivered, Joined, Replies, InWindow;
    if InWindow(stream) {
      var a, b, rb := ChunksMatter(decode, stream, ending);
    } else {
      forall a, b, ra, rb | Delivered(a) && Delivered(b) && Joined(a) == Joined(b) == stream
                            && Replies(decode, a, ending, ra) && Replies(decode, b, ending, rb)
        ensures ra == rb
      {
        ChunksDoNotMatter(decode, a, b, ending, ra, rb);
      }
    }
  }
}
