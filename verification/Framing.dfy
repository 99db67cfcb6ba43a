/** Newline framing between the Rust client and the Go sidecar: two bounded line readers, with different
    limits and different ways to fail, against one writer. */
module Framing {
  import opened Bytes
  import opened Wrappers

  const MAX_LINE := 0x400_0000 // 64 MiB

  predicate LineFree(s: seq<Byte>) {
    LF !in s
  }

  /** The position of the first newline, or the length. */
  function FindLf(s: seq<Byte>): (n: nat)
    ensures n <= |s| && (n < |s| ==> s[n] == LF) && forall i | 0 <= i < n :: s[i] != LF
  {
    FindLfFrom(s, 0)
  }

  function FindLfFrom(s: seq<Byte>, start: nat): (n: nat)
    requires start <= |s|
    ensures start <= n <= |s| && (n < |s| ==> s[n] == LF) && forall i | start <= i < n :: s[i] != LF
    decreases |s| - start
  {
    if start == |s| || s[start] == LF then start else FindLfFrom(s, start + 1)
  }

  lemma FindLfIs(s: seq<Byte>, n: nat)
    requires n <= |s| && (n < |s| ==> s[n] == LF) && forall i | 0 <= i < n :: s[i] != LF
    ensures FindLf(s) == n
  {
  }

  /** What both writers put on the wire: each message followed by a newline. */
  function Encode(msgs: seq<seq<Byte>>): seq<Byte> {
    if msgs == [] then [] else msgs[0] + [LF] + Encode(msgs[1..])
  }

  /** What the client makes of a stream: the messages it handles, and whether it gave up on a long line. */
  function Client(stream: seq<Byte>): (seq<seq<Byte>>, bool)
    decreases |stream|
  {
    var n := FindLf(stream);
    if n > MAX_LINE then ([], true)
    else if n == |stream| then ([], false)
    else
      var rest := Client(stream[n + 1..]);
      ([stream[..n]] + rest.0, rest.1)
  }

  function Unread(chunks: seq<seq<Byte>>): seq<Byte> {
    if chunks == [] then [] else chunks[0] + Unread(chunks[1..])
  }

  /** `messages` and what the client makes of `left` are `all`. */
  ghost predicate ReadSoFar(all: (seq<seq<Byte>>, bool), messages: seq<seq<Byte>>, left: seq<Byte>) {
    all == (messages + Client(left).0, Client(left).1)
  }

  /** The scan in read_loop: `chunks` are what the operating system delivers, in order, until end of file.
      `peak` is the largest size the accumulator reaches. */
  method ReadLoop(chunks: seq<seq<Byte>>) returns (messages: seq<seq<Byte>>, tooLong: bool, ghost peak: nat)
    requires forall i | 0 <= i < |chunks| :: chunks[i] != []
    ensures (messages, tooLong) == Client(Unread(chunks))
    ensures peak <= MAX_LINE
  {
    var pending := chunks;
    var line: seq<Byte> := [];
    messages, tooLong, peak := [], false, 0;
    ghost var all := Client(Unread(chunks));
    StartOfLines(Unread(chunks));
    while pending != []
      invariant forall i | 0 <= i < |pending| :: pending[i] != []
      invariant LineFree(line) && |line| <= MAX_LINE && peak <= MAX_LINE && !tooLong
      invariant ReadSoFar(all, messages, line + Unread(pending))
      decreases |Unread(pending)|
    {
      var chunk := pending[0];
      ghost var rest := Unread(pending[1..]);
      var pos := FindLf(chunk);
      if pos < |chunk| {
        LineAhead(all, messages, line, chunk, rest, pos);
        if |line| + pos > MAX_LINE {
          tooLong := true;
          return;
        }
        line := line + chunk[..pos];
        messages := messages + [line];
        peak := if |line| > peak then |line| else peak;
        line := [];
        pending := if pos + 1 == |chunk| then pending[1..] else [chunk[pos + 1..]] + pending[1..];
        UnreadAfter(pending, chunk[pos + 1..], rest);
      } else {
        NoLineAhead(all, messages, line, chunk, rest);
        if |line| + |chunk| > MAX_LINE {
          tooLong := true;
          return;
        }
        line := line + chunk;
        peak := if |line| > peak then |line| else peak;
        pending := pending[1..];
      }
    }
    EndOfLines(all, messages, line);
  }

  lemma StartOfLines(stream: seq<Byte>)
    ensures ReadSoFar(Client(stream), [], [] + stream)
  {
    assert [] + stream == stream && [] + Client(stream).0 == Client(stream).0;
  }

  lemma UnreadAfter(pending: seq<seq<Byte>>, left: seq<Byte>, rest: seq<Byte>)
    requires (left == [] && Unread(pending) == rest)
             || (pending != [] && pending[0] == left && Unread(pending[1..]) == rest)
    ensures [] + Unread(pending) == left + rest == Unread(pending)
  {
  }

  lemma EndOfLines(all: (seq<seq<Byte>>, bool), messages: seq<seq<Byte>>, line: seq<Byte>)
    requires LineFree(line) && |line| <= MAX_LINE && ReadSoFar(all, messages, line + Unread([]))
    ensures all == (messages, false)
  {
    assert line + [] == line;
    FindLfIs(line, |line|);
    assert messages + [] == messages;
  }

  /** The chunk ends the accumulated line at `pos`. */
  lemma LineAhead(all: (seq<seq<Byte>>, bool), messages: seq<seq<Byte>>, line: seq<Byte>, chunk: seq<Byte>,
                  rest: seq<Byte>, pos: nat)
    requires LineFree(line) && pos == FindLf(chunk) < |chunk| && ReadSoFar(all, messages, line + (chunk + rest))
    ensures if |line| + pos > MAX_LINE then all == (messages, true)
            else ReadSoFar(all, messages + [line + chunk[..pos]], chunk[pos + 1..] + rest)
  {
    var stream, n := line + (chunk + rest), |line| + pos;
    FindLfIs(stream, n);
    CutAt(line, chunk, rest, pos);
    if n <= MAX_LINE {
      Associative(messages, [line + chunk[..pos]], Client(chunk[pos + 1..] + rest).0);
    } else {
      assert messages + [] == messages;
    }
  }

  lemma CutAt(line: seq<Byte>, chunk: seq<Byte>, rest: seq<Byte>, pos: nat)
    requires pos < |chunk|
    ensures var stream, n := line + (chunk + rest), |line| + pos;
            stream[..n] == line + chunk[..pos] && stream[n + 1..] == chunk[pos + 1..] + rest
  {
  }

  /** The chunk only makes the accumulated line longer. */
  lemma NoLineAhead(all: (seq<seq<Byte>>, bool), messages: seq<seq<Byte>>, line: seq<Byte>, chunk: seq<Byte>,
                    rest: seq<Byte>)
    requires LineFree(line) && FindLf(chunk) == |chunk| && ReadSoFar(all, messages, line + (chunk + rest))
    ensures LineFree(line + chunk)
    ensures if |line| + |chunk| > MAX_LINE then all == (messages, true)
            else ReadSoFar(all, messages, line + chunk + rest)
  {
    var stream := line + (chunk + rest);
    Associative(line, chunk, rest);
    assert forall i | 0 <= i < |line| + |chunk| :: stream[i] != LF;
    assert messages + [] == messages;
  }

  /** An event of the server's loop: a line handed to the parser, or the error reply to one too long. */
  datatype Event = Request(line: seq<Byte>) | Oversized

  datatype ReadEnd = Eof | Failed

  /** Which events one line, newline included, leads to; blank lines to none. */
  function LineEvents(line: seq<Byte>, blank: seq<Byte> -> bool): seq<Event> {
    if |line| > MAX_LINE then [Oversized] else if blank(line) then [] else [Request(line)]
  }

  /** What the server makes of a stream that ends with end of file or with a read error. */
  function Server(stream: seq<Byte>, end: ReadEnd, blank: seq<Byte> -> bool): seq<Event>
    decreases |stream|
  {
    var n := FindLf(stream);
    if n < |stream| then LineEvents(stream[..n + 1], blank) + Server(stream[n + 1..], end, blank)
    else if |stream| > MAX_LINE then [Oversized]
    else if stream == [] || end == Failed then []
    else LineEvents(stream, blank)
  }

  datatype SliceEnd = Newline | BufferFull | End(end: ReadEnd)

  /** The buffered reader under the server. `sizes` decides, call by call, after how many bytes of a line the
      buffer happens to be full. */
  class SliceReader {
    var rest: seq<Byte>
    var sizes: seq<nat>
    const end: ReadEnd

    constructor (stream: seq<Byte>, sizes: seq<nat>, end: ReadEnd)
      ensures this.rest == stream && this.sizes == sizes && this.end == end
    {
      this.rest, this.sizes, this.end := stream, sizes, end;
    }

    method ReadSlice() returns (frag: seq<Byte>, how: SliceEnd)
      modifies this
      ensures frag + rest == old(rest)
      ensures match how
              case Newline => frag != [] && frag[|frag| - 1] == LF && LineFree(frag[..|frag| - 1])
              case BufferFull => frag != [] && LineFree(frag)
              case End(e) => e == end && LineFree(frag) && rest == []
      ensures how.BufferFull? ==> |rest| < |old(rest)|
    {
      var n := FindLf(rest);
      if sizes != [] && 1 <= sizes[0] <= n {
        frag, how := rest[..sizes[0]], BufferFull;
        rest, sizes := rest[sizes[0]..], sizes[1..];
      } else if n < |rest| {
        frag, how := rest[..n + 1], Newline;
        rest := rest[n + 1..];
      } else {
        frag, how := rest, End(end);
        rest := [];
      }
    }
  }

  /** What one call of readRequestLine returns for the unread stream. */
  function RequestLine(stream: seq<Byte>, end: ReadEnd): (seq<Byte>, bool, Option<ReadEnd>) {
    var n := FindLf(stream);
    if n < |stream| then (if n + 1 > MAX_LINE then [] else stream[..n + 1], n + 1 > MAX_LINE, None)
    else if |stream| > MAX_LINE then ([], true, Some(end))
    else if end == Eof && stream != [] then (stream, false, None)
    else ([], false, Some(end))
  }

  function AfterLine(stream: seq<Byte>): seq<Byte> {
    var n := FindLf(stream);
    if n < |stream| then stream[n + 1..] else []
  }

  method ReadRequestLine(reader: SliceReader) returns (line: seq<Byte>, tooLong: bool, err: Option<ReadEnd>)
    modifies reader
    ensures (line, tooLong, err) == RequestLine(old(reader.rest), reader.end)
    ensures reader.rest == AfterLine(old(reader.rest))
  {
    ghost var stream := reader.rest;
    var buf: seq<Byte> := [];
    ghost var seen: seq<Byte> := [];
    tooLong := false;
    while true
      invariant seen + reader.rest == stream && LineFree(seen)
      invariant tooLong <==> |seen| > MAX_LINE
      invariant buf == if tooLong then [] else seen
      decreases |reader.rest|
    {
      ghost var before := reader.rest;
      var frag, how := reader.ReadSlice();
      FragmentRead(stream, seen, frag, reader.rest, how);
      seen := seen + frag;
      if !tooLong {
        buf := buf + frag;
        if |buf| > MAX_LINE {
          tooLong := true;
          buf := [];
        }
      }
      match how
      case Newline => return buf, tooLong, None;
      case BufferFull =>
      case End(Eof) =>
        if |buf| > 0 {
          return buf, tooLong, None;
        }
        return [], tooLong, Some(Eof);
      case End(Failed) => return [], tooLong, Some(Failed);
    }
  }

  lemma FragmentRead(stream: seq<Byte>, seen: seq<Byte>, frag: seq<Byte>, rest: seq<Byte>, how: SliceEnd)
    requires seen + (frag + rest) == stream && LineFree(seen)
    requires match how
             case Newline => frag != [] && frag[|frag| - 1] == LF && LineFree(frag[..|frag| - 1])
             case BufferFull => LineFree(frag)
             case End(_) => LineFree(frag) && rest == []
    ensures seen + frag + rest == stream
    ensures how.Newline? ==>
              && FindLf(stream) + 1 == |seen + frag|
              && stream[..|seen + frag|] == seen + frag && rest == stream[|seen + frag|..]
    ensures how.BufferFull? ==> LineFree(seen + frag)
    ensures how.End? ==> FindLf(stream) == |stream| && seen + frag == stream
  {
    if how.Newline? {
      assert forall i | 0 <= i < |frag| - 1 :: frag[i] == frag[..|frag| - 1][i];
      FindLfIs(stream, |seen| + |frag| - 1);
    } else if how.End? {
      FindLfIs(stream, |stream|);
    }
  }

  /** The loop of RunIO, up to the dispatch of a request. */
  method RunIO(reader: SliceReader, blank: seq<Byte> -> bool) returns (events: seq<Event>, err: Option<ReadEnd>)
    modifies reader
    ensures events == Server(old(reader.rest), reader.end, blank)
    ensures err == if reader.end == Eof then None else Some(Failed)
  {
    ghost var stream := reader.rest;
    events := [];
    var done := false;
    assert events + Server(stream, reader.end, blank) == Server(stream, reader.end, blank);
    while !done
      invariant done ==> events == Server(stream, reader.end, blank)
      invariant !done ==> Server(stream, reader.end, blank) == events + Server(reader.rest, reader.end, blank)
      decreases !done, |reader.rest|
    {
      ghost var before := reader.rest;
      var data, tooLong, readErr := ReadRequestLine(reader);
      ServerStep(events, before, reader.end, blank);
      if tooLong {
        events := events + [Oversized];
      } else if data != [] && !blank(data) {
        events := events + [Request(data)];
      }
      done := readErr.Some?;
    }
    err := if reader.end == Eof then None else Some(Failed);
  }

  lemma ServerStep(events: seq<Event>, stream: seq<Byte>, end: ReadEnd, blank: seq<Byte> -> bool)
    ensures var (data, tooLong, err) := RequestLine(stream, end);
            events + Server(stream, end, blank)
            == (if tooLong then events + [Oversized]
                else if data != [] && !blank(data) then events + [Request(data)]
                else events)
               + if err.Some? then [] else Server(AfterLine(stream), end, blank)
    ensures RequestLine(stream, end).2.None? ==> |AfterLine(stream)| < |stream|
  {
    var n := FindLf(stream);
    if n < |stream| {
      var line := stream[..n + 1];
      assert Server(stream, end, blank) == LineEvents(line, blank) + Server(AfterLine(stream), end, blank);
      Associative(events, LineEvents(line, blank), Server(AfterLine(stream), end, blank));
      assert events + [] == events;
    } else {
      assert Server([], end, blank) == [];
      assert events + [] == events;
      assert events + Server(stream, end, blank) + [] == events + Server(stream, end, blank);
    }
  }

  /** The first message longer than the client's limit, or the number of messages. */
  function FirstTooLong(msgs: seq<seq<Byte>>): (k: nat)
    ensures k <= |msgs| && (k < |msgs| ==> |msgs[k]| > MAX_LINE)
    ensures forall i | 0 <= i < k :: |msgs[i]| <= MAX_LINE
  {
    if msgs == [] || |msgs[0]| > MAX_LINE then 0 else 1 + FirstTooLong(msgs[1..])
  }

  lemma EncodeHead(msgs: seq<seq<Byte>>, tail: seq<Byte>)
    requires msgs != [] && LineFree(msgs[0])
    ensures var stream, n := Encode(msgs) + tail, |msgs[0]|;
            && FindLf(stream) == n < |stream|
            && stream[..n] == msgs[0] && stream[..n + 1] == msgs[0] + [LF]
            && stream[n + 1..] == Encode(msgs[1..]) + tail
  {
    var m, rest := msgs[0], Encode(msgs[1..]);
    var stream := m + [LF] + rest + tail;
    assert stream[|m|] == LF && forall i | 0 <= i < |m| :: stream[i] == m[i];
    FindLfIs(stream, |m|);
    LineCut(m, rest, tail);
  }

  lemma LineCut(m: seq<Byte>, rest: seq<Byte>, tail: seq<Byte>)
    ensures var stream := m + [LF] + rest + tail;
            stream[..|m|] == m && stream[..|m| + 1] == m + [LF] && stream[|m| + 1..] == rest + tail
  {
  }

  /** The client handles exactly the messages before the first one over 64 MiB, in order, and gives up exactly
      at that one, or at an unfinished line that is already longer. */
  lemma {:induction false} ClientReadsMessages(msgs: seq<seq<Byte>>, tail: seq<Byte>)
    requires (forall i | 0 <= i < |msgs| :: LineFree(msgs[i])) && LineFree(tail)
    ensures var k := FirstTooLong(msgs);
            Client(Encode(msgs) + tail) == (msgs[..k], k < |msgs| || |tail| > MAX_LINE)
    decreases |msgs|
  {
    if msgs == [] {
      assert Encode(msgs) + tail == tail;
      FindLfIs(tail, |tail|);
    } else {
      EncodeHead(msgs, tail);
      if |msgs[0]| <= MAX_LINE {
        ClientReadsMessages(msgs[1..], tail);
        assert msgs[..FirstTooLong(msgs)] == [msgs[0]] + msgs[1..][..FirstTooLong(msgs[1..])];
      }
    }
  }

  /** One event list per message: the error reply if the message and its newline exceed 64 MiB. */
  function MessageEvents(msgs: seq<seq<Byte>>, blank: seq<Byte> -> bool): seq<Event> {
    if msgs == [] then [] else LineEvents(msgs[0] + [LF], blank) + MessageEvents(msgs[1..], blank)
  }

  /** The server handles every message, replaces each one that is too long by one error and goes on; an
      unfinished last line counts as a message at end of file. */
  lemma {:induction false} ServerReadsMessages(msgs: seq<seq<Byte>>, tail: seq<Byte>, end: ReadEnd,
                                               blank: seq<Byte> -> bool)
    requires (forall i | 0 <= i < |msgs| :: LineFree(msgs[i])) && LineFree(tail)
    ensures Server(Encode(msgs) + tail, end, blank)
         == MessageEvents(msgs, blank)
            + if |tail| > MAX_LINE then [Oversized]
              else if tail == [] || end == Failed then []
              else LineEvents(tail, blank)
    decreases |msgs|
  {
    var last := if |tail| > MAX_LINE then [Oversized]
                else if tail == [] || end == Failed then []
                else LineEvents(tail, blank);
    if msgs == [] {
      assert Encode(msgs) + tail == tail;
      FindLfIs(tail, |tail|);
      assert [] + last == last;
    } else {
      EncodeHead(msgs, tail);
      ServerReadsMessages(msgs[1..], tail, end, blank);
      Associative(LineEvents(msgs[0] + [LF], blank), MessageEvents(msgs[1..], blank), last);
    }
  }

  /** So the two lemmas above cover every stream. */
  lemma {:induction false} EveryStreamSplits(stream: seq<Byte>) returns (msgs: seq<seq<Byte>>, tail: seq<Byte>)
    ensures stream == Encode(msgs) + tail && LineFree(tail) && forall i | 0 <= i < |msgs| :: LineFree(msgs[i])
    decreases |stream|
  {
    var n := FindLf(stream);
    if n == |stream| {
      msgs, tail := [], stream;
      assert forall i | 0 <= i < |stream| :: stream[i] != LF;
      assert stream == [] + stream;
    } else {
      var msgs1, tail1 := EveryStreamSplits(stream[n + 1..]);
      msgs, tail := [stream[..n]] + msgs1, tail1;
      assert msgs[1..] == msgs1;
      assert stream == stream[..n] + [LF] + stream[n + 1..];
    }
  }

  predicate ClientTakes(m: seq<Byte>) {
    Client(Encode([m])) == ([m], false)
  }

  predicate ServerTakes(m: seq<Byte>, blank: seq<Byte> -> bool) {
    Oversized !in Server(Encode([m]), Eof, blank)
  }

  /** Where each end draws the line: the server counts the newline, the client does not. */
  lemma TakenIff(m: seq<Byte>, blank: seq<Byte> -> bool)
    requires LineFree(m)
    ensures ClientTakes(m) <==> |m| <= MAX_LINE
    ensures ServerTakes(m, blank) <==> |m| < MAX_LINE
    ensures !ClientTakes(m) ==> Client(Encode([m])) == ([], true)
    ensures !ServerTakes(m, blank) ==> Server(Encode([m]), Eof, blank) == [Oversized]
  {
    assert Encode([m]) + [] == Encode([m]);
    ClientReadsMessages([m], []);
    ServerReadsMessages([m], [], Eof, blank);
    assert [m][..1] == [m];
    assert FirstTooLong([m]) == if |m| > MAX_LINE then 0 else 1;
    assert MessageEvents([m], blank) + [] == LineEvents(m + [LF], blank);
  }

  /** So the ends disagree on messages of exactly 64 MiB, which the client takes and the server refuses, and on no
      others. */
  lemma LimitsDiffer(m: seq<Byte>, blank: seq<Byte> -> bool)
    requires LineFree(m)
    ensures ClientTakes(m) && !ServerTakes(m, blank) <==> |m| == MAX_LINE
    ensures ServerTakes(m, blank) ==> ClientTakes(m)
  {
    TakenIff(m, blank);
  }

  lemma LongestMessage() returns (m: seq<Byte>)
    ensures LineFree(m) && |m| == MAX_LINE
  {
    m := seq(MAX_LINE, _ => 0);
  }

  /** And there are such messages. */
  lemma LimitsDoDiffer(blank: seq<Byte> -> bool)
    ensures exists m :: LineFree(m) && ClientTakes(m) && !ServerTakes(m, blank)
  {
    var m := LongestMessage();
    LimitsDiffer(m, blank);
  }
}
