/** Rewriting the Host header of the first bytes a browser sends through the web proxy (section 3.2 of RFC 9112). */
module HostHeader {
  import opened Bytes
  import opened Wrappers

  type Line = seq<Byte>

  function Crlf(): seq<Byte> {
    [CR, LF]
  }

  function CrlfCrlf(): seq<Byte> {
    [CR, LF, CR, LF]
  }

  /** "host:" */
  function HostColon(): seq<Byte> {
    [104, 111, 115, 116, 58]
  }

  /** The header line "Host: " with the given value. */
  function HostLine(host: seq<Byte>): Line {
    [72, 111, 115, 116, 58, 32] + host
  }

  /** GET, POST, PUT, DELETE, HEAD, OPTIONS, PATCH, TRACE and CONNECT, each with a space behind it. */
  function Methods(): seq<seq<Byte>> {
    [ [71, 69, 84, 32],
      [80, 79, 83, 84, 32],
      [80, 85, 84, 32],
      [68, 69, 76, 69, 84, 69, 32],
      [72, 69, 65, 68, 32],
      [79, 80, 84, 73, 79, 78, 83, 32],
      [80, 65, 84, 67, 72, 32],
      [84, 82, 65, 67, 69, 32],
      [67, 79, 78, 78, 69, 67, 84, 32] ]
  }

  function Lower(b: Byte): Byte {
    if 65 <= b <= 90 then b + 32 else b
  }

  predicate IsHostLine(line: Line) {
    |line| >= 5 && forall k | 0 <= k < 5 :: Lower(line[k]) == HostColon()[k]
  }

  predicate StartsWithAny(head: seq<Byte>, methods: seq<seq<Byte>>) {
    methods != [] && (methods[0] <= head || StartsWithAny(head, methods[1..]))
  }

  predicate LooksLikeHttp(head: seq<Byte>) {
    StartsWithAny(head, Methods())
  }

  // ---------------------------------------------------------------- searching

  predicate At(s: seq<Byte>, needle: seq<Byte>, i: nat) {
    i + |needle| <= |s| && forall k | 0 <= k < |needle| :: s[i + k] == needle[k]
  }

  function FindFrom(s: seq<Byte>, needle: seq<Byte>, i: nat): Option<nat>
    decreases |s| - i
  {
    if i + |needle| > |s| then None
    else if At(s, needle, i) then Some(i)
    else FindFrom(s, needle, i + 1)
  }

  function FindSubslice(s: seq<Byte>, needle: seq<Byte>): Option<nat> {
    if needle == [] || |s| < |needle| then None else FindFrom(s, needle, 0)
  }

  ghost predicate First(s: seq<Byte>, needle: seq<Byte>, found: Option<nat>) {
    match found
    case None => forall i: nat :: !At(s, needle, i)
    case Some(k) => At(s, needle, k) && forall i: nat | i < k :: !At(s, needle, i)
  }

  lemma {:induction false} FindFromFirst(s: seq<Byte>, needle: seq<Byte>, i: nat)
    requires forall j: nat | j < i :: !At(s, needle, j)
    ensures First(s, needle, FindFrom(s, needle, i))
    decreases |s| - i
  {
    if i + |needle| <= |s| && !At(s, needle, i) {
      FindFromFirst(s, needle, i + 1);
    }
  }

  /** The search reports the first occurrence of a non-empty needle, if any. */
  lemma FindIsFirst(s: seq<Byte>, needle: seq<Byte>)
    requires needle != []
    ensures First(s, needle, FindSubslice(s, needle))
  {
    if |s| >= |needle| {
      FindFromFirst(s, needle, 0);
    }
  }

  lemma FirstIsFound(s: seq<Byte>, needle: seq<Byte>, found: Option<nat>)
    requires needle != [] && First(s, needle, found)
    ensures FindSubslice(s, needle) == found
  {
    FindIsFirst(s, needle);
  }

  lemma BreakAt(s: seq<Byte>, i: nat)
    ensures At(s, Crlf(), i) <==> i + 1 < |s| && s[i] == CR && s[i + 1] == LF
  {
    assert Crlf()[0] == CR && Crlf()[1] == LF;
    if i + 1 < |s| && s[i] == CR && s[i + 1] == LF {
      assert forall k | 0 <= k < 2 :: s[i + k] == Crlf()[k];
    }
    if At(s, Crlf(), i) {
      assert s[i + 0] == CR && s[i + 1] == LF;
    }
  }

  // ---------------------------------------------------------------- rewriting

  /** First Host line among the lines from `pos` on, as its start and end. */
  function HostRange(head: seq<Byte>, pos: nat, headEnd: nat): (r: Option<(nat, nat)>)
    requires headEnd <= |head|
    ensures r.Some? ==> pos <= r.value.0 <= r.value.1 <= headEnd
    decreases headEnd - pos
  {
    if pos >= headEnd then None
    else
      var lineEnd := LineEnd(head, pos, headEnd);
      if IsHostLine(head[pos..lineEnd]) then Some((pos, lineEnd)) else HostRange(head, lineEnd + 2, headEnd)
  }

  predicate Break(head: seq<Byte>, i: nat, headEnd: nat)
    requires headEnd <= |head|
  {
    i + 1 < headEnd && head[i] == CR && head[i + 1] == LF
  }

  /** Where the line from `pos` on ends. */
  function LineEnd(head: seq<Byte>, pos: nat, headEnd: nat): (e: nat)
    requires pos <= headEnd <= |head|
    ensures pos <= e <= headEnd
    decreases headEnd - pos
  {
    if pos == headEnd || Break(head, pos, headEnd) then pos else LineEnd(head, pos + 1, headEnd)
  }

  lemma {:induction false} LineEndUnique(head: seq<Byte>, pos: nat, headEnd: nat, e: nat)
    requires pos <= e <= headEnd <= |head|
    requires forall i | pos <= i < e :: !Break(head, i, headEnd)
    requires e == headEnd || Break(head, e, headEnd)
    ensures LineEnd(head, pos, headEnd) == e
    decreases e - pos
  {
    if pos < e {
      LineEndUnique(head, pos + 1, headEnd, e);
    }
  }

  /** The search in the slice finds the line's end. */
  lemma LineEndIsFound(head: seq<Byte>, pos: nat, headEnd: nat)
    requires pos <= headEnd <= |head|
    ensures var found := FindSubslice(head[pos..headEnd], Crlf());
            && (found.Some? ==> pos + found.value <= headEnd)
            && LineEnd(head, pos, headEnd) == if found.Some? then pos + found.value else headEnd
  {
    var slice := head[pos..headEnd];
    FindIsFirst(slice, Crlf());
    var found := FindSubslice(slice, Crlf());
    var e := if found.Some? then pos + found.value else headEnd;
    forall i | pos <= i < e
      ensures !Break(head, i, headEnd)
    {
      BreakAt(slice, i - pos);
    }
    if found.Some? {
      BreakAt(slice, found.value);
    }
    LineEndUnique(head, pos, headEnd, e);
  }

  /** What a found range is replaced by. */
  function Replace(head: seq<Byte>, range: (nat, nat), host: seq<Byte>): seq<Byte>
    requires range.0 <= range.1 <= |head|
  {
    head[..range.0] + HostLine(host) + head[range.1..]
  }

  /** What rewriting yields; the line-by-line reading is RewriteIsLineByLine below. */
  function Rewrite(head: seq<Byte>, host: seq<Byte>): seq<Byte> {
    var headEnd, requestEnd := FindSubslice(head, CrlfCrlf()), FindSubslice(head, Crlf());
    FindIsFirst(head, CrlfCrlf());
    FindIsFirst(head, Crlf());
    if !LooksLikeHttp(head) || headEnd.None? || requestEnd.None? || requestEnd.value > headEnd.value then head
    else SetHost(head, requestEnd.value, HostRange(head, requestEnd.value + 2, headEnd.value), host)
  }

  function SetHost(head: seq<Byte>, requestEnd: nat, range: Option<(nat, nat)>, host: seq<Byte>): seq<Byte>
    requires requestEnd <= |head| && (range.Some? ==> range.value.0 <= range.value.1 <= |head|)
  {
    if range.Some? then Replace(head, range.value, host)
    else head[..requestEnd] + Crlf() + HostLine(host) + head[requestEnd..]
  }

  method ScanForHost(head: seq<Byte>, from: nat, headEnd: nat) returns (hostRange: Option<(nat, nat)>)
    requires headEnd <= |head|
    ensures hostRange == HostRange(head, from, headEnd)
  {
    hostRange := None;
    var pos := from;
    while pos < headEnd
      invariant hostRange == None && HostRange(head, from, headEnd) == HostRange(head, pos, headEnd)
    {
      var found := FindSubslice(head[pos..headEnd], Crlf());
      LineEndIsFound(head, pos, headEnd);
      var lineEnd := if found.Some? then pos + found.value else headEnd;
      if IsHostLine(head[pos..lineEnd]) {
        return Some((pos, lineEnd));
      }
      pos := lineEnd + 2;
    }
  }

  method RewriteHostHeader(head: seq<Byte>, host: seq<Byte>) returns (out: seq<Byte>)
    ensures out == Rewrite(head, host)
  {
    if !LooksLikeHttp(head) {
      return head;
    }
    var foundHeadEnd := FindSubslice(head, CrlfCrlf());
    if foundHeadEnd.None? {
      return head;
    }
    var foundRequestEnd := FindSubslice(head, Crlf());
    if foundRequestEnd.None? {
      return head;
    }
    FindIsFirst(head, CrlfCrlf());
    FindIsFirst(head, Crlf());
    var headEnd, requestEnd := foundHeadEnd.value, foundRequestEnd.value;
    if requestEnd > headEnd {
      return head;
    }
    var hostRange := ScanForHost(head, requestEnd + 2, headEnd);
    if hostRange.Some? {
      out := head[..hostRange.value.0] + HostLine(host) + head[hostRange.value.1..];
    } else {
      out := head[..requestEnd] + Crlf() + HostLine(host) + head[requestEnd..];
    }
  }

  // ---------------------------------------------------------------- line by line

  ghost predicate CrlfFree(s: seq<Byte>) {
    forall i: nat :: !At(s, Crlf(), i)
  }

  ghost predicate HeaderLines(headers: seq<Line>) {
    forall k | 0 <= k < |headers| :: headers[k] != [] && CrlfFree(headers[k])
  }

  /** The header lines, each with a line break before it, then the blank line and what follows it. */
  function Rest(headers: seq<Line>, body: seq<Byte>): seq<Byte> {
    if headers == [] then CrlfCrlf() + body else Crlf() + headers[0] + Rest(headers[1..], body)
  }

  /** How far the blank line is away. */
  function BlockSize(headers: seq<Line>): nat {
    if headers == [] then 0 else 2 + |headers[0]| + BlockSize(headers[1..])
  }

  function Wire(request: Line, headers: seq<Line>, body: seq<Byte>): seq<Byte> {
    request + Rest(headers, body)
  }

  /** The first Host line becomes the given one; without one, the given one comes first. */
  function WithHost(headers: seq<Line>, host: seq<Byte>): seq<Line> {
    var k := FirstHost(headers);
    if k < |headers| then headers[k := HostLine(host)] else [HostLine(host)] + headers
  }

  /** Index of the first Host line, or the number of lines. */
  function FirstHost(headers: seq<Line>): (k: nat)
    ensures k <= |headers|
    ensures k < |headers| ==> IsHostLine(headers[k])
    ensures forall i | 0 <= i < k :: !IsHostLine(headers[i])
  {
    if headers == [] then 0 else if IsHostLine(headers[0]) then 0 else 1 + FirstHost(headers[1..])
  }

  lemma NoBreakInside(line: Line, tail: seq<Byte>, i: nat)
    requires CrlfFree(line) && At(tail, Crlf(), 0) && i < |line|
    ensures !At(line + tail, Crlf(), i)
  {
    BreakAt(line + tail, i);
    BreakAt(tail, 0);
    BreakAt(line, i);
  }

  /** A line ends at the first line break. */
  lemma LineEndsAtBreak(line: Line, tail: seq<Byte>)
    requires CrlfFree(line) && At(tail, Crlf(), 0)
    ensures FindSubslice(line + tail, Crlf()) == Some(|line|)
  {
    forall i: nat | i < |line|
      ensures !At(line + tail, Crlf(), i)
    {
      NoBreakInside(line, tail, i);
    }
    assert (line + tail)[|line|..|line| + 2] == tail[0..2];
    FirstIsFound(line + tail, Crlf(), Some(|line|));
  }

  lemma RestStartsWithBreak(headers: seq<Line>, body: seq<Byte>)
    ensures At(Rest(headers, body), Crlf(), 0)
  {
    BreakAt(Rest(headers, body), 0);
  }

  lemma DoubleIsTwo(s: seq<Byte>, i: nat)
    ensures At(s, CrlfCrlf(), i) <==> At(s, Crlf(), i) && At(s, Crlf(), i + 2)
  {
    if i + 4 <= |s| {
      assert s[i..i + 4] == s[i..i + 2] + s[i + 2..i + 4];
      assert CrlfCrlf() == Crlf() + Crlf();
      assert CrlfCrlf()[..2] == Crlf() && CrlfCrlf()[2..] == Crlf();
      assert s[i..i + 4][..2] == s[i..i + 2] && s[i..i + 4][2..] == s[i + 2..i + 4];
    }
  }

  lemma AtShift(front: seq<Byte>, s: seq<Byte>, needle: seq<Byte>, i: nat)
    ensures At(front + s, needle, |front| + i) <==> At(s, needle, i)
  {
    if i + |needle| <= |s| {
      assert (front + s)[|front| + i..|front| + i + |needle|] == s[i..i + |needle|];
    }
  }

  /** No non-empty line lets a blank line start at the break before it. */
  lemma NoBlankBefore(line: Line, tail: seq<Byte>, i: nat)
    requires line != [] && CrlfFree(line) && At(tail, Crlf(), 0) && i < 2
    ensures !At(Crlf() + (line + tail), CrlfCrlf(), i)
  {
    var s := Crlf() + (line + tail);
    DoubleIsTwo(s, i);
    AtShift(Crlf(), line + tail, Crlf(), 0);
    NoBreakInside(line, tail, 0);
    BreakAt(s, 1);
  }

  /** Putting a line before a break moves the first blank line along. */
  lemma BlankBehindLine(line: Line, rest: seq<Byte>, k: nat)
    requires CrlfFree(line) && At(rest, Crlf(), 0) && First(rest, CrlfCrlf(), Some(k))
    ensures First(line + rest, CrlfCrlf(), Some(|line| + k))
  {
    forall i: nat | i < |line| + k
      ensures !At(line + rest, CrlfCrlf(), i)
    {
      if i < |line| {
        NoBreakInside(line, rest, i);
        DoubleIsTwo(line + rest, i);
      } else {
        AtShift(line, rest, CrlfCrlf(), i - |line|);
      }
    }
    AtShift(line, rest, CrlfCrlf(), k);
  }

  lemma BlankBehindBreak(line: Line, tail: seq<Byte>, k: nat)
    requires line != [] && CrlfFree(line) && At(tail, Crlf(), 0) && First(line + tail, CrlfCrlf(), Some(k))
    ensures First(Crlf() + (line + tail), CrlfCrlf(), Some(2 + k))
  {
    forall i: nat | i < 2 + k
      ensures !At(Crlf() + (line + tail), CrlfCrlf(), i)
    {
      if i < 2 {
        NoBlankBefore(line, tail, i);
      } else {
        AtShift(Crlf(), line + tail, CrlfCrlf(), i - 2);
      }
    }
    AtShift(Crlf(), line + tail, CrlfCrlf(), k);
  }

  /** The first blank line is the one behind the header lines. */
  lemma {:induction false} BlankBehindHeaders(headers: seq<Line>, body: seq<Byte>)
    requires HeaderLines(headers)
    ensures First(Rest(headers, body), CrlfCrlf(), Some(BlockSize(headers)))
    decreases |headers|
  {
    if headers == [] {
      assert Rest(headers, body)[0..4] == CrlfCrlf();
    } else {
      BlankBehindHeaders(headers[1..], body);
      RestStartsWithBreak(headers[1..], body);
      BlankBehindNext(headers[0], Rest(headers[1..], body), BlockSize(headers[1..]));
    }
  }

  lemma BlankBehindNext(line: Line, rest: seq<Byte>, k: nat)
    requires line != [] && CrlfFree(line) && At(rest, Crlf(), 0) && First(rest, CrlfCrlf(), Some(k))
    ensures First(Crlf() + line + rest, CrlfCrlf(), Some(2 + |line| + k))
  {
    BlankBehindLine(line, rest, k);
    BlankBehindBreak(line, rest, |line| + k);
    assert Crlf() + line + rest == Crlf() + (line + rest);
  }

  lemma {:induction false} BlockFits(headers: seq<Line>, body: seq<Byte>)
    ensures |Rest(headers, body)| == BlockSize(headers) + 4 + |body|
  {
    if headers != [] {
      BlockFits(headers[1..], body);
    }
  }

  lemma NextLine(prefix: seq<Byte>, headers: seq<Line>, body: seq<Byte>)
    requires headers != []
    ensures prefix + Rest(headers, body) == (prefix + Crlf() + headers[0]) + Rest(headers[1..], body)
  {
  }

  lemma Replaced(front: seq<Byte>, line: Line, back: seq<Byte>, host: seq<Byte>)
    ensures var head := front + line + back;
            && head[|front|..|front| + |line|] == line
            && Replace(head, (|front|, |front| + |line|), host) == front + HostLine(host) + back
  {
    var head := front + line + back;
    assert head[..|front|] == front && head[|front| + |line|..] == back;
  }

  /** Where the first Host line lies, when the first of `headers` starts at `pos`. */
  function HostAt(headers: seq<Line>, pos: nat): Option<(nat, nat)> {
    if headers == [] then None
    else if IsHostLine(headers[0]) then Some((pos, pos + |headers[0]|))
    else HostAt(headers[1..], pos + |headers[0]| + 2)
  }

  /** The lines in `head` from `pos` on, up to `headEnd`, are `headers`. */
  ghost predicate Layout(head: seq<Byte>, pos: nat, headEnd: nat, headers: seq<Line>)
    requires headEnd <= |head|
    decreases |headers|
  {
    if headers == [] then pos == headEnd + 2
    else
      var e := pos + |headers[0]|;
      && pos < e <= headEnd && head[pos..e] == headers[0]
      && (e < headEnd ==> Break(head, e, headEnd))
      && Layout(head, e + 2, headEnd, headers[1..])
  }

  lemma {:induction false} LayoutOfRest(head: seq<Byte>, prefix: seq<Byte>, headers: seq<Line>, body: seq<Byte>,
                                        headEnd: nat)
    requires HeaderLines(headers) && head == prefix + Rest(headers, body)
    requires headEnd == |prefix| + BlockSize(headers) <= |head|
    ensures Layout(head, |prefix| + 2, headEnd, headers)
    decreases |headers|
  {
    if headers != [] {
      var next := prefix + Crlf() + headers[0];
      NextLine(prefix, headers, body);
      LineBetween(head, prefix + Crlf(), headers[0], Rest(headers[1..], body));
      RestStartsWithBreak(headers[1..], body);
      BreakBehind(head, next, Rest(headers[1..], body));
      LayoutOfRest(head, next, headers[1..], body, headEnd);
    }
  }

  lemma LineBetween(head: seq<Byte>, front: seq<Byte>, line: Line, rest: seq<Byte>)
    requires head == front + line + rest
    ensures |front| + |line| <= |head| && head[|front|..|front| + |line|] == line
  {
  }

  lemma BreakBehind(head: seq<Byte>, front: seq<Byte>, rest: seq<Byte>)
    requires head == front + rest && At(rest, Crlf(), 0)
    ensures |front| + 1 < |head| && head[|front|] == CR && head[|front| + 1] == LF
  {
    BreakAt(rest, 0);
  }

  lemma LineEndsThere(head: seq<Byte>, pos: nat, e: nat, headEnd: nat)
    requires pos < e <= headEnd <= |head| && CrlfFree(head[pos..e])
    requires e < headEnd ==> Break(head, e, headEnd)
    ensures LineEnd(head, pos, headEnd) == e
  {
    forall i | pos <= i < e
      ensures !Break(head, i, headEnd)
    {
      BreakAt(head[pos..e], i - pos);
    }
    LineEndUnique(head, pos, headEnd, e);
  }

  /** The loop finds the first Host line, line by line. */
  lemma {:induction false} ScanFindsHost(head: seq<Byte>, pos: nat, headEnd: nat, headers: seq<Line>)
    requires headEnd <= |head| && HeaderLines(headers) && Layout(head, pos, headEnd, headers)
    ensures HostRange(head, pos, headEnd) == HostAt(headers, pos)
    decreases |headers|
  {
    if headers != [] {
      var e := pos + |headers[0]|;
      LineEndsThere(head, pos, e, headEnd);
      ScanFindsHost(head, e + 2, headEnd, headers[1..]);
    }
  }

  /** Everything before the `k`-th line. */
  function Front(prefix: seq<Byte>, headers: seq<Line>, k: nat): seq<Byte>
    requires k < |headers|
    decreases k
  {
    if k == 0 then prefix + Crlf() else Front(prefix + Crlf() + headers[0], headers[1..], k - 1)
  }

  lemma {:induction false} SplitAtLine(prefix: seq<Byte>, headers: seq<Line>, body: seq<Byte>, k: nat)
    requires k < |headers|
    ensures prefix + Rest(headers, body) == Front(prefix, headers, k) + headers[k] + Rest(headers[k + 1..], body)
    decreases k
  {
    NextLine(prefix, headers, body);
    if k > 0 {
      SplitAtLine(prefix + Crlf() + headers[0], headers[1..], body, k - 1);
      assert headers[1..][k..] == headers[k + 1..];
    }
  }

  lemma {:induction false} FrontOfUpdate(prefix: seq<Byte>, headers: seq<Line>, k: nat, line: Line)
    requires k < |headers|
    ensures Front(prefix, headers[k := line], k) == Front(prefix, headers, k)
    decreases k
  {
    if k > 0 {
      FrontOfUpdate(prefix + Crlf() + headers[0], headers[1..], k - 1, line);
      assert headers[k := line][1..] == headers[1..][k - 1 := line];
    }
  }

  lemma {:induction false} HostAtFront(prefix: seq<Byte>, headers: seq<Line>)
    requires FirstHost(headers) < |headers|
    ensures var k := FirstHost(headers); var front := Front(prefix, headers, k);
            HostAt(headers, |prefix| + 2) == Some((|front|, |front| + |headers[k]|))
    decreases |headers|
  {
    if !IsHostLine(headers[0]) {
      HostAtFront(prefix + Crlf() + headers[0], headers[1..]);
    }
  }

  /** Replacing that range replaces that line. */
  lemma ReplacesLine(head: seq<Byte>, prefix: seq<Byte>, headers: seq<Line>, body: seq<Byte>, host: seq<Byte>)
    requires FirstHost(headers) < |headers| && head == prefix + Rest(headers, body)
    ensures var range := HostAt(headers, |prefix| + 2);
            && range.Some? && range.value.0 <= range.value.1 <= |head|
            && Replace(head, range.value, host) == prefix + Rest(headers[FirstHost(headers) := HostLine(host)], body)
  {
    var k, line := FirstHost(headers), HostLine(host);
    HostAtFront(prefix, headers);
    SplitAtLine(prefix, headers, body, k);
    SplitAtLine(prefix, headers[k := line], body, k);
    FrontOfUpdate(prefix, headers, k, line);
    assert headers[k := line][k + 1..] == headers[k + 1..];
    Replaced(Front(prefix, headers, k), headers[k], Rest(headers[k + 1..], body), host);
  }

  lemma {:induction false} HostAtNone(headers: seq<Line>, pos: nat)
    ensures HostAt(headers, pos).None? <==> FirstHost(headers) == |headers|
  {
    if headers != [] {
      HostAtNone(headers[1..], pos + |headers[0]| + 2);
    }
  }

  lemma PrefixOfLine(m: seq<Byte>, line: Line, rest: seq<Byte>)
    requires CR !in m && rest != [] && rest[0] == CR
    ensures m <= line + rest <==> m <= line
  {
    if m <= line + rest {
      assert forall i | 0 <= i < |m| :: m[i] == (line + rest)[i] && m[i] in m;
      assert (line + rest)[|line|] == CR;
    }
  }

  lemma {:induction false} AnyOnLine(methods: seq<seq<Byte>>, line: Line, rest: seq<Byte>)
    requires rest != [] && rest[0] == CR && forall k | 0 <= k < |methods| :: CR !in methods[k]
    ensures StartsWithAny(line + rest, methods) <==> StartsWithAny(line, methods)
  {
    if methods != [] {
      PrefixOfLine(methods[0], line, rest);
      AnyOnLine(methods[1..], line, rest);
    }
  }

  lemma MethodsHaveNoBreak()
    ensures forall k | 0 <= k < |Methods()| :: CR !in Methods()[k]
  {
  }

  /** Only the request line decides whether the bytes look like a request. */
  lemma RequestLineDecides(request: Line, headers: seq<Line>, body: seq<Byte>)
    ensures LooksLikeHttp(Wire(request, headers, body)) <==> LooksLikeHttp(request)
  {
    MethodsHaveNoBreak();
    RestStartsWithBreak(headers, body);
    BreakAt(Rest(headers, body), 0);
    AnyOnLine(Methods(), request, Rest(headers, body));
  }

  /** Rewriting a complete request changes its first Host line into the given host, or puts that line first when
      there is none. The request line, every other header line, their order, and all bytes from the blank line on
      stay what they were. */
  lemma RewriteIsLineByLine(request: Line, headers: seq<Line>, body: seq<Byte>, host: seq<Byte>)
    requires CrlfFree(request) && HeaderLines(headers) && LooksLikeHttp(request)
    ensures Rewrite(Wire(request, headers, body), host) == Wire(request, WithHost(headers, host), body)
  {
    var head := Wire(request, headers, body);
    RequestLineDecides(request, headers, body);
    EndsFound(head, request, headers, body);
    BlockFits(headers, body);
    LayoutOfRest(head, request, headers, body, |request| + BlockSize(headers));
    RewriteLaidOut(head, host, |request|, |request| + BlockSize(headers), headers);
    SetHostLineByLine(head, request, headers, body, host);
  }

  lemma EndsFound(head: seq<Byte>, request: Line, headers: seq<Line>, body: seq<Byte>)
    requires CrlfFree(request) && HeaderLines(headers) && head == Wire(request, headers, body)
    ensures FindSubslice(head, Crlf()) == Some(|request|)
    ensures FindSubslice(head, CrlfCrlf()) == Some(|request| + BlockSize(headers))
  {
    RestStartsWithBreak(headers, body);
    BlankBehindHeaders(headers, body);
    BlankBehindLine(request, Rest(headers, body), BlockSize(headers));
    FirstIsFound(head, CrlfCrlf(), Some(|request| + BlockSize(headers)));
    LineEndsAtBreak(request, Rest(headers, body));
  }

  lemma SetHostLineByLine(head: seq<Byte>, request: Line, headers: seq<Line>, body: seq<Byte>, host: seq<Byte>)
    requires HeaderLines(headers) && head == Wire(request, headers, body)
    ensures var range := HostAt(headers, |request| + 2);
            && (range.Some? ==> range.value.0 <= range.value.1 <= |head|)
            && SetHost(head, |request|, range, host) == Wire(request, WithHost(headers, host), body)
  {
    HostAtNone(headers, |request| + 2);
    if FirstHost(headers) < |headers| {
      ReplacesLine(head, request, headers, body, host);
    } else {
      HostPutFirst(request, headers, body, host);
    }
  }

  lemma RewriteLaidOut(head: seq<Byte>, host: seq<Byte>, requestEnd: nat, headEnd: nat, headers: seq<Line>)
    requires LooksLikeHttp(head) && requestEnd <= headEnd <= |head|
    requires FindSubslice(head, Crlf()) == Some(requestEnd) && FindSubslice(head, CrlfCrlf()) == Some(headEnd)
    requires HeaderLines(headers) && Layout(head, requestEnd + 2, headEnd, headers)
    ensures var range := HostAt(headers, requestEnd + 2);
            && (range.Some? ==> range.value.0 <= range.value.1 <= |head|)
            && Rewrite(head, host) == SetHost(head, requestEnd, range, host)
  {
    ScanFindsHost(head, requestEnd + 2, headEnd, headers);
  }

  lemma HostPutFirst(request: Line, headers: seq<Line>, body: seq<Byte>, host: seq<Byte>)
    ensures Wire(request, headers, body)[..|request|] + Crlf() + HostLine(host)
            + Wire(request, headers, body)[|request|..]
         == Wire(request, [HostLine(host)] + headers, body)
  {
    var head := Wire(request, headers, body);
    assert ([HostLine(host)] + headers)[1..] == headers;
    assert head[..|request|] == request && head[|request|..] == Rest(headers, body);
  }

  // ---------------------------------------------------------------- all bytes

  ghost predicate Parses(s: seq<Byte>, request: Line, headers: seq<Line>, body: seq<Byte>) {
    CrlfFree(request) && HeaderLines(headers) && s == Wire(request, headers, body)
  }

  lemma LineBefore(s: seq<Byte>, i: nat)
    requires First(s, Crlf(), Some(i))
    ensures CrlfFree(s[..i])
  {
    forall j: nat
      ensures !At(s[..i], Crlf(), j)
    {
      BreakAt(s[..i], j);
      BreakAt(s, j);
    }
  }

  /** The first break comes at the blank line or two bytes or more before it. */
  lemma BreakBeforeBlank(s: seq<Byte>, i: nat, k: nat)
    requires First(s, Crlf(), Some(i)) && First(s, CrlfCrlf(), Some(k))
    ensures i == k || i + 2 <= k
  {
    DoubleIsTwo(s, k);
    BreakAt(s, i);
    BreakAt(s, k);
  }

  lemma BlankInRest(s: seq<Byte>, i: nat, k: nat)
    requires First(s, CrlfCrlf(), Some(k)) && i <= k
    ensures First(s[i..], CrlfCrlf(), Some(k - i))
  {
    assert s == s[..i] + s[i..];
    AtShift(s[..i], s[i..], CrlfCrlf(), k - i);
    forall j: nat | j < k - i
      ensures !At(s[i..], CrlfCrlf(), j)
    {
      AtShift(s[..i], s[i..], CrlfCrlf(), j);
    }
  }

  /** Bytes with a blank line in them are a request line, header lines and the rest, in one way at least. */
  lemma {:induction false} BlankLineParses(s: seq<Byte>, k: nat)
    requires First(s, CrlfCrlf(), Some(k))
    ensures exists request, headers, body :: Parses(s, request, headers, body)
    decreases |s|
  {
    DoubleIsTwo(s, k);
    FindIsFirst(s, Crlf());
    var i := FindSubslice(s, Crlf()).value;
    LineBefore(s, i);
    BreakBeforeBlank(s, i, k);
    if i == k {
      BlankParses(s, k);
    } else {
      BlankInRest(s, i + 2, k);
      BlankLineParses(s[i + 2..], k - i - 2);
      var line, headers, body :| Parses(s[i + 2..], line, headers, body);
      OneMoreLine(s, i, k, line, headers, body);
    }
  }

  lemma BlankParses(s: seq<Byte>, k: nat)
    requires At(s, CrlfCrlf(), k) && CrlfFree(s[..k])
    ensures Parses(s, s[..k], [], s[k + 4..])
  {
    assert forall j | 0 <= j < 4 :: s[k + j] == CrlfCrlf()[j];
    assert s[k..k + 4] == CrlfCrlf();
    assert s == s[..k] + (s[k..k + 4] + s[k + 4..]);
  }

  lemma OneMoreLine(s: seq<Byte>, i: nat, k: nat, line: Line, headers: seq<Line>, body: seq<Byte>)
    requires At(s, Crlf(), i) && CrlfFree(s[..i]) && First(s, CrlfCrlf(), Some(k)) && i < k
    requires Parses(s[i + 2..], line, headers, body)
    ensures Parses(s, s[..i], [line] + headers, body)
  {
    BreakAt(s, i);
    assert s[i..i + 2] == Crlf();
    assert s == s[..i] + s[i..i + 2] + s[i + 2..];
    assert ([line] + headers)[1..] == headers;
    if line == [] {
      RestStartsWithBreak(headers, body);
      assert s[i + 2..] == Rest(headers, body);
      AtShift(s[..i + 2], s[i + 2..], Crlf(), 0);
      assert s == s[..i + 2] + s[i + 2..];
      DoubleIsTwo(s, i);
      assert false;
    }
  }

  ghost predicate Complete(head: seq<Byte>) {
    LooksLikeHttp(head) && exists k :: At(head, CrlfCrlf(), k)
  }

  /** Of all bytes, those that do not look like a request or have no blank line pass through; all others are
      rewritten line by line. */
  lemma RewriteOfAnyBytes(head: seq<Byte>, host: seq<Byte>)
    ensures !Complete(head) ==> Rewrite(head, host) == head
    ensures Complete(head) ==>
      exists request, headers, body ::
        && Parses(head, request, headers, body) && LooksLikeHttp(request)
        && Rewrite(head, host) == Wire(request, WithHost(headers, host), body)
  {
    FindIsFirst(head, CrlfCrlf());
    if Complete(head) {
      BlankLineParses(head, FindSubslice(head, CrlfCrlf()).value);
      var request, headers, body :| Parses(head, request, headers, body);
      RequestLineDecides(request, headers, body);
      RewriteIsLineByLine(request, headers, body, host);
    }
  }

  // ---------------------------------------------------------------- rewriting twice

  lemma HostLineIsLine(host: seq<Byte>)
    requires CrlfFree(host)
    ensures HostLine(host) != [] && CrlfFree(HostLine(host))
  {
    forall i: nat
      ensures !At(HostLine(host), Crlf(), i)
    {
      BreakAt(HostLine(host), i);
      if i >= 6 {
        BreakAt(host, i - 6);
      }
    }
  }

  lemma HostLineIsHostLine(host: seq<Byte>)
    ensures IsHostLine(HostLine(host))
  {
    var line := HostLine(host);
    assert line[0] == 72 && line[1] == 111 && line[2] == 115 && line[3] == 116 && line[4] == 58;
  }

  lemma FirstHostIs(headers: seq<Line>, k: nat)
    requires k < |headers| && IsHostLine(headers[k]) && forall i | 0 <= i < k :: !IsHostLine(headers[i])
    ensures FirstHost(headers) == k
  {
  }

  lemma WithHostTwice(headers: seq<Line>, host: seq<Byte>)
    ensures WithHost(WithHost(headers, host), host) == WithHost(headers, host)
  {
    var k := FirstHost(headers);
    HostLineIsHostLine(host);
    if k < |headers| {
      FirstHostIs(headers[k := HostLine(host)], k);
    } else {
      FirstHostIs([HostLine(host)] + headers, 0);
    }
  }

  /** Rewriting twice is rewriting once when the host holds no line break. */
  lemma RewriteTwice(head: seq<Byte>, host: seq<Byte>)
    requires CrlfFree(host)
    ensures Rewrite(Rewrite(head, host), host) == Rewrite(head, host)
  {
    RewriteOfAnyBytes(head, host);
    if Complete(head) {
      var request, headers, body :|
        && Parses(head, request, headers, body) && LooksLikeHttp(request)
        && Rewrite(head, host) == Wire(request, WithHost(headers, host), body);
      HostLineIsLine(host);
      RewriteIsLineByLine(request, WithHost(headers, host), body, host);
      WithHostTwice(headers, host);
    }
  }

  /** "GET " and a blank line. */
  function Bare(): seq<Byte> {
    Wire([71, 69, 84, 32], [], [])
  }

  /** With a line break in the host, the second rewriting replaces only the part before the break. */
  lemma SecondRewriteGrows(host: seq<Byte>, i: nat)
    requires First(host, Crlf(), Some(i))
    ensures |Rewrite(Rewrite(Bare(), host), host)| > |Rewrite(Bare(), host)|
  {
    var get: Line := [71, 69, 84, 32];
    var once := Wire(get, [HostLine(host)], []);
    GetIsOneLine();
    RewriteIsLineByLine(get, [], [], host);
    assert WithHost([], host) == [HostLine(host)];
    var tail := host[i..] + Rest([], []);
    LineBefore(host, i);
    HostLineIsLine(host[..i]);
    HostLineIsHostLine(host[..i]);
    AtPrefix(host[i..], Rest([], []), host, i);
    assert once == get + (Crlf() + (HostLine(host[..i]) + tail)) by {
      assert HostLine(host) == HostLine(host[..i]) + host[i..];
      assert [HostLine(host)][1..] == [];
    }
    AtShift(host[i..], Rest([], []), CrlfCrlf(), 0);
    assert At(tail, CrlfCrlf(), |host[i..]|);
    FirstLineReplaced(once, get, HostLine(host[..i]), tail, host);
  }

  lemma AtPrefix(s: seq<Byte>, more: seq<Byte>, host: seq<Byte>, i: nat)
    requires At(host, Crlf(), i) && s == host[i..]
    ensures At(s + more, Crlf(), 0)
  {
    BreakAt(host, i);
    BreakAt(s + more, 0);
  }

  lemma GetIsOneLine()
    ensures CrlfFree([71, 69, 84, 32]) && LooksLikeHttp([71, 69, 84, 32])
  {
    forall i: nat
      ensures !At([71, 69, 84, 32], Crlf(), i)
    {
      BreakAt([71, 69, 84, 32], i);
    }
  }

  /** A line ended by a break can be read in one way only. */
  lemma SameLine(a: Line, b: Line, s: seq<Byte>, t: seq<Byte>)
    requires CrlfFree(a) && CrlfFree(b) && At(s, Crlf(), 0) && At(t, Crlf(), 0) && a + s == b + t
    ensures a == b && s == t
  {
    LineEndsAtBreak(a, s);
    LineEndsAtBreak(b, t);
    assert (a + s)[..|a|] == a && (b + t)[..|b|] == b;
    assert (a + s)[|a|..] == s && (b + t)[|b|..] == t;
  }

  lemma FirstLineIs(request: Line, headers: seq<Line>, body: seq<Byte>, first: Line, line: Line, tail: seq<Byte>)
    requires Parses(first + (Crlf() + (line + tail)), request, headers, body)
    requires CrlfFree(first) && line != [] && CrlfFree(line) && At(tail, Crlf(), 0)
    ensures request == first && headers != [] && headers[0] == line
  {
    RestStartsWithBreak(headers, body);
    BreakAt(Crlf() + (line + tail), 0);
    SameLine(request, first, Rest(headers, body), Crlf() + (line + tail));
    var inner := Rest(headers, body)[2..];
    assert inner == line + tail;
    NoBreakInside(line, tail, 0);
    BreakAt(inner, 0);
    assert headers == [] ==> inner == Crlf() + body;
    if headers != [] {
      assert inner == headers[0] + Rest(headers[1..], body);
      RestStartsWithBreak(headers[1..], body);
      SameLine(headers[0], line, Rest(headers[1..], body), tail);
    }
  }

  /** Whatever follows it, a first header line that is a Host line is replaced. */
  lemma FirstLineReplaced(head: seq<Byte>, request: Line, line: Line, tail: seq<Byte>, host: seq<Byte>)
    requires CrlfFree(request) && LooksLikeHttp(request) && line != [] && CrlfFree(line) && IsHostLine(line)
    requires At(tail, Crlf(), 0) && head == request + (Crlf() + (line + tail)) && exists k :: At(tail, CrlfCrlf(), k)
    ensures |Rewrite(head, host)| == |head| - |line| + |HostLine(host)|
  {
    var k :| At(tail, CrlfCrlf(), k);
    var front := request + Crlf() + line;
    assert head == front + tail;
    AtShift(front, tail, CrlfCrlf(), k);
    FindIsFirst(head, CrlfCrlf());
    BlankLineParses(head, FindSubslice(head, CrlfCrlf()).value);
    var read, headers, body :| Parses(head, read, headers, body);
    FirstLineIs(read, headers, body, request, line, tail);
    RewriteIsLineByLine(request, headers, body, host);
    FirstHostIs(headers, 0);
    BlockFits(headers, body);
    BlockFits(headers[0 := HostLine(host)], body);
    assert headers[0 := HostLine(host)][1..] == headers[1..];
  }

  /** Rewriting is idempotent exactly for hosts without a line break. */
  lemma IdempotentIff(host: seq<Byte>)
    ensures (forall head :: Rewrite(Rewrite(head, host), host) == Rewrite(head, host)) <==> CrlfFree(host)
  {
    if CrlfFree(host) {
      forall head
        ensures Rewrite(Rewrite(head, host), host) == Rewrite(head, host)
      {
        RewriteTwice(head, host);
      }
    } else {
      FindIsFirst(host, Crlf());
      SecondRewriteGrows(host, FindSubslice(host, Crlf()).value);
    }
  }
}
