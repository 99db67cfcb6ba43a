/** The render filter that hides the echo of injected commands. It sees the terminal stream in arbitrary
    chunks, drops every line that contains a marker, and lets everything else through as early as it can. */
module HiddenEcho {
  import opened Bytes

  const PARTIAL_HEAD := 8

  predicate Occurs(m: string, s: string, i: int) {
    0 <= i <= |s| - |m| && s[i..i + |m|] == m
  }

  predicate Contains(s: string, m: string) {
    exists i | 0 <= i <= |s| - |m| :: Occurs(m, s, i)
  }

  predicate EndsWith(s: string, m: string) {
    |m| <= |s| && s[|s| - |m|..] == m
  }

  predicate HasMarker(markers: seq<string>, s: string) {
    exists m | m in markers :: Contains(s, m)
  }

  function Head(m: string): string {
    if |m| <= PARTIAL_HEAD then m else m[..PARTIAL_HEAD]
  }

  /** A full marker, or the first 8 characters of one. */
  predicate Suspicious(markers: seq<string>, s: string) {
    exists m | m in markers :: Contains(s, m) || Contains(s, Head(m))
  }

  predicate EndsInside(markers: seq<string>, buf: string, k: nat) {
    exists m | m in markers :: k < |m| && EndsWith(buf, m[..k])
  }

  /** The largest k up to `max` such that `buf` ends with the first k characters of a longer marker. */
  function Overlap(markers: seq<string>, buf: string, max: nat): (k: nat)
    ensures k <= max
    ensures k > 0 ==> EndsInside(markers, buf, k)
    ensures forall j | k < j <= max :: !EndsInside(markers, buf, j)
  {
    if max == 0 || EndsInside(markers, buf, max) then max else Overlap(markers, buf, max - 1)
  }

  function Longest(markers: seq<string>): (n: nat)
    ensures forall m | m in markers :: |m| <= n
  {
    if markers == [] then 0
    else
      var rest := Longest(markers[1..]);
      assert forall m | m in markers :: m == markers[0] || m in markers[1..];
      if |markers[0]| > rest then |markers[0]| else rest
  }

  function MaxOverlap(markers: seq<string>, buf: string): nat {
    var n := if Longest(markers) == 0 then 0 else Longest(markers) - 1;
    if |buf| < n then |buf| else n
  }

  /** What happens to an unfinished line: emitted part and part held back. */
  function Hold(markers: seq<string>, line: string): (string, string) {
    if Suspicious(markers, line) then ("", line)
    else
      var keep := Overlap(markers, line, MaxOverlap(markers, line));
      (line[..|line| - keep], line[|line| - keep..])
  }

  function NewlineAt(s: string): (n: int)
    ensures n < |s|
    ensures n >= 0 ==> s[n] == '\n'
    ensures forall i | 0 <= i < if n < 0 then |s| else n :: s[i] != '\n'
  {
    NewlineFrom(s, 0)
  }

  function NewlineFrom(s: string, start: nat): (n: int)
    requires start <= |s|
    ensures n < |s|
    ensures n >= 0 ==> start <= n && s[n] == '\n'
    ensures forall i | start <= i < if n < 0 then |s| else n :: s[i] != '\n'
    decreases |s| - start
  {
    if start == |s| then -1 else if s[start] == '\n' then start else NewlineFrom(s, start + 1)
  }

  function LineOut(markers: seq<string>, line: string): string {
    if HasMarker(markers, line) then "" else line
  }

  /** One call of the filter on what was held back plus the new chunk. */
  function Filter(markers: seq<string>, buf: string): (string, string)
    decreases |buf|
  {
    var nl := NewlineAt(buf);
    if nl < 0 then Hold(markers, buf)
    else
      var rest := Filter(markers, buf[nl + 1..]);
      (LineOut(markers, buf[..nl + 1]) + rest.0, rest.1)
  }

  function FilterAll(markers: seq<string>, chunks: seq<string>): (string, string) {
    if chunks == [] then ("", "")
    else
      var (out, pending) := FilterAll(markers, chunks[..|chunks| - 1]);
      var (more, pending') := Filter(markers, pending + chunks[|chunks| - 1]);
      (out + more, pending')
  }

  /** `out` and what the filter makes of `pending` are `whole`. */
  ghost predicate EmittedSoFar(markers: seq<string>, whole: (string, string), out: string, pending: string) {
    whole == (out + Filter(markers, pending).0, Filter(markers, pending).1)
  }

  lemma NextLine(markers: seq<string>, whole: (string, string), out: string, buf: string, nl: nat)
    requires EmittedSoFar(markers, whole, out, buf) && NewlineAt(buf) == nl
    ensures var line := buf[..nl + 1];
            EmittedSoFar(markers, whole, if HasMarker(markers, line) then out else out + line, buf[nl + 1..])
  {
    FirstLine(markers, buf, nl);
    EmittedMoves(markers, whole, out, LineOut(markers, buf[..nl + 1]), buf, buf[nl + 1..]);
    AppendNothing(out);
  }

  lemma FirstLine(markers: seq<string>, buf: string, nl: nat)
    requires NewlineAt(buf) == nl
    ensures Filter(markers, buf).0 == LineOut(markers, buf[..nl + 1]) + Filter(markers, buf[nl + 1..]).0
    ensures Filter(markers, buf).1 == Filter(markers, buf[nl + 1..]).1
  {
    var rest := Filter(markers, buf[nl + 1..]);
    assert Filter(markers, buf) == (LineOut(markers, buf[..nl + 1]) + rest.0, rest.1);
  }

  lemma EmittedMoves(markers: seq<string>, whole: (string, string), out: string, more: string, buf: string,
                     rest: string)
    requires EmittedSoFar(markers, whole, out, buf)
    requires Filter(markers, buf) == (more + Filter(markers, rest).0, Filter(markers, rest).1)
    ensures EmittedSoFar(markers, whole, out + more, rest)
  {
    Associative(out, more, Filter(markers, rest).0);
  }

  class HiddenEchoFilter {
    const markers: seq<string>
    var pending: string

    constructor (literals: seq<string>)
      ensures pending == ""
      ensures forall m :: m in markers <==> m in literals && m != ""
    {
      var kept: seq<string> := [];
      for i := 0 to |literals|
        invariant forall m :: m in kept <==> m in literals[..i] && m != ""
      {
        if literals[i] != "" {
          kept := kept + [literals[i]];
        }
      }
      markers := kept;
      pending := "";
    }

    method MarkerPrefixOverlap(buf: string) returns (k: nat)
      ensures k == Overlap(markers, buf, MaxOverlap(markers, buf))
    {
      k := MaxOverlap(markers, buf);
      while k > 0 && !EndsInside(markers, buf, k)
        invariant Overlap(markers, buf, k) == Overlap(markers, buf, MaxOverlap(markers, buf))
      {
        k := k - 1;
      }
    }

    /** The loop over the finished lines. */
    method EmitLines() returns (out: string)
      modifies this`pending
      ensures NewlineAt(pending) < 0
      ensures EmittedSoFar(markers, Filter(markers, old(pending)), out, pending)
    {
      out := "";
      ghost var whole := Filter(markers, pending);
      PrependNothing(whole.0);
      var nl := NewlineAt(pending);
      while nl >= 0
        invariant nl == NewlineAt(pending) && EmittedSoFar(markers, whole, out, pending)
        decreases |pending|
      {
        NextLine(markers, whole, out, pending, nl);
        var line := pending[..nl + 1];
        pending := pending[nl + 1..];
        if !HasMarker(markers, line) {
          out := out + line;
        }
        nl := NewlineAt(pending);
      }
    }

    method Feed(chunk: string) returns (out: string)
      modifies this`pending
      ensures (out, pending) == Filter(markers, old(pending) + chunk)
    {
      pending := pending + chunk;
      out := EmitLines();
      if Suspicious(markers, pending) {
        AppendNothing(out);
        return;
      }
      var keep := MarkerPrefixOverlap(pending);
      out := out + pending[..|pending| - keep];
      pending := pending[|pending| - keep..];
    }
  }

  /** From position `i` on, `s` is a marker or could still become one. */
  ghost predicate Threat(m: string, s: string, i: int) {
    0 <= i < |s| && if |m| <= |s| - i then s[i..i + |m|] == m else s[i..] == m[..|s| - i]
  }

  /** Emitting the first `n` characters of `s` emits no part of a marker, whatever follows. */
  ghost predicate Safe(markers: seq<string>, s: string, n: nat) {
    n <= |s| && forall m, i | m in markers && Threat(m, s, i) :: n <= i
  }

  /** A finished line and how much of it has been emitted. */
  datatype Line = Line(text: string, shown: nat)

  ghost predicate LineFair(markers: seq<string>, line: Line) {
    && line.shown <= |line.text| && line.text != ""
    && line.text[|line.text| - 1] == '\n' && '\n' !in line.text[..|line.text| - 1]
    && (if HasMarker(markers, line.text)
        then forall m, i | m in markers && Occurs(m, line.text, i) :: line.shown <= i
        else line.shown == |line.text|)
  }

  ghost predicate AllFair(markers: seq<string>, lines: seq<Line>) {
    lines == [] || (AllFair(markers, lines[..|lines| - 1]) && LineFair(markers, lines[|lines| - 1]))
  }

  function Texts(lines: seq<Line>): string {
    if lines == [] then "" else Texts(lines[..|lines| - 1]) + lines[|lines| - 1].text
  }

  function Shown(lines: seq<Line>): string {
    if lines == [] then "" else Shown(lines[..|lines| - 1]) + ShownOf(lines[|lines| - 1])
  }

  function ShownOf(l: Line): string {
    if l.shown <= |l.text| then l.text[..l.shown] else l.text
  }

  /** The stream is finished lines and an unfinished one. Lines without a marker were emitted whole; of a line
      with a marker, and of the unfinished one, a prefix ending before the first marker. */
  ghost predicate Emitted(markers: seq<string>, stream: string, out: string, lines: seq<Line>, last: Line) {
    && AllFair(markers, lines)
    && '\n' !in last.text
    && stream == Texts(lines) + last.text
    && last.shown <= |last.text|
    && out == Shown(lines) + last.text[..last.shown]
    && Safe(markers, last.text, last.shown)
  }

  /** More of `t` could make it a marker. */
  predicate BeginsMarker(markers: seq<string>, t: string) {
    exists m | m in markers :: |t| < |m| && m[..|t|] == t
  }

  /** Of `line` all is shown but an end that could begin a marker, and no longer end could. */
  ghost predicate LeastHeld(markers: seq<string>, line: string, shown: nat)
    requires shown <= |line|
  {
    && (shown < |line| ==> BeginsMarker(markers, line[shown..]))
    && forall i | 0 <= i < shown :: !BeginsMarker(markers, line[i..])
  }

  /** The rest of the unfinished line is held back, and unless that line is suspicious it is shorter than 8 and no
      more than need be. */
  ghost predicate Withheld(markers: seq<string>, pending: string, last: Line)
    requires last.shown <= |last.text|
  {
    && pending == last.text[last.shown..]
    && (Suspicious(markers, last.text)
        || (|pending| < PARTIAL_HEAD && LeastHeld(markers, last.text, last.shown)))
  }

  ghost predicate Explains(markers: seq<string>, stream: string, out: string, pending: string,
                           lines: seq<Line>, last: Line) {
    Emitted(markers, stream, out, lines, last) && Withheld(markers, pending, last)
  }

  lemma SafeExtends(markers: seq<string>, s: string, more: string, n: nat)
    requires Safe(markers, s, n)
    ensures Safe(markers, s + more, n)
  {
    forall m, i | m in markers && Threat(m, s + more, i)
      ensures n <= i
    {
      if i < |s| {
        var t := s + more;
        if |m| <= |s| - i {
          assert s[i..i + |m|] == t[i..i + |m|];
        } else if |m| <= |t| - i {
          assert s[i..] == t[i..i + |m|][..|s| - i];
        } else {
          assert s[i..] == t[i..][..|s| - i];
        }
        assert Threat(m, s, i);
      }
    }
  }

  lemma ContainsWithin(s: string, n: nat, m: string)
    requires n <= |s| && Contains(s[n..], m)
    ensures Contains(s, m)
  {
    var i :| 0 <= i <= |s[n..]| - |m| && Occurs(m, s[n..], i);
    assert s[n + i..n + i + |m|] == s[n..][i..i + |m|];
    assert Occurs(m, s, n + i);
  }

  /** What is already safely emitted does not matter for finding a marker. */
  lemma MarkerBeyond(markers: seq<string>, s: string, n: nat)
    requires Safe(markers, s, n) && forall m | m in markers :: m != ""
    ensures HasMarker(markers, s[n..]) == HasMarker(markers, s)
  {
    if HasMarker(markers, s) {
      var m :| m in markers && Contains(s, m);
      var i :| 0 <= i <= |s| - |m| && Occurs(m, s, i);
      assert Threat(m, s, i);
      assert s[n..][i - n..i - n + |m|] == s[i..i + |m|];
      assert Occurs(m, s[n..], i - n);
      assert Contains(s[n..], m);
    } else if HasMarker(markers, s[n..]) {
      var m :| m in markers && Contains(s[n..], m);
      ContainsWithin(s, n, m);
    }
  }

  lemma SuspiciousWithin(markers: seq<string>, s: string, n: nat)
    requires n <= |s| && Suspicious(markers, s[n..])
    ensures Suspicious(markers, s)
  {
    var m :| m in markers && (Contains(s[n..], m) || Contains(s[n..], Head(m)));
    if Contains(s[n..], m) { ContainsWithin(s, n, m); } else { ContainsWithin(s, n, Head(m)); }
  }

  /** A tail that ends with 8 or more characters of a marker is suspicious. */
  lemma LongOverlapIsSuspicious(markers: seq<string>, s: string, m: string, k: nat)
    requires m in markers && PARTIAL_HEAD <= k < |m| && EndsWith(s, m[..k])
    ensures Suspicious(markers, s)
  {
    var i := |s| - k;
    assert s[i..i + PARTIAL_HEAD] == s[i..][..PARTIAL_HEAD] == m[..k][..PARTIAL_HEAD] == m[..PARTIAL_HEAD];
    assert Occurs(Head(m), s, i);
    assert Contains(s, Head(m));
  }

  lemma FullThreatIsSuspicious(markers: seq<string>, s: string, n: nat, m: string, i: int)
    requires m in markers && Threat(m, s, i) && |m| <= |s| - i && n <= i
    ensures Suspicious(markers, s[n..])
  {
    assert s[n..][i - n..i - n + |m|] == s[i..i + |m|];
    assert Occurs(m, s[n..], i - n);
  }

  /** Every threat lies in what is held back. */
  lemma ThreatIsHeld(markers: seq<string>, s: string, n: nat, m: string, i: int)
    requires Safe(markers, s, n) && !Suspicious(markers, s[n..])
    requires m in markers && Threat(m, s, i)
    ensures |s| - Overlap(markers, s[n..], MaxOverlap(markers, s[n..])) <= i
  {
    var p := s[n..];
    var k := |s| - i;
    assert n <= i;
    if |m| <= k {
      FullThreatIsSuspicious(markers, s, n, m, i);
    } else {
      assert p[|p| - k..] == s[i..];
      assert EndsWith(p, m[..k]);
      assert EndsInside(markers, p, k);
      assert k <= MaxOverlap(markers, p);
    }
  }

  lemma OverlapIsShort(markers: seq<string>, p: string)
    requires !Suspicious(markers, p)
    ensures Overlap(markers, p, MaxOverlap(markers, p)) < PARTIAL_HEAD
  {
    var keep := Overlap(markers, p, MaxOverlap(markers, p));
    if keep >= PARTIAL_HEAD {
      var m :| m in markers && keep < |m| && EndsWith(p, m[..keep]);
      LongOverlapIsSuspicious(markers, p, m, keep);
    }
  }

  lemma OverlapFits(markers: seq<string>, p: string)
    ensures Overlap(markers, p, MaxOverlap(markers, p)) <= |p|
  {
  }

  lemma BeginsWith(markers: seq<string>, p: string, k: nat)
    requires k <= |p| && EndsInside(markers, p, k)
    ensures BeginsMarker(markers, p[|p| - k..])
  {
    var m :| m in markers && k < |m| && EndsWith(p, m[..k]);
    assert p[|p| - k..] == m[..k];
  }

  lemma OverlapBegins(markers: seq<string>, p: string)
    ensures var keep := Overlap(markers, p, MaxOverlap(markers, p));
            keep <= |p| && (keep > 0 ==> BeginsMarker(markers, p[|p| - keep..]))
  {
    OverlapFits(markers, p);
    var keep := Overlap(markers, p, MaxOverlap(markers, p));
    if keep > 0 {
      BeginsWith(markers, p, keep);
    }
  }

  /** An end of the line that could begin a marker lies in what is held back. */
  lemma BeginningIsHeld(markers: seq<string>, s: string, n: nat, i: nat)
    requires Safe(markers, s, n) && i < |s| && BeginsMarker(markers, s[i..])
    ensures |s| - Overlap(markers, s[n..], MaxOverlap(markers, s[n..])) <= i
  {
    var p, k := s[n..], |s| - i;
    var m :| m in markers && |s[i..]| < |m| && m[..|s[i..]|] == s[i..];
    assert Threat(m, s, i);
    assert p[|p| - k..] == s[i..];
    assert EndsWith(p, m[..k]);
    assert EndsInside(markers, p, k);
    assert k <= MaxOverlap(markers, p);
  }

  lemma NoLongerBegins(markers: seq<string>, s: string, n: nat, cut: nat)
    requires Safe(markers, s, n) && cut <= |s|
    requires cut == |s| - Overlap(markers, s[n..], MaxOverlap(markers, s[n..]))
    ensures forall i | 0 <= i < cut :: !BeginsMarker(markers, s[i..])
  {
    forall i | 0 <= i < cut
      ensures !BeginsMarker(markers, s[i..])
    {
      if BeginsMarker(markers, s[i..]) {
        BeginningIsHeld(markers, s, n, i);
      }
    }
  }

  lemma HeldBegins(markers: seq<string>, s: string, n: nat, cut: nat)
    requires n <= |s| && cut <= |s|
    requires cut == |s| - Overlap(markers, s[n..], MaxOverlap(markers, s[n..]))
    ensures cut < |s| ==> BeginsMarker(markers, s[cut..])
  {
    OverlapBegins(markers, s[n..]);
    assert n <= cut && s[n..][cut - n..] == s[cut..];
  }

  /** Cut in front of the longest end that could begin a marker, no more is held back than need be. */
  lemma HoldIsLeast(markers: seq<string>, s: string, n: nat, cut: nat)
    requires Safe(markers, s, n) && cut <= |s|
    requires cut == |s| - Overlap(markers, s[n..], MaxOverlap(markers, s[n..]))
    ensures LeastHeld(markers, s, cut)
  {
    HeldBegins(markers, s, n, cut);
    NoLongerBegins(markers, s, n, cut);
  }

  /** Without suspicion the cut is in front of the overlap. */
  lemma HoldCuts(markers: seq<string>, s: string, n: nat)
    requires n <= |s| && !Suspicious(markers, s[n..])
    ensures var keep := Overlap(markers, s[n..], MaxOverlap(markers, s[n..])); var (out, held) := Hold(markers, s[n..]);
            keep <= |s| - n && n + |out| == |s| - keep && |held| == keep && s[n..] == out + held
  {
    OverlapFits(markers, s[n..]);
  }

  /** Holding an unfinished line back keeps what is emitted safe and the held part short. Of a suspicious rest nothing
      is emitted; of any other, all but the longest end that could begin a marker. */
  lemma HoldIsSafe(markers: seq<string>, s: string, n: nat)
    requires Safe(markers, s, n)
    ensures var (out, held) := Hold(markers, s[n..]);
            && s[n..] == out + held
            && Safe(markers, s, n + |out|)
            && (Suspicious(markers, s) || |held| < PARTIAL_HEAD)
            && (if Suspicious(markers, s[n..]) then out == "" else LeastHeld(markers, s, n + |out|))
  {
    if Suspicious(markers, s[n..]) {
      SuspiciousWithin(markers, s, n);
      PrependNothing(s[n..]);
    } else {
      HoldCuts(markers, s, n);
      OverlapIsShort(markers, s[n..]);
      OverlapIsSafe(markers, s, n);
      HoldIsLeast(markers, s, n, n + |Hold(markers, s[n..]).0|);
    }
  }

  lemma HeldIsWithheld(markers: seq<string>, text: string, n: nat)
    requires Safe(markers, text, n)
    ensures var (out, held) := Hold(markers, text[n..]);
            n + |out| <= |text| && Withheld(markers, held, Line(text, n + |out|))
  {
    HoldIsSafe(markers, text, n);
    var (out, held) := Hold(markers, text[n..]);
    Cut(text, n, out, held);
    if Suspicious(markers, text[n..]) {
      SuspiciousWithin(markers, text, n);
    }
  }

  lemma OverlapIsSafe(markers: seq<string>, s: string, n: nat)
    requires Safe(markers, s, n) && !Suspicious(markers, s[n..])
    ensures var keep := Overlap(markers, s[n..], MaxOverlap(markers, s[n..]));
            keep <= |s| - n && Safe(markers, s, |s| - keep)
  {
    var keep := Overlap(markers, s[n..], MaxOverlap(markers, s[n..]));
    OverlapFits(markers, s[n..]);
    forall m, i | m in markers && Threat(m, s, i)
      ensures |s| - keep <= i
    {
      ThreatIsHeld(markers, s, n, m, i);
    }
  }

  lemma TextsSnoc(lines: seq<Line>, l: Line)
    ensures Texts(lines + [l]) == Texts(lines) + l.text
    ensures Shown(lines + [l]) == Shown(lines) + ShownOf(l)
  {
    assert (lines + [l])[..|lines|] == lines;
  }

  lemma Cut(text: string, n: nat, out: string, held: string)
    requires n <= |text| && text[n..] == out + held
    ensures n + |out| <= |text|
    ensures text[..n + |out|] == text[..n] + out
    ensures text[n + |out|..] == held
  {
  }

  lemma EmittedMore(markers: seq<string>, stream: string, shown: string, lines: seq<Line>, last: Line,
                    more: string, out: string)
    requires Emitted(markers, stream, shown, lines, last) && '\n' !in more
    requires Safe(markers, last.text + more, last.shown + |out|)
    requires (last.text + more)[..last.shown + |out|] == last.text[..last.shown] + out
    ensures Emitted(markers, stream + more, shown + out, lines, Line(last.text + more, last.shown + |out|))
  {
    Associative(Texts(lines), last.text, more);
    Associative(Shown(lines), last.text[..last.shown], out);
  }

  lemma HoldExplained(markers: seq<string>, stream: string, shown: string, lines: seq<Line>, last: Line, more: string)
      returns (last': Line)
    requires Emitted(markers, stream, shown, lines, last) && '\n' !in more
    ensures var buf := last.text[last.shown..] + more;
            && Explains(markers, stream + more, shown + Hold(markers, buf).0, Hold(markers, buf).1, lines, last')
            && ShownOf(last') == ShownOf(last) + Hold(markers, buf).0
  {
    var text := last.text + more;
    var buf := last.text[last.shown..] + more;
    var n := last.shown;
    assert buf == text[n..];
    SafeExtends(markers, last.text, more, n);
    HoldIsSafe(markers, text, n);
    HeldIsWithheld(markers, text, n);
    var out, held := Hold(markers, buf).0, Hold(markers, buf).1;
    Cut(text, n, out, held);
    assert text[..n] == last.text[..n];
    EmittedMore(markers, stream, shown, lines, last, more, out);
    last' := Line(text, n + |out|);
  }

  /** The first line of the buffer is settled, the rest is filtered. */
  lemma FilterLine(markers: seq<string>, buf: string, before: string)
    requires NewlineAt(buf) >= 0
    ensures var line, rest := buf[..NewlineAt(buf) + 1], buf[NewlineAt(buf) + 1..];
            && before + Filter(markers, buf).0 == before + LineOut(markers, line) + Filter(markers, rest).0
            && Filter(markers, buf).1 == Filter(markers, rest).1
  {
    var nl := NewlineAt(buf);
    Associative(before, LineOut(markers, buf[..nl + 1]), Filter(markers, buf[nl + 1..]).0);
  }

  /** Of a line with a marker no more is shown than before it was finished. */
  ghost predicate ShownBefore(markers: seq<string>, last: Line, line: Line) {
    HasMarker(markers, line.text) ==> ShownOf(line) == ShownOf(last)
  }

  ghost predicate AddsLine(markers: seq<string>, lines: seq<Line>, last: Line, lines': seq<Line>) {
    |lines'| == |lines| + 1 && lines' == lines + [lines'[|lines|]] && ShownBefore(markers, last, lines'[|lines|])
  }

  /** What one call adds: of the lines with a marker it finishes, the first shows what it did and the others nothing,
      and the line it leaves unfinished shows what holding back lets through. */
  ghost predicate Continues(markers: seq<string>, lines: seq<Line>, last: Line, lines': seq<Line>, last': Line) {
    && lines <= lines'
    && (forall k | |lines| <= k < |lines'| ::
          ShownBefore(markers, last, lines'[k]) || ShownBefore(markers, Line("", 0), lines'[k]))
    && exists buf: string :: ShownOf(last') == ShownOf(last) + Hold(markers, buf).0
                             || ShownOf(last') == Hold(markers, buf).0
  }

  lemma ContinuesFrom(markers: seq<string>, lines: seq<Line>, last: Line, lines1: seq<Line>, lines': seq<Line>,
                      last': Line)
    requires AddsLine(markers, lines, last, lines1) && Continues(markers, lines1, Line("", 0), lines', last')
    ensures Continues(markers, lines, last, lines', last')
  {
    assert lines'[|lines|] == lines1[|lines|];
    var buf: string :| ShownOf(last') == ShownOf(Line("", 0)) + Hold(markers, buf).0
                       || ShownOf(last') == Hold(markers, buf).0;
    PrependNothing(Hold(markers, buf).0);
  }

  /** The first line of the buffer finishes the unfinished one. */
  lemma LineExplained(markers: seq<string>, stream: string, shown: string, lines: seq<Line>, last: Line, more: string)
      returns (stream1: string, shown1: string, lines1: seq<Line>, rest: string)
    requires forall m | m in markers :: m != ""
    requires Emitted(markers, stream, shown, lines, last)
    requires NewlineAt(last.text[last.shown..] + more) >= 0
    ensures Emitted(markers, stream1, shown1, lines1, Line("", 0))
    ensures stream1 + rest == stream + more && |rest| < |more|
    ensures AddsLine(markers, lines, last, lines1)
    ensures var buf := last.text[last.shown..] + more;
            shown1 + Filter(markers, rest).0 == shown + Filter(markers, buf).0
            && Filter(markers, rest).1 == Filter(markers, buf).1
  {
    var buf := last.text[last.shown..] + more;
    var nl := NewlineAt(buf);
    var done := NewlineLine(markers, last, more, nl);
    var emitted := LineOut(markers, buf[..nl + 1]);
    LineFinished(markers, stream, shown, lines, last, done, emitted, nl);
    stream1, shown1, lines1, rest := Texts(lines) + done.text, shown + emitted, lines + [done], buf[nl + 1..];
    Associative(Texts(lines), last.text, more);
    Associative(Texts(lines), done.text, rest);
    FilterLine(markers, buf, shown);
  }

  /** One call, from any point of the stream: `last` is the unfinished line so far. */
  lemma {:induction false} FilterExplained(markers: seq<string>, stream: string, shown: string,
                                           lines: seq<Line>, last: Line, more: string)
      returns (lines': seq<Line>, last': Line)
    requires forall m | m in markers :: m != ""
    requires Emitted(markers, stream, shown, lines, last)
    ensures var buf := last.text[last.shown..] + more;
            Explains(markers, stream + more, shown + Filter(markers, buf).0, Filter(markers, buf).1, lines', last')
    ensures Continues(markers, lines, last, lines', last')
    decreases |more|
  {
    var buf := last.text[last.shown..] + more;
    if NewlineAt(buf) < 0 {
      lines' := lines;
      assert forall i | 0 <= i < |more| :: more[i] == buf[i + |last.text| - last.shown];
      last' := HoldExplained(markers, stream, shown, lines, last, more);
    } else {
      var stream1, shown1, lines1, rest := LineExplained(markers, stream, shown, lines, last, more);
      assert Line("", 0).text[0..] + rest == rest;
      lines', last' := FilterExplained(markers, stream1, shown1, lines1, Line("", 0), rest);
      ContinuesFrom(markers, lines, last, lines1, lines', last');
    }
  }

  lemma PrependNothing(s: string)
    ensures "" + s == s
  {
  }

  lemma AppendNothing(s: string)
    ensures s + "" == s
  {
  }

  lemma PrefixSplit(s: string, t: string, i: nat, j: nat)
    requires t <= s && i <= |t| && i <= j <= |s|
    ensures s[..j] == t[..i] + s[i..j]
  {
  }

  lemma LineFinished(markers: seq<string>, stream: string, shown: string, lines: seq<Line>, last: Line,
                     done: Line, emitted: string, nl: nat)
    requires Emitted(markers, stream, shown, lines, last) && LineFair(markers, done)
    requires last.text <= done.text && |done.text| == last.shown + nl + 1
    requires done.shown == last.shown + |emitted| && emitted == done.text[last.shown..done.shown]
    ensures Emitted(markers, Texts(lines) + done.text, shown + emitted, lines + [done], Line("", 0))
  {
    TextsSnoc(lines, done);
    assert (lines + [done])[..|lines|] == lines;
    PrefixSplit(done.text, last.text, last.shown, done.shown);
    Associative(Shown(lines), last.text[..last.shown], emitted);
    AppendNothing(Texts(lines + [done]));
    AppendNothing(Shown(lines + [done]));
  }

  /** The newline at `nl` of the buffer finishes the unfinished line. */
  lemma NewlineLine(markers: seq<string>, last: Line, more: string, nl: nat) returns (done: Line)
    requires forall m | m in markers :: m != ""
    requires '\n' !in last.text && last.shown <= |last.text| && Safe(markers, last.text, last.shown)
    requires nl == NewlineAt(last.text[last.shown..] + more)
    ensures var buf := last.text[last.shown..] + more;
            && done.text + buf[nl + 1..] == last.text + more
            && |done.text| == last.shown + nl + 1
            && done.text[last.shown..] == buf[..nl + 1]
            && LineFair(markers, done)
            && done.shown == last.shown + if HasMarker(markers, buf[..nl + 1]) then 0 else nl + 1
    ensures last.text <= done.text
  {
    var text := last.text + more;
    var buf := last.text[last.shown..] + more;
    var line := text[..last.shown + nl + 1];
    assert |last.text| <= last.shown + nl;
    assert buf == text[last.shown..] && buf[nl + 1..] == text[last.shown + nl + 1..];
    assert text == line + text[last.shown + nl + 1..];
    assert line == last.text + line[|last.text|..];
    SafeExtends(markers, last.text, line[|last.text|..], last.shown);
    MarkerBeyond(markers, line, last.shown);
    assert line[last.shown..] == buf[..nl + 1];
    done := Line(line, last.shown + if HasMarker(markers, buf[..nl + 1]) then 0 else nl + 1);
    var before := line[..|line| - 1];
    forall i | 0 <= i < |before|
      ensures before[i] != '\n'
    {
      if i < |last.text| {
        assert before[i] == last.text[i];
      } else {
        assert before[i] == buf[..nl][i - last.shown];
      }
    }
    forall m, i | m in markers && Occurs(m, line, i)
      ensures last.shown <= i
    {
      assert Threat(m, line, i);
    }
  }

  lemma {:induction false} ExplainAll(markers: seq<string>, chunks: seq<string>) returns (lines: seq<Line>, last: Line)
    requires forall m | m in markers :: m != ""
    ensures Explains(markers, Flatten(chunks), FilterAll(markers, chunks).0, FilterAll(markers, chunks).1, lines, last)
  {
    if chunks == [] {
      lines, last := [], Line("", 0);
    } else {
      var n := |chunks| - 1;
      var lines0, last0 := ExplainAll(markers, chunks[..n]);
      var before := FilterAll(markers, chunks[..n]);
      lines, last := FilterExplained(markers, Flatten(chunks[..n]), before.0, lines0, last0, chunks[n]);
    }
  }

  /** For every input and every chunking of it, what the filter has emitted and holds back is explained by the
      lines of the input alone. */
  lemma EveryChunkingExplained(markers: seq<string>, chunks: seq<string>)
    requires forall m | m in markers :: m != ""
    ensures exists lines, last ::
              Explains(markers, Flatten(chunks), FilterAll(markers, chunks).0, FilterAll(markers, chunks).1,
                       lines, last)
  {
    var lines, last := ExplainAll(markers, chunks);
  }

  /** A chunk without a newline that leaves a marker or its first 8 characters in what is held back shows nothing. */
  lemma SuspiciousWaits(markers: seq<string>, chunks: seq<string>, chunk: string)
    requires var pending := FilterAll(markers, chunks).1;
             '\n' !in pending + chunk && Suspicious(markers, pending + chunk)
    ensures FilterAll(markers, chunks + [chunk])
         == (FilterAll(markers, chunks).0, FilterAll(markers, chunks).1 + chunk)
  {
    assert (chunks + [chunk])[..|chunks|] == chunks;
    AppendNothing(FilterAll(markers, chunks).0);
  }

  /** A prompt without a newline, free of marker heads and not ending like a marker, shows at once. */
  lemma PromptShows(markers: seq<string>, prompt: string)
    requires '\n' !in prompt && !Suspicious(markers, prompt)
    requires forall i | 0 <= i < |prompt| :: !BeginsMarker(markers, prompt[i..])
    ensures FilterAll(markers, [prompt]) == (prompt, "")
  {
    NothingHeld(markers, prompt);
    assert [prompt][..0] == [] && FilterAll(markers, []) == ("", "");
    PrependNothing(prompt);
  }

  lemma NothingHeld(markers: seq<string>, prompt: string)
    requires '\n' !in prompt && !Suspicious(markers, prompt)
    requires forall i | 0 <= i < |prompt| :: !BeginsMarker(markers, prompt[i..])
    ensures Filter(markers, prompt) == (prompt, "")
  {
    OverlapBegins(markers, prompt);
    assert prompt[|prompt|..] == "" && prompt[..|prompt|] == prompt;
    assert NewlineAt(prompt) < 0;
  }
}
