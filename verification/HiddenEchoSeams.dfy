/** When a marker forms anew in what the filter of HiddenEcho shows: the rest of a line whose beginning had been
    shown is dropped with its newline, and the next line follows that beginning. */
module HiddenEchoSeams {
  import opened Bytes
  import opened HiddenEcho

  // ---------------------------------------------------------------- where lines of the output meet

  /** `e` is where the shown beginning of a dropped line ends in the output. */
  ghost predicate SeamAt(markers: seq<string>, lines: seq<Line>, e: int) {
    exists k :: 0 <= k < |lines| && SeamOf(markers, lines[k]) && e == |Shown(lines[..k + 1])|
  }

  predicate SeamOf(markers: seq<string>, line: Line) {
    HasMarker(markers, line.text) && ShownOf(line) != ""
  }

  /** An occurrence of `m` runs over a seam. */
  ghost predicate CrossesSeam(markers: seq<string>, lines: seq<Line>, out: string, m: string) {
    exists i, e :: Occurs(m, out, i) && i < e < i + |m| && SeamAt(markers, lines, e)
  }

  /** Position `i` of what the lines show lies in line `k`. */
  lemma {:induction false} Locate(lines: seq<Line>, i: nat) returns (k: nat, rest: string)
    requires i < |Shown(lines)|
    ensures k < |lines| && |Shown(lines[..k])| <= i < |Shown(lines[..k + 1])|
    ensures Shown(lines[..k + 1]) == Shown(lines[..k]) + ShownOf(lines[k])
    ensures Shown(lines) == Shown(lines[..k + 1]) + rest
  {
    var n := |lines| - 1;
    if i >= |Shown(lines[..n])| {
      k, rest := n, "";
      assert lines[..n + 1] == lines;
      AppendNothing(Shown(lines));
    } else {
      k, rest := Locate(lines[..n], i);
      assert lines[..n][..k] == lines[..k] && lines[..n][..k + 1] == lines[..k + 1];
      Associative(Shown(lines[..k + 1]), rest, ShownOf(lines[n]));
      rest := rest + ShownOf(lines[n]);
    }
  }

  lemma {:induction false} FairAt(markers: seq<string>, lines: seq<Line>, k: nat)
    requires AllFair(markers, lines) && k < |lines|
    ensures LineFair(markers, lines[k])
  {
    if k < |lines| - 1 {
      FairAt(markers, lines[..|lines| - 1], k);
    }
  }

  /** An occurrence of `m` in `front + text + rest` that starts in `text` starts there in `text + rest`. */
  lemma OccursBehind(m: string, front: string, text: string, rest: string, i: nat)
    requires Occurs(m, front + text + rest, i) && i >= |front|
    ensures Occurs(m, text + rest, i - |front|)
  {
    Associative(front, text, rest);
    var s := front + (text + rest);
    assert s[i..i + |m|] == (text + rest)[i - |front|..i - |front| + |m|];
  }

  lemma OccursWithin(m: string, text: string, rest: string, i: nat)
    requires Occurs(m, text + rest, i) && i + |m| <= |text|
    ensures Occurs(m, text, i)
  {
    assert (text + rest)[i..i + |m|] == text[i..i + |m|];
  }

  lemma OccursEarly(m: string, text: string, n: nat, i: int)
    requires n <= |text| && Occurs(m, text[..n], i)
    ensures Occurs(m, text, i)
  {
    assert text[..n][i..i + |m|] == text[i..i + |m|];
  }

  /** What is shown of a line holds no marker. */
  lemma ShownIsClean(markers: seq<string>, line: Line, m: string, i: int)
    requires LineFair(markers, line) && m in markers && m != ""
    ensures !Occurs(m, ShownOf(line), i)
  {
    if Occurs(m, ShownOf(line), i) {
      OccursEarly(m, line.text, line.shown, i);
      assert Contains(line.text, m);
    }
  }

  /** Nor does what is shown of the unfinished one. */
  lemma LastIsClean(markers: seq<string>, last: Line, m: string, i: int)
    requires last.shown <= |last.text| && Safe(markers, last.text, last.shown) && m in markers && m != ""
    ensures !Occurs(m, last.text[..last.shown], i)
  {
    if Occurs(m, last.text[..last.shown], i) {
      OccursEarly(m, last.text, last.shown, i);
      assert Threat(m, last.text, i);
    }
  }

  lemma RunsOverLast(m: string, shown: string, rest: string, j: nat)
    requires j < |shown| <= j + |m| && Occurs(m, shown + rest, j)
    ensures shown[|shown| - 1] in m
  {
    assert m[|shown| - 1 - j] == (shown + rest)[j..j + |m|][|shown| - 1 - j];
  }

  /** A marker that starts in what is shown of a line runs over its end, which is a seam. */
  lemma StartsInLine(markers: seq<string>, line: Line, rest: string, m: string, j: nat)
    requires LineFair(markers, line) && m in markers && m != "" && '\n' !in m
    requires j < |ShownOf(line)| && Occurs(m, ShownOf(line) + rest, j)
    ensures SeamOf(markers, line) && j + |m| > |ShownOf(line)|
  {
    var shown := ShownOf(line);
    if j + |m| <= |shown| {
      OccursWithin(m, shown, rest, j);
      ShownIsClean(markers, line, m, j);
    }
    if !HasMarker(markers, line.text) {
      RunsOverLast(m, shown, rest, j);
    }
  }

  lemma OccurrenceCrosses(markers: seq<string>, stream: string, out: string, lines: seq<Line>, last: Line, m: string,
                          i: nat)
    requires Emitted(markers, stream, out, lines, last) && m in markers && m != "" && '\n' !in m
    requires Occurs(m, out, i)
    ensures exists e :: i < e < i + |m| && SeamAt(markers, lines, e)
  {
    var tail := last.text[..last.shown];
    if i >= |Shown(lines)| {
      AppendNothing(tail);
      OccursBehind(m, Shown(lines), tail, "", i) by {
        AppendNothing(Shown(lines) + tail);
      }
      LastIsClean(markers, last, m, i - |Shown(lines)|);
    } else {
      var k, rest := Locate(lines, i);
      FairAt(markers, lines, k);
      var front, shown := Shown(lines[..k]), ShownOf(lines[k]);
      Associative(front + shown, rest, tail);
      OccursBehind(m, front, shown, rest + tail, i);
      StartsInLine(markers, lines[k], rest + tail, m, i - |front|);
      assert SeamAt(markers, lines, |front + shown|);
    }
  }

  /** The output holds a marker exactly if one runs over a seam. */
  lemma MarkerInOutputIff(markers: seq<string>, stream: string, out: string, lines: seq<Line>, last: Line, m: string)
    requires Emitted(markers, stream, out, lines, last) && m in markers && m != "" && '\n' !in m
    ensures Contains(out, m) <==> CrossesSeam(markers, lines, out, m)
  {
    if Contains(out, m) {
      var i :| 0 <= i <= |out| - |m| && Occurs(m, out, i);
      OccurrenceCrosses(markers, stream, out, lines, last, m, i);
    }
  }

  /** So for every input and chunking the lines that explain the output also tell whether a marker is in it. */
  lemma MarkersInEveryChunking(markers: seq<string>, chunks: seq<string>)
    requires forall m | m in markers :: m != ""
    ensures exists lines, last ::
              && Explains(markers, Flatten(chunks), FilterAll(markers, chunks).0, FilterAll(markers, chunks).1,
                          lines, last)
              && SeamsTell(markers, lines, FilterAll(markers, chunks).0)
  {
    var lines, last := ExplainAll(markers, chunks);
    forall m | m in markers && '\n' !in m
      ensures Contains(FilterAll(markers, chunks).0, m)
              <==> CrossesSeam(markers, lines, FilterAll(markers, chunks).0, m)
    {
      MarkerInOutputIff(markers, Flatten(chunks), FilterAll(markers, chunks).0, lines, last, m);
    }
  }

  ghost predicate SeamsTell(markers: seq<string>, lines: seq<Line>, out: string) {
    forall m | m in markers && '\n' !in m :: Contains(out, m) <==> CrossesSeam(markers, lines, out, m)
  }

  // ---------------------------------------------------------------- chunks of whole lines

  predicate EndsLine(chunk: string) {
    chunk == "" || chunk[|chunk| - 1] == '\n'
  }

  ghost predicate NoSeams(markers: seq<string>, lines: seq<Line>) {
    forall k | 0 <= k < |lines| :: !SeamOf(markers, lines[k])
  }

  lemma NoSeamsAdded(markers: seq<string>, lines: seq<Line>, last: Line, lines': seq<Line>, last': Line)
    requires NoSeams(markers, lines) && ShownOf(last) == "" && Continues(markers, lines, last, lines', last')
    ensures NoSeams(markers, lines')
  {
    forall k | 0 <= k < |lines'|
      ensures !SeamOf(markers, lines'[k])
    {
      if k < |lines| {
        assert lines'[k] == lines[k];
      }
    }
  }

  /** One more chunk. */
  lemma NextChunk(markers: seq<string>, chunks: seq<string>, chunk: string, lines: seq<Line>, last: Line)
      returns (lines': seq<Line>, last': Line)
    requires forall m | m in markers :: m != ""
    requires Explains(markers, Flatten(chunks), FilterAll(markers, chunks).0, FilterAll(markers, chunks).1, lines, last)
    ensures var all := chunks + [chunk];
            Explains(markers, Flatten(all), FilterAll(markers, all).0, FilterAll(markers, all).1, lines', last')
    ensures Continues(markers, lines, last, lines', last')
  {
    var before := FilterAll(markers, chunks);
    assert (chunks + [chunk])[..|chunks|] == chunks;
    lines', last' := FilterExplained(markers, Flatten(chunks), before.0, lines, last, chunk);
  }

  lemma LastIn(front: string, tail: string)
    requires tail != ""
    ensures (front + tail)[|front + tail| - 1] == tail[|tail| - 1]
  {
  }

  lemma BothEndLine(front: string, chunk: string)
    requires EndsLine(front) && EndsLine(chunk)
    ensures EndsLine(front + chunk)
  {
    if chunk == "" {
      AppendNothing(front);
    }
  }

  lemma {:induction false} FlattenEndsLine(chunks: seq<string>)
    requires forall k | 0 <= k < |chunks| :: EndsLine(chunks[k])
    ensures EndsLine(Flatten(chunks))
  {
    if chunks != [] {
      var n := |chunks| - 1;
      FlattenEndsLine(chunks[..n]);
      BothEndLine(Flatten(chunks[..n]), chunks[n]);
    }
  }

  lemma {:induction false} LineChunks(markers: seq<string>, chunks: seq<string>)
      returns (lines: seq<Line>, last: Line)
    requires forall m | m in markers :: m != ""
    requires forall k | 0 <= k < |chunks| :: EndsLine(chunks[k])
    ensures Explains(markers, Flatten(chunks), FilterAll(markers, chunks).0, FilterAll(markers, chunks).1, lines, last)
    ensures NoSeams(markers, lines) && last.text == ""
  {
    if chunks == [] {
      lines, last := [], Line("", 0);
    } else {
      var front, chunk := chunks[..|chunks| - 1], chunks[|chunks| - 1];
      assert chunks == front + [chunk];
      var lines0, last0 := LineChunks(markers, front);
      lines, last := NextChunk(markers, front, chunk, lines0, last0);
      NoSeamsAdded(markers, lines0, last0, lines, last);
      FlattenEndsLine(chunks);
      if last.text != "" {
        LastIn(Texts(lines), last.text);
      }
    }
  }

  /** If every chunk but the last ends at a newline, no marker is in the output. */
  lemma WholeLinesStayClean(markers: seq<string>, chunks: seq<string>, m: string)
    requires forall m | m in markers :: m != ""
    requires forall k | 0 <= k < |chunks| - 1 :: EndsLine(chunks[k])
    requires m in markers && '\n' !in m
    ensures !Contains(FilterAll(markers, chunks).0, m)
  {
    if chunks != [] {
      var front, chunk := chunks[..|chunks| - 1], chunks[|chunks| - 1];
      assert chunks == front + [chunk];
      var lines0, last0 := LineChunks(markers, front);
      var lines, last := NextChunk(markers, front, chunk, lines0, last0);
      NoSeamsAdded(markers, lines0, last0, lines, last);
      MarkerInOutputIff(markers, Flatten(chunks), FilterAll(markers, chunks).0, lines, last, m);
    }
  }

  // ---------------------------------------------------------------- which markers can form anew

  /** The characters of `s` are all the same. */
  predicate Uniform(s: string) {
    forall i | 0 <= i < |s| :: s[i] == s[0]
  }

  /** What is shown of a line ends in no part of a marker with a uniform head, and does not hold the head. */
  ghost predicate Calm(m: string, shown: string)
    requires m != ""
  {
    shown == "" || (shown[|shown| - 1] != m[0] && !Contains(shown, Head(m)))
  }

  lemma ContainsFrom(s: string, t: string, from: nat, m: string)
    requires from <= |s| && t == s[from..] && m <= t
    ensures Contains(s, m)
  {
    assert s[from..from + |m|] == t[..|m|];
    assert Occurs(m, s, from);
  }

  /** One more character of the uniform head at the end of `buf` makes the overlap longer or completes the head. */
  lemma OneMoreOfHead(m: string, buf: string, keep: nat)
    requires m != "" && Uniform(Head(m)) && keep < |buf|
    requires forall i | |buf| - keep - 1 <= i < |buf| :: buf[i] == m[0]
    ensures if keep + 1 < |Head(m)| then keep + 1 <= MaxOverlap([m], buf) && EndsInside([m], buf, keep + 1)
            else Contains(buf, Head(m))
  {
    var h := Head(m);
    if keep + 1 < |h| {
      assert buf[|buf| - keep - 1..] == m[..keep + 1] by {
        assert forall i | 0 <= i <= keep :: m[i] == h[i];
      }
      assert m in [m] && EndsWith(buf, m[..keep + 1]);
      assert |m| <= Longest([m]);
    } else {
      var from := |buf| - |h|;
      assert buf[from..] == h;
      ContainsFrom(buf, buf[from..], from, h);
    }
  }

  /** If `buf` ends with more of the uniform head than was held back, more would have been. */
  lemma HeldIsAll(m: string, buf: string, keep: nat)
    requires m != "" && Uniform(Head(m)) && !Contains(buf, Head(m))
    requires keep == Overlap([m], buf, MaxOverlap([m], buf)) && keep < PARTIAL_HEAD
    ensures keep < |buf| ==> buf[|buf| - keep - 1] != m[0]
  {
    if keep < |buf| && buf[|buf| - keep - 1] == m[0] {
      HeldIsHead(m, buf, keep);
      LongestIsLongest(m, buf, keep, MaxOverlap([m], buf));
    }
  }

  lemma HeadNotThere(m: string, buf: string)
    requires !Suspicious([m], buf)
    ensures !Contains(buf, Head(m))
  {
    assert m in [m];
  }

  lemma LongestIsLongest(m: string, buf: string, keep: nat, max: nat)
    requires m != "" && Uniform(Head(m)) && keep < |buf| && max == MaxOverlap([m], buf)
    requires keep == Overlap([m], buf, max)
    requires forall i | |buf| - keep - 1 <= i < |buf| :: buf[i] == m[0]
    ensures Contains(buf, Head(m))
  {
    OneMoreOfHead(m, buf, keep);
  }

  lemma HeldIsHead(m: string, buf: string, keep: nat)
    requires m != "" && Uniform(Head(m)) && keep == Overlap([m], buf, MaxOverlap([m], buf)) < PARTIAL_HEAD
    requires keep <= |buf|
    ensures keep < |m| || keep == 0
    ensures forall i | |buf| - keep <= i < |buf| :: buf[i] == m[0]
  {
    if keep > 0 {
      assert EndsInside([m], buf, keep);
      assert buf[|buf| - keep..] == m[..keep];
      forall i | |buf| - keep <= i < |buf|
        ensures buf[i] == m[0]
      {
        assert buf[i] == m[..keep][i - (|buf| - keep)] == Head(m)[i - (|buf| - keep)];
      }
    }
  }

  lemma OccursAfter(m: string, front: string, text: string, i: nat)
    requires Occurs(m, front + text, i) && i >= |front|
    ensures Occurs(m, text, i - |front|)
  {
    var k := i - |front|;
    assert text[k..k + |m|] == (front + text)[i..i + |m|];
  }

  lemma ContainsEarly(m: string, text: string, n: nat)
    requires n <= |text|
    ensures Contains(text[..n], m) ==> Contains(text, m)
  {
    if Contains(text[..n], m) {
      var i :| 0 <= i <= n - |m| && Occurs(m, text[..n], i);
      OccursEarly(m, text, n, i);
    }
  }

  lemma InUniform(s: string, c: char)
    requires Uniform(s) && c in s
    ensures c == s[0]
  {
  }

  lemma HeadAcross(m: string, base: string, more: string)
    requires m != "" && Uniform(Head(m)) && Calm(m, base) && !Contains(more, Head(m))
    ensures !Contains(base + more, Head(m))
  {
    var h := Head(m);
    forall i | 0 <= i <= |base + more| - |h|
      ensures !Occurs(h, base + more, i)
    {
      if Occurs(h, base + more, i) {
        if i >= |base| {
          OccursAfter(h, base, more, i);
        } else if i + |h| <= |base| {
          OccursWithin(h, base, more, i);
        } else {
          RunsOverLast(h, base, more, i);
          InUniform(h, base[|base| - 1]);
        }
      }
    }
  }

  lemma HoldStaysCalm(m: string, base: string, buf: string)
    requires m != "" && Uniform(Head(m)) && Calm(m, base)
    ensures Calm(m, base + Hold([m], buf).0)
  {
    if Suspicious([m], buf) {
      AppendNothing(base);
    } else {
      var out := Hold([m], buf).0;
      HeadNotThere(m, buf);
      OverlapIsShort([m], buf);
      HeldIsAll(m, buf, |buf| - |out|);
      ContainsEarly(Head(m), buf, |out|);
      HeadAcross(m, base, out);
      if out == "" {
        AppendNothing(base);
      }
    }
  }

  ghost predicate AllCalm(m: string, lines: seq<Line>)
    requires m != ""
  {
    forall k | 0 <= k < |lines| && HasMarker([m], lines[k].text) :: Calm(m, ShownOf(lines[k]))
  }

  lemma CalmAdded(m: string, lines: seq<Line>, last: Line, lines': seq<Line>, last': Line)
    requires m != "" && Uniform(Head(m)) && AllCalm(m, lines) && Calm(m, ShownOf(last))
    requires Continues([m], lines, last, lines', last')
    ensures AllCalm(m, lines') && Calm(m, ShownOf(last'))
  {
    forall k | 0 <= k < |lines'| && HasMarker([m], lines'[k].text)
      ensures Calm(m, ShownOf(lines'[k]))
    {
      if k < |lines| {
        assert lines'[k] == lines[k];
      }
    }
    var buf: string :| ShownOf(last') == ShownOf(last) + Hold([m], buf).0 || ShownOf(last') == Hold([m], buf).0;
    HoldStaysCalm(m, ShownOf(last), buf);
    HoldStaysCalm(m, "", buf);
    PrependNothing(Hold([m], buf).0);
  }

  lemma {:induction false} CalmChunks(m: string, chunks: seq<string>) returns (lines: seq<Line>, last: Line)
    requires m != "" && Uniform(Head(m))
    ensures Explains([m], Flatten(chunks), FilterAll([m], chunks).0, FilterAll([m], chunks).1, lines, last)
    ensures AllCalm(m, lines) && Calm(m, ShownOf(last))
  {
    if chunks == [] {
      lines, last := [], Line("", 0);
    } else {
      var front, chunk := chunks[..|chunks| - 1], chunks[|chunks| - 1];
      assert chunks == front + [chunk];
      var lines0, last0 := CalmChunks(m, front);
      lines, last := NextChunk([m], front, chunk, lines0, last0);
      CalmAdded(m, lines0, last0, lines, last);
    }
  }

  /** A marker with a uniform head runs over an end only from what is not calm. */
  lemma RunsOverHead(m: string, shown: string, rest: string, j: nat)
    requires m != "" && Uniform(Head(m))
    requires j < |shown| < j + |m| && Occurs(m, shown + rest, j)
    ensures shown != "" && (shown[|shown| - 1] == m[0] || Contains(shown, Head(m)))
  {
    var h, part := Head(m), shown[j..];
    assert part == m[..|part|] by {
      assert (shown + rest)[j..j + |m|][..|part|] == part;
    }
    if |part| <= |h| {
      assert shown[|shown| - 1] == part[|part| - 1] == h[|part| - 1];
    } else {
      assert part[..|h|] == h;
      ContainsFrom(shown, part, j, h);
    }
  }

  lemma CalmLine(m: string, line: Line, rest: string, j: nat)
    requires m != "" && '\n' !in m && Uniform(Head(m)) && LineFair([m], line)
    requires HasMarker([m], line.text) ==> Calm(m, ShownOf(line))
    requires j < |ShownOf(line)|
    ensures !Occurs(m, ShownOf(line) + rest, j)
  {
    if Occurs(m, ShownOf(line) + rest, j) {
      StartsInLine([m], line, rest, m, j);
      RunsOverHead(m, ShownOf(line), rest, j);
    }
  }

  lemma CalmOutput(m: string, stream: string, out: string, lines: seq<Line>, last: Line, i: nat)
    requires m != "" && '\n' !in m && Uniform(Head(m))
    requires Emitted([m], stream, out, lines, last) && AllCalm(m, lines)
    ensures !Occurs(m, out, i)
  {
    var tail := last.text[..last.shown];
    if Occurs(m, out, i) {
      if i >= |Shown(lines)| {
        AppendNothing(tail);
        OccursBehind(m, Shown(lines), tail, "", i) by {
          AppendNothing(Shown(lines) + tail);
        }
        LastIsClean([m], last, m, i - |Shown(lines)|);
      } else {
        var k, rest := Locate(lines, i);
        FairAt([m], lines, k);
        var front, shown := Shown(lines[..k]), ShownOf(lines[k]);
        Associative(front + shown, rest, tail);
        OccursBehind(m, front, shown, rest + tail, i);
        CalmLine(m, lines[k], rest + tail, i - |front|);
      }
    }
  }

  /** A single marker whose first 8 characters are all the same never forms anew, however the input is chunked. */
  lemma UniformNeverForms(m: string, chunks: seq<string>)
    requires m != "" && '\n' !in m && Uniform(Head(m))
    ensures !Contains(FilterAll([m], chunks).0, m)
  {
    var out := FilterAll([m], chunks).0;
    var lines, last := CalmChunks(m, chunks);
    forall i: nat
      ensures !Occurs(m, out, i)
    {
      CalmOutput(m, Flatten(chunks), out, lines, last, i);
    }
  }

  /** Where the head of `m` first differs from its first character. */
  lemma {:induction false} FirstOther(m: string) returns (q: nat)
    requires m != "" && !Uniform(Head(m))
    ensures 1 <= q < |m| && q < PARTIAL_HEAD && m[q] != m[0] && forall i | 0 <= i < q :: m[i] == m[0]
  {
    q := 1;
    var h := Head(m);
    while m[q] == m[0]
      invariant 1 <= q < |h| && forall i | 0 <= i < q :: m[i] == m[0]
      decreases |h| - q
    {
      if q + 1 == |h| {
        assert Uniform(h);
      }
      q := q + 1;
    }
  }

  function Repeat(c: char, n: nat): string {
    seq(n, _ => c)
  }

  /** The chunks that make it form anew: one character too many, then the rest of the marker's line, then the rest of
      the marker as the next line. */
  function Splice(m: string, q: nat): seq<string>
    requires q < |m|
  {
    [Repeat(m[0], q + 1), m[q..] + "\n", m[1..] + "\n"]
  }

  lemma OccursHas(t: string, buf: string, i: nat, k: nat)
    requires Occurs(t, buf, i) && k < |t|
    ensures t[k] in buf
  {
    assert buf[i..i + |t|][k] == buf[i + k];
  }

  lemma NotWithout(buf: string, t: string, k: nat)
    requires k < |t| && t[k] !in buf
    ensures !Contains(buf, t)
  {
    forall i | 0 <= i <= |buf| - |t|
      ensures !Occurs(t, buf, i)
    {
      if Occurs(t, buf, i) {
        OccursHas(t, buf, i, k);
      }
    }
  }

  lemma EndHas(buf: string, t: string, k: nat)
    requires EndsWith(buf, t) && k < |t|
    ensures t[k] in buf
  {
    assert buf[|buf| - |t|..][k] == buf[|buf| - |t| + k];
  }

  lemma RepeatIsHeld(m: string, q: nat)
    requires 1 <= q < |m| && q < PARTIAL_HEAD && m[q] != m[0] && forall i | 0 <= i < q :: m[i] == m[0]
    ensures var buf := Repeat(m[0], q + 1);
            !Suspicious([m], buf) && Overlap([m], buf, MaxOverlap([m], buf)) == q && buf[1..] == m[..q]
  {
    var buf := Repeat(m[0], q + 1);
    NotWithout(buf, m, q);
    NotWithout(buf, Head(m), q);
    assert buf[1..] == m[..q];
    assert m in [m] && EndsWith(buf, m[..q]);
    assert EndsInside([m], buf, q);
    assert |m| <= Longest([m]);
    forall k | q < k
      ensures !EndsInside([m], buf, k)
    {
      if k < |m| && EndsWith(buf, m[..k]) {
        EndHas(buf, m[..k], q);
      }
    }
  }

  lemma FilterRepeat(m: string, q: nat)
    requires 1 <= q < |m| && q < PARTIAL_HEAD && m[q] != m[0] && forall i | 0 <= i < q :: m[i] == m[0]
    requires '\n' !in m
    ensures Filter([m], Repeat(m[0], q + 1)) == ([m[0]], m[..q])
  {
    var buf := Repeat(m[0], q + 1);
    RepeatIsHeld(m, q);
    assert m[0] in m;
    assert NewlineAt(buf) < 0;
    assert buf[..1] == [m[0]];
  }

  lemma FilterLineOnly(m: string, line: string)
    requires m != "" && '\n' !in line
    ensures Filter([m], line + "\n") == (LineOut([m], line + "\n"), "")
  {
    var buf := line + "\n";
    assert buf[|line|] == '\n' && forall i | 0 <= i < |line| :: buf[i] == line[i];
    assert NewlineAt(buf) == |line|;
    assert buf[..|line| + 1] == buf && buf[|line| + 1..] == "";
    assert NewlineAt("") < 0 && Hold([m], "") == ("", "");
    FirstLine([m], buf, |line|);
    AppendNothing(LineOut([m], buf));
  }

  lemma FillsWhole(t: string, s: string)
    requires |t| == |s| && Contains(s, t)
    ensures s == t
  {
    assert s[0..|s|] == s;
  }

  lemma LinesOfSplice(m: string)
    requires |m| > 1 && '\n' !in m
    ensures HasMarker([m], m + "\n") && !HasMarker([m], m[1..] + "\n")
  {
    StartsWithMarker(m);
    var line := m[1..] + "\n";
    assert line[|line| - 1] == '\n';
    if Contains(line, m) {
      FillsWhole(m, line);
    }
  }

  lemma StartsWithMarker(m: string)
    ensures Contains(m + "\n", m) && HasMarker([m], m + "\n")
  {
    assert (m + "\n")[0..|m|] == m;
    assert Occurs(m, m + "\n", 0) && m in [m];
  }

  lemma FilterThree(m: string, a: string, b: string, c: string, out: string, pending: string)
    requires Filter([m], a) == (out, pending)
    requires Filter([m], pending + b) == ("", "") && Filter([m], c) == (c, "")
    ensures FilterAll([m], [a, b, c]).0 == out + c
  {
    assert [a, b, c][..2] == [a, b] && [a, b][..1] == [a] && [a][..0] == [];
    PrependNothing(a);
    PrependNothing(c);
    PrependNothing(out);
    AppendNothing(out);
    assert FilterAll([m], [a]) == (out, pending);
    assert FilterAll([m], [a, b]) == (out, "");
  }

  lemma Spliced(m: string, q: nat)
    requires 1 <= q < |m|
    ensures m[..q] + (m[q..] + "\n") == m + "\n" && [m[0]] + (m[1..] + "\n") == m + "\n"
  {
  }

  lemma FilterMarkerLine(m: string, q: nat)
    requires 1 <= q < |m| && '\n' !in m
    ensures Filter([m], m[..q] + (m[q..] + "\n")) == ("", "")
  {
    Spliced(m, q);
    LinesOfSplice(m);
    FilterLineOnly(m, m);
  }

  lemma FilterRestLine(m: string)
    requires 1 < |m| && '\n' !in m
    ensures Filter([m], m[1..] + "\n") == (m[1..] + "\n", "")
  {
    LinesOfSplice(m);
    FilterLineOnly(m, m[1..]);
  }

  lemma FilterSplice(m: string, q: nat)
    requires 1 <= q < |m| && q < PARTIAL_HEAD && m[q] != m[0] && forall i | 0 <= i < q :: m[i] == m[0]
    requires '\n' !in m
    ensures FilterAll([m], Splice(m, q)).0 == m + "\n"
  {
    FilterRepeat(m, q);
    FilterMarkerLine(m, q);
    FilterRestLine(m);
    FilterThree(m, Repeat(m[0], q + 1), m[q..] + "\n", m[1..] + "\n", [m[0]], m[..q]);
    Spliced(m, q);
  }

  /** Any other marker free of newlines does. */
  lemma SpliceForms(m: string) returns (chunks: seq<string>)
    requires m != "" && '\n' !in m && !Uniform(Head(m))
    ensures FilterAll([m], chunks).0 == m + "\n" && Contains(FilterAll([m], chunks).0, m)
  {
    var q := FirstOther(m);
    chunks := Splice(m, q);
    FilterSplice(m, q);
    StartsWithMarker(m);
  }

  ghost predicate CanForm(m: string) {
    exists chunks :: Contains(FilterAll([m], chunks).0, m)
  }

  /** So a single marker can show up in the output exactly if its first 8 characters are not all the same. */
  lemma CanFormIff(m: string)
    requires m != "" && '\n' !in m
    ensures CanForm(m) <==> !Uniform(Head(m))
  {
    if Uniform(Head(m)) {
      forall chunks
        ensures !Contains(FilterAll([m], chunks).0, m)
      {
        UniformNeverForms(m, chunks);
      }
    } else {
      var chunks := SpliceForms(m);
    }
  }

  /** For instance "ab", cut so that the line "aab" is shown up to its second character. */
  lemma MarkerFormsAnew()
    ensures FilterAll(["ab"], ["aa", "b\n", "b\n"]).0 == "ab\n"
    ensures Contains("ab\n", "ab")
  {
    FilterSplice("ab", 1);
    assert Repeat('a', 2) == "aa" && "ab"[1..] + "\n" == "b\n";
    assert Splice("ab", 1) == ["aa", "b\n", "b\n"];
    StartsWithMarker("ab");
    assert "ab" + "\n" == "ab\n";
  }
}
