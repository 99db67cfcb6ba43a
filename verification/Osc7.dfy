/** Extraction of OSC 7 working-directory reports from a terminal stream that arrives in chunks, with a carry
    of at most 512 characters between chunks. */
module Osc7 {
  import opened Bytes
  import opened Wrappers

  const ESC := '\U{1B}'
  const BEL := '\U{07}'
  const MAX_BODY := 300
  const TAIL_KEEP := 512

  predicate Control(c: char) {
    c == BEL || c == ESC
  }

  predicate PrefixAt(s: string, p: nat) {
    p + 4 <= |s| && s[p] == ESC && s[p + 1] == ']' && s[p + 2] == '7' && s[p + 3] == ';'
  }

  /** The first BEL or ESC at or after q, or the end. */
  function BodyEnd(s: string, q: nat): (e: nat)
    requires q <= |s|
    ensures q <= e <= |s|
    decreases |s| - q
  {
    if q == |s| || Control(s[q]) then q else BodyEnd(s, q + 1)
  }

  lemma {:induction false} BodyEndIsFirst(s: string, q: nat)
    requires q <= |s|
    ensures forall i | q <= i < BodyEnd(s, q) :: !Control(s[i])
    ensures BodyEnd(s, q) < |s| ==> Control(s[BodyEnd(s, q)])
    decreases |s| - q
  {
    if q < |s| && !Control(s[q]) {
      BodyEndIsFirst(s, q + 1);
    }
  }

  /** The end of the report that starts at p, if one does. */
  function MatchEnd(s: string, p: nat): (r: Option<nat>)
    ensures r.Some? ==> p + 5 < r.value <= |s| && r.value <= p + 306
  {
    if !PrefixAt(s, p) then None
    else
      var q := BodyEnd(s, p + 4);
      if !(1 <= q - (p + 4) <= MAX_BODY) || q == |s| then None
      else if s[q] == BEL then Some(q + 1)
      else if q + 1 < |s| && s[q + 1] == '\\' then Some(q + 2)
      else None
  }

  /** The pattern `ESC ] 7 ; body (BEL | ESC backslash)` with 1 to 300 characters other than BEL and ESC as the
      body, on the span from p to e. */
  ghost predicate IsReport(s: string, p: nat, e: nat) {
    PrefixAt(s, p) && exists q | p + 5 <= q <= p + 4 + MAX_BODY :: BodyAt(s, p, q, e)
  }

  /** A body without BEL or ESC that ends at q, and a terminator from there to e. */
  ghost predicate BodyAt(s: string, p: nat, q: nat, e: nat) {
    && q < |s| && (forall i | p + 4 <= i < q :: !Control(s[i]))
    && ((s[q] == BEL && e == q + 1) || (s[q] == ESC && q + 1 < |s| && s[q + 1] == '\\' && e == q + 2))
  }

  lemma BodyEndsAt(s: string, q: nat, e: nat)
    requires q <= e < |s| && Control(s[e]) && forall i | q <= i < e :: !Control(s[i])
    ensures BodyEnd(s, q) == e
  {
    BodyEndIsFirst(s, q);
  }

  lemma ReportMatches(s: string, p: nat, e: nat)
    requires IsReport(s, p, e)
    ensures MatchEnd(s, p) == Some(e)
  {
    var q :| p + 5 <= q <= p + 4 + MAX_BODY && BodyAt(s, p, q, e);
    BodyEndsAt(s, p + 4, q);
    EndMatches(s, p, q, e);
  }

  lemma EndMatches(s: string, p: nat, q: nat, e: nat)
    requires PrefixAt(s, p) && p + 5 <= q <= p + 4 + MAX_BODY && q < |s| && BodyEnd(s, p + 4) == q
    requires (s[q] == BEL && e == q + 1) || (s[q] == ESC && q + 1 < |s| && s[q + 1] == '\\' && e == q + 2)
    ensures MatchEnd(s, p) == Some(e)
  {
  }

  lemma MatchIsReport(s: string, p: nat, e: nat)
    requires MatchEnd(s, p) == Some(e)
    ensures IsReport(s, p, e)
  {
    BodyEndIsFirst(s, p + 4);
    assert BodyAt(s, p, BodyEnd(s, p + 4), e);
  }

  /** MatchEnd finds exactly the spans of the pattern. */
  lemma MatchEndIsPattern(s: string, p: nat, e: nat)
    ensures MatchEnd(s, p) == Some(e) <==> IsReport(s, p, e)
  {
    if IsReport(s, p, e) {
      ReportMatches(s, p, e);
    } else if MatchEnd(s, p) == Some(e) {
      MatchIsReport(s, p, e);
    }
  }

  /** A report found: where it ends and what it says. */
  datatype Hit = Hit(end: nat, body: string)

  function HitAt(s: string, p: nat): Option<Hit> {
    if MatchEnd(s, p).Some? then Some(Hit(MatchEnd(s, p).value, s[p + 4..BodyEnd(s, p + 4)])) else None
  }

  /** The text of a report: the introducer, 1 to 300 characters, and either terminator. */
  ghost predicate Spells(text: string, body: string) {
    && 1 <= |body| <= 300 && (forall i | 0 <= i < |body| :: !Control(body[i]))
    && (text == [ESC, ']', '7', ';'] + body + [BEL] || text == [ESC, ']', '7', ';'] + body + [ESC, '\\'])
  }

  /** A hit is the text from there to its end, and its body is what stands between introducer and terminator. */
  lemma HitSpells(s: string, p: nat)
    ensures HitAt(s, p).Some? ==>
              p < HitAt(s, p).value.end <= |s| && Spells(s[p..HitAt(s, p).value.end], HitAt(s, p).value.body)
  {
    if HitAt(s, p).Some? {
      var q, e := BodyEnd(s, p + 4), HitAt(s, p).value.end;
      BodyEndIsFirst(s, p + 4);
      assert s[p..p + 4] == [ESC, ']', '7', ';'];
      assert s[p..e] == s[p..p + 4] + s[p + 4..q] + s[q..e];
      assert s[q..e] == if s[q] == BEL then [BEL] else [ESC, '\\'];
    }
  }

  /** For every position the report that starts there, if any. */
  function Hits(s: string): (h: seq<Option<Hit>>)
    ensures |h| == |s| && Placed(h)
  {
    seq(|s|, p requires 0 <= p < |s| => HitAt(s, p))
  }

  ghost predicate Placed(h: seq<Option<Hit>>) {
    forall p | 0 <= p < |h| && h[p].Some? :: p < h[p].value.end <= |h|
  }

  /** The first position at or after i where a report starts, or the length. */
  function Next(h: seq<Option<Hit>>, i: nat): (p: nat)
    requires i <= |h|
    ensures i <= p <= |h| && (p < |h| ==> h[p].Some?) && forall j | i <= j < p :: h[j].None?
    decreases |h| - i
  {
    if i == |h| || h[i].Some? then i else Next(h, i + 1)
  }

  /** The bodies of the reports found from i on, scanning left to right. */
  function Reports(h: seq<Option<Hit>>, i: nat): seq<string>
    requires Placed(h) && i <= |h|
    decreases |h| - i
  {
    var p := Next(h, i);
    if p == |h| then [] else [h[p].value.body] + Reports(h, h[p].value.end)
  }

  /** Where the scan from i stops consuming. */
  function Consumed(h: seq<Option<Hit>>, i: nat): (c: nat)
    requires Placed(h) && i <= |h|
    ensures i <= c <= |h|
    decreases |h| - i
  {
    var p := Next(h, i);
    if p == |h| then i else Consumed(h, h[p].value.end)
  }

  /** One pass over a text. */
  function Found(s: string): seq<string> {
    Reports(Hits(s), 0)
  }

  function Rest(s: string): string {
    Tail(s[Consumed(Hits(s), 0)..], TAIL_KEEP)
  }

  /** The directory a report names: the path of a file URL, or the body itself if it is an absolute path. */
  function CwdOf(body: string): Option<string> {
    var p := if FilePath(body).Some? then FilePath(body).value else body;
    if p != "" && p[0] == '/' then Some(p) else None
  }

  predicate OneLine(s: string) {
    forall c | c in s :: c != '\n' && c != '\r' && c != '\U{2028}' && c != '\U{2029}'
  }

  /** `file://`, anything up to the next slash, and from there one line to the end. */
  function FilePath(body: string): Option<string> {
    if "file://" <= body then
      var slash := SlashFrom(body, 7);
      if slash < |body| && OneLine(body[slash + 1..]) then Some(body[slash..]) else None
    else None
  }

  function SlashFrom(s: string, i: nat): (j: nat)
    requires i <= |s|
    ensures i <= j <= |s| && (j < |s| ==> s[j] == '/')
    decreases |s| - i
  {
    if i == |s| || s[i] == '/' then i else SlashFrom(s, i + 1)
  }

  /** A file URL with the path `p`. */
  ghost predicate NamesFile(body: string, p: string) {
    p != "" && p[0] == '/' && OneLine(p[1..]) && exists host: string :: '/' !in host && body == "file://" + host + p
  }

  lemma {:induction false} SlashIsFirst(s: string, i: nat)
    requires i <= |s|
    ensures forall k | i <= k < SlashFrom(s, i) :: s[k] != '/'
    decreases |s| - i
  {
    if i < |s| && s[i] != '/' {
      SlashIsFirst(s, i + 1);
    }
  }

  lemma FileNamed(body: string)
    ensures FilePath(body).Some? ==> NamesFile(body, FilePath(body).value)
  {
    if FilePath(body).Some? {
      var slash := SlashFrom(body, 7);
      var host := body[7..slash];
      SlashIsFirst(body, 7);
      assert body == "file://" + host + body[slash..];
      assert '/' !in host;
      assert body[slash..][1..] == body[slash + 1..];
    }
  }

  lemma NamedFile(host: string, p: string)
    requires '/' !in host && p != "" && p[0] == '/' && OneLine(p[1..])
    ensures FilePath("file://" + host + p) == Some(p)
  {
    var body := "file://" + host + p;
    var slash := 7 + |host|;
    SlashIsFirst(body, 7);
    assert body[slash] == '/' && forall k | 7 <= k < slash :: body[k] == host[k - 7];
    assert SlashFrom(body, 7) == slash;
    assert body[..7] == "file://";
    assert body[slash..] == p && body[slash + 1..] == p[1..];
  }

  /** Exactly which directory a report names: the path of a file URL with any host, or an absolute path as it stands. */
  lemma CwdIs(body: string, p: string)
    ensures CwdOf(body) == Some(p) <==> NamesFile(body, p) || (body == p && p != "" && p[0] == '/')
  {
    FileNamed(body);
    if NamesFile(body, p) {
      var host: string :| '/' !in host && body == "file://" + host + p;
      NamedFile(host, p);
    }
    if FilePath(body).Some? {
      assert body[0] == 'f';
    }
  }

  /** The directory of the last report that names one, or the one known before. */
  lemma {:induction false} LastCwdIsLast(bodies: seq<string>, known: Option<string>)
    ensures (forall i | 0 <= i < |bodies| :: CwdOf(bodies[i]) == None) ==> LastCwd(bodies, known) == known
    ensures forall i | 0 <= i < |bodies| && CwdOf(bodies[i]).Some? && LaterNone(bodies, i) ::
              LastCwd(bodies, known) == CwdOf(bodies[i])
  {
    if bodies != [] {
      var rest := bodies[1..];
      assert forall i | 0 <= i < |rest| :: rest[i] == bodies[i + 1];
      LastCwdIsLast(rest, if CwdOf(bodies[0]).Some? then CwdOf(bodies[0]) else known);
      forall i | 0 <= i < |bodies| && CwdOf(bodies[i]).Some? && LaterNone(bodies, i)
        ensures LastCwd(bodies, known) == CwdOf(bodies[i])
      {
        if i > 0 {
          assert LaterNone(rest, i - 1) by {
            assert forall j | i - 1 < j < |rest| :: rest[j] == bodies[j + 1];
          }
          assert CwdOf(rest[i - 1]).Some?;
        } else {
          assert forall j | 0 <= j < |rest| :: CwdOf(rest[j]) == CwdOf(bodies[j + 1]) == None;
        }
      }
    }
  }

  ghost predicate LaterNone(bodies: seq<string>, i: nat) {
    forall j | i < j < |bodies| :: CwdOf(bodies[j]) == None
  }

  function LastCwd(bodies: seq<string>, known: Option<string>): Option<string> {
    if bodies == [] then known
    else LastCwd(bodies[1..], if CwdOf(bodies[0]).Some? then CwdOf(bodies[0]) else known)
  }

  method ExtractOsc7Cwd(tail: string) returns (cwd: Option<string>, rest: string)
    ensures cwd == LastCwd(Found(tail), None)
    ensures rest == Rest(tail)
  {
    cwd := None;
    var consumed := 0;
    var h := Hits(tail);
    var m := Next(h, consumed);
    while m < |tail|
      invariant consumed <= |tail| && m == Next(h, consumed)
      invariant LastCwd(Found(tail), None) == LastCwd(Reports(h, consumed), cwd)
      invariant Consumed(h, 0) == Consumed(h, consumed)
      decreases |tail| - consumed
    {
      var p := h[m].value.body;
      if CwdOf(p).Some? {
        cwd := CwdOf(p);
      }
      consumed := h[m].value.end;
      m := Next(h, consumed);
    }
    rest := Tail(tail[consumed..], TAIL_KEEP);
  }

  /** The caller's loop: the rest of one call is put in front of the next chunk, and a directory once known
      stays until a newer one is reported. */
  datatype Tracker = Tracker(reports: seq<string>, cwd: Option<string>, rest: string)

  function Track(chunks: seq<string>): Tracker {
    if chunks == [] then Tracker([], None, "")
    else
      var t := Track(chunks[..|chunks| - 1]);
      var tail := t.rest + chunks[|chunks| - 1];
      var found := LastCwd(Found(tail), None);
      Tracker(t.reports + Found(tail), if found.Some? then found else t.cwd, Rest(tail))
  }

  /** `v` is what remains of `s` from position n on. */
  ghost predicate Suffix(v: string, s: string, n: nat) {
    n + |v| == |s| && forall i | 0 <= i < |v| :: v[i] == s[n + i]
  }

  lemma {:induction false} BodyEndShift(s: string, n: nat, v: string, q: nat)
    requires Suffix(v, s, n) && q <= |v|
    ensures BodyEnd(s, n + q) == n + BodyEnd(v, q)
    decreases |v| - q
  {
    if q < |v| && !Control(v[q]) {
      BodyEndShift(s, n, v, q + 1);
    }
  }

  function Moved(hit: Option<Hit>, n: nat): Option<Hit> {
    if hit.Some? then Some(Hit(n + hit.value.end, hit.value.body)) else None
  }

  lemma HitShift(s: string, n: nat, v: string, p: nat)
    requires Suffix(v, s, n)
    ensures HitAt(s, n + p) == Moved(HitAt(v, p), n)
  {
    if p + 4 <= |v| {
      BodyEndShift(s, n, v, p + 4);
      SliceShift(s, n, v, p + 4, BodyEnd(v, p + 4));
    }
  }

  lemma SliceShift(s: string, n: nat, v: string, i: nat, j: nat)
    requires Suffix(v, s, n) && i <= j <= |v|
    ensures s[n + i..n + j] == v[i..j]
  {
  }

  ghost predicate Prefix(a: string, s: string) {
    |a| <= |s| && forall i | 0 <= i < |a| :: a[i] == s[i]
  }

  lemma {:induction false} BodyEndStable(a: string, s: string, q: nat)
    requires Prefix(a, s) && q <= |a|
    ensures BodyEnd(a, q) < |a| ==> BodyEnd(s, q) == BodyEnd(a, q)
    ensures BodyEnd(s, q) < |a| ==> BodyEnd(a, q) == BodyEnd(s, q)
    decreases |a| - q
  {
    if q < |a| && !Control(a[q]) {
      BodyEndStable(a, s, q + 1);
    }
  }

  /** What follows matters only to a report that reaches into it. */
  lemma HitStable(a: string, s: string, p: nat)
    requires Prefix(a, s)
    ensures HitAt(a, p).Some? ==> HitAt(s, p) == HitAt(a, p)
    ensures HitAt(s, p).Some? && HitAt(s, p).value.end <= |a| ==> HitAt(a, p) == HitAt(s, p)
  {
    if p + 4 <= |a| {
      BodyEndStable(a, s, p + 4);
      assert s[p + 4..BodyEnd(a, p + 4)] == a[p + 4..BodyEnd(a, p + 4)];
    }
  }

  /** Reports never overlap: inside a report the prefix cannot begin again. */
  lemma HitsDisjoint(s: string, p: nat, q: nat)
    requires HitAt(s, p).Some? && HitAt(s, q).Some? && p < q
    ensures HitAt(s, p).value.end <= q
  {
    BodyEndIsFirst(s, p + 4);
  }

  /** From here on only the positions of reports matter, not the characters. */
  ghost predicate ShiftedBy(hv: seq<Option<Hit>>, hs: seq<Option<Hit>>, n: nat) {
    n + |hv| == |hs| && forall p | 0 <= p < |hv| :: hs[n + p] == Moved(hv[p], n)
  }

  ghost predicate Grown(ha: seq<Option<Hit>>, hs: seq<Option<Hit>>) {
    && |ha| <= |hs|
    && (forall p | 0 <= p < |ha| && ha[p].Some? :: hs[p] == ha[p])
    && (forall p | 0 <= p < |ha| && hs[p].Some? && hs[p].value.end <= |ha| :: ha[p] == hs[p])
    && (forall p, q | 0 <= p < q < |hs| && hs[p].Some? && hs[q].Some? :: hs[p].value.end <= q)
  }

  lemma HitsShifted(s: string, n: nat, v: string)
    requires Suffix(v, s, n)
    ensures ShiftedBy(Hits(v), Hits(s), n)
  {
    forall p | 0 <= p < |v|
      ensures HitAt(s, n + p) == Moved(HitAt(v, p), n)
    {
      HitShift(s, n, v, p);
    }
  }

  lemma HitsGrown(a: string, s: string)
    requires Prefix(a, s)
    ensures Grown(Hits(a), Hits(s))
  {
    forall p | 0 <= p < |a|
      ensures HitAt(a, p).Some? ==> HitAt(s, p) == HitAt(a, p)
      ensures HitAt(s, p).Some? && HitAt(s, p).value.end <= |a| ==> HitAt(a, p) == HitAt(s, p)
    {
      HitStable(a, s, p);
    }
    forall p, q | 0 <= p < q < |s| && HitAt(s, p).Some? && HitAt(s, q).Some?
      ensures HitAt(s, p).value.end <= q
    {
      HitsDisjoint(s, p, q);
    }
  }

  lemma NextIs(h: seq<Option<Hit>>, i: nat, p: nat)
    requires i <= p <= |h| && (p < |h| ==> h[p].Some?) && forall j | i <= j < p :: h[j].None?
    ensures Next(h, i) == p
  {
  }

  lemma NextShift(hv: seq<Option<Hit>>, hs: seq<Option<Hit>>, n: nat, i: nat)
    requires ShiftedBy(hv, hs, n) && i <= |hv|
    ensures Next(hs, n + i) == n + Next(hv, i)
  {
    var p := Next(hv, i);
    forall j | n + i <= j < n + p
      ensures hs[j].None?
    {
      assert hs[n + (j - n)] == Moved(hv[j - n], n);
    }
    assert p < |hv| ==> hs[n + p] == Moved(hv[p], n);
    NextIs(hs, n + i, n + p);
  }

  /** A scan does not depend on what lies before its start. */
  lemma {:induction false} ScanShift(hv: seq<Option<Hit>>, hs: seq<Option<Hit>>, n: nat, i: nat)
    requires Placed(hv) && Placed(hs) && ShiftedBy(hv, hs, n) && i <= |hv|
    ensures Next(hs, n + i) == n + Next(hv, i)
    ensures Reports(hs, n + i) == Reports(hv, i)
    ensures Consumed(hs, n + i) == n + Consumed(hv, i)
    decreases |hv| - i
  {
    var p := Next(hv, i);
    NextShift(hv, hs, n, i);
    if p < |hv| {
      var hit := hv[p].value;
      assert hs[n + p] == Some(Hit(n + hit.end, hit.body));
      ScanShift(hv, hs, n, hit.end);
      ShiftStep(hv, hs, n, i, hit);
    }
  }

  lemma ShiftStep(hv: seq<Option<Hit>>, hs: seq<Option<Hit>>, n: nat, i: nat, hit: Hit)
    requires Placed(hv) && Placed(hs) && n + |hv| == |hs| && i <= |hv|
    requires Next(hv, i) < |hv| && hv[Next(hv, i)] == Some(hit)
    requires Next(hs, n + i) == n + Next(hv, i) && hs[n + Next(hv, i)] == Some(Hit(n + hit.end, hit.body))
    requires Reports(hs, n + hit.end) == Reports(hv, hit.end) && Consumed(hs, n + hit.end) == n + Consumed(hv, hit.end)
    ensures Reports(hs, n + i) == Reports(hv, i) && Consumed(hs, n + i) == n + Consumed(hv, i)
  {
    FirstReport(hv, i, hit);
    FirstReport(hs, n + i, Hit(n + hit.end, hit.body));
  }

  lemma FirstReport(h: seq<Option<Hit>>, i: nat, hit: Hit)
    requires Placed(h) && i <= |h| && Next(h, i) < |h| && h[Next(h, i)] == Some(hit)
    ensures Reports(h, i) == [hit.body] + Reports(h, hit.end) && Consumed(h, i) == Consumed(h, hit.end)
  {
  }

  /** A report found stays the first one when more text arrives. */
  lemma NextStable(ha: seq<Option<Hit>>, hs: seq<Option<Hit>>, i: nat)
    requires Grown(ha, hs) && i <= |ha| && Next(ha, i) < |ha|
    ensures Next(hs, i) == Next(ha, i)
  {
    NextIs(hs, i, Next(ha, i));
  }

  /** Scanning more first repeats the scan of what was there. */
  lemma {:induction false} ScanPrefix(ha: seq<Option<Hit>>, hs: seq<Option<Hit>>, i: nat)
    requires Placed(ha) && Placed(hs) && Grown(ha, hs) && i <= |ha|
    ensures Reports(hs, i) == Reports(ha, i) + Reports(hs, Consumed(ha, i))
    ensures Consumed(hs, i) == Consumed(hs, Consumed(ha, i))
    ensures Next(ha, Consumed(ha, i)) == |ha|
    decreases |ha| - i
  {
    var p := Next(ha, i);
    if p < |ha| {
      var e := ha[p].value.end;
      NextStable(ha, hs, i);
      ScanPrefix(ha, hs, e);
      Associative([ha[p].value.body], Reports(ha, e), Reports(hs, Consumed(ha, e)));
    } else {
      assert [] + Reports(hs, i) == Reports(hs, i);
    }
  }

  /** A scan may skip positions where no report starts. */
  lemma ScanSkip(h: seq<Option<Hit>>, k: nat)
    requires Placed(h) && k <= |h| && forall j | 0 <= j < k :: h[j].None?
    ensures Reports(h, 0) == Reports(h, k)
    ensures Consumed(h, 0) == if Next(h, k) == |h| then 0 else Consumed(h, k)
  {
    NextIs(h, 0, Next(h, k));
  }

  lemma SameRemainder(s: string, n: nat, v: string, c: nat)
    requires Suffix(v, s, n) && c <= |v|
    ensures s[n + c..] == v[c..]
  {
  }

  /** Reports span at most 306 characters. */
  ghost predicate Short(h: seq<Option<Hit>>) {
    forall p | 0 <= p < |h| && h[p].Some? :: h[p].value.end <= p + 306
  }

  lemma HitsShort(s: string)
    ensures Short(Hits(s))
  {
  }

  /** In a text without reports, one that is completed later starts within the last 305 characters. */
  lemma NothingStartsEarly(hu: seq<Option<Hit>>, hs: seq<Option<Hit>>, k: nat)
    requires Short(hs) && Next(hu, 0) == |hu| && Grown(hu, hs) && k + TAIL_KEEP == |hu|
    ensures forall j | 0 <= j < k :: hs[j].None?
  {
    assert forall j | 0 <= j < k :: hu[j].None?;
  }

  lemma ScanFrom(hs: seq<Option<Hit>>, hv: seq<Option<Hit>>, k: nat)
    requires Placed(hs) && Placed(hv) && ShiftedBy(hv, hs, k)
    requires forall j | 0 <= j < k :: hs[j].None?
    ensures Reports(hs, 0) == Reports(hv, 0)
    ensures Consumed(hs, 0) == if Next(hv, 0) == |hv| then 0 else k + Consumed(hv, 0)
  {
    ScanSkip(hs, k);
    ScanShift(hv, hs, k, 0);
  }

  /** So dropping all but the last 512 characters of such a text changes neither what is found nor what is kept. */
  lemma DropIsHarmless(u: string, s: string, v: string)
    requires Next(Hits(u), 0) == |u| && Prefix(u, s)
    requires Suffix(v, s, if |u| > TAIL_KEEP then |u| - TAIL_KEEP else 0)
    ensures Found(s) == Found(v) && Rest(s) == Rest(v)
  {
    if |u| > TAIL_KEEP {
      var k := |u| - TAIL_KEEP;
      HitsGrown(u, s);
      HitsShifted(s, k, v);
      HitsShort(s);
      NothingStartsEarly(Hits(u), Hits(s), k);
      ScanFrom(Hits(s), Hits(v), k);
      SameRest(s, k, v);
    } else {
      assert s == v;
    }
  }

  lemma SameRest(s: string, n: nat, v: string)
    requires Suffix(v, s, n) && TAIL_KEEP <= |v|
    requires Consumed(Hits(s), 0) == if Next(Hits(v), 0) == |v| then 0 else n + Consumed(Hits(v), 0)
    ensures Rest(s) == Rest(v)
  {
    SameRemainder(s, n, v, Consumed(Hits(v), 0));
    assert Tail(s, TAIL_KEEP) == Tail(v, TAIL_KEEP);
  }

  /** Everything up to the last report can be forgotten. */
  lemma ScanForgets(ha: seq<Option<Hit>>, hs: seq<Option<Hit>>, hu: seq<Option<Hit>>, hv: seq<Option<Hit>>)
    requires Placed(ha) && Placed(hs) && Placed(hu) && Placed(hv) && Grown(ha, hs)
    requires ShiftedBy(hu, ha, Consumed(ha, 0)) && ShiftedBy(hv, hs, Consumed(ha, 0))
    ensures Next(hu, 0) == |hu|
    ensures Reports(hs, 0) == Reports(ha, 0) + Reports(hv, 0)
    ensures Consumed(hs, 0) == Consumed(ha, 0) + Consumed(hv, 0)
  {
    ScanPrefix(ha, hs, 0);
    ScanShift(hu, ha, Consumed(ha, 0), 0);
    ScanShift(hv, hs, Consumed(ha, 0), 0);
  }

  lemma DropConsumed(a: string, s: string, u: string, v: string)
    requires Prefix(a, s) && Suffix(u, a, Consumed(Hits(a), 0)) && Suffix(v, s, Consumed(Hits(a), 0))
    ensures Next(Hits(u), 0) == |u|
    ensures Found(s) == Found(a) + Found(v) && Rest(s) == Rest(v)
  {
    var c := Consumed(Hits(a), 0);
    HitsGrown(a, s);
    HitsShifted(a, c, u);
    HitsShifted(s, c, v);
    ScanForgets(Hits(a), Hits(s), Hits(u), Hits(v));
    SameRemainder(s, c, v, Consumed(Hits(v), 0));
  }

  lemma AppendKeeps(a: string, b: string, c: nat)
    requires c <= |a|
    ensures Prefix(a, a + b) && Suffix(a[c..], a, c) && Suffix(a[c..] + b, a + b, c)
  {
  }

  lemma TailBehind(u: string, b: string)
    ensures Prefix(u, u + b)
    ensures Suffix(Tail(u, TAIL_KEEP) + b, u + b, if |u| > TAIL_KEEP then |u| - TAIL_KEEP else 0)
  {
  }

  /** The step of the fold: carrying Rest(a) is as good as carrying all of a. */
  lemma CarrySuffices(a: string, b: string)
    ensures Found(a + b) == Found(a) + Found(Rest(a) + b)
    ensures Rest(a + b) == Rest(Rest(a) + b)
  {
    var u := a[Consumed(Hits(a), 0)..];
    AppendKeeps(a, b, Consumed(Hits(a), 0));
    DropConsumed(a, a + b, u, u + b);
    TailBehind(u, b);
    DropIsHarmless(u, u + b, Rest(a) + b);
  }

  lemma {:induction false} LastCwdSplit(xs: seq<string>, ys: seq<string>, known: Option<string>)
    ensures LastCwd(xs + ys, known) == LastCwd(ys, LastCwd(xs, known))
    decreases |xs|
  {
    if xs == [] {
      assert xs + ys == ys;
    } else {
      assert (xs + ys)[1..] == xs[1..] + ys;
      LastCwdSplit(xs[1..], ys, if CwdOf(xs[0]).Some? then CwdOf(xs[0]) else known);
    }
  }

  lemma {:induction false} LastCwdDefault(bodies: seq<string>, known: Option<string>)
    ensures LastCwd(bodies, known) == if LastCwd(bodies, None).Some? then LastCwd(bodies, None) else known
    decreases |bodies|
  {
    if bodies != [] {
      LastCwdDefault(bodies[1..], if CwdOf(bodies[0]).Some? then CwdOf(bodies[0]) else known);
      LastCwdDefault(bodies[1..], CwdOf(bodies[0]));
    }
  }

  /** For every chunking, the reports found chunk by chunk are those of one pass over the whole stream, and so
      is the last known directory. */
  lemma {:induction false} ChunkingDoesNotMatter(chunks: seq<string>)
    ensures var stream := Flatten(chunks);
            Track(chunks) == Tracker(Found(stream), LastCwd(Found(stream), None), Rest(stream))
  {
    if chunks != [] {
      var n := |chunks| - 1;
      ChunkingDoesNotMatter(chunks[..n]);
      var before := Flatten(chunks[..n]);
      var tail := Rest(before) + chunks[n];
      CarrySuffices(before, chunks[n]);
      LastCwdSplit(Found(before), Found(tail), None);
      LastCwdDefault(Found(tail), LastCwd(Found(before), None));
    }
  }
}
