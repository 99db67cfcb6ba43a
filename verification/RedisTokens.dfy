/** Splitting a Redis command line into arguments, and the quoting that survives it. */
module RedisTokens {
  import opened Bytes
  import opened Wrappers

  const SPACE: Byte := 32
  const TAB: Byte := 9
  const QUOTE: Byte := 34
  const APOSTROPHE: Byte := 39
  const BACKSLASH: Byte := 92

  predicate IsBlank(b: Byte) {
    b == SPACE || b == TAB
  }

  predicate IsQuote(b: Byte) {
    b == QUOTE || b == APOSTROPHE
  }

  // ---------------------------------------------------------------- one byte at a time

  /** `quote` is the open quote, if any, and `escaped` says that the byte before was a backslash inside it. */
  datatype State = State(parts: seq<seq<Byte>>, current: seq<Byte>, quote: Option<Byte>, inToken: bool, escaped: bool)

  const START := State([], [], None, false, false)

  function Step(s: State, ch: Byte): State {
    if s.quote.Some? then
      if s.escaped then s.(current := s.current + [ch], escaped := false)
      else if ch == BACKSLASH then s.(escaped := true)
      else if ch == s.quote.value then s.(quote := None)
      else s.(current := s.current + [ch])
    else if IsQuote(ch) then s.(quote := Some(ch), inToken := true)
    else if IsBlank(ch) then
      if s.inToken then State(s.parts + [s.current], [], None, false, s.escaped) else s
    else s.(current := s.current + [ch], inToken := true)
  }

  function Fold(s: State, input: seq<Byte>): State {
    if input == [] then s else Step(Fold(s, input[..|input| - 1]), input[|input| - 1])
  }

  /** A backslash with nothing behind it stands for itself. */
  function Finish(s: State): seq<seq<Byte>> {
    if s.inToken then s.parts + [s.current + if s.escaped then [BACKSLASH] else []] else s.parts
  }

  function Parse(command: seq<Byte>): seq<seq<Byte>> {
    Finish(Fold(START, command))
  }

  lemma FoldSnoc(s: State, input: seq<Byte>, ch: Byte)
    ensures Fold(s, input + [ch]) == Step(Fold(s, input), ch)
  {
    assert (input + [ch])[..|input|] == input;
  }

  lemma {:induction false} FoldSplit(s: State, a: seq<Byte>, b: seq<Byte>)
    ensures Fold(s, a + b) == Fold(Fold(s, a), b)
    decreases |b|
  {
    if b == [] {
      assert a + b == a;
    } else {
      var front, last := b[..|b| - 1], b[|b| - 1];
      FoldSplit(s, a, front);
      FoldSnoc(s, a + front, last);
      assert a + b == (a + front) + [last];
    }
  }

  /** The loop's variables stand for `s`; a backslash that ends the command has already been written out. */
  ghost predicate Holds(s: State, parts: seq<seq<Byte>>, current: seq<Byte>, inQuote: bool, quoteChar: Byte,
                        inToken: bool, atEnd: bool) {
    if s.escaped then atEnd && inToken && s.inToken && s.parts == parts && s.current + [BACKSLASH] == current
    else s == State(parts, current, if inQuote then Some(quoteChar) else None, inToken, false)
  }

  lemma Next(command: seq<Byte>, i: nat)
    requires i < |command|
    ensures Fold(START, command[..i + 1]) == Step(Fold(START, command[..i]), command[i])
  {
    assert command[..i + 1] == command[..i] + [command[i]];
    FoldSnoc(START, command[..i], command[i]);
  }

  method ParseRedisCommand(command: seq<Byte>) returns (parts: seq<seq<Byte>>)
    ensures parts == Parse(command)
  {
    parts := [];
    var current: seq<Byte> := [];
    var inQuote, inToken := false, false;
    var quoteChar: Byte := 0;
    var i := 0;
    while i < |command|
      invariant 0 <= i <= |command| && (inQuote ==> inToken && IsQuote(quoteChar))
      invariant Holds(Fold(START, command[..i]), parts, current, inQuote, quoteChar, inToken, i == |command|)
    {
      var ch := command[i];
      Next(command, i);
      if inQuote {
        if ch == BACKSLASH && i + 1 < |command| {
          Next(command, i + 1);
          current := current + [command[i + 1]];
          i := i + 2;
          continue;
        }
        if ch == quoteChar {
          inQuote := false;
        } else {
          current := current + [ch];
        }
      } else if ch == QUOTE || ch == APOSTROPHE {
        inQuote, inToken, quoteChar := true, true, ch;
      } else if ch == SPACE || ch == TAB {
        if inToken {
          parts := parts + [current];
          current := [];
          inToken := false;
        }
      } else {
        current := current + [ch];
        inToken := true;
      }
      i := i + 1;
    }
    assert command[..i] == command;
    assert current + [] == current;
    if inToken {
      parts := parts + [current];
    }
  }

  // ---------------------------------------------------------------- writing arguments

  /** A quote like the open one and a backslash need a backslash, any other byte may have one. */
  function EscapeByte(quote: Byte, b: Byte, forced: bool): seq<Byte> {
    if b == quote || b == BACKSLASH || forced then [BACKSLASH, b] else [b]
  }

  /** `forced` are the positions that have a backslash without need. */
  function Escape(quote: Byte, s: seq<Byte>, forced: set<nat>): seq<Byte> {
    if s == [] then []
    else
      var n := |s| - 1;
      Escape(quote, s[..n], forced) + EscapeByte(quote, s[n], n in forced)
  }

  /** A stretch of an argument, written bare or between quotes. */
  datatype Segment = Bare(bytes: seq<Byte>) | Quoted(quote: Byte, bytes: seq<Byte>, forced: set<nat>)

  ghost predicate Writable(segment: Segment) {
    match segment
    case Bare(bytes) => bytes != [] && forall k | 0 <= k < |bytes| :: !IsBlank(bytes[k]) && !IsQuote(bytes[k])
    case Quoted(quote, _, _) => IsQuote(quote)
  }

  function SegmentText(segment: Segment): seq<Byte> {
    match segment
    case Bare(bytes) => bytes
    case Quoted(quote, bytes, forced) => [quote] + Escape(quote, bytes, forced) + [quote]
  }

  type Token = seq<Segment>

  ghost predicate WritableToken(token: Token) {
    token != [] && forall k | 0 <= k < |token| :: Writable(token[k])
  }

  function Text(token: Token): seq<Byte> {
    if token == [] then [] else Text(token[..|token| - 1]) + SegmentText(token[|token| - 1])
  }

  function Value(token: Token): seq<Byte> {
    if token == [] then [] else Value(token[..|token| - 1]) + token[|token| - 1].bytes
  }

  function Values(tokens: seq<Token>): seq<seq<Byte>> {
    seq(|tokens|, k requires 0 <= k < |tokens| => Value(tokens[k]))
  }

  ghost predicate Blanks(s: seq<Byte>) {
    forall k | 0 <= k < |s| :: IsBlank(s[k])
  }

  /** Each token has its gap of blanks before it; only the first gap may be empty. */
  ghost predicate Gaps(gaps: seq<seq<Byte>>, tokens: seq<Token>) {
    |gaps| == |tokens| && forall k | 0 <= k < |gaps| :: Blanks(gaps[k]) && (k > 0 ==> gaps[k] != [])
  }

  function Render(gaps: seq<seq<Byte>>, tokens: seq<Token>): seq<Byte>
    requires |gaps| == |tokens|
  {
    if tokens == [] then []
    else
      var n := |tokens| - 1;
      Render(gaps[..n], tokens[..n]) + gaps[n] + Text(tokens[n])
  }

  lemma FoldOne(s: State, a: Byte)
    ensures Fold(s, [a]) == Step(s, a)
  {
    FoldSnoc(s, [], a);
    assert [] + [a] == [a];
  }

  lemma FoldEscapedByte(s: State, quote: Byte, b: Byte, forced: bool)
    requires s.quote == Some(quote) && !s.escaped && quote != BACKSLASH
    ensures Fold(s, EscapeByte(quote, b, forced)) == s.(current := s.current + [b])
  {
    if b == quote || b == BACKSLASH || forced {
      FoldOne(s, BACKSLASH);
      FoldSnoc(s, [BACKSLASH], b);
      assert [BACKSLASH] + [b] == [BACKSLASH, b];
    } else {
      FoldOne(s, b);
    }
  }

  /** Reading `a` and then `b`. */
  lemma Then(s: State, a: seq<Byte>, t: State, b: seq<Byte>, u: State)
    requires Fold(s, a) == t && Fold(t, b) == u
    ensures Fold(s, a + b) == u
  {
    FoldSplit(s, a, b);
  }

  lemma {:induction false} FoldEscaped(s: State, quote: Byte, bytes: seq<Byte>, forced: set<nat>)
    requires s.quote == Some(quote) && !s.escaped && quote != BACKSLASH
    ensures Fold(s, Escape(quote, bytes, forced)) == s.(current := s.current + bytes)
  {
    if bytes != [] {
      var front, last := bytes[..|bytes| - 1], bytes[|bytes| - 1];
      var t := s.(current := s.current + front);
      FoldEscaped(s, quote, front, forced);
      FoldEscapedByte(t, quote, last, |front| in forced);
      Associative(s.current, front, [last]);
      assert bytes == front + [last];
      Then(s, Escape(quote, front, forced), t, EscapeByte(quote, last, |front| in forced),
           s.(current := s.current + bytes));
    }
  }

  lemma {:induction false} FoldBare(s: State, bytes: seq<Byte>)
    requires s.quote == None && Writable(Bare(bytes))
    ensures Fold(s, bytes) == s.(current := s.current + bytes, inToken := true)
  {
    var front, last := bytes[..|bytes| - 1], bytes[|bytes| - 1];
    if front == [] {
      FoldOne(s, last);
      assert bytes == [last];
    } else {
      FoldBare(s, front);
      assert s.current + bytes == (s.current + front) + [last];
    }
  }

  lemma FoldQuoted(s: State, quote: Byte, bytes: seq<Byte>, forced: set<nat>)
    requires s.quote == None && !s.escaped && IsQuote(quote)
    ensures Fold(s, [quote] + Escape(quote, bytes, forced) + [quote])
         == s.(current := s.current + bytes, inToken := true)
  {
    var t := s.(quote := Some(quote), inToken := true);
    var u := t.(current := s.current + bytes);
    FoldOne(s, quote);
    FoldEscaped(t, quote, bytes, forced);
    FoldOne(u, quote);
    Then(s, [quote], t, Escape(quote, bytes, forced), u);
    Then(s, [quote] + Escape(quote, bytes, forced), u, [quote], u.(quote := None));
  }

  lemma FoldSegment(s: State, segment: Segment)
    requires s.quote == None && !s.escaped && Writable(segment)
    ensures Fold(s, SegmentText(segment)) == s.(current := s.current + segment.bytes, inToken := true)
  {
    match segment
    case Bare(bytes) => FoldBare(s, bytes);
    case Quoted(quote, bytes, forced) => FoldQuoted(s, quote, bytes, forced);
  }

  lemma {:induction false} FoldToken(s: State, token: Token)
    requires s.quote == None && !s.escaped && WritableToken(token)
    ensures Fold(s, Text(token)) == s.(current := s.current + Value(token), inToken := true)
  {
    var front, last := token[..|token| - 1], token[|token| - 1];
    if front == [] {
      FoldSegment(s, last);
      assert [] + SegmentText(last) == SegmentText(last) && [] + last.bytes == last.bytes;
    } else {
      var t := s.(current := s.current + Value(front), inToken := true);
      FoldToken(s, front);
      FoldSegment(t, last);
      Associative(s.current, Value(front), last.bytes);
      Then(s, Text(front), t, SegmentText(last), s.(current := s.current + Value(token), inToken := true));
    }
  }

  lemma {:induction false} FoldBlanks(s: State, gap: seq<Byte>)
    requires s.quote == None && !s.escaped && Blanks(gap) && (!s.inToken ==> s.current == [])
    ensures Fold(s, gap)
         == if gap == [] || !s.inToken then s else State(s.parts + [s.current], [], None, false, false)
  {
    if gap != [] {
      FoldBlanks(s, gap[..|gap| - 1]);
    }
  }

  /** Where the parser stands behind the last byte of the rendered tokens. */
  function Behind(tokens: seq<Token>): State {
    if tokens == [] then START
    else State(Values(tokens[..|tokens| - 1]), Value(tokens[|tokens| - 1]), None, true, false)
  }

  lemma ValuesSnoc(tokens: seq<Token>, last: Token)
    ensures Values(tokens + [last]) == Values(tokens) + [Value(last)]
  {
  }

  lemma FlushBehind(tokens: seq<Token>)
    ensures var s := Behind(tokens);
            Values(tokens) == if s.inToken then s.parts + [s.current] else s.parts
  {
    if tokens != [] {
      var n := |tokens| - 1;
      ValuesSnoc(tokens[..n], tokens[n]);
      assert tokens == tokens[..n] + [tokens[n]];
    }
  }

  lemma FoldGapAndToken(tokens: seq<Token>, gap: seq<Byte>, last: Token)
    requires Blanks(gap) && (tokens != [] ==> gap != []) && WritableToken(last)
    ensures Fold(Behind(tokens), gap + Text(last)) == Behind(tokens + [last])
  {
    var s := Behind(tokens);
    var t := State(Values(tokens), [], None, false, false);
    FlushBehind(tokens);
    FoldBlanks(s, gap);
    FoldToken(t, last);
    assert [] + Value(last) == Value(last);
    assert (tokens + [last])[..|tokens|] == tokens;
    Then(s, gap, t, Text(last), Behind(tokens + [last]));
  }

  ghost predicate AllWritable(tokens: seq<Token>) {
    forall k | 0 <= k < |tokens| :: WritableToken(tokens[k])
  }

  lemma FoldOneMore(rendered: seq<Byte>, tokens: seq<Token>, gap: seq<Byte>, last: Token)
    requires Fold(START, rendered) == Behind(tokens)
    requires Blanks(gap) && (tokens != [] ==> gap != []) && WritableToken(last)
    ensures Fold(START, rendered + gap + Text(last)) == Behind(tokens + [last])
  {
    FoldGapAndToken(tokens, gap, last);
    Associative(rendered, gap, Text(last));
    Then(START, rendered, Behind(tokens), gap + Text(last), Behind(tokens + [last]));
  }

  lemma {:induction false} FoldRendered(gaps: seq<seq<Byte>>, tokens: seq<Token>)
    requires Gaps(gaps, tokens) && AllWritable(tokens)
    ensures Fold(START, Render(gaps, tokens)) == Behind(tokens)
  {
    if tokens != [] {
      var n := |tokens| - 1;
      var front := tokens[..n];
      assert tokens == front + [tokens[n]];
      FoldRendered(gaps[..n], front);
      FoldOneMore(Render(gaps[..n], front), front, gaps[n], tokens[n]);
    }
  }

  /** Arguments come back exactly, empty ones included, whichever stretches are quoted, with either quote, and
      however many blanks stand before, between and behind them. */
  lemma ParseReadsWhatIsWritten(gaps: seq<seq<Byte>>, tokens: seq<Token>, trail: seq<Byte>)
    requires Gaps(gaps, tokens) && Blanks(trail) && AllWritable(tokens)
    ensures Parse(Render(gaps, tokens) + trail) == Values(tokens)
  {
    FoldRendered(gaps, tokens);
    FlushBehind(tokens);
    FoldBlanks(Behind(tokens), trail);
    var s := Fold(Behind(tokens), trail);
    Then(START, Render(gaps, tokens), Behind(tokens), trail, s);
    assert s.current + [] == s.current;
  }

  lemma GapBehind(tokens: seq<Token>, gap: seq<Byte>)
    requires Blanks(gap) && (tokens != [] ==> gap != [])
    ensures Fold(Behind(tokens), gap) == State(Values(tokens), [], None, false, false)
  {
    FlushBehind(tokens);
    FoldBlanks(Behind(tokens), gap);
  }

  lemma HeadBehind(tokens: seq<Token>, gap: seq<Byte>, head: Token)
    requires Blanks(gap) && (tokens != [] ==> gap != []) && (head == [] || WritableToken(head))
    ensures Fold(Behind(tokens), gap + Text(head)) == State(Values(tokens), Value(head), None, head != [], false)
  {
    if head == [] {
      GapBehind(tokens, gap);
      assert gap + [] == gap;
    } else {
      FoldGapAndToken(tokens, gap, head);
      assert (tokens + [head])[..|tokens|] == tokens;
    }
  }

  lemma FoldOpen(s: State, quote: Byte, bytes: seq<Byte>, forced: set<nat>)
    requires s.quote == None && !s.escaped && IsQuote(quote)
    ensures Fold(s, [quote] + Escape(quote, bytes, forced))
         == State(s.parts, s.current + bytes, Some(quote), true, false)
  {
    var t := s.(quote := Some(quote), inToken := true);
    FoldOne(s, quote);
    FoldEscaped(t, quote, bytes, forced);
    Then(s, [quote], t, Escape(quote, bytes, forced), t.(current := s.current + bytes));
  }

  /** A quote left open, behind any beginning of its argument, runs to the end, where a lone backslash stands for
      itself. */
  lemma OpenQuoteRunsOn(gaps: seq<seq<Byte>>, tokens: seq<Token>, gap: seq<Byte>, head: Token, quote: Byte,
                        bytes: seq<Byte>, forced: set<nat>)
    requires Gaps(gaps, tokens) && AllWritable(tokens) && Blanks(gap) && (tokens != [] ==> gap != [])
    requires (head == [] || WritableToken(head)) && IsQuote(quote)
    ensures var open := Render(gaps, tokens) + (gap + Text(head)) + ([quote] + Escape(quote, bytes, forced));
            && Parse(open) == Values(tokens) + [Value(head) + bytes]
            && Parse(open + [BACKSLASH]) == Values(tokens) + [Value(head) + bytes + [BACKSLASH]]
  {
    var rendered, tail := Render(gaps, tokens), [quote] + Escape(quote, bytes, forced);
    var s := State(Values(tokens), Value(head), None, head != [], false);
    FoldRendered(gaps, tokens);
    HeadBehind(tokens, gap, head);
    Then(START, rendered, Behind(tokens), gap + Text(head), s);
    FoldOpen(s, quote, bytes, forced);
    var t := State(Values(tokens), Value(head) + bytes, Some(quote), true, false);
    Then(START, rendered + (gap + Text(head)), s, tail, t);
    FoldSnoc(START, rendered + (gap + Text(head)) + tail, BACKSLASH);
    assert Value(head) + bytes + [] == Value(head) + bytes;
  }

  // ---------------------------------------------------------------- the client's quoting

  /** Letters, digits, and the bytes . _ - : @ */
  predicate IsPlain(b: Byte) {
    48 <= b <= 58 || 64 <= b <= 90 || 97 <= b <= 122 || b == 45 || b == 46 || b == 95
  }

  function RedisQuote(s: seq<Byte>): seq<Byte> {
    if s != [] && forall k | 0 <= k < |s| :: IsPlain(s[k]) then s
    else [QUOTE] + Escape(QUOTE, s, {}) + [QUOTE]
  }

  function Print(args: seq<seq<Byte>>): seq<Byte> {
    if args == [] then []
    else if |args| == 1 then RedisQuote(args[0])
    else Print(args[..|args| - 1]) + [SPACE] + RedisQuote(args[|args| - 1])
  }

  /** The one-segment token that RedisQuote writes. */
  function TokenOf(s: seq<Byte>): Token {
    if s != [] && forall k | 0 <= k < |s| :: IsPlain(s[k]) then [Bare(s)] else [Quoted(QUOTE, s, {})]
  }

  function TokensOf(args: seq<seq<Byte>>): seq<Token> {
    seq(|args|, k requires 0 <= k < |args| => TokenOf(args[k]))
  }

  function SpacesFor(args: seq<seq<Byte>>): seq<seq<Byte>> {
    seq(|args|, k requires 0 <= k < |args| => if k == 0 then [] else [SPACE])
  }

  lemma OneSegment(segment: Segment)
    ensures Text([segment]) == SegmentText(segment) && Value([segment]) == segment.bytes
  {
    assert [segment][..0] == [];
    assert [] + SegmentText(segment) == SegmentText(segment) && [] + segment.bytes == segment.bytes;
  }

  lemma TokenOfText(s: seq<Byte>)
    ensures Text(TokenOf(s)) == RedisQuote(s) && Value(TokenOf(s)) == s && WritableToken(TokenOf(s))
  {
    OneSegment(TokenOf(s)[0]);
  }

  lemma {:induction false} PrintIsRender(args: seq<seq<Byte>>)
    ensures Render(SpacesFor(args), TokensOf(args)) == Print(args)
  {
    if args != [] {
      var n := |args| - 1;
      PrintIsRender(args[..n]);
      assert SpacesFor(args)[..n] == SpacesFor(args[..n]) && TokensOf(args)[..n] == TokensOf(args[..n]);
      TokenOfText(args[n]);
    }
  }

  /** Quoting each argument and joining with single spaces is undone by parsing, for every list of byte strings. */
  lemma ParseUndoesPrint(args: seq<seq<Byte>>)
    ensures Parse(Print(args)) == args
  {
    TokensOfArgs(args);
    PrintIsRender(args);
    ParseReadsWhatIsWritten(SpacesFor(args), TokensOf(args), []);
    assert Print(args) + [] == Print(args);
  }

  lemma TokensOfArgs(args: seq<seq<Byte>>)
    ensures Gaps(SpacesFor(args), TokensOf(args)) && AllWritable(TokensOf(args)) && Values(TokensOf(args)) == args
  {
    forall k | 0 <= k < |args|
      ensures WritableToken(TokensOf(args)[k]) && Value(TokensOf(args)[k]) == args[k]
    {
      TokenOfText(args[k]);
    }
  }

  /** Hence printing a parsed command and parsing it again gives the same arguments, whatever the command. */
  lemma ReprintIsStable(command: seq<Byte>)
    ensures Parse(Print(Parse(command))) == Parse(command)
  {
    ParseUndoesPrint(Parse(command));
  }
}
