/** Live frames: the wire format of one frame, and the bounded ring from which a late subscriber catches up. */
module PacketRing {
  import opened Bytes
  import opened Wrappers

  const MSG_H264: Byte := 2
  const FLAG_KEYFRAME: Byte := 1
  const FLAG_CONFIG: Byte := 2
  const HEADER_LEN := 6
  const MAX_PAYLOAD := 0x40_0000   // 4 MiB
  const RING_CAP := 0x80_0000      // 8 MiB

  function LowByte(n: nat): Byte {
    n % 0x100
  }

  function ShiftByte(n: nat): nat {
    n / 0x100
  }

  /** The low 32 bits of `n`, big-endian. */
  function U32(n: nat): seq<Byte> {
    var a := ShiftByte(n);
    var b := ShiftByte(a);
    [LowByte(ShiftByte(b)), LowByte(b), LowByte(a), LowByte(n)]
  }

  function FromU32(b: seq<Byte>): nat
    requires |b| == 4
  {
    var v: seq<int> := b;
    v[0] * 0x100_0000 + v[1] * 0x1_0000 + v[2] * 0x100 + v[3]
  }

  function EncodeFrame(kind: Byte, flags: Byte, payload: seq<Byte>): seq<Byte> {
    [kind, flags] + U32(|payload|) + payload
  }

  datatype Frame = Frame(kind: Byte, flags: Byte, payload: seq<Byte>)

  function DecodeFrame(bytes: seq<Byte>): Option<Frame> {
    if |bytes| < HEADER_LEN then None
    else
      var len := FromU32(bytes[2..6]);
      if len > MAX_PAYLOAD || |bytes| - HEADER_LEN != len then None
      else Some(Frame(bytes[0], bytes[1], bytes[HEADER_LEN..]))
  }

  lemma ShiftAndLow(n: nat)
    ensures n == ShiftByte(n) * 0x100 + LowByte(n)
  {
  }

  lemma Reassemble(high: nat, low: Byte)
    ensures ShiftByte(high * 0x100 + low) == high && LowByte(high * 0x100 + low) == low
  {
  }

  lemma U32RoundTrip(n: nat)
    ensures FromU32(U32(n)) == n % 0x1_0000_0000
  {
    var a := ShiftByte(n);
    var b := ShiftByte(a);
    var c := ShiftByte(b);
    var d := ShiftByte(c);
    ShiftAndLow(n);
    ShiftAndLow(a);
    ShiftAndLow(b);
    ShiftAndLow(c);
    assert n == d * 0x1_0000_0000 + FromU32(U32(n));
  }

  lemma BytesRoundTrip(b: seq<Byte>)
    requires |b| == 4
    ensures U32(FromU32(b)) == b
  {
    var high: nat := b[0];
    var c: nat := high * 0x100 + b[1];
    var d: nat := c * 0x100 + b[2];
    Reassemble(0, b[0]);
    Reassemble(b[0], b[1]);
    Reassemble(c, b[2]);
    Reassemble(d, b[3]);
    assert FromU32(b) == d * 0x100 + b[3];
  }

  /** Decoding inverts encoding exactly for payloads up to 4 MiB: a longer one is refused, whatever its
      length leaves in the 32-bit field. */
  lemma DecodeInvertsEncode(kind: Byte, flags: Byte, payload: seq<Byte>)
    ensures DecodeFrame(EncodeFrame(kind, flags, payload))
         == if |payload| <= MAX_PAYLOAD then Some(Frame(kind, flags, payload)) else None
  {
    var bytes := EncodeFrame(kind, flags, payload);
    assert bytes[2..6] == U32(|payload|) && bytes[HEADER_LEN..] == payload;
    U32RoundTrip(|payload|);
  }

  /** On the wire: kind, flags, the length in four bytes from the highest to the lowest, and the payload. */
  lemma WireFormat(kind: Byte, flags: Byte, payload: seq<Byte>)
    requires |payload| < 0x1_0000_0000
    ensures var bytes: seq<int> := EncodeFrame(kind, flags, payload);
            && |bytes| == 6 + |payload| && bytes[0] == kind && bytes[1] == flags
            && bytes[2] * 0x100_0000 + bytes[3] * 0x1_0000 + bytes[4] * 0x100 + bytes[5] == |payload|
            && forall i | 0 <= i < |payload| :: bytes[6 + i] == payload[i]
  {
    U32RoundTrip(|payload|);
  }

  /** Whatever decodes was encoded from it. */
  lemma EncodeInvertsDecode(bytes: seq<Byte>)
    requires DecodeFrame(bytes).Some?
    ensures var f := DecodeFrame(bytes).value;
            |f.payload| <= MAX_PAYLOAD && EncodeFrame(f.kind, f.flags, f.payload) == bytes
  {
    BytesRoundTrip(bytes[2..6]);
    assert bytes == [bytes[0], bytes[1]] + bytes[2..6] + bytes[6..];
  }

  datatype Entry = Entry(kind: Byte, flags: Byte, encoded: seq<Byte>)

  /** Whether bit 0, the key-frame flag, is set or the kind is self-contained anyway. */
  predicate SelfContained(e: Entry) {
    e.kind != MSG_H264 || e.flags % 2 == FLAG_KEYFRAME
  }

  /** Encoded bytes of `entries` from `i` on. */
  function SizeFrom(entries: seq<Entry>, i: nat): nat
    decreases |entries| - i
  {
    if i >= |entries| then 0 else |entries[i].encoded| + SizeFrom(entries, i + 1)
  }

  /** Nothing that starts before `from` fits. */
  ghost predicate Dropping(entries: seq<Entry>, from: nat) {
    from <= |entries| && forall i | 0 <= i < from :: SizeFrom(entries, i) > RING_CAP
  }

  /** `from` is where the longest suffix of `entries` within the cap begins. */
  ghost predicate LongestFit(entries: seq<Entry>, from: nat) {
    Dropping(entries, from) && SizeFrom(entries, from) <= RING_CAP
  }

  lemma {:induction false} SizeSnoc(entries: seq<Entry>, last: Entry, i: nat)
    requires i <= |entries|
    ensures SizeFrom(entries + [last], i) == SizeFrom(entries, i) + |last.encoded|
    decreases |entries| - i
  {
    if i < |entries| {
      SizeSnoc(entries, last, i + 1);
    }
  }

  lemma SizesSnoc(entries: seq<Entry>, last: Entry, from: nat)
    requires Dropping(entries, from)
    ensures Dropping(entries + [last], from)
    ensures SizeFrom(entries + [last], from) == SizeFrom(entries, from) + |last.encoded|
  {
    forall i | 0 <= i <= from
      ensures SizeFrom(entries + [last], i) == SizeFrom(entries, i) + |last.encoded|
    {
      SizeSnoc(entries, last, i);
    }
  }

  lemma {:induction false} SizeShrinks(entries: seq<Entry>, i: nat, j: nat)
    requires i <= j
    ensures SizeFrom(entries, i) >= SizeFrom(entries, j)
    decreases j - i
  {
    if i < j {
      SizeShrinks(entries, i + 1, j);
    }
  }

  /** Where a replay of `entries` starts, looking at the first `end` of them only. */
  function ReplayStart(entries: seq<Entry>, end: nat): nat
    requires end <= |entries|
  {
    if end == 0 then 0
    else if SelfContained(entries[end - 1]) then end - 1
    else ReplayStart(entries, end - 1)
  }

  function Replay(entries: seq<Entry>): seq<Entry> {
    LastIsLast(entries, |entries|);
    entries[ReplayStart(entries, |entries|)..]
  }

  ghost predicate HoldsSelfContained(entries: seq<Entry>) {
    exists i | 0 <= i < |entries| :: SelfContained(entries[i])
  }

  lemma {:induction false} LastIsLast(entries: seq<Entry>, end: nat)
    requires end <= |entries|
    ensures ReplayStart(entries, end) <= end
    ensures var s := ReplayStart(entries, end);
            if exists i | 0 <= i < end :: SelfContained(entries[i])
            then s < end && SelfContained(entries[s]) && forall i | s < i < end :: !SelfContained(entries[i])
            else s == 0
  {
    if end > 0 && !SelfContained(entries[end - 1]) {
      LastIsLast(entries, end - 1);
    }
  }

  function Encodings(entries: seq<Entry>): seq<seq<Byte>> {
    seq(|entries|, i requires 0 <= i < |entries| => entries[i].encoded)
  }

  /** `history` is everything ever pushed, and `from` how much of it the ring has let go. */
  class Ring {
    var entries: seq<Entry>
    var bytes: nat
    ghost var history: seq<Entry>
    ghost var from: nat

    ghost predicate Valid()
      reads this
    {
      && LongestFit(history, from)
      && entries == history[from..]
      && bytes == SizeFrom(history, from)
    }

    constructor ()
      ensures Valid() && history == []
    {
      entries, bytes, history, from := [], 0, [], 0;
    }

    /** The queue never runs empty and the subtraction never saturates, because `bytes` is exact. */
    method Push(kind: Byte, flags: Byte, encoded: seq<Byte>)
      requires Valid()
      modifies this
      ensures Valid() && history == old(history) + [Entry(kind, flags, encoded)]
    {
      ghost var last := Entry(kind, flags, encoded);
      SizesSnoc(history, last, from);
      history := history + [last];
      bytes := bytes + |encoded|;
      entries := entries + [Entry(kind, flags, encoded)];
      while bytes > RING_CAP
        invariant history == old(history) + [last] && Dropping(history, from)
        invariant entries == history[from..] && bytes == SizeFrom(history, from)
        decreases |entries|
      {
        var front := entries[0];
        entries := entries[1..];
        bytes := bytes - |front.encoded|;
        from := from + 1;
      }
    }

    method FindStart() returns (start: nat)
      ensures start == ReplayStart(entries, |entries|) <= |entries|
    {
      LastIsLast(entries, |entries|);
      start := |entries|;
      while start > 0 && !SelfContained(entries[start - 1])
        invariant 0 <= start <= |entries| && ReplayStart(entries, |entries|) == ReplayStart(entries, start)
      {
        start := start - 1;
      }
      if start > 0 {
        start := start - 1;
      }
    }

    method ReplayFrames() returns (frames: seq<seq<Byte>>)
      ensures frames == Encodings(Replay(entries))
    {
      var start := FindStart();
      frames := [];
      for i := start to |entries|
        invariant frames == Encodings(entries[start..i])
      {
        EncodingsSnoc(entries[start..i], entries[i]);
        assert entries[start..i + 1] == entries[start..i] + [entries[i]];
        frames := frames + [entries[i].encoded];
      }
      assert entries[start..|entries|] == entries[start..];
    }
  }

  lemma EncodingsSnoc(entries: seq<Entry>, last: Entry)
    ensures Encodings(entries + [last]) == Encodings(entries) + [last.encoded]
  {
  }

  /** The ring holds a self-contained frame exactly when everything since the last one fits in it. */
  lemma HoldsWhatFits(history: seq<Entry>, from: nat)
    requires LongestFit(history, from)
    ensures HoldsSelfContained(history[from..])
        <==> HoldsSelfContained(history) && SizeFrom(history, ReplayStart(history, |history|)) <= RING_CAP
  {
    LastIsLast(history, |history|);
    var last := ReplayStart(history, |history|);
    if HoldsSelfContained(history[from..]) {
      var i :| 0 <= i < |history[from..]| && SelfContained(history[from..][i]);
      assert SelfContained(history[from + i]) && from + i <= last;
      SizeShrinks(history, from, last);
    }
    if HoldsSelfContained(history) && SizeFrom(history, last) <= RING_CAP {
      assert from <= last;
      assert SelfContained(history[from..][last - from]);
    }
  }

  /** A decoder fed the first `end` entries, one after another. */
  function Fold<D>(step: (D, Entry) -> D, d: D, entries: seq<Entry>): D {
    if entries == [] then d else step(Fold(step, d, entries[..|entries| - 1]), entries[|entries| - 1])
  }

  lemma {:induction false} FoldSplit<D>(step: (D, Entry) -> D, d: D, a: seq<Entry>, b: seq<Entry>)
    ensures Fold(step, d, a + b) == Fold(step, Fold(step, d, a), b)
    decreases |b|
  {
    if b == [] {
      assert a + b == a;
    } else {
      var n := |b| - 1;
      assert (a + b)[..|a| + n] == a + b[..n];
      FoldSplit(step, d, a, b[..n]);
    }
  }

  /** A decoder that every self-contained entry the ring can hold resets. */
  ghost predicate Resets<D(!new)>(step: (D, Entry) -> D) {
    forall d, e: D, x: Entry | SelfContained(x) && |x.encoded| <= RING_CAP :: step(d, x) == step(e, x)
  }

  lemma {:induction false} FoldAlike<D>(step: (D, Entry) -> D, d: D, e: D, entries: seq<Entry>)
    requires entries != [] && step(d, entries[0]) == step(e, entries[0])
    ensures Fold(step, d, entries) == Fold(step, e, entries)
  {
    var n := |entries| - 1;
    if n == 0 {
      assert entries[..0] == [];
    } else {
      FoldAlike(step, d, e, entries[..n]);
    }
  }

  /** How much of the history the replay leaves out. */
  function LeftOut(history: seq<Entry>, from: nat): (n: nat)
    requires from <= |history|
    ensures n <= |history|
  {
    LastIsLast(history[from..], |history[from..]|);
    from + ReplayStart(history[from..], |history[from..]|)
  }

  lemma ReplayIsSuffix(history: seq<Entry>, from: nat)
    requires LongestFit(history, from) && HoldsSelfContained(history[from..])
    ensures var n := LeftOut(history, from);
            && Replay(history[from..]) == history[n..] && history[..n] + history[n..] == history
            && n < |history| && SelfContained(history[n]) && |history[n].encoded| <= RING_CAP
            && forall i | n < i < |history| :: !SelfContained(history[i])
  {
    var ring, n := history[from..], LeftOut(history, from);
    LastIsLast(ring, |ring|);
    SizeShrinks(history, from, n);
    forall i | n < i < |history|
      ensures !SelfContained(history[i])
    {
      assert history[i] == ring[i - from];
    }
  }

  /** If the ring holds a self-contained frame, a late subscriber that replays it ends in the decoder state of
      an early one that saw the whole history, whatever state either started in. */
  lemma LateEqualsEarly<D(!new)>(step: (D, Entry) -> D, early: D, late: D, history: seq<Entry>, from: nat)
    requires Resets(step) && LongestFit(history, from) && HoldsSelfContained(history[from..])
    ensures Fold(step, late, Replay(history[from..])) == Fold(step, early, history)
  {
    var n := LeftOut(history, from);
    ReplayIsSuffix(history, from);
    FoldSplit(step, early, history[..n], history[n..]);
    FoldAlike(step, late, Fold(step, early, history[..n]), history[n..]);
  }

  /** Late subscribers always catch up: from any state, for any history whose ring holds a self-contained frame. */
  ghost predicate CatchesUp<D(!new)>(step: (D, Entry) -> D) {
    forall early, late: D, history, from | LongestFit(history, from) && HoldsSelfContained(history[from..]) ::
      Fold(step, late, Replay(history[from..])) == Fold(step, early, history)
  }

  lemma OneEntry<D(!new)>(step: (D, Entry) -> D, d: D, e: D, x: Entry)
    requires CatchesUp(step) && SelfContained(x) && |x.encoded| <= RING_CAP
    ensures step(d, x) == step(e, x)
  {
    var history := [x];
    assert history[0..] == history && history[..0] == [];
    assert SelfContained(history[0]) && LongestFit(history, 0);
    assert Replay(history[0..]) == history;
    assert Fold(step, e, history) == Fold(step, d, history);
    assert Fold(step, e, []) == e && Fold(step, d, []) == d;
  }

  /** The decoders for which they do are exactly the ones that self-contained entries reset. */
  lemma CatchesUpIff<D(!new)>(step: (D, Entry) -> D)
    ensures CatchesUp(step) <==> Resets(step)
  {
    if Resets(step) {
      forall early, late: D, history, from | LongestFit(history, from) && HoldsSelfContained(history[from..])
        ensures Fold(step, late, Replay(history[from..])) == Fold(step, early, history)
      {
        LateEqualsEarly(step, early, late, history, from);
      }
    }
    if CatchesUp(step) {
      forall d, e: D, x: Entry | SelfContained(x) && |x.encoded| <= RING_CAP
        ensures step(d, x) == step(e, x)
      {
        OneEntry(step, d, e, x);
      }
    }
  }

  /** A configuration packet sent before a key frame is not replayed with it. */
  lemma ConfigIsNotReplayed(ring: seq<Entry>, config: Entry, key: Entry)
    requires config.kind == MSG_H264 && config.flags == FLAG_CONFIG && SelfContained(key)
    ensures Replay(ring + [config, key]) == [key]
  {
  }

  /** Whether bit 1, the configuration flag, is set. */
  predicate IsConfig(e: Entry) {
    e.kind == MSG_H264 && e.flags / FLAG_CONFIG % 2 == 1
  }

  /** A decoder that keeps the last configuration, as H.264 needs it. */
  datatype Decoder<S> = Decoder(config: Option<Entry>, picture: S)

  function ConfigAfter(config: Option<Entry>, e: Entry): Option<Entry> {
    if IsConfig(e) then Some(e) else config
  }

  function ConfigsAfter(config: Option<Entry>, entries: seq<Entry>): Option<Entry> {
    if entries == [] then config
    else ConfigAfter(ConfigsAfter(config, entries[..|entries| - 1]), entries[|entries| - 1])
  }

  function Keeping<S>(decode: (Option<Entry>, S, Entry) -> S): (Decoder<S>, Entry) -> Decoder<S> {
    (d: Decoder<S>, e: Entry) =>
      Decoder(ConfigAfter(d.config, e), decode(ConfigAfter(d.config, e), d.picture, e))
  }

  /** A self-contained entry resets the picture of a decoder, given the configuration. */
  ghost predicate ResetsPicture<S(!new)>(decode: (Option<Entry>, S, Entry) -> S) {
    forall config, p, q: S, x | SelfContained(x) && |x.encoded| <= RING_CAP ::
      decode(config, p, x) == decode(config, q, x)
  }

  lemma {:induction false} FoldedConfig<S>(decode: (Option<Entry>, S, Entry) -> S, d: Decoder<S>, entries: seq<Entry>)
    ensures Fold(Keeping(decode), d, entries).config == ConfigsAfter(d.config, entries)
  {
    if entries != [] {
      FoldedConfig(decode, d, entries[..|entries| - 1]);
    }
  }

  /** What a late subscriber must hold already: the configuration in force where the replay starts, unless the
      first replayed entry brings one. */
  ghost predicate HoldsConfig(early: Option<Entry>, late: Option<Entry>, history: seq<Entry>, from: nat)
    requires from <= |history|
  {
    var n := LeftOut(history, from);
    late == ConfigsAfter(early, history[..n]) || (n < |history| && IsConfig(history[n]))
  }

  lemma AlikeUnderConfig<S(!new)>(decode: (Option<Entry>, S, Entry) -> S, d: Decoder<S>, e: Decoder<S>, x: Entry)
    requires ResetsPicture(decode) && SelfContained(x) && |x.encoded| <= RING_CAP
    requires d.config == e.config || IsConfig(x)
    ensures Keeping(decode)(d, x) == Keeping(decode)(e, x)
  {
    assert ConfigAfter(d.config, x) == ConfigAfter(e.config, x);
  }

  /** With that configuration it catches up, whatever else the decoder does. */
  lemma LateWithConfig<S(!new)>(decode: (Option<Entry>, S, Entry) -> S, early: Decoder<S>, late: Decoder<S>,
                                history: seq<Entry>, from: nat)
    requires ResetsPicture(decode) && LongestFit(history, from) && HoldsSelfContained(history[from..])
    requires HoldsConfig(early.config, late.config, history, from)
    ensures Fold(Keeping(decode), late, Replay(history[from..])) == Fold(Keeping(decode), early, history)
  {
    var n, step := LeftOut(history, from), Keeping(decode);
    ReplayIsSuffix(history, from);
    FoldSplit(step, early, history[..n], history[n..]);
    FoldedConfig(decode, early, history[..n]);
    var d := Fold(step, early, history[..n]);
    AlikeUnderConfig(decode, late, d, history[n]);
    FoldAlike(step, late, d, history[n..]);
  }

  /** Shows under which configuration the last self-contained entry came. */
  function LastKeyConfig(config: Option<Entry>, picture: Option<Entry>, e: Entry): Option<Entry> {
    if SelfContained(e) then config else picture
  }

  lemma LastKeyStep(d: Decoder<Option<Entry>>, e: Entry)
    ensures Keeping(LastKeyConfig)(d, e).picture == if SelfContained(e) then ConfigAfter(d.config, e) else d.picture
  {
    var config, picture := ConfigAfter(d.config, e), d.picture;
    assert Keeping(LastKeyConfig)(d, e) == Decoder(config, LastKeyConfig(config, picture, e));
  }

  lemma {:induction false} KeyConfigStays(d: Decoder<Option<Entry>>, entries: seq<Entry>)
    requires entries != [] && SelfContained(entries[0])
    requires forall i | 0 < i < |entries| :: !SelfContained(entries[i])
    ensures Fold(Keeping(LastKeyConfig), d, entries).picture == ConfigAfter(d.config, entries[0])
  {
    var n := |entries| - 1;
    LastKeyStep(Fold(Keeping(LastKeyConfig), d, entries[..n]), entries[n]);
    if n == 0 {
      assert entries[..0] == [];
    } else {
      KeyConfigStays(d, entries[..n]);
    }
  }

  /** And without it some decoder does not: this one catches up exactly with that configuration. */
  lemma LateNeedsConfig(early: Decoder<Option<Entry>>, late: Decoder<Option<Entry>>, history: seq<Entry>, from: nat)
    requires LongestFit(history, from) && HoldsSelfContained(history[from..])
    ensures ResetsPicture(LastKeyConfig)
    ensures Fold(Keeping(LastKeyConfig), late, Replay(history[from..])) == Fold(Keeping(LastKeyConfig), early, history)
            <==> HoldsConfig(early.config, late.config, history, from)
  {
    var n, step := LeftOut(history, from), Keeping(LastKeyConfig);
    ReplayIsSuffix(history, from);
    if HoldsConfig(early.config, late.config, history, from) {
      LateWithConfig(LastKeyConfig, early, late, history, from);
    }
    FoldSplit(step, early, history[..n], history[n..]);
    FoldedConfig(LastKeyConfig, early, history[..n]);
    KeyConfigStays(late, history[n..]);
    KeyConfigStays(Fold(step, early, history[..n]), history[n..]);
  }
}
