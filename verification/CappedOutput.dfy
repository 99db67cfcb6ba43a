/** The bounded output of a remote command. Unlike the Docker session's buffer it keeps the beginning. */
module CappedOutput {
  import opened Bytes

  const MAX_EXEC_OUTPUT_BYTES := 0x40_0000 // 4 MiB

  function Head<T>(s: seq<T>, n: nat): seq<T> {
    if |s| <= n then s else s[..n]
  }

  /** The buffer afterwards, and whether anything was cut off. */
  method AppendCapped(buffer: seq<Byte>, data: seq<Byte>, cap: nat) returns (r: seq<Byte>, cut: bool)
    ensures |buffer| <= cap ==> r == Head(buffer + data, cap)
    ensures |buffer| > cap ==> r == buffer
    ensures cut <==> |r| < |buffer| + |data|
  {
    if |buffer| >= cap {
      return buffer, data != [];
    }
    var remaining := cap - |buffer|;
    if |data| <= remaining {
      return buffer + data, false;
    } else {
      return buffer + data[..remaining], true;
    }
  }

  /** The collecting loop: for every chunking the output is the beginning of the stream, up to the cap, and it is
      reported as truncated exactly when the stream is longer. */
  method Collect(chunks: seq<seq<Byte>>) returns (output: seq<Byte>, truncated: bool)
    ensures output == Head(Flatten(chunks), MAX_EXEC_OUTPUT_BYTES)
    ensures truncated <==> |Flatten(chunks)| > MAX_EXEC_OUTPUT_BYTES
  {
    output, truncated := [], false;
    for i := 0 to |chunks|
      invariant output == Head(Flatten(chunks[..i]), MAX_EXEC_OUTPUT_BYTES)
      invariant truncated <==> |Flatten(chunks[..i])| > MAX_EXEC_OUTPUT_BYTES
    {
      FlattenSnoc(chunks[..i], chunks[i]);
      assert chunks[..i + 1] == chunks[..i] + [chunks[i]];
      HeadOfHead(Flatten(chunks[..i]), chunks[i], MAX_EXEC_OUTPUT_BYTES);
      var cut;
      output, cut := AppendCapped(output, chunks[i], MAX_EXEC_OUTPUT_BYTES);
      truncated := truncated || cut;
    }
    assert chunks[..|chunks|] == chunks;
  }

  /** Cutting before appending the next chunk keeps what cutting at the end would keep. */
  lemma HeadOfHead(s: seq<Byte>, data: seq<Byte>, cap: nat)
    ensures Head(Head(s, cap) + data, cap) == Head(s + data, cap)
  {
  }
}
