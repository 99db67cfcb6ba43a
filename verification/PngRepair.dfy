/** Undoing the line-ending damage that old adb versions do to a screenshot. */
module PngRepair {
  import opened Bytes

  datatype Result = Ok(bytes: seq<Byte>) | Damaged

  /** The PNG signature (section 3.1 of RFC 2083), which holds a line break itself. */
  function Magic(): seq<Byte> {
    [137, 80, 78, 71, CR, LF, 26, LF]
  }

  /** What the damage does: each LF becomes CR LF. */
  function Mangle(p: seq<Byte>): seq<Byte> {
    if p == [] then [] else (if p[0] == LF then [CR, LF] else [p[0]]) + Mangle(p[1..])
  }

  predicate BreakFirst(b: seq<Byte>) {
    |b| >= 2 && b[0] == CR && b[1] == LF
  }

  /** Every CR right before an LF goes; so of k CRs before an LF, k - 1 stay. */
  function Repair(b: seq<Byte>): seq<Byte> {
    if b == [] then [] else (if BreakFirst(b) then [] else [b[0]]) + Repair(b[1..])
  }

  function Ensured(bytes: seq<Byte>): Result {
    if Magic() <= bytes then Ok(bytes)
    else if Magic() <= Repair(bytes) then Ok(Repair(bytes))
    else Damaged
  }

  function Crs(n: nat): seq<Byte> {
    seq(n, _ => CR)
  }

  lemma {:induction false} RepairRun(b: seq<Byte>, k: nat)
    requires 0 < k < |b| && b[k] == LF && forall i | 0 <= i < k :: b[i] == CR
    ensures Repair(b) == Crs(k - 1) + [LF] + Repair(b[k + 1..])
    decreases k
  {
    if k == 1 {
      assert b[1..][1..] == b[2..];
      assert Repair(b) == [] + Repair(b[1..]) == Repair(b[1..]);
      assert Crs(0) + [LF] == [LF];
    } else {
      RepairRun(b[1..], k - 1);
      assert b[1..][k..] == b[k + 1..];
      assert [CR] + Crs(k - 2) == Crs(k - 1);
      assert Repair(b) == [CR] + (Crs(k - 2) + [LF] + Repair(b[k + 1..]));
    }
  }

  /** `done` is the repair of the first `i` bytes. */
  ghost predicate Repaired(bytes: seq<Byte>, i: nat, done: seq<Byte>) {
    i <= |bytes| && done + Repair(bytes[i..]) == Repair(bytes)
  }

  lemma RepairedRun(bytes: seq<Byte>, i: nat, j: nat, done: seq<Byte>)
    requires Repaired(bytes, i, done) && i < j < |bytes|
    requires bytes[j] == LF && forall k | i <= k < j :: bytes[k] == CR
    ensures Repaired(bytes, j + 1, done + Crs(j - i - 1) + [LF])
  {
    RepairRun(bytes[i..], j - i);
    assert bytes[i..][j - i + 1..] == bytes[j + 1..];
  }

  lemma RepairedOne(bytes: seq<Byte>, i: nat, done: seq<Byte>)
    requires Repaired(bytes, i, done) && i < |bytes| && !BreakFirst(bytes[i..])
    ensures Repaired(bytes, i + 1, done + [bytes[i]])
  {
    assert bytes[i..][1..] == bytes[i + 1..];
    assert Repair(bytes[i..]) == [bytes[i]] + Repair(bytes[i + 1..]);
  }

  method PushCrs(done: seq<Byte>, n: nat) returns (r: seq<Byte>)
    ensures r == done + Crs(n)
  {
    r := done;
    for k := 0 to n
      invariant r == done + Crs(k)
    {
      r := r + [CR];
    }
  }

  /** The scan over runs of CR. */
  method RepairRuns(bytes: seq<Byte>) returns (repaired: seq<Byte>)
    ensures repaired == Repair(bytes)
  {
    repaired := [];
    var i := 0;
    while i < |bytes|
      invariant 0 <= i <= |bytes| && Repaired(bytes, i, repaired)
    {
      if bytes[i] == CR {
        var j := i;
        while j < |bytes| && bytes[j] == CR
          invariant i <= j <= |bytes| && forall k | i <= k < j :: bytes[k] == CR
        {
          j := j + 1;
        }
        if j < |bytes| && bytes[j] == LF {
          RepairedRun(bytes, i, j, repaired);
          repaired := PushCrs(repaired, j - i - 1);
          repaired := repaired + [LF];
          i := j + 1;
          continue;
        }
      }
      RepairedOne(bytes, i, repaired);
      repaired := repaired + [bytes[i]];
      i := i + 1;
    }
    assert bytes[i..] == [] && repaired + [] == repaired;
  }

  method EnsurePng(bytes: seq<Byte>) returns (r: Result)
    ensures r == Ensured(bytes)
  {
    if Magic() <= bytes {
      return Ok(bytes);
    }
    var repaired := RepairRuns(bytes);
    r := if Magic() <= repaired then Ok(repaired) else Damaged;
  }

  lemma NeverLfFirst(p: seq<Byte>)
    ensures Mangle(p) != [] ==> Mangle(p)[0] != LF
  {
  }

  /** Repair is a left inverse of the damage, on all bytes. */
  lemma {:induction false} RepairUndoesMangle(p: seq<Byte>)
    ensures Repair(Mangle(p)) == p
  {
    if p != [] {
      var rest := Mangle(p[1..]);
      RepairUndoesMangle(p[1..]);
      NeverLfFirst(p[1..]);
      if p[0] == LF {
        var b := [CR, LF] + rest;
        assert b[1..] == [LF] + rest && b[1..][1..] == rest;
        assert Repair(b) == [] + Repair(b[1..]) == Repair(b[1..]);
      } else {
        assert ([p[0]] + rest)[1..] == rest;
      }
    }
  }

  ghost predicate EveryLfHasCr(b: seq<Byte>) {
    forall i | 0 <= i < |b| && b[i] == LF :: i > 0 && b[i - 1] == CR
  }

  lemma LfHasCrBehind(b: seq<Byte>, n: nat)
    requires n <= |b| && EveryLfHasCr(b[..n]) && (n < |b| && b[n] == LF ==> n == 0 || b[n - 1] != CR)
    ensures EveryLfHasCr(b) <==> EveryLfHasCr(b[n..])
  {
    if EveryLfHasCr(b[n..]) {
      forall i | 0 <= i < |b| && b[i] == LF
        ensures i > 0 && b[i - 1] == CR
      {
        if i < n {
          assert b[..n][i] == LF;
        } else {
          assert b[n..][i - n] == LF;
        }
      }
    }
    if EveryLfHasCr(b) {
      forall i | 0 <= i < |b[n..]| && b[n..][i] == LF
        ensures i > 0 && b[n..][i - 1] == CR
      {
        assert b[n + i] == LF;
      }
    }
  }

  /** Damaging again what was repaired gives back exactly the bytes in which every LF has a CR before it: those
      are the damaged streams, and no other stream is one. */
  lemma {:induction false} MangleUndoesRepairIff(b: seq<Byte>)
    ensures Mangle(Repair(b)) == b <==> EveryLfHasCr(b)
    decreases |b|
  {
    if b != [] {
      if BreakFirst(b) {
        var rest := b[2..];
        MangleUndoesRepairIff(rest);
        assert b == [CR, LF] + rest && b[1..] == [LF] + rest && b[1..][1..] == rest;
        assert Repair(b) == [] + Repair(b[1..]) == [LF] + Repair(rest);
        assert ([LF] + Repair(rest))[1..] == Repair(rest);
        LfHasCrBehind(b, 2);
      } else {
        var rest := b[1..];
        MangleUndoesRepairIff(rest);
        assert b == [b[0]] + rest;
        assert ([b[0]] + Repair(rest))[1..] == Repair(rest);
        if b[0] != LF {
          LfHasCrBehind(b, 1);
        }
      }
    }
  }

  lemma SignatureHasLoneLf(b: seq<Byte>)
    ensures Magic() <= b ==> !EveryLfHasCr(b)
  {
    if Magic() <= b {
      assert b[6] == Magic()[6] && b[7] == Magic()[7];
    }
  }

  /** No damaged stream starts with the signature: the LF that ends it has no CR before it. */
  lemma MangledIsNoPng(p: seq<Byte>)
    ensures !(Magic() <= Mangle(p))
  {
    var m := Mangle(p);
    RepairUndoesMangle(p);
    MangleUndoesRepairIff(m);
    SignatureHasLoneLf(m);
  }

  /** A PNG comes back as it was, undamaged or damaged once; damaged twice it is refused. */
  lemma EnsuredReturnsPng(p: seq<Byte>)
    requires Magic() <= p
    ensures Ensured(p) == Ok(p) && Ensured(Mangle(p)) == Ok(p) && Ensured(Mangle(Mangle(p))) == Damaged
  {
    MangledIsNoPng(p);
    RepairUndoesMangle(p);
    MangledIsNoPng(Mangle(p));
    RepairUndoesMangle(Mangle(p));
  }
}
