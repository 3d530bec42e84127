/**
 Reading a partition: the loop that filters and counts bytes, and the plain statement of
 what it should return.
 */
module LogRead {
  import opened Types
  import opened Records
  import opened Scanning
  import opened SparseIndex

  /** The records of log with offsets in [start, clamp). */
  function Window(log: seq<Record>, start: int, clamp: int): seq<Record> {
    var lo := Min(Max(start, 0), |log|);
    var hi := Max(lo, Min(clamp, |log|));
    log[lo..hi]
  }

  /**
   The longest prefix whose frames take at most max bytes, or the first record alone when
   even that exceeds max. (CleanCount is the length of that prefix: CleanCountIsLargest.)
   */
  function NaiveRead(recs: seq<Record>, max: nat): seq<Record> {
    var n := CleanCount(recs, max);
    if n == 0 && recs != [] then recs[..1] else recs[..n]
  }

  ghost predicate Small(recs: seq<Record>) {
    forall i :: 0 <= i < |recs| ==> FrameSize(recs[i]) < TWO_32
  }

  /** The byte count after size more bytes, in 32 bits. */
  function Count32(used: u32, size: nat): u32 {
    (used + size % TWO_32) % TWO_32
  }

  lemma Count32Value(used: u32, size: nat)
    requires size < TWO_32
    ensures Count32(used, size) == if used + size < TWO_32 then used + size else used + size - TWO_32
  {}

  /** The read loop over the records decoded so far unread, with its 32-bit byte count. */
  function Collect(recs: seq<Record>, start: int, clamp: int, max: u32, used: u32, result: seq<Record>): seq<Record>
    decreases |recs|
  {
    if recs == [] then result
    else if ToSigned64(recs[0].offset) < start then Collect(recs[1..], start, clamp, max, used, result)
    else if ToSigned64(recs[0].offset) >= clamp then result
    else
      var total := Count32(used, FrameSize(recs[0]));
      if total > max then if result == [] then [recs[0]] else result
      else Collect(recs[1..], start, clamp, max, total, result + [recs[0]])
  }

  /** What a read returns. */
  function Answer(log: seq<Record>, start: int, clamp: int, max: u32): seq<Record> {
    if start >= clamp then [] else Collect(log, start, clamp, max, 0, [])
  }

  /** The same loop on a window, where the offset tests always pass. */
  function Greedy(recs: seq<Record>, max: u32, used: u32, result: seq<Record>): seq<Record>
    decreases |recs|
  {
    if recs == [] then result
    else
      var total := Count32(used, FrameSize(recs[0]));
      if total > max then if result == [] then [recs[0]] else result
      else Greedy(recs[1..], max, total, result + [recs[0]])
  }

  /** The 32-bit count does not wrap on the first record that does not fit. */
  ghost predicate CountHolds(recs: seq<Record>, max: nat) {
    var n := CleanCount(recs, max);
    n < |recs| ==> Size(recs[..n + 1]) < TWO_32
  }

  lemma {:induction false} CollectSkips(log: seq<Record>, start: int, clamp: int, max: u32, p: nat, q: nat)
    requires Contiguous(log, 0) && |log| < TWO_63
    requires p <= q <= |log| && q <= Max(start, 0)
    ensures Collect(log[p..], start, clamp, max, 0, []) == Collect(log[q..], start, clamp, max, 0, [])
    decreases q - p
  {
    if p < q {
      assert log[p..][1..] == log[p + 1..];
      CollectSkips(log, start, clamp, max, p + 1, q);
    }
  }

  lemma {:induction false} CollectIsGreedy(log: seq<Record>, start: int, clamp: int, max: u32, p: nat, hi: nat,
      used: u32, result: seq<Record>)
    requires Contiguous(log, 0) && |log| < TWO_63
    requires start <= p <= hi <= |log|
    requires hi < |log| ==> clamp <= hi
    requires p < hi ==> hi <= clamp
    ensures Collect(log[p..], start, clamp, max, used, result) == Greedy(log[p..hi], max, used, result)
    decreases hi - p
  {
    if p < hi {
      assert log[p..][1..] == log[p + 1..];
      assert log[p..hi][1..] == log[p + 1..hi];
      var total := Count32(used, FrameSize(log[p]));
      if total <= max {
        CollectIsGreedy(log, start, clamp, max, p + 1, hi, total, result + [log[p]]);
      }
    }
  }

  lemma SizeStep(recs: seq<Record>, i: nat)
    requires i < |recs|
    ensures Size(recs[..i + 1]) == Size(recs[..i]) + FrameSize(recs[i])
  {
    assert recs[..i + 1][..i] == recs[..i];
  }

  /** A record that fits is taken, and counted without a wrap. */
  lemma GreedyStep(recs: seq<Record>, max: u32, i: nat)
    requires Small(recs) && i < |recs| && Size(recs[..i]) + FrameSize(recs[i]) <= max
    ensures Size(recs[..i + 1]) <= max
    ensures Greedy(recs[i..], max, Size(recs[..i]), recs[..i])
         == Greedy(recs[i + 1..], max, Size(recs[..i + 1]), recs[..i + 1])
  {
    hide Scanning.Size;
    SizeStep(recs, i);
    Count32Value(Size(recs[..i]), FrameSize(recs[i]));
    assert recs[i..][1..] == recs[i + 1..];
    assert recs[..i] + [recs[i]] == recs[..i + 1];
  }

  /** As long as the records fit, the loop takes them and its count is their size. */
  lemma {:induction false} GreedyTakes(recs: seq<Record>, max: u32, i: nat)
    requires Small(recs) && i <= CleanCount(recs, max)
    ensures Size(recs[..i]) <= max
    ensures Greedy(recs, max, 0, []) == Greedy(recs[i..], max, Size(recs[..i]), recs[..i])
  {
    CleanCountIsLargest(recs, max, i);
    if i == 0 {
      assert recs[0..] == recs && recs[..0] == [];
    } else {
      hide Greedy, Scanning.Size, Scanning.CleanCount;
      GreedyTakes(recs, max, i - 1);
      SizeStep(recs, i - 1);
      GreedyStep(recs, max, i - 1);
    }
  }

  lemma {:induction false} GreedyExtends(recs: seq<Record>, max: u32, used: u32, result: seq<Record>)
    requires result != []
    ensures result <= Greedy(recs, max, used, result)
    decreases |recs|
  {
    if recs != [] {
      var total := Count32(used, FrameSize(recs[0]));
      if total <= max {
        GreedyExtends(recs[1..], max, total, result + [recs[0]]);
      }
    }
  }

  /** The loop returns the longest fitting prefix exactly when its byte count does not wrap. */
  lemma GreedyIsNaive(recs: seq<Record>, max: u32)
    requires Small(recs)
    ensures Greedy(recs, max, 0, []) == NaiveRead(recs, max) <==> CountHolds(recs, max)
  {
    hide Scanning.Size, Count32;
    var n := CleanCount(recs, max);
    GreedyTakes(recs, max, n);
    if n < |recs| {
      SizeStep(recs, n);
      CleanCountIsLargest(recs, max, n + 1);
      Count32Value(Size(recs[..n]), FrameSize(recs[n]));
      assert recs[n..][0] == recs[n] && recs[n..][1..] == recs[n + 1..];
      if Size(recs[..n + 1]) >= TWO_32 {
        GreedyOvershoots(recs, max, n);
      } else {
        assert n == 0 ==> recs[..0] == [] && recs[..1] == [recs[0]];
      }
    } else {
      assert recs[n..] == [] && recs[..n] == recs;
    }
  }

  /** Once the count has wrapped, a record too many has been taken. */
  lemma GreedyOvershoots(recs: seq<Record>, max: u32, n: nat)
    requires Small(recs) && n < |recs| && Size(recs[..n]) <= max && Size(recs[..n + 1]) >= TWO_32
    ensures Greedy(recs[n..], max, Size(recs[..n]), recs[..n]) != NaiveRead(recs, max)
    ensures n == CleanCount(recs, max)
  {
    hide Scanning.Size, Count32, CleanCount;
    CleanCountIsLargest(recs, max, n);
    CleanCountIsLargest(recs, max, n + 1);
    SizeStep(recs, n);
    Count32Value(Size(recs[..n]), FrameSize(recs[n]));
    var total := Count32(Size(recs[..n]), FrameSize(recs[n]));
    assert recs[n..][0] == recs[n] && recs[n..][1..] == recs[n + 1..];
    assert recs[..n] + [recs[n]] == recs[..n + 1];
    GreedyExtends(recs[n + 1..], max, total, recs[..n + 1]);
    SizeEmpty();
    assert recs[..0] == [];
    assert |NaiveRead(recs, max)| == n;
  }

  /**
   Reading from any place at or before the start gives the naive answer on the window,
   exactly when the 32-bit byte count does not wrap at the record where the answer ends.
   */
  lemma CollectIsNaiveRead(log: seq<Record>, start: int, clamp: int, max: u32, p: nat)
    requires Contiguous(log, 0) && Small(log) && |log| < TWO_63
    requires p <= |log| && p <= Max(start, 0) && start < clamp
    ensures Collect(log[p..], start, clamp, max, 0, []) == NaiveRead(Window(log, start, clamp), max)
       <==> CountHolds(Window(log, start, clamp), max)
  {
    var lo := Min(Max(start, 0), |log|);
    var hi := Max(lo, Min(clamp, |log|));
    CollectSkips(log, start, clamp, max, p, lo);
    if lo < |log| {
      CollectIsGreedy(log, start, clamp, max, lo, hi, 0, []);
    }
    GreedyIsNaive(Window(log, start, clamp), max);
  }

  /**
   What a read returns when the count cannot wrap, in plain words: nothing without a record
   at or after start below clamp; otherwise the records from start on without a gap, as many
   as take at most max bytes together, but at least one.
   */
  lemma AnswerExactly(log: seq<Record>, start: int, clamp: int, max: u32)
    requires Contiguous(log, 0) && |log| < TWO_63 && Modest(log, max)
    ensures var lo := if start < 0 then 0 else start;
            var hi := if clamp < |log| then clamp else |log|;
            var a := Answer(log, start, clamp, max);
            if lo >= hi then a == []
            else
              && 0 < |a| <= hi - lo && a == log[lo..lo + |a|]
              && (Size(a) <= max || |a| == 1)
              && (lo + |a| < hi ==> Size(a) + FrameSize(log[lo + |a|]) > max)
  {
    hide Answer, Size, NaiveRead, Window;
    var w := Window(log, start, clamp);
    WindowPiece(log, start, clamp, 0);
    ModestIsNaive(log, start, clamp, max);
    NaiveExactly(w, max);
    if start < clamp && w != [] {
      WindowPiece(log, start, clamp, |NaiveRead(w, max)|);
    }
  }

  lemma WindowPiece(log: seq<Record>, start: int, clamp: int, n: nat)
    requires n <= |Window(log, start, clamp)|
    ensures var lo, hi := if start < 0 then 0 else start, if clamp < |log| then clamp else |log|;
            var w := Window(log, start, clamp);
            && (w == [] <==> lo >= hi) && (w != [] ==> |w| == hi - lo && w[..n] == log[lo..lo + n])
            && (n < |w| ==> w[n] == log[lo + n])
  {
    var lo, hi := if start < 0 then 0 else start, if clamp < |log| then clamp else |log|;
    if lo < hi {
      assert Window(log, start, clamp) == log[lo..hi];
      assert log[lo..hi][..n] == log[lo..lo + n];
    }
  }

  lemma ModestIsNaive(log: seq<Record>, start: int, clamp: int, max: u32)
    requires Contiguous(log, 0) && |log| < TWO_63 && Modest(log, max)
    ensures Answer(log, start, clamp, max) == if start < clamp then NaiveRead(Window(log, start, clamp), max) else []
  {
    hide Collect, Size, NaiveRead, Count32, CleanCount;
    if start < clamp {
      var w := Window(log, start, clamp);
      var n := CleanCount(w, max);
      assert log[0..] == log && Small(log);
      CleanCountIsLargest(w, max, n);
      if n < |w| {
        SizeStep(w, n);
      }
      CollectIsNaiveRead(log, start, clamp, max, 0);
    }
  }

  lemma NaiveExactly(w: seq<Record>, max: nat)
    ensures var a := NaiveRead(w, max);
            if w == [] then a == []
            else
              && 0 < |a| <= |w| && a == w[..|a|]
              && (Size(a) <= max || |a| == 1)
              && (|a| < |w| ==> Size(a) + FrameSize(w[|a|]) > max)
  {
    hide Size, CleanCount;
    var n, k := CleanCount(w, max), |NaiveRead(w, max)|;
    CleanCountIsLargest(w, max, n);
    if 0 < k < |w| {
      SizeStep(w, k);
      CleanCountIsLargest(w, max, k + 1);
    }
  }

  /** Whether or not the count wraps, the loop adds a piece of its input, taken from the front. */
  lemma {:induction false} GreedyTakesPrefix(recs: seq<Record>, max: u32, used: u32, result: seq<Record>)
    returns (n: nat)
    ensures n <= |recs| && Greedy(recs, max, used, result) == result + recs[..n]
    decreases |recs|
  {
    n := 0;
    if recs != [] {
      var total := Count32(used, FrameSize(recs[0]));
      if total <= max {
        var k := GreedyTakesPrefix(recs[1..], max, total, result + [recs[0]]);
        n := k + 1;
        assert recs[..n] == [recs[0]] + recs[1..][..k];
      } else if result == [] {
        n := 1;
        assert recs[..1] == [recs[0]];
      }
    }
  }

  /** A read from a place in the log up to its end answers the records from there on, without a gap. */
  lemma AnswerIsPiece(log: seq<Record>, start: nat, max: u32)
    requires Contiguous(log, 0) && start <= |log| < TWO_63
    ensures var n := |Answer(log, start, |log|, max)|;
            start + n <= |log| && Answer(log, start, |log|, max) == log[start..start + n]
  {
    if start < |log| {
      assert log[0..] == log;
      CollectSkips(log, start, |log|, max, 0, start);
      CollectIsGreedy(log, start, |log|, max, start, |log|, 0, []);
      var n := GreedyTakesPrefix(log[start..|log|], max, 0, []);
      assert [] + log[start..|log|][..n] == log[start..start + n];
    }
  }

  lemma {:induction false} GreedyNotEmpty(recs: seq<Record>, max: u32)
    requires recs != []
    ensures Greedy(recs, max, 0, []) != []
  {
    var total := Count32(0, FrameSize(recs[0]));
    if total <= max {
      GreedyExtends(recs[1..], max, total, [] + [recs[0]]);
    }
  }

  /** A read that has a record to return returns one, however small its limit: a reader cannot stall. */
  lemma AnswerMovesOn(log: seq<Record>, start: int, clamp: int, max: u32)
    requires Contiguous(log, 0) && |log| < TWO_63
    requires start < |log| && Max(start, 0) < clamp <= |log|
    ensures Answer(log, start, clamp, max) != []
  {
    var lo := Max(start, 0);
    assert log[0..] == log;
    CollectSkips(log, start, clamp, max, 0, lo);
    CollectIsGreedy(log, start, clamp, max, lo, clamp, 0, []);
    GreedyNotEmpty(log[lo..clamp], max);
  }

  /** Frames that leave room for the byte limit below 2^32 never wrap the count. */
  ghost predicate Modest(log: seq<Record>, max: u32) {
    forall i :: 0 <= i < |log| ==> FrameSize(log[i]) + max < TWO_32
  }

  /** An answer of modest records is below 2^32 bytes. */
  lemma AnswerIsModest(log: seq<Record>, start: nat, max: u32)
    requires Contiguous(log, 0) && start <= |log| < TWO_63 && Modest(log, max)
    ensures Size(Answer(log, start, |log|, max)) < TWO_32
  {
    hide Collect, Size, Count32;
    SizeEmpty();
    if start < |log| {
      var w := Window(log, start, |log|);
      var n := CleanCount(w, max);
      CleanCountIsLargest(w, max, n);
      if n < |w| {
        SizeStep(w, n);
      }
      assert log[0..] == log && Small(log);
      CollectIsNaiveRead(log, start, |log|, max, 0);
      if n == 0 {
        SizeStep(w, 0);
        assert w[..0] == [];
      }
    }
  }

  const HALF: u32 := 0x8000_0000
  const NEARLY: u32 := 0xFFFF_FFFF

  lemma BothTaken(log: seq<Record>)
    requires |log| == 2 && Contiguous(log, 0)
    requires FrameSize(log[0]) == FrameSize(log[1]) == HALF + 32
    ensures Answer(log, 0, 2, NEARLY) == log
  {
    var rest, none := log[1..], log[2..];
    assert rest[0] == log[1] && rest[1..] == none == [];
    assert Collect(none, 0, 2, NEARLY, 64, [log[0]] + [log[1]]) == [log[0]] + [log[1]] == log;
    assert Collect(rest, 0, 2, NEARLY, HALF + 32, [log[0]]) == log;
    assert [] + [log[0]] == [log[0]];
  }

  /**
   The promise of a read can fail: after a record of 2^31 bytes and more the 32-bit count
   wraps on a second such record, and a read limited to 2^32 - 1 bytes returns both.
   */
  lemma ReadCanOvershoot() returns (log: seq<Record>)
    ensures Contiguous(log, 0) && Small(log)
    ensures !CountHolds(Window(log, 0, 2), NEARLY)
    ensures Answer(log, 0, 2, NEARLY) == log != NaiveRead(Window(log, 0, 2), NEARLY)
  {
    var big: seq<byte> := seq(HALF, i => 0);
    log := [Record(0, 0, [], big), Record(1, 0, [], big)];
    assert FrameSize(log[0]) == FrameSize(log[1]) == HALF + 32;
    SizeStep(log, 0);
    SizeStep(log, 1);
    SizeEmpty();
    assert log[..0] == [] && log[..2] == log && Window(log, 0, 2) == log;
    CleanCountIsLargest(log, NEARLY, 1);
    CleanCountIsLargest(log, NEARLY, 2);
    assert log[0..] == log;
    CollectIsNaiveRead(log, 0, 2, NEARLY, 0);
    BothTaken(log);
  }
}
