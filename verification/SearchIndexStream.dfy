/**
 Streaming what the search index knows, with a window of reads open at once and a deadline on the lines. The
 contract of the generator holds of every schedule; `OneAtATime` is the simple loop it has to agree with.
 */
module SearchIndexStream {
  import opened Common
  import opened SearchIndexRanking
  import opened SearchIndexWindow

  /** A row is late only once the deadline has fallen, and neither one of the first `inTime` nor one read in time. */
  ghost predicate LateOnlyAfter(late: seq<bool>, expired: bool, rt: Runtime) {
    forall i :: 0 <= i < |late| && late[i] ==> expired && i >= rt.inTime && i !in rt.readInTime
  }

  lemma LateGrows(late: seq<bool>, n: nat, b: bool, expired: bool, rt: Runtime)
    requires LateOnlyAfter(late, expired, rt) && (b ==> expired && rt.inTime <= |late| + n && |late| + n !in rt.readInTime)
    ensures LateOnlyAfter(late + Falses(n) + [b], expired, rt) && LateOnlyAfter(late + Falses(n), expired, rt)
  {
  }

  /** A row is given without its line once the deadline has fallen and its read was not in time, with it otherwise. */
  ghost predicate LinesInTime(out: seq<Result>, origin: seq<nat>, expired: bool, rt: Runtime) {
    && |out| == |origin|
    && forall k :: 0 <= k < |out| ==>
         if out[k].inContents then expired && origin[k] !in rt.readInTime else origin[k] in rt.readInTime
  }

  /** The results are what they were, or one more: that of the row, without its line if that was out of time. */
  ghost predicate Added(out0: seq<Result>, origin0: seq<nat>, out: seq<Result>, origin: seq<nat>, row: nat, outOfTime: bool) {
    || (out == out0 && origin == origin0)
    || (|out| == |out0| + 1 && out[..|out0|] == out0 && origin == origin0 + [row] && out[|out0|].inContents == outOfTime)
  }

  lemma LinesThroughAwait(out: seq<Result>, origin: seq<nat>, expired: bool, rt: Runtime, expired': bool, rt': Runtime)
    requires LinesInTime(out, origin, expired, rt) && FixedOnceExpired(rt, expired, rt') && (expired ==> expired')
    ensures LinesInTime(out, origin, expired', rt')
  {
  }

  lemma LinesGrow(out0: seq<Result>, origin0: seq<nat>, out: seq<Result>, origin: seq<nat>, row: nat, outOfTime: bool,
                  expired: bool, rt: Runtime)
    requires LinesInTime(out0, origin0, expired, rt) && Added(out0, origin0, out, origin, row, outOfTime)
    requires if outOfTime then expired && row !in rt.readInTime else row in rt.readInTime
    ensures LinesInTime(out, origin, expired, rt)
  {
    assert forall k :: 0 <= k < |out0| ==> out[..|out0|][k] == out[k];
  }

  /** Each result is its row's own, of a distinct, permitted path nobody had claimed, and they come in ranking order. */
  ghost predicate Faithful(q: Query, out: seq<Result>, origin: seq<nat>)
    requires WellFormed(q)
  {
    && |out| == |origin| <= q.limit
    && (forall k :: 0 <= k < |out| ==>
          && origin[k] < |q.rows|
          && IsResultOf(q, origin[k], out[k])
          && q.permitted(out[k].rel) && out[k].rel !in q.seen)
    && (forall j, k :: 0 <= j < k < |out| ==> origin[j] < origin[k] && out[j].rel != out[k].rel)
  }

  /** What has been given so far, of the rows before `upTo`. */
  ghost predicate Given(q: Query, out: seq<Result>, origin: seq<nat>, upTo: nat, seen: set<Path>)
    requires WellFormed(q)
  {
    && Faithful(q, out, origin)
    && q.seen <= seen
    && forall k :: 0 <= k < |out| ==> origin[k] < upTo && out[k].rel in seen
  }

  lemma GivenGrows(q: Query, out: seq<Result>, origin: seq<nat>, upTo: nat, seen: set<Path>, row: nat, r: Result)
    requires WellFormed(q) && Given(q, out, origin, upTo, seen) && |out| < q.limit && upTo <= row < |q.rows|
    requires IsResultOf(q, row, r) && q.permitted(r.rel) && r.rel !in seen
    ensures Given(q, out + [r], origin + [row], row + 1, seen + {r.rel})
  {
  }

  lemma GivenWaits(q: Query, out: seq<Result>, origin: seq<nat>, upTo: nat, seen: set<Path>, upTo': nat, seen': set<Path>)
    requires WellFormed(q) && Given(q, out, origin, upTo, seen) && upTo <= upTo' && seen <= seen'
    ensures Given(q, out, origin, upTo', seen')
  {
  }

  /** The end of one turn: the line of the row at the head is in, or it is too late for it. */
  method Conclude(q: Query, row: nat, outOfTime: bool, out0: seq<Result>, seen0: set<Path>, ghost origin0: seq<nat>, ghost upTo: nat)
    returns (out: seq<Result>, seen: set<Path>, ghost origin: seq<nat>)
    requires WellFormed(q) && row < |q.rows| && upTo <= row
    requires q.rows[row].rel.Some? && q.permitted(q.rows[row].rel.value)
    requires Given(q, out0, origin0, upTo, seen0) && |out0| < q.limit
    ensures Served(out, seen) == Give(q, Served(out0, seen0), Judge(q, row, outOfTime, seen0))
    ensures Concluded(q, row, outOfTime, out0, origin0, seen0, out, origin, seen)
    ensures Given(q, out, origin, row + 1, seen) && Added(out0, origin0, out, origin, row, outOfTime)
    ensures seen0 <= seen
  {
    var rel := q.rows[row].rel.value;
    out, seen, origin := out0, seen0, origin0;
    GivenWaits(q, out0, origin0, upTo, seen0, row + 1, seen0);
    // Another pass claimed the path while this one waited.
    if rel in seen { return; }
    if outOfTime {
      var r := Result(rel, NoLine, q.rows[row].score, true);
      GivenGrows(q, out0, origin0, upTo, seen0, row, r);
      hide Given;
      out, origin, seen := out + [r], origin + [row], seen + {rel};
      return;
    }
    // The index is behind: its row stands for a line that is not there.
    if q.lines[row] == NoLine { return; }
    var r := Result(rel, q.lines[row], q.rows[row].score, false);
    GivenGrows(q, out0, origin0, upTo, seen0, row, r);
    hide Given;
    out, origin, seen := out + [r], origin + [row], seen + {rel};
  }

  /** What has been given when no other pass claims paths: what the one-row loop gives, and exactly what is to be given. */
  ghost predicate Alone(q: Query, out: seq<Result>, seen: set<Path>, late: seq<bool>, origin: seq<nat>)
    requires WellFormed(q) && |late| <= |q.rows|
  {
    Served(out, seen) == OneAtATime(q, late) && GivenExactly(q, late, out, origin) && Claimed(q, out, seen)
  }

  /** What holds between two turns of the loop. `alone` says that no other pass claims paths meanwhile. */
  ghost predicate Consistent(q: Query, alone: bool, reading: seq<Slot>, nextRow: nat, out: seq<Result>, seen: set<Path>,
                             late: seq<bool>, origin: seq<nat>)
    requires WellFormed(q)
  {
    && |late| <= |q.rows| && Window(q, reading, |late|, nextRow, seen)
    && Given(q, out, origin, |late|, seen)
    && (alone ==> Alone(q, out, seen, late, origin))
  }

  /** What holds of the deadline and the reads between two turns. */
  ghost predicate Timely(q: Query, readers: nat, reading: seq<Slot>, nextRow: nat, late: seq<bool>, expired: bool, rt: Runtime) {
    && ReadsHeld(q, readers, reading, nextRow, rt, expired)
    && LateOnlyAfter(late, expired, rt)
    && (expired ==> rt.inTime <= |late|)
  }

  lemma TimelyThroughAwait(q: Query, readers: nat, reading: seq<Slot>, nextRow: nat, late: seq<bool>,
                           expired: bool, rt: Runtime, expired': bool, rt': Runtime)
    requires Timely(q, readers, reading, nextRow, late, expired, rt) && Passes(rt, expired, rt', expired', |late|)
    ensures Timely(q, readers, reading, nextRow, late, expired', rt')
    ensures reading != [] && reading[0].startedLate ==> expired' && reading[0].row !in rt'.readInTime
  {
    hide ReadsHeld;
    HeldThroughAwait(q, readers, reading, nextRow, rt, expired, rt', expired', |late|);
    if reading != [] && reading[0].startedLate { NeverRead(q, readers, reading, nextRow, rt', expired'); }
  }

  lemma NeverRead(q: Query, readers: nat, reading: seq<Slot>, nextRow: nat, rt: Runtime, expired: bool)
    requires ReadsHeld(q, readers, reading, nextRow, rt, expired) && reading != [] && reading[0].startedLate
    ensures expired && reading[0].row !in rt.readInTime
  {
    hide InWindow;
    assert reading[0].row !in rt.begun;
  }

  lemma TimelyThroughRefill(q: Query, readers: nat, reading: seq<Slot>, nextRow: nat, late: seq<bool>,
                            expired: bool, rt: Runtime, reading': seq<Slot>, nextRow': nat, expired': bool, rt': Runtime)
    requires Timely(q, readers, reading, nextRow, late, expired, rt) && ReadsHeld(q, readers, reading', nextRow', rt', expired')
    requires FixedOnceExpired(rt, expired, rt') && (expired ==> expired')
    requires rt'.inTime == if !expired && expired' then |late| else rt.inTime
    ensures Timely(q, readers, reading', nextRow', late, expired', rt')
  {
    hide ReadsHeld;
  }

  /** The read at the head is awaited to its end, unless the deadline falls first. */
  lemma TimelyThroughRead(q: Query, readers: nat, reading: seq<Slot>, nextRow: nat, late: seq<bool>, rt: Runtime)
    requires Timely(q, readers, reading, nextRow, late, false, rt) && |reading| > 0
    ensures Passes(rt, false, Ended(rt, reading[0].row), false, |late|)
    ensures Timely(q, readers, reading, nextRow, late, false, Ended(rt, reading[0].row))
    ensures reading[0].row in Ended(rt, reading[0].row).readInTime && reading[0].row !in Ended(rt, reading[0].row).running
  {
    TimelyThroughAwait(q, readers, reading, nextRow, late, false, rt, false, Ended(rt, reading[0].row));
  }

  /** Concluding the row at the head: late only once the deadline has fallen, its read ended otherwise. */
  lemma TimelyThroughTurn(q: Query, readers: nat, reading: seq<Slot>, nextRow: nat, late: seq<bool>, skipped: nat,
                          expired: bool, rt: Runtime, b: bool)
    requires Timely(q, readers, reading, nextRow, late, expired, rt) && |reading| > 0
    requires reading[0].row == |late| + skipped
    requires if b then expired && reading[0].row !in rt.readInTime else expired || reading[0].row !in rt.running
    ensures Timely(q, readers, reading[1..], nextRow, late + Falses(skipped) + [b], expired, rt)
  {
    HeldWithoutHead(q, readers, reading, nextRow, rt, expired);
    LateGrows(late, skipped, b, expired, rt);
    hide ReadsHeld, LateOnlyAfter;
  }

  /** One turn: wait for the line at the head of the window, then give the row or leave it out. */
  method Turn(q: Query, readers: nat, alone: bool, reading0: seq<Slot>, nextRow: nat, out0: seq<Result>, seen0: set<Path>,
              expired0: bool, rt0: Runtime, late0: seq<bool>, ghost origin0: seq<nat>)
    returns (reading: seq<Slot>, out: seq<Result>, seen: set<Path>, expired: bool, rt: Runtime,
             late: seq<bool>, ghost origin: seq<nat>)
    requires WellFormed(q) && Consistent(q, alone, reading0, nextRow, out0, seen0, late0, origin0)
    requires Timely(q, readers, reading0, nextRow, late0, expired0, rt0)
    requires LinesInTime(out0, origin0, expired0, rt0)
    requires reading0 != [] && |out0| < q.limit
    ensures Consistent(q, alone, reading, nextRow, out, seen, late, origin)
    ensures Timely(q, readers, reading, nextRow, late, expired, rt)
    ensures LinesInTime(out, origin, expired, rt)
    ensures reading == reading0[1..] && late0 < late && rt.begun == rt0.begun
    ensures expired0 ==> expired && rt.inTime == rt0.inTime
    ensures !expired0 && expired ==> rt.inTime == |late0| || rt.inTime == |late|
  {
    var head := reading0[0];
    WindowShifts(q, reading0, |late0|, nextRow, seen0, seen0);
    hide Window, Given, GivenExactly, Claimed, Give, Judge, Skippable, Faithful, OneAtATime, LateOnlyAfter, Falses, ReadsHeld, Timely, Consistent,
      LinesInTime, Added, Passes, FixedOnceExpired;
    var outOfTime: bool;
    outOfTime, expired, rt := AwaitHead(q, readers, reading0, nextRow, expired0, rt0, late0, out0, origin0);
    TimelyThroughTurn(q, readers, reading0, nextRow, late0, head.row - |late0|, expired, rt, outOfTime);
    reading, out, seen, late, origin := Deliver(q, alone, reading0, nextRow, out0, seen0, outOfTime, late0, origin0);
    LinesGrow(out0, origin0, out, origin, head.row, outOfTime, expired, rt);
    ghost var was, before := expired, rt;
    // A consumer that was given a result comes back when it likes.
    expired, rt := Await(expired, rt, |late|);
    PassesFixes(was, before, expired, rt, |late|);
    TimelyThroughAwait(q, readers, reading, nextRow, late, was, before, expired, rt);
    LinesThroughAwait(out, origin, was, before, expired, rt);
  }

  lemma PassesFixes(expired: bool, rt: Runtime, expired': bool, rt': Runtime, concluded: nat)
    requires Passes(rt, expired, rt', expired', concluded)
    ensures FixedOnceExpired(rt, expired, rt') && (expired ==> expired') && rt'.begun == rt.begun
    ensures rt'.inTime == if !expired && expired' then concluded else rt.inTime
  {
  }

  /** Waiting for the head: what was read before the deadline fell is in time, however late it is looked at. */
  method AwaitHead(q: Query, readers: nat, reading: seq<Slot>, nextRow: nat, expired0: bool, rt0: Runtime, late: seq<bool>,
                   ghost out: seq<Result>, ghost origin: seq<nat>)
    returns (outOfTime: bool, expired: bool, rt: Runtime)
    requires Timely(q, readers, reading, nextRow, late, expired0, rt0) && LinesInTime(out, origin, expired0, rt0)
    requires reading != []
    ensures Timely(q, readers, reading, nextRow, late, expired, rt) && LinesInTime(out, origin, expired, rt)
    ensures if outOfTime then expired && reading[0].row !in rt.readInTime else reading[0].row in rt.readInTime
    ensures !expired ==> reading[0].row !in rt.running
    ensures rt.begun == rt0.begun && (expired0 ==> expired)
    ensures rt.inTime == if !expired0 && expired then |late| else rt0.inTime
  {
    expired, rt := Await(expired0, rt0, |late|);
    TimelyThroughAwait(q, readers, reading, nextRow, late, expired0, rt0, expired, rt);
    LinesThroughAwait(out, origin, expired0, rt0, expired, rt);
    hide Timely, LinesInTime;
    outOfTime := reading[0].startedLate || (expired && reading[0].row !in rt.readInTime);
    if !expired {
      TimelyThroughRead(q, readers, reading, nextRow, late, rt);
      LinesThroughAwait(out, origin, false, rt, false, Ended(rt, reading[0].row));
      rt := Ended(rt, reading[0].row);
    }
  }

  /** The part of a turn after its line is in or given up. Other passes may claim paths before it and after it. */
  method Deliver(q: Query, alone: bool, reading0: seq<Slot>, nextRow: nat, out0: seq<Result>, seen0: set<Path>,
                 outOfTime: bool, late0: seq<bool>, ghost origin0: seq<nat>)
    returns (reading: seq<Slot>, out: seq<Result>, seen: set<Path>, late: seq<bool>, ghost origin: seq<nat>)
    requires WellFormed(q) && Consistent(q, alone, reading0, nextRow, out0, seen0, late0, origin0)
    requires reading0 != [] && |out0| < q.limit
    ensures Consistent(q, alone, reading, nextRow, out, seen, late, origin)
    ensures reading0[0].row >= |late0| && late == late0 + Falses(reading0[0].row - |late0|) + [outOfTime]
    ensures reading == reading0[1..] && Added(out0, origin0, out, origin, reading0[0].row, outOfTime)
  {
    var head := reading0[0];
    var claimed, claimedAfter: set<Path> := *, *;
    if alone { claimed, claimedAfter := {}, {}; assert seen0 + claimed == seen0; }
    hide Window, Given, GivenExactly, Claimed, Give, Judge, Skippable, Faithful, OneAtATime, Falses, Added;
    seen := seen0 + claimed;
    WindowShifts(q, reading0, |late0|, nextRow, seen0, seen);
    GivenWaits(q, out0, origin0, |late0|, seen0, |late0|, seen);
    hide Concluded, Consistent, Alone;
    reading := reading0[1..];
    ghost var before := seen;
    out, seen, origin := Conclude(q, head.row, outOfTime, out0, seen, origin0, |late0|);
    late := late0 + Falses(head.row - |late0|) + [outOfTime];
    ghost var given := seen;
    seen := seen + claimedAfter;
    if alone {
      assert seen == given && before == seen0;
      AloneThroughTurn(q, late0, head.row, outOfTime, out0, origin0, seen0, out, origin, given);
    }
    GivenWaits(q, out, origin, |late|, given, |late|, seen);
    WindowWaits(q, reading, head.row + 1, nextRow, before, seen);
    PutTogether(q, alone, reading, nextRow, out, seen, late, origin);
  }

  lemma PutTogether(q: Query, alone: bool, reading: seq<Slot>, nextRow: nat, out: seq<Result>, seen: set<Path>,
                    late: seq<bool>, origin: seq<nat>)
    requires WellFormed(q) && |late| <= |q.rows| && Window(q, reading, |late|, nextRow, seen)
    requires Given(q, out, origin, |late|, seen) && (alone ==> Alone(q, out, seen, late, origin))
    ensures Consistent(q, alone, reading, nextRow, out, seen, late, origin)
  {
    hide Window, Given, Alone;
  }

  /** One turn with no other pass about agrees with the one-row loop, and gives exactly what is to be given. */
  lemma AloneThroughTurn(q: Query, late: seq<bool>, row: nat, b: bool, out0: seq<Result>, origin0: seq<nat>, seen0: set<Path>,
                         out: seq<Result>, origin: seq<nat>, seen: set<Path>)
    requires WellFormed(q) && |late| <= row < |q.rows| && Alone(q, out0, seen0, late, origin0) && |out0| < q.limit
    requires forall i :: |late| <= i < row ==> Skippable(q, i, seen0)
    requires q.rows[row].rel.Some? && q.permitted(q.rows[row].rel.value)
    requires Concluded(q, row, b, out0, origin0, seen0, out, origin, seen)
    requires Served(out, seen) == Give(q, Served(out0, seen0), Judge(q, row, b, seen0))
    ensures Alone(q, out, seen, late + Falses(row - |late|) + [b], origin)
  {
    hide OneAtATime, GivenExactly, Claimed, Concluded, Give, Judge, Falses;
    TurnAgrees(q, late, row, b);
    TurnGivesExactly(q, late, row, b, out0, origin0, seen0, out, origin, seen);
  }

  /** The rows after the limit was reached, or after the last read was taken, change nothing. */
  lemma {:induction false} TheRestIsSkipped(q: Query, alone: bool, reading: seq<Slot>, nextRow: nat, out: seq<Result>, seen: set<Path>,
                         late: seq<bool>, origin: seq<nat>)
    requires WellFormed(q) && Consistent(q, alone, reading, nextRow, out, seen, late, origin)
    requires |out| >= q.limit || (reading == [] && nextRow == |q.rows|)
    ensures alone ==> var all := late + Falses(|q.rows| - |late|);
                      Served(out, seen) == OneAtATime(q, all) && GivenExactly(q, all, out, origin)
  {
    hide Given, GivenExactly, Claimed, Give, Judge, OneAtATime, Falses;
    if alone {
      if |out| < q.limit { NothingLeft(q, |late|, nextRow, seen); }
      SkippedRows(q, late, |q.rows| - |late|);
      RowsPassedOver(q, late, |q.rows| - |late|, out, origin, seen);
    }
  }

  /**
   For every schedule: the results are those of `OneAtATime` for some assignment of "too late" to rows, and
   no row is late that was concluded before the deadline fell or had been read by then. With other passes
   running, what is given is still in order, permitted, never twice and at most `limit`, and it is without its
   line exactly if it had not been read when the deadline fell. Of the files, only permitted ones are opened,
   and never more than `readers` are being read, the ones nobody waits for any more included.
   */
  method StreamIndexMatches(q: Query, readers: nat, alone: bool)
    returns (out: seq<Result>, seen: set<Path>, expired: bool, rt: Runtime, late: seq<bool>, ghost origin: seq<nat>)
    requires WellFormed(q)
    ensures |rt.running| <= rt.peak <= readers && rt.running <= rt.begun
    ensures forall r :: r in rt.begun ==> r < |q.rows| && q.rows[r].rel.Some? && q.permitted(q.rows[r].rel.value)
    ensures Faithful(q, out, origin) && LinesInTime(out, origin, expired, rt)
    ensures readers > 0 ==> |late| == |q.rows| && LateOnlyAfter(late, expired, rt)
    ensures forall k :: 0 <= k < |out| ==>
              && origin[k] < |q.rows| && out[k].score == q.rows[origin[k]].score
              && out[k].line == (if out[k].inContents then NoLine else q.lines[origin[k]])
              && (out[k].inContents <==> out[k].line == NoLine)
    ensures alone && readers > 0 ==> Served(out, seen) == OneAtATime(q, late) && GivenExactly(q, late, out, origin)
    ensures readers == 0 ==> out == []
  {
    out, seen, expired, rt, late, origin := [], q.seen, false, Runtime(0, {}, {}, 0, {}), [], [];
    var reading: seq<Slot>, nextRow := [], 0;
    while |out| < q.limit
      invariant Consistent(q, alone, reading, nextRow, out, seen, late, origin)
      invariant Timely(q, readers, reading, nextRow, late, expired, rt)
      invariant LinesInTime(out, origin, expired, rt)
      invariant readers == 0 ==> out == []
      decreases |q.rows| - |late|
    {
      ghost var window, row, seenBefore, was, before := reading, nextRow, seen, expired, rt;
      reading, nextRow, seen, expired, rt := Refill(q, readers, alone, |late|, reading, nextRow, seen, expired, rt);
      GivenWaits(q, out, origin, |late|, seenBefore, |late|, seen);
      TimelyThroughRefill(q, readers, window, row, late, was, before, reading, nextRow, expired, rt);
      LinesThroughAwait(out, origin, was, before, expired, rt);
      hide Window, Given, GivenExactly, Claimed, Give, Judge, Skippable, Faithful, OneAtATime, Falses, ReadsHeld, Timely, LinesInTime;
      if |reading| == 0 { break; }
      reading, out, seen, expired, rt, late, origin :=
        Turn(q, readers, alone, reading, nextRow, out, seen, expired, rt, late, origin);
    }
    if readers > 0 {
      TheRestIsSkipped(q, alone, reading, nextRow, out, seen, late, origin);
      LateGrows(late, |q.rows| - |late|, false, expired, rt);
      late := late + Falses(|q.rows| - |late|);
    }
  }
}
