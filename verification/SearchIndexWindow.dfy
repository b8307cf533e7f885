/**
 The window of reads that are open at once, and the deadline that cuts them short. What the generator cannot
 know, namely when the deadline falls, which reads have ended and what another pass claims meanwhile, is
 chosen freely at each await.
 */
module SearchIndexWindow {
  import opened Common
  import opened SearchIndexRanking

  // ----- What the runtime does meanwhile

  /**
   `inTime` is how many rows were concluded when the deadline fell; `begun` the rows whose file was opened,
   `running` those still being read, also when nobody waits for them any more, and `peak` the most there were;
   `readInTime` are the rows whose read had ended when the deadline fell, or has by now if it has not.
   */
  datatype Runtime = Runtime(inTime: nat, begun: set<nat>, running: set<nat>, peak: nat, readInTime: set<nat>)

  /** What may happen at an await: reads end, and the deadline falls if it has not, after some of them. */
  ghost predicate Passes(rt: Runtime, expired: bool, rt': Runtime, expired': bool, concluded: nat) {
    && rt'.begun == rt.begun && rt'.peak == rt.peak && rt'.running <= rt.running
    && (expired ==> expired')
    && rt'.inTime == (if !expired && expired' then concluded else rt.inTime)
    && rt.readInTime <= rt'.readInTime <= rt.readInTime + (rt.running - rt'.running)
    && (expired ==> rt'.readInTime == rt.readInTime)
    && (!expired' ==> rt'.readInTime == rt.readInTime + (rt.running - rt'.running))
  }

  /** What was read in time is settled when the deadline falls, and only grows before. */
  ghost predicate FixedOnceExpired(rt: Runtime, expired: bool, rt': Runtime) {
    rt.readInTime <= rt'.readInTime && (expired ==> rt'.readInTime == rt.readInTime)
  }

  method Await(expired0: bool, rt0: Runtime, concluded: nat) returns (expired: bool, rt: Runtime)
    ensures Passes(rt0, expired0, rt, expired, concluded)
  {
    var fell: bool := *;
    var ended, before: set<nat> := *, *;
    expired := expired0 || fell;
    ended := ended * rt0.running;
    var inTime := if expired0 then {} else if expired then ended * before else ended;
    rt := rt0.(running := rt0.running - ended, inTime := if !expired0 && expired then concluded else rt0.inTime,
               readInTime := rt0.readInTime + inTime);
  }

  /** A file is opened: one more read is running. */
  function Opening(rt: Runtime, row: nat): (opened': Runtime)
    ensures opened'.peak >= rt.peak && opened'.peak >= |opened'.running|
  {
    var running := rt.running + {row};
    rt.(begun := rt.begun + {row}, running := running, peak := if |running| > rt.peak then |running| else rt.peak)
  }

  datatype Slot = Slot(row: nat, startedLate: bool)

  /** The open reads, in ranking order, leave out only rows that nothing would be given for. */
  ghost predicate Window(q: Query, reading: seq<Slot>, from: nat, nextRow: nat, seen: set<Path>) {
    && from <= nextRow <= |q.rows|
    && (forall k :: 0 <= k < |reading| ==> from <= reading[k].row < nextRow)
    && (forall j, k :: 0 <= j < k < |reading| ==> reading[j].row < reading[k].row)
    && (forall k :: 0 <= k < |reading| ==> var rel := q.rows[reading[k].row].rel; rel.Some? && q.permitted(rel.value))
    && (forall i :: from <= i < nextRow && !Skippable(q, i, seen) ==> Slot(i, true) in reading || Slot(i, false) in reading)
  }

  ghost predicate InWindow(reading: seq<Slot>, row: nat) { exists k :: 0 <= k < |reading| && reading[k].row == row }

  /**
   What is being read: only permitted rows were opened, every row of the window that was not late from the
   start was, no other, and until the deadline falls nothing is read that the window does not wait for.
   */
  ghost predicate ReadsHeld(q: Query, readers: nat, reading: seq<Slot>, nextRow: nat, rt: Runtime, expired: bool) {
    && rt.running <= rt.begun && |rt.running| <= rt.peak <= readers && |reading| <= readers
    && (forall r :: r in rt.begun ==> r < nextRow && r < |q.rows| && q.rows[r].rel.Some? && q.permitted(q.rows[r].rel.value))
    && (forall k :: 0 <= k < |reading| ==> (reading[k].startedLate ==> expired) && (reading[k].row in rt.begun <==> !reading[k].startedLate))
    && rt.readInTime <= rt.begun && (!expired ==> rt.begun == rt.running + rt.readInTime)
    && (!expired ==> forall r :: r in rt.running ==> InWindow(reading, r))
  }

  lemma {:induction false} WindowBounds(reading: seq<Slot>, rows: set<nat>)
    requires forall r :: r in rows ==> InWindow(reading, r)
    ensures |rows| <= |reading|
  {
    if reading == [] {
      assert rows == {};
    } else {
      var n := |reading| - 1;
      var fewer := rows - {reading[n].row};
      forall r | r in fewer ensures InWindow(reading[..n], r) {
        var k :| 0 <= k < |reading| && reading[k].row == r;
        assert reading[..n][k].row == r;
      }
      WindowBounds(reading[..n], fewer);
      Cardinality(rows, fewer + {reading[n].row});
    }
  }

  lemma HeldThroughAwait(q: Query, readers: nat, reading: seq<Slot>, nextRow: nat,
                         rt: Runtime, expired: bool, rt': Runtime, expired': bool, concluded: nat)
    requires ReadsHeld(q, readers, reading, nextRow, rt, expired)
    requires Passes(rt, expired, rt', expired', concluded)
    ensures ReadsHeld(q, readers, reading, nextRow, rt', expired')
  {
    hide InWindow;
    Cardinality(rt'.running, rt.running);
  }

  lemma HeldFurther(q: Query, readers: nat, reading: seq<Slot>, row: nat, rt: Runtime, expired: bool)
    requires ReadsHeld(q, readers, reading, row, rt, expired)
    ensures ReadsHeld(q, readers, reading, row + 1, rt, expired)
  {
    hide InWindow;
  }

  /** Opening a read while there is room in the window and time left keeps the reads within `readers`. */
  lemma HeldThroughOpening(q: Query, readers: nat, reading: seq<Slot>, row: nat, rt: Runtime)
    requires ReadsHeld(q, readers, reading, row, rt, false) && |reading| < readers
    requires row < |q.rows| && q.rows[row].rel.Some? && q.permitted(q.rows[row].rel.value)
    ensures ReadsHeld(q, readers, reading + [Slot(row, false)], row + 1, Opening(rt, row), false)
  {
    var after := reading + [Slot(row, false)];
    forall r | r in rt.running + {row} ensures InWindow(after, r) {
      if r == row {
        assert after[|reading|].row == row;
      } else {
        var k :| 0 <= k < |reading| && reading[k].row == r;
        assert after[k].row == r;
      }
    }
    WindowBounds(after, rt.running + {row});
  }

  lemma HeldWithoutOpening(q: Query, readers: nat, reading: seq<Slot>, row: nat, rt: Runtime)
    requires ReadsHeld(q, readers, reading, row, rt, true) && |reading| < readers
    ensures ReadsHeld(q, readers, reading + [Slot(row, true)], row + 1, rt, true)
  {
    hide InWindow;
  }

  /** The head leaves the window once its read has ended, or the deadline has fallen. */
  lemma HeldWithoutHead(q: Query, readers: nat, reading: seq<Slot>, nextRow: nat, rt: Runtime, expired: bool)
    requires ReadsHeld(q, readers, reading, nextRow, rt, expired) && reading != []
    requires expired || reading[0].row !in rt.running
    ensures ReadsHeld(q, readers, reading[1..], nextRow, rt, expired)
  {
    if !expired {
      forall r | r in rt.running ensures InWindow(reading[1..], r) {
        var k :| 0 <= k < |reading| && reading[k].row == r;
        assert reading[1..][k - 1].row == r;
      }
    }
  }

  /** A read that ends while there is time. */
  function Ended(rt: Runtime, row: nat): Runtime {
    rt.(running := rt.running - {row}, readInTime := rt.readInTime + rt.running * {row})
  }

  lemma WindowShifts(q: Query, reading: seq<Slot>, from: nat, nextRow: nat, seen: set<Path>, seen': set<Path>)
    requires WellFormed(q) && Window(q, reading, from, nextRow, seen) && reading != []
    requires seen <= seen'
    ensures from <= reading[0].row < |q.rows| && q.rows[reading[0].row].rel.Some?
    ensures q.permitted(q.rows[reading[0].row].rel.value)
    ensures Window(q, reading[1..], reading[0].row + 1, nextRow, seen')
    ensures forall i :: from <= i < reading[0].row ==> Skippable(q, i, seen)
  {
    forall i | from <= i < nextRow && !Skippable(q, i, seen)
      ensures i >= reading[0].row && (i > reading[0].row ==> Slot(i, true) in reading[1..] || Slot(i, false) in reading[1..])
    {
      var k :| 0 <= k < |reading| && (reading[k] == Slot(i, true) || reading[k] == Slot(i, false));
      if k > 0 { assert reading[1..][k - 1] == reading[k]; }
    }
  }

  lemma WindowWaits(q: Query, reading: seq<Slot>, from: nat, nextRow: nat, seen: set<Path>, seen': set<Path>)
    requires Window(q, reading, from, nextRow, seen) && seen <= seen'
    ensures Window(q, reading, from, nextRow, seen')
  {
  }

  /** A row that is not taken into the window is one that would be skipped. */
  lemma WindowPasses(q: Query, reading: seq<Slot>, from: nat, row: nat, seen: set<Path>)
    requires WellFormed(q) && Window(q, reading, from, row, seen) && row < |q.rows|
    ensures Skippable(q, row, seen) ==> Window(q, reading, from, row + 1, seen)
  {
  }

  lemma WindowTakes(q: Query, reading: seq<Slot>, from: nat, row: nat, seen: set<Path>, seen': set<Path>)
    requires WellFormed(q) && Window(q, reading, from, row, seen) && row < |q.rows| && seen <= seen'
    ensures Skippable(q, row, seen') ==> Window(q, reading, from, row + 1, seen')
    ensures q.rows[row].rel.Some? && q.permitted(q.rows[row].rel.value) ==>
              forall b :: Window(q, reading + [Slot(row, b)], from, row + 1, seen')
  {
    forall b | q.rows[row].rel.Some? && q.permitted(q.rows[row].rel.value)
      ensures Window(q, reading + [Slot(row, b)], from, row + 1, seen')
    {
      var after := reading + [Slot(row, b)];
      assert after[|reading|] == Slot(row, b);
      forall i | from <= i < row + 1 && !Skippable(q, i, seen') ensures Slot(i, true) in after || Slot(i, false) in after {
        if i < row { assert !Skippable(q, i, seen); }
      }
    }
  }

  /** Once nothing is open after a refill, every row that is left would be skipped. */
  lemma NothingLeft(q: Query, from: nat, nextRow: nat, seen: set<Path>)
    requires Window(q, [], from, nextRow, seen) && nextRow == |q.rows|
    ensures forall i :: from <= i < |q.rows| ==> Skippable(q, i, seen)
  {
  }

  /** One row of `refill`. */
  method Consider(q: Query, readers: nat, alone: bool, from: nat,
                  reading0: seq<Slot>, row: nat, seen0: set<Path>, expired0: bool, rt0: Runtime)
    returns (nextRow: nat, reading: seq<Slot>, seen: set<Path>, expired: bool, rt: Runtime)
    requires WellFormed(q) && Window(q, reading0, from, row, seen0)
    requires ReadsHeld(q, readers, reading0, row, rt0, expired0) && |reading0| < readers && row < |q.rows|
    ensures nextRow == row + 1 && Window(q, reading, from, nextRow, seen)
    ensures ReadsHeld(q, readers, reading, nextRow, rt, expired)
    ensures seen0 <= seen && (alone ==> seen == seen0) && (expired0 ==> expired)
    ensures || (reading == reading0 && rt.begun == rt0.begun)
            || (reading == reading0 + [Slot(row, true)] && expired && rt.begun == rt0.begun)
            || (reading == reading0 + [Slot(row, false)] && !expired && rt.begun == rt0.begun + {row})
    ensures rt.inTime == (if !expired0 && expired then from else rt0.inTime) && FixedOnceExpired(rt0, expired0, rt)
  {
    reading, nextRow, seen, expired, rt := reading0, row + 1, seen0, expired0, rt0;
    var rel := q.rows[row].rel;
    WindowPasses(q, reading0, from, row, seen0);
    HeldFurther(q, readers, reading0, row, rt0, expired0);
    hide ReadsHeld, Window;
    if rel.None? || rel.value in seen { return; }
    // Asking permission is an await, during which another pass may claim paths.
    expired, rt := Await(expired, rt, from);
    HeldThroughAwait(q, readers, reading0, row, rt0, expired0, rt, expired, from);
    var claimed: set<Path> := *;
    if !alone { seen := seen + claimed; }
    HeldFurther(q, readers, reading0, row, rt, expired);
    hide Skippable, Passes;
    WindowTakes(q, reading0, from, row, seen0, seen);
    if !q.permitted(rel.value) { return; }
    if expired {
      HeldWithoutOpening(q, readers, reading0, row, rt);
      reading := reading + [Slot(row, true)];
    } else {
      HeldThroughOpening(q, readers, reading0, row, rt);
      reading, rt := reading + [Slot(row, false)], Opening(rt, row);
    }
  }

  /**
   One pass of `refill`: opens reads up to the window's size, asking permission before opening anything, and
   none once the deadline has fallen. `alone` says that no other pass claims paths meanwhile.
   */
  method Refill(q: Query, readers: nat, alone: bool, from: nat,
                reading0: seq<Slot>, nextRow0: nat, seen0: set<Path>, expired0: bool, rt0: Runtime)
    returns (reading: seq<Slot>, nextRow: nat, seen: set<Path>, expired: bool, rt: Runtime)
    requires WellFormed(q) && Window(q, reading0, from, nextRow0, seen0)
    requires ReadsHeld(q, readers, reading0, nextRow0, rt0, expired0)
    ensures Window(q, reading, from, nextRow, seen)
    ensures ReadsHeld(q, readers, reading, nextRow, rt, expired)
    ensures |reading| == readers || nextRow == |q.rows|
    ensures reading0 <= reading && seen0 <= seen && (alone ==> seen == seen0)
    ensures expired0 ==> expired && rt.begun == rt0.begun
    ensures expired0 ==> forall k :: |reading0| <= k < |reading| ==> reading[k].startedLate
    ensures rt.inTime == (if !expired0 && expired then from else rt0.inTime) && FixedOnceExpired(rt0, expired0, rt)
  {
    reading, nextRow, seen, expired, rt := reading0, nextRow0, seen0, expired0, rt0;
    while |reading| < readers && nextRow < |q.rows|
      invariant Window(q, reading, from, nextRow, seen)
      invariant ReadsHeld(q, readers, reading, nextRow, rt, expired)
      invariant reading0 <= reading && seen0 <= seen && (alone ==> seen == seen0)
      invariant expired0 ==> expired && rt.begun == rt0.begun
      invariant expired0 ==> forall k :: |reading0| <= k < |reading| ==> reading[k].startedLate
      invariant rt.inTime == (if !expired0 && expired then from else rt0.inTime) && FixedOnceExpired(rt0, expired0, rt)
      decreases |q.rows| - nextRow
    {
      var row := nextRow;
      nextRow, reading, seen, expired, rt := Consider(q, readers, alone, from, reading, row, seen, expired, rt);
    }
  }
}
