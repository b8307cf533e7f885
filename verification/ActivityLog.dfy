/**
 The activity log, read page by page through the moment of the last row while others go on recording.

 The table is held newest first, as the query orders it: by time, then by row number. Times are the ISO
 texts the log writes, which compare as the moments do; the clock never goes back.
 */
module ActivityLog {
  import opened Common

  datatype Row = Row(rowid: nat, at: int, action: string, outcome: string, userId: Option<string>, actor: string, target: Option<string>)

  /** What a reader asks for. `query` is the LIKE test of the actor and the target. */
  datatype Filter = Filter(action: Option<string>, userId: Option<string>, outcome: Option<string>,
                           from: Option<int>, to: Option<int>, query: Option<(string, Option<string>) -> bool>)

  predicate Matches(f: Filter, row: Row) {
    && (f.action.Some? ==> row.action == f.action.value)
    && (f.userId.Some? ==> row.userId == f.userId)
    && (f.outcome.Some? ==> row.outcome == f.outcome.value)
    && (f.from.Some? ==> row.at >= f.from.value)
    && (f.to.Some? ==> row.at <= f.to.value)
    && (f.query.Some? ==> f.query.value(row.actor, row.target))
  }

  predicate Newer(a: Row, b: Row) { a.at > b.at || (a.at == b.at && a.rowid > b.rowid) }

  ghost predicate NewestFirst(rows: seq<Row>) {
    forall i, j :: 0 <= i < j < |rows| ==> Newer(rows[i], rows[j])
  }

  predicate IsBefore(row: Row, before: Option<int>) { before.None? || row.at < before.value }

  /** The rows the query selects, in its order. */
  function Matching(table: seq<Row>, f: Filter, before: Option<int>): seq<Row> {
    if table == [] then []
    else (if Matches(f, table[0]) && IsBefore(table[0], before) then [table[0]] else []) + Matching(table[1..], f, before)
  }

  const MAX_LIMIT := 500
  const DEFAULT_LIMIT := 50

  /** `Number(limit) || DEFAULT_LIMIT`, held between one and the maximum. */
  function PageSize(limit: Option<int>): (size: nat)
    ensures 1 <= size <= MAX_LIMIT
  {
    var asked := if limit.None? || limit.value == 0 then DEFAULT_LIMIT else limit.value;
    if asked < 1 then 1 else if asked > MAX_LIMIT then MAX_LIMIT else asked
  }

  datatype Page = Page(events: seq<Row>, nextBefore: Option<int>)

  function FirstPage(rows: seq<Row>, size: nat): Page
    requires size >= 1
  {
    if |rows| > size then Page(rows[..size], Some(rows[size - 1].at)) else Page(rows, None)
  }

  function ReadActivity(table: seq<Row>, f: Filter, before: Option<int>, limit: Option<int>): Page {
    FirstPage(Matching(table, f, before), PageSize(limit))
  }

  /** What a filter of one field holds: the rows with just that, older than the cursor. */
  lemma SingleFilters(table: seq<Row>, row: Row, before: Option<int>, text: string, moment: int, query: (string, Option<string>) -> bool)
    ensures var all := Filter(None, None, None, None, None, None);
            var here := row in table && (before.Some? ==> row.at < before.value);
            && (row in Matching(table, all, before) <==> here)
            && (row in Matching(table, all.(action := Some(text)), before) <==> here && row.action == text)
            && (row in Matching(table, all.(userId := Some(text)), before) <==> here && row.userId == Some(text))
            && (row in Matching(table, all.(outcome := Some(text)), before) <==> here && row.outcome == text)
            && (row in Matching(table, all.(from := Some(moment)), before) <==> here && row.at >= moment)
            && (row in Matching(table, all.(to := Some(moment)), before) <==> here && row.at <= moment)
            && (row in Matching(table, all.(query := Some(query)), before) <==> here && query(row.actor, row.target))
  {
    var all := Filter(None, None, None, None, None, None);
    MatchingExactly(table, all, before, row);
    MatchingExactly(table, all.(action := Some(text)), before, row);
    MatchingExactly(table, all.(userId := Some(text)), before, row);
    MatchingExactly(table, all.(outcome := Some(text)), before, row);
    MatchingExactly(table, all.(from := Some(moment)), before, row);
    MatchingExactly(table, all.(to := Some(moment)), before, row);
    MatchingExactly(table, all.(query := Some(query)), before, row);
    hide Matching;
  }

  /** Several fields together hold what each of them holds. */
  lemma FiltersTogether(table: seq<Row>, f: Filter, before: Option<int>, row: Row)
    ensures var all := Filter(None, None, None, None, None, None);
            row in Matching(table, f, before) <==>
              && row in Matching(table, all.(action := f.action), before) && row in Matching(table, all.(userId := f.userId), before)
              && row in Matching(table, all.(outcome := f.outcome), before) && row in Matching(table, all.(from := f.from), before)
              && row in Matching(table, all.(to := f.to), before) && row in Matching(table, all.(query := f.query), before)
  {
    var all := Filter(None, None, None, None, None, None);
    MatchingExactly(table, f, before, row);
    MatchingExactly(table, all.(action := f.action), before, row);
    MatchingExactly(table, all.(userId := f.userId), before, row);
    MatchingExactly(table, all.(outcome := f.outcome), before, row);
    MatchingExactly(table, all.(from := f.from), before, row);
    MatchingExactly(table, all.(to := f.to), before, row);
    MatchingExactly(table, all.(query := f.query), before, row);
    hide Matching;
  }

  lemma {:induction false} MatchingExactly(table: seq<Row>, f: Filter, before: Option<int>, row: Row)
    ensures row in Matching(table, f, before) <==> row in table && Matches(f, row) && IsBefore(row, before)
  {
    hide Matches;
    if table != [] {
      MatchingExactly(table[1..], f, before, row);
      assert table == [table[0]] + table[1..];
    }
  }

  /** A page has the rows asked for, fifty if none are, never none and never more than five hundred; the cursor is its last moment. */
  lemma PageHolds(table: seq<Row>, f: Filter, before: Option<int>, limit: Option<int>)
    ensures var rows, page := Matching(table, f, before), ReadActivity(table, f, before, limit);
            var asked := if limit == None || limit == Some(0) then 50 else limit.value;
            var size := if asked < 1 then 1 else if asked > 500 then 500 else asked;
            && page.events <= rows
            && |page.events| == (if |rows| < size then |rows| else size)
            && (page.nextBefore.None? <==> |page.events| == |rows|)
            && (page.nextBefore.Some? ==> page.events != [] && page.nextBefore.value == page.events[|page.events| - 1].at)
  {
    hide Matching;
  }

  /** One row more than the page is enough to know the page and whether there is another. */
  lemma EnoughForAPage(selected: seq<Row>, more: seq<Row>, size: nat)
    requires size >= 1 && (more == [] || |selected| > size)
    ensures FirstPage(selected + more, size) == FirstPage(selected, size)
  {
    if more == [] { assert selected + more == selected; } else { assert (selected + more)[..size] == selected[..size]; }
  }

  // ----- Draining

  function Since(rows: seq<Row>, before: int): seq<Row> {
    if rows == [] then [] else (if rows[0].at < before then [rows[0]] else []) + Since(rows[1..], before)
  }

  /** What following the cursor to the end returns, of rows that do not change. */
  function Drain(rows: seq<Row>, size: nat): seq<Row>
    requires size >= 1 && NewestFirst(rows)
    decreases |rows|
  {
    if |rows| <= size then rows
    else
      SinceIsSuffix(rows, size);
      rows[..size] + Drain(Since(rows, rows[size - 1].at), size)
  }

  lemma {:induction false} SinceOfOlder(rows: seq<Row>, before: int)
    requires forall i :: 0 <= i < |rows| ==> rows[i].at < before
    ensures Since(rows, before) == rows
  {
    if rows != [] {
      SinceOfOlder(rows[1..], before);
      assert [rows[0]] + rows[1..] == rows;
    }
  }

  lemma {:induction false} SinceDropsFront(rows: seq<Row>, before: int, k: nat)
    requires k <= |rows| && forall i :: 0 <= i < k ==> rows[i].at >= before
    ensures Since(rows, before) == Since(rows[k..], before)
  {
    if k > 0 {
      SinceDropsFront(rows[1..], before, k - 1);
      assert rows[1..][k - 1..] == rows[k..];
    } else {
      assert rows[0..] == rows;
    }
  }

  /** Rows after the page that share its last moment: the cursor, being strict, steps over them. */
  function Tied(rows: seq<Row>, size: nat): (n: nat)
    requires 1 <= size <= |rows|
    ensures size + n <= |rows|
    decreases |rows| - size
  {
    if size == |rows| || rows[size].at != rows[size - 1].at then 0 else 1 + Tied(rows, size + 1)
  }

  lemma {:induction false} TiedShareTheMoment(rows: seq<Row>, size: nat)
    requires 1 <= size <= |rows| && NewestFirst(rows)
    ensures forall i :: size <= i < size + Tied(rows, size) ==> rows[i].at == rows[size - 1].at
    ensures forall i :: size + Tied(rows, size) <= i < |rows| ==> rows[i].at < rows[size - 1].at
    decreases |rows| - size
  {
    if size < |rows| && rows[size].at == rows[size - 1].at {
      TiedShareTheMoment(rows, size + 1);
    } else {
      assert forall i :: size <= i < |rows| ==> Newer(rows[size - 1], rows[i]) && (i > size ==> Newer(rows[size], rows[i]));
    }
  }

  lemma SinceAtCut(rows: seq<Row>, before: int, k: nat)
    requires k <= |rows|
    requires forall i :: 0 <= i < k ==> rows[i].at >= before
    requires forall i :: k <= i < |rows| ==> rows[i].at < before
    ensures Since(rows, before) == rows[k..]
  {
    SinceDropsFront(rows, before, k);
    SinceOfOlder(rows[k..], before);
  }

  lemma SinceIsSuffix(rows: seq<Row>, size: nat)
    requires 1 <= size < |rows| && NewestFirst(rows)
    ensures Since(rows, rows[size - 1].at) == rows[size + Tied(rows, size)..]
    ensures NewestFirst(Since(rows, rows[size - 1].at))
  {
    var k, before := size + Tied(rows, size), rows[size - 1].at;
    TiedShareTheMoment(rows, size);
    assert forall i :: 0 <= i < size - 1 ==> Newer(rows[i], rows[size - 1]);
    hide Since, Tied, NewestFirst;
    SinceAtCut(rows, before, k);
    SuffixInOrder(rows, k);
  }

  lemma SuffixInOrder(rows: seq<Row>, k: nat)
    requires k <= |rows| && NewestFirst(rows)
    ensures NewestFirst(rows[k..])
  {
  }

  /** A front of the rows, and rows in order from further back, are in order together. */
  lemma FrontThenLater(rows: seq<Row>, size: nat, k: nat, later: seq<Row>)
    requires size <= k <= |rows| && NewestFirst(rows) && NewestFirst(later)
    requires forall r :: r in later ==> r in rows[k..]
    ensures NewestFirst(rows[..size] + later)
    ensures forall r :: r in rows[..size] + later ==> r in rows
  {
    forall i, j | 0 <= i < size && 0 <= j < |later|
      ensures Newer(rows[i], later[j])
    {
      assert later[j] in rows[k..];
      var m :| 0 <= m < |rows[k..]| && rows[k..][m] == later[j];
      assert rows[k + m] == later[j];
    }
  }

  /** No row comes twice, and nothing comes that is not there: what is returned is in strict order and among the rows. */
  lemma {:induction false} DrainIsInOrder(rows: seq<Row>, size: nat)
    requires size >= 1 && NewestFirst(rows)
    ensures NewestFirst(Drain(rows, size)) && |Drain(rows, size)| <= |rows|
    ensures forall r :: r in Drain(rows, size) ==> r in rows
    ensures var drained := Drain(rows, size);
            forall i, j :: 0 <= i < j < |drained| ==>
              drained[i].at > drained[j].at || (drained[i].at == drained[j].at && drained[i].rowid > drained[j].rowid)
    decreases |rows|
  {
    if |rows| > size {
      DrainUnfolds(rows, size);
      var k := size + Tied(rows, size);
      hide Drain, Since, Tied, Newer;
      DrainIsInOrder(rows[k..], size);
      FrontThenLater(rows, size, k, Drain(rows[k..], size));
    }
  }

  lemma DrainUnfolds(rows: seq<Row>, size: nat)
    requires 1 <= size < |rows| && NewestFirst(rows)
    ensures NewestFirst(rows[size + Tied(rows, size)..])
    ensures Drain(rows, size) == rows[..size] + Drain(rows[size + Tied(rows, size)..], size)
  {
    SinceIsSuffix(rows, size);
  }

  /** No page ends between two rows of the same moment. */
  ghost predicate CleanCuts(rows: seq<Row>, size: nat)
    requires size >= 1
    decreases |rows|
  {
    |rows| <= size || (rows[size].at != rows[size - 1].at && CleanCuts(rows[size..], size))
  }

  lemma SameFront(rows: seq<Row>, size: nat, later: seq<Row>)
    requires size <= |rows|
    ensures rows[..size] + later == rows <==> later == rows[size..]
  {
    assert (rows[..size] + later)[size..] == later;
  }

  /** Every row comes back if and only if no page boundary falls between two rows of one moment. */
  lemma {:induction false} DrainComplete(rows: seq<Row>, size: nat)
    requires size >= 1 && NewestFirst(rows)
    ensures Drain(rows, size) == rows <==> CleanCuts(rows, size)
    decreases |rows|
  {
    if |rows| > size {
      DrainUnfolds(rows, size);
      SuffixInOrder(rows, size);
      var rest := rows[size + Tied(rows, size)..];
      DrainIsInOrder(rest, size);
      if rows[size].at != rows[size - 1].at {
        DrainComplete(rest, size);
        hide Drain, NewestFirst, Since, Tied;
        SameFront(rows, size, Drain(rest, size));
      }
    }
  }

  /** So everything comes back, whatever the page size, when no two rows share a moment. */
  lemma {:induction false} DistinctMomentsCutClean(rows: seq<Row>, size: nat)
    requires size >= 1 && forall i, j :: 0 <= i < j < |rows| ==> rows[i].at != rows[j].at
    ensures CleanCuts(rows, size)
    decreases |rows|
  {
    if |rows| > size { DistinctMomentsCutClean(rows[size..], size); }
  }

  /** Two rows of one moment and pages of one: the second is never returned. */
  lemma TiesCanBeLost()
    ensures var a, b := Row(1, 0, "a", "ok", None, "x", None), Row(0, 0, "b", "ok", None, "x", None);
            NewestFirst([a, b]) && Drain([a, b], 1) == [a]
  {
    var a, b := Row(1, 0, "a", "ok", None, "x", None), Row(0, 0, "b", "ok", None, "x", None);
    SinceIsSuffix([a, b], 1);
    assert [a, b][2..] == [] && [a, b][..1] == [a];
    assert Tied([a, b], 1) == 1;
  }

  // ----- The query, row by row

  lemma {:induction false} MatchingInOrder(table: seq<Row>, f: Filter, before: Option<int>)
    requires NewestFirst(table)
    ensures NewestFirst(Matching(table, f, before))
    ensures forall r :: r in Matching(table, f, before) <==> r in table && Matches(f, r) && IsBefore(r, before)
  {
    if table != [] {
      MatchingInOrder(table[1..], f, before);
      var rest := Matching(table[1..], f, before);
      forall i | 0 <= i < |rest| ensures Newer(table[0], rest[i]) {
        assert rest[i] in table[1..];
        var k :| 0 <= k < |table[1..]| && table[1..][k] == rest[i];
        assert Newer(table[0], table[k + 1]);
      }
      assert table == [table[0]] + table[1..];
    }
  }

  lemma OneMoreMatched(rest: seq<Row>, f: Filter, before: Option<int>, selected: seq<Row>)
    requires rest != []
    ensures selected + Matching(rest, f, before) ==
            (if Matches(f, rest[0]) && IsBefore(rest[0], before) then selected + [rest[0]] else selected)
            + Matching(rest[1..], f, before)
  {
    hide Matches, IsBefore;
    var later := Matching(rest[1..], f, before);
    if Matches(f, rest[0]) && IsBefore(rest[0], before) {
      assert Matching(rest, f, before) == [rest[0]] + later;
      hide Matching;
      Regroup(selected, [rest[0]], later);
    } else {
      assert Matching(rest, f, before) == later;
    }
  }

  /** Asking from a moment on is asking for everything and dropping what is not older. */
  lemma {:induction false} MatchingSince(table: seq<Row>, f: Filter, before: int)
    ensures Matching(table, f, Some(before)) == Since(Matching(table, f, None), before)
  {
    if table != [] {
      MatchingSince(table[1..], f, before);
      var rest := Matching(table[1..], f, None);
      assert ([table[0]] + rest)[1..] == rest && [] + rest == rest;
    }
  }

  /** Rows recorded later are not older than the cursor, so a page asked for through it does not change. */
  lemma {:induction false} RecordingDisturbsNothing(added: seq<Row>, table: seq<Row>, f: Filter, before: int)
    requires forall i :: 0 <= i < |added| ==> added[i].at >= before
    ensures Matching(added + table, f, Some(before)) == Matching(table, f, Some(before))
  {
    if added == [] {
      assert added + table == table;
    } else {
      assert (added + table)[1..] == added[1..] + table;
      RecordingDisturbsNothing(added[1..], table, f, before);
    }
  }

  lemma {:induction false} SinceTwice(rows: seq<Row>, b: int, c: int)
    requires c <= b
    ensures Since(Since(rows, b), c) == Since(rows, c)
  {
    if rows != [] {
      SinceTwice(rows[1..], b, c);
      var rest := Since(rows[1..], b);
      assert ([rows[0]] + rest)[1..] == rest && [] + rest == rest;
    }
  }

  /** Where a reader stands: `left` is what was there at first and not yet returned or stepped over. */
  ghost predicate Leaves(snapshot: seq<Row>, f: Filter, size: nat, all: seq<Row>, left: seq<Row>, page: Page, rows: seq<Row>)
    requires size >= 1
  {
    && NewestFirst(snapshot) && NewestFirst(all) && NewestFirst(left)
    && all == Matching(snapshot, f, None)
    && page == FirstPage(left, size)
    && (forall r :: r in left ==> r in snapshot)
    && (page.nextBefore.Some? ==> Since(all, page.nextBefore.value) == Since(left, page.nextBefore.value))
    && (page.nextBefore.Some? ==> NewestFirst(Since(left, page.nextBefore.value)))
    && Drain(all, size) == (if page.nextBefore.None? then rows else rows + Drain(Since(left, page.nextBefore.value), size))
  }

  lemma {:induction false} AtFirst(snapshot: seq<Row>, f: Filter, size: nat)
    requires size >= 1 && NewestFirst(snapshot)
    ensures var all := Matching(snapshot, f, None);
            Leaves(snapshot, f, size, all, all, FirstPage(all, size), FirstPage(all, size).events)
  {
    var all := Matching(snapshot, f, None);
    MatchingInOrder(snapshot, f, None);
    if |all| > size { SinceIsSuffix(all, size); }
  }

  lemma AtLast(snapshot: seq<Row>, f: Filter, size: nat, all: seq<Row>, left: seq<Row>, page: Page, rows: seq<Row>)
    requires size >= 1 && Leaves(snapshot, f, size, all, left, page, rows) && page.nextBefore.None?
    ensures NewestFirst(all) && rows == Drain(all, size)
  {
  }

  /** The next page is the next piece of what was there at first, whatever was recorded since. */
  lemma NextPage(added: seq<Row>, snapshot: seq<Row>, f: Filter, size: nat, all: seq<Row>, left: seq<Row>, page: Page, rows: seq<Row>)
    requires size >= 1 && NewestFirst(added + snapshot)
    requires Leaves(snapshot, f, size, all, left, page, rows) && page.nextBefore.Some?
    ensures var left' := Since(left, page.nextBefore.value);
            var page' := FirstPage(Matching(added + snapshot, f, page.nextBefore), size);
            |left'| < |left| && Leaves(snapshot, f, size, all, left', page', rows + page'.events)
  {
    var before := page.nextBefore.value;
    CursorIsOld(added, snapshot, left, size);
    RecordingDisturbsNothing(added, snapshot, f, before);
    MatchingSince(snapshot, f, before);
    hide Matching, Since, Drain;
    LeavesNext(snapshot, f, size, all, left, page, rows);
  }

  lemma LeavesNext(snapshot: seq<Row>, f: Filter, size: nat, all: seq<Row>, left: seq<Row>, page: Page, rows: seq<Row>)
    requires size >= 1 && Leaves(snapshot, f, size, all, left, page, rows) && page.nextBefore.Some?
    ensures var left' := Since(left, page.nextBefore.value);
            var page' := FirstPage(left', size);
            |left'| < |left| && Leaves(snapshot, f, size, all, left', page', rows + page'.events)
  {
    SinceIsLess(left, size);
    var left' := Since(left, left[size - 1].at);
    if |left'| > size {
      SinceNext(all, left, size);
      DrainOnce(left', size);
      hide Matching, Since, Drain, NewestFirst;
      Regroup(rows, left'[..size], Drain(Since(left', left'[size - 1].at), size));
    } else {
      DrainAll(left', size);
      hide Matching, Since, Drain, NewestFirst;
    }
  }

  lemma SinceIsLess(rows: seq<Row>, size: nat)
    requires 1 <= size <= |rows|
    ensures var later := Since(rows, rows[size - 1].at);
            |later| < |rows| && forall r :: r in later ==> r in rows && r.at < rows[size - 1].at
  {
    SinceIsOlder(rows, rows[size - 1].at, size - 1);
  }

  lemma {:induction false} SinceIsOlder(rows: seq<Row>, before: int, k: int)
    requires k < |rows| && (k >= 0 ==> rows[k].at >= before)
    ensures forall r :: r in Since(rows, before) ==> r in rows && r.at < before
    ensures |Since(rows, before)| <= |rows| - if k >= 0 then 1 else 0
  {
    if rows != [] {
      SinceIsOlder(rows[1..], before, k - 1);
      assert rows == [rows[0]] + rows[1..];
    }
  }

  /** The cursor after the next page means the same for all that was there as for what is left. */
  lemma SinceNext(all: seq<Row>, left: seq<Row>, size: nat)
    requires 1 <= size <= |left| && Since(all, left[size - 1].at) == Since(left, left[size - 1].at)
    requires size <= |Since(left, left[size - 1].at)|
    ensures var left' := Since(left, left[size - 1].at);
            Since(all, left'[size - 1].at) == Since(left', left'[size - 1].at)
  {
    SinceIsLess(left, size);
    var left' := Since(left, left[size - 1].at);
    assert left'[size - 1] in left';
    SinceTwice(left, left[size - 1].at, left'[size - 1].at);
    SinceTwice(all, left[size - 1].at, left'[size - 1].at);
  }

  lemma DrainOnce(rows: seq<Row>, size: nat)
    requires 1 <= size < |rows| && NewestFirst(rows)
    ensures NewestFirst(Since(rows, rows[size - 1].at))
    ensures Drain(rows, size) == rows[..size] + Drain(Since(rows, rows[size - 1].at), size)
  {
    SinceIsSuffix(rows, size);
    hide NewestFirst, Since;
  }

  lemma DrainAll(rows: seq<Row>, size: nat)
    requires 1 <= size && |rows| <= size && NewestFirst(rows)
    ensures Drain(rows, size) == rows
  {
    hide NewestFirst;
  }

  lemma Regroup(a: seq<Row>, b: seq<Row>, c: seq<Row>)
    ensures a + (b + c) == (a + b) + c
  {
  }

  /** The cursor is the moment of a row that was there at first, so nothing recorded later is older. */
  lemma CursorIsOld(added: seq<Row>, snapshot: seq<Row>, left: seq<Row>, size: nat)
    requires 1 <= size <= |left| && NewestFirst(added + snapshot) && forall r :: r in left ==> r in snapshot
    ensures forall i :: 0 <= i < |added| ==> added[i].at >= left[size - 1].at
  {
    assert left[size - 1] in snapshot;
    var k :| 0 <= k < |snapshot| && snapshot[k] == left[size - 1];
    forall i | 0 <= i < |added| ensures added[i].at >= left[size - 1].at {
      assert Newer((added + snapshot)[i], (added + snapshot)[|added| + k]);
    }
  }

  class Log {
    var table: seq<Row>

    ghost predicate Valid()
      reads this
    {
      NewestFirst(table)
    }

    constructor ()
      ensures Valid() && table == []
    {
      table := [];
    }

    /** `nowIso` is not before any row, and SQLite gives the new row a number above every other. */
    method Record(row: Row)
      requires Valid() && forall r :: r in table ==> Newer(row, r)
      modifies this
      ensures Valid() && table == [row] + old(table)
    {
      table := [row] + table;
    }

    /** Any rows anybody records while a reader is between two pages. */
    method OthersRecord() returns (ghost added: seq<Row>)
      requires Valid()
      modifies this
      ensures Valid() && table == added + old(table)
    {
      added := [];
      var arriving: seq<Row> := *;
      for i := 0 to |arriving|
        invariant Valid() && table == added + old(table)
      {
        if table == [] || Newer(arriving[i], table[0]) {
          Record(arriving[i]);
          added := [arriving[i]] + added;
        }
      }
    }

    /** One page of `readActivity`: at most one row more than the page is read. */
    method Read(f: Filter, before: Option<int>, limit: Option<int>) returns (page: Page)
      requires Valid()
      ensures page == ReadActivity(table, f, before, limit)
    {
      var size := PageSize(limit);
      var selected: seq<Row> := [];
      var rest := table;
      while rest != [] && |selected| < size + 1
        invariant |selected| <= size + 1
        invariant selected + Matching(rest, f, before) == Matching(table, f, before)
        decreases |rest|
      {
        OneMoreMatched(rest, f, before, selected);
        hide Matches, IsBefore, Matching;
        if Matches(f, rest[0]) && IsBefore(rest[0], before) { selected := selected + [rest[0]]; }
        rest := rest[1..];
      }
      EnoughForAPage(selected, Matching(rest, f, before), size);
      if |selected| > size { return Page(selected[..size], Some(selected[size - 1].at)); }
      return Page(selected, None);
    }

    /** The next page, once others have had their turn. */
    method ReadOn(f: Filter, before: Option<int>, limit: Option<int>, ghost added0: seq<Row>, ghost snapshot: seq<Row>)
      returns (page: Page, ghost added: seq<Row>)
      requires Valid() && table == added0 + snapshot
      modifies this
      ensures Valid() && table == added + snapshot
      ensures page == FirstPage(Matching(added + snapshot, f, before), PageSize(limit))
    {
      hide Matching, FirstPage, Matches, NewestFirst;
      ghost var arrived := OthersRecord();
      added := arrived + added0;
      assert added + snapshot == arrived + (added0 + snapshot);
      page := Read(f, before, limit);
    }

    /**
     A reader who follows `nextBefore` to the end, with others recording between any two pages: the reading
     ends, and returns what draining the rows of the first moment returns.
     */
    method ReadToTheEnd(f: Filter, limit: Option<int>) returns (rows: seq<Row>)
      requires Valid()
      modifies this
      ensures Valid()
      ensures NewestFirst(old(Matching(table, f, None)))
      ensures rows == Drain(old(Matching(table, f, None)), PageSize(limit))
    {
      ghost var size, snapshot, all := PageSize(limit), table, Matching(table, f, None);
      ghost var left, added := all, [];
      MatchingInOrder(table, f, None);
      AtFirst(snapshot, f, size);
      var page := Read(f, None, limit);
      rows := page.events;
      assert [] + table == table;
      hide Leaves, Since, Drain, FirstPage, Matching, Matches, NewestFirst;
      while page.nextBefore.Some?
        invariant Valid() && table == added + snapshot
        invariant Leaves(snapshot, f, size, all, left, page, rows)
        invariant NewestFirst(all)
        decreases |left|
      {
        ghost var was := page;
        page, added := ReadOn(f, page.nextBefore, limit, added, snapshot);
        NextPage(added, snapshot, f, size, all, left, was, rows);
        left := Since(left, was.nextBefore.value);
        rows := rows + page.events;
      }
      AtLast(snapshot, f, size, all, left, page, rows);
    }
  }
}
