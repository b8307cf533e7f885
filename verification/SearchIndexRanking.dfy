/**
 What the search index found, in ranking order, and the simple loop over it: `OneAtATime` reads one row,
 judges it, gives it, and only then looks at the next.
 */
module SearchIndexRanking {
  import opened Common

  type Path = string

  /** A candidate in ranking order: its logical path, if the view places it anywhere, and its score. */
  datatype Row = Row(rel: Option<Path>, score: int)

  /** What reading the file for its line finds. */
  datatype Line = NoLine | Line(text: string, number: nat)

  datatype Result = Result(rel: Path, line: Line, score: int, inContents: bool)

  datatype Query = Query(rows: seq<Row>, lines: seq<Line>, permitted: Path -> bool, limit: nat, seen: set<Path>)

  ghost predicate WellFormed(q: Query) { |q.lines| == |q.rows| }

  predicate Skippable(q: Query, i: nat, seen: set<Path>)
    requires i < |q.rows|
  {
    q.rows[i].rel.None? || q.rows[i].rel.value in seen || !q.permitted(q.rows[i].rel.value)
  }

  /** What one candidate amounts to, given whether its line came too late. */
  function Judge(q: Query, i: nat, late: bool, seen: set<Path>): Option<Result>
    requires WellFormed(q) && i < |q.rows|
  {
    if Skippable(q, i, seen) then None
    else if late then Some(Result(q.rows[i].rel.value, NoLine, q.rows[i].score, true))
    else if q.lines[i] == NoLine then None
    else Some(Result(q.rows[i].rel.value, q.lines[i], q.rows[i].score, false))
  }

  /** A row's result: its path and score, and the line that was read, or none if the line came too late. */
  ghost predicate IsResultOf(q: Query, row: nat, r: Result)
    requires WellFormed(q) && row < |q.rows|
  {
    && q.rows[row].rel == Some(r.rel) && r.score == q.rows[row].score
    && if r.inContents then r.line == NoLine else r.line == q.lines[row] && r.line.Line?
  }

  datatype Served = Served(out: seq<Result>, seen: set<Path>)

  function Give(q: Query, sofar: Served, verdict: Option<Result>): Served {
    if |sofar.out| >= q.limit || verdict.None? then sofar
    else Served(sofar.out + [verdict.value], sofar.seen + {verdict.value.rel})
  }

  /** The first `|late|` rows taken one at a time: read, judge, give, then look at the next. */
  function OneAtATime(q: Query, late: seq<bool>): Served
    requires WellFormed(q) && |late| <= |q.rows|
    decreases |late|
  {
    if late == [] then Served([], q.seen)
    else
      var n := |late| - 1;
      var before := OneAtATime(q, late[..n]);
      Give(q, before, Judge(q, n, late[n], before.seen))
  }

  lemma OneMore(q: Query, late: seq<bool>, b: bool)
    requires WellFormed(q) && |late| < |q.rows|
    ensures var before := OneAtATime(q, late);
            OneAtATime(q, late + [b]) == Give(q, before, Judge(q, |late|, b, before.seen))
  {
    assert (late + [b])[..|late|] == late;
  }

  function Falses(n: nat): (s: seq<bool>)
    ensures |s| == n
  {
    seq(n, _ => false)
  }

  /** Rows that are skipped, or that come once the limit is reached, change nothing. */
  lemma {:induction false} SkippedRows(q: Query, late: seq<bool>, n: nat)
    requires WellFormed(q) && |late| + n <= |q.rows|
    requires || |OneAtATime(q, late).out| >= q.limit
             || forall i :: |late| <= i < |late| + n ==> Skippable(q, i, OneAtATime(q, late).seen)
    ensures OneAtATime(q, late + Falses(n)) == OneAtATime(q, late)
  {
    if n == 0 {
      assert late + Falses(0) == late;
    } else {
      SkippedRows(q, late, n - 1);
      assert late + Falses(n) == late + Falses(n - 1) + [false];
      OneMore(q, late + Falses(n - 1), false);
    }
  }

  /** A row taken after a stretch of skippable ones is judged as `OneAtATime` judges it. */
  lemma {:induction false} TurnAgrees(q: Query, late: seq<bool>, row: nat, b: bool)
    requires WellFormed(q) && |late| <= row < |q.rows|
    requires forall i :: |late| <= i < row ==> Skippable(q, i, OneAtATime(q, late).seen)
    ensures var before := OneAtATime(q, late);
            OneAtATime(q, late + Falses(row - |late|) + [b]) == Give(q, before, Judge(q, row, b, before.seen))
  {
    SkippedRows(q, late, row - |late|);
    OneMore(q, late + Falses(row - |late|), b);
  }

  // ----- Which rows are given

  /** The rows the results came from, in order, each of them with its own result. */
  ghost predicate Origins(q: Query, late: seq<bool>, out: seq<Result>, origin: seq<nat>)
    requires WellFormed(q) && |late| <= |q.rows|
  {
    && |out| == |origin| <= q.limit
    && (forall k :: 0 <= k < |out| ==> origin[k] < |late| && IsResultOf(q, origin[k], out[k]) && out[k].inContents == late[origin[k]])
    && (forall j, k :: 0 <= j < k < |out| ==> origin[j] < origin[k])
  }

  /** A row is placed, permitted, claimed neither at the start nor by a row given before it, and late or with a line found. */
  ghost predicate Wanted(q: Query, late: seq<bool>, origin: seq<nat>, i: nat)
    requires WellFormed(q) && i < |late| <= |q.rows|
  {
    && q.rows[i].rel.Some? && q.permitted(q.rows[i].rel.value) && q.rows[i].rel.value !in q.seen
    && (forall k :: 0 <= k < |origin| && origin[k] < i ==> origin[k] < |q.rows| && q.rows[origin[k]].rel != q.rows[i].rel)
    && (late[i] || q.lines[i].Line?)
  }

  /** Whether the limit leaves room for a row behind those given before it. */
  ghost predicate Room(q: Query, origin: seq<nat>, i: nat) {
    q.limit > 0 && (|origin| < q.limit || i <= origin[q.limit - 1])
  }

  /** A row is given exactly when it is wanted and there is room for it. */
  ghost predicate GivenExactly(q: Query, late: seq<bool>, out: seq<Result>, origin: seq<nat>)
    requires WellFormed(q) && |late| <= |q.rows|
  {
    && Origins(q, late, out, origin)
    && forall i :: 0 <= i < |late| ==> (i in origin <==> Wanted(q, late, origin, i) && Room(q, origin, i))
  }

  /** The paths that are claimed are those of the start and those that were given. */
  ghost predicate Claimed(q: Query, out: seq<Result>, seen: set<Path>) {
    forall rel :: rel in seen <==> rel in q.seen || exists k :: 0 <= k < |out| && out[k].rel == rel
  }

  /** The row at `|late|` is one to give, as the loop sees it. */
  ghost predicate NextIsGiven(q: Query, late: seq<bool>, b: bool, out: seq<Result>, seen: set<Path>)
    requires WellFormed(q) && |late| < |q.rows|
  {
    !Skippable(q, |late|, seen) && (b || q.lines[|late|].Line?) && |out| < q.limit
  }

  /** For the rows before it, one row more changes nothing. */
  lemma EarlierRows(q: Query, late: seq<bool>, b: bool, origin: seq<nat>, origin': seq<nat>, i: nat)
    requires WellFormed(q) && i < |late| < |q.rows|
    requires origin' == origin || (origin' == origin + [|late|] && |origin| < q.limit)
    ensures Wanted(q, late + [b], origin', i) <==> Wanted(q, late, origin, i)
    ensures Room(q, origin', i) <==> Room(q, origin, i)
  {
    assert forall k :: 0 <= k < |origin| ==> origin'[k] == origin[k];
  }

  lemma NextIsWanted(q: Query, late: seq<bool>, b: bool, out: seq<Result>, origin: seq<nat>, seen: set<Path>)
    requires WellFormed(q) && |late| < |q.rows| && Origins(q, late, out, origin) && Claimed(q, out, seen)
    ensures Wanted(q, late + [b], origin, |late|) && Room(q, origin, |late|) <==> NextIsGiven(q, late, b, out, seen)
  {
    var rel := q.rows[|late|].rel;
    if rel.Some? {
      assert rel.value in seen <==> rel.value in q.seen || exists k :: 0 <= k < |out| && out[k].rel == rel.value;
      assert forall k :: 0 <= k < |out| ==> q.rows[origin[k]].rel == Some(out[k].rel);
    }
  }

  lemma RowPassedOver(q: Query, late: seq<bool>, b: bool, out: seq<Result>, origin: seq<nat>, seen: set<Path>)
    requires WellFormed(q) && |late| < |q.rows| && GivenExactly(q, late, out, origin) && Claimed(q, out, seen)
    requires !NextIsGiven(q, late, b, out, seen)
    ensures GivenExactly(q, late + [b], out, origin)
  {
    NextIsWanted(q, late, b, out, origin, seen);
    forall i | 0 <= i < |late| + 1 ensures i in origin <==> Wanted(q, late + [b], origin, i) && Room(q, origin, i) {
      if i < |late| { EarlierRows(q, late, b, origin, origin, i); }
    }
  }

  lemma RowGiven(q: Query, late: seq<bool>, b: bool, out: seq<Result>, origin: seq<nat>, seen: set<Path>, r: Result)
    requires WellFormed(q) && |late| < |q.rows| && GivenExactly(q, late, out, origin) && Claimed(q, out, seen)
    requires NextIsGiven(q, late, b, out, seen) && IsResultOf(q, |late|, r) && r.inContents == b
    ensures GivenExactly(q, late + [b], out + [r], origin + [|late|]) && Claimed(q, out + [r], seen + {r.rel})
  {
    var origin' := origin + [|late|];
    NextIsWanted(q, late, b, out, origin, seen);
    forall i | 0 <= i < |late| + 1 ensures i in origin' <==> Wanted(q, late + [b], origin', i) && Room(q, origin', i) {
      if i < |late| {
        EarlierRows(q, late, b, origin, origin', i);
      } else {
        assert forall k :: 0 <= k < |origin| ==> origin'[k] == origin[k];
      }
    }
    ClaimedMore(q, out, seen, r);
  }

  lemma ClaimedMore(q: Query, out: seq<Result>, seen: set<Path>, r: Result)
    requires Claimed(q, out, seen)
    ensures Claimed(q, out + [r], seen + {r.rel})
  {
    forall rel ensures rel in seen + {r.rel} <==> rel in q.seen || exists k :: 0 <= k < |out + [r]| && (out + [r])[k].rel == rel {
      if rel == r.rel { assert (out + [r])[|out|].rel == rel; }
      if k :| 0 <= k < |out| && out[k].rel == rel { assert (out + [r])[k].rel == rel; }
    }
  }

  lemma {:induction false} RowsPassedOver(q: Query, late: seq<bool>, n: nat, out: seq<Result>, origin: seq<nat>, seen: set<Path>)
    requires WellFormed(q) && |late| + n <= |q.rows| && GivenExactly(q, late, out, origin) && Claimed(q, out, seen)
    requires |out| >= q.limit || forall i :: |late| <= i < |late| + n ==> Skippable(q, i, seen)
    ensures GivenExactly(q, late + Falses(n), out, origin)
  {
    hide GivenExactly, Claimed;
    if n == 0 {
      assert late + Falses(0) == late;
    } else {
      RowsPassedOver(q, late, n - 1, out, origin, seen);
      RowPassedOver(q, late + Falses(n - 1), false, out, origin, seen);
      assert late + Falses(n) == late + Falses(n - 1) + [false];
    }
  }

  /** What concluding a row does: it is given with its result, unless its path is claimed or its line was looked for in vain. */
  ghost predicate Concluded(q: Query, row: nat, outOfTime: bool, out0: seq<Result>, origin0: seq<nat>, seen0: set<Path>,
                            out: seq<Result>, origin: seq<nat>, seen: set<Path>)
    requires WellFormed(q) && row < |q.rows| && q.rows[row].rel.Some?
  {
    var rel := q.rows[row].rel.value;
    if rel in seen0 || (!outOfTime && q.lines[row].NoLine?)
    then out == out0 && origin == origin0 && seen == seen0
    else && |out| == |out0| + 1 && out == out0 + [out[|out0|]] && origin == origin0 + [row] && seen == seen0 + {rel}
         && IsResultOf(q, row, out[|out0|]) && out[|out0|].inContents == outOfTime
  }

  /** Concluding a row behind a stretch of skippable ones gives exactly what is to be given up to it. */
  lemma TurnGivesExactly(q: Query, late: seq<bool>, row: nat, b: bool, out0: seq<Result>, origin0: seq<nat>, seen0: set<Path>,
                         out: seq<Result>, origin: seq<nat>, seen: set<Path>)
    requires WellFormed(q) && |late| <= row < |q.rows| && GivenExactly(q, late, out0, origin0) && Claimed(q, out0, seen0)
    requires forall i :: |late| <= i < row ==> Skippable(q, i, seen0)
    requires q.rows[row].rel.Some? && q.permitted(q.rows[row].rel.value) && |out0| < q.limit
    requires Concluded(q, row, b, out0, origin0, seen0, out, origin, seen)
    ensures GivenExactly(q, late + Falses(row - |late|) + [b], out, origin) && Claimed(q, out, seen)
  {
    var before := late + Falses(row - |late|);
    RowsPassedOver(q, late, row - |late|, out0, origin0, seen0);
    hide GivenExactly, Claimed, IsResultOf;
    if NextIsGiven(q, before, b, out0, seen0) {
      RowGiven(q, before, b, out0, origin0, seen0, out[|out0|]);
    } else {
      RowPassedOver(q, before, b, out0, origin0, seen0);
    }
  }
}
