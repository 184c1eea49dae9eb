/** Runs of identical activities shown as one row (apps/mobile/lib/timeline-coalesce.ts). */
module TimelineCoalesce {
  import opened Lists

  datatype Kind = Activity | Comment

  datatype Entry = Entry(kind: Kind, id: string, actorType: string, actorId: string, createdAt: int,
                         action: Option<string>, body: string, count: Option<int>)

  const COALESCE_MS := 2 * 60 * 1000

  function ActionText(e: Entry): string {
    if e.action.Some? then e.action.value else ""
  }

  predicate NoTimeLimit(e: Entry) {
    ActionText(e) == "task_completed" || ActionText(e) == "task_failed"
  }

  predicate NeverCoalesces(e: Entry) {
    ActionText(e) == "squad_leader_evaluated"
  }

  function Gap(a: Entry, b: Entry): int {
    if a.createdAt <= b.createdAt then b.createdAt - a.createdAt else a.createdAt - b.createdAt
  }

  predicate SameDoing(a: Entry, b: Entry) {
    a.action == b.action && a.actorType == b.actorType && a.actorId == b.actorId
  }

  /** `next` joins the row that `prev` stands for. */
  predicate Joins(prev: Entry, next: Entry) {
    next.kind.Activity? && !NeverCoalesces(next) && prev.kind.Activity? && SameDoing(prev, next)
    && (NoTimeLimit(next) || Gap(prev, next) <= COALESCE_MS)
  }

  function CountOf(e: Entry): int {
    if e.count.Some? then e.count.value else 1
  }

  // ---------------------------------------------------------------- what the rows are

  /** The maximal runs of entries that join one another, in order. */
  function Runs(entries: seq<Entry>): seq<seq<Entry>> {
    if entries == [] then []
    else
      var n := |entries| - 1;
      AddRun(Runs(entries[..n]), entries[n], n > 0 && Joins(entries[n - 1], entries[n]))
  }

  function AddRun(runs: seq<seq<Entry>>, e: Entry, joins: bool): seq<seq<Entry>> {
    if joins && runs != [] then runs[|runs| - 1 := runs[|runs| - 1] + [e]] else runs + [[e]]
  }

  /** A run is shown by its last entry; a longer one counts the entries after the first on top of the first's count. */
  function RowOf(run: seq<Entry>): Entry
    requires run != []
  {
    if |run| == 1 then run[0] else run[|run| - 1].(count := Some(CountOf(run[0]) + |run| - 1))
  }

  ghost predicate RowsOf(rows: seq<Entry>, runs: seq<seq<Entry>>) {
    |rows| == |runs| && forall i :: 0 <= i < |rows| ==> runs[i] != [] && rows[i] == RowOf(runs[i])
  }

  function Flatten(runs: seq<seq<Entry>>): seq<Entry> {
    if runs == [] then [] else Flatten(runs[..|runs| - 1]) + runs[|runs| - 1]
  }

  method CoalesceTimeline(entries: seq<Entry>) returns (out: seq<Entry>)
    ensures RowsOf(out, Runs(entries))
  {
    out := [];
    for i := 0 to |entries|
      invariant RowsOf(out, Runs(entries[..i]))
    {
      var entry := entries[i];
      Advance(entries, i, out);
      if entry.kind.Activity? && |out| > 0 && Joins(out[|out| - 1], entry) {
        out := out[|out| - 1 := entry.(count := Some(CountOf(out[|out| - 1]) + 1))];
        continue;
      }
      out := out + [entry];
    }
    assert entries[..|entries|] == entries;
  }

  /** What one turn of the loop does to the rows. */
  function AddRow(out: seq<Entry>, e: Entry, joins: bool): seq<Entry> {
    if joins && out != [] then out[|out| - 1 := e.(count := Some(CountOf(out[|out| - 1]) + 1))] else out + [e]
  }

  lemma {:induction false} Advance(entries: seq<Entry>, i: nat, out: seq<Entry>)
    requires i < |entries| && RowsOf(out, Runs(entries[..i]))
    ensures RowsOf(AddRow(out, entries[i], |out| > 0 && Joins(out[|out| - 1], entries[i])), Runs(entries[..i + 1]))
  {
    assert entries[..i + 1][..i] == entries[..i];
    var runs, joins := Runs(entries[..i]), i > 0 && Joins(entries[i - 1], entries[i]);
    SameJoin(entries, i, out);
    RowsGrow(out, runs, entries[i], joins);
  }

  /** The last row stands in for the last entry: it does the same at the same time. */
  lemma {:induction false} SameJoin(entries: seq<Entry>, i: nat, out: seq<Entry>)
    requires i < |entries| && RowsOf(out, Runs(entries[..i]))
    ensures i > 0 && Joins(entries[i - 1], entries[i]) <==> |out| > 0 && Joins(out[|out| - 1], entries[i])
  {
  }

  lemma {:induction false} RowsGrow(out: seq<Entry>, runs: seq<seq<Entry>>, e: Entry, joins: bool)
    requires RowsOf(out, runs)
    ensures RowsOf(AddRow(out, e, joins), AddRun(runs, e, joins))
  {
  }

  function LastIn(run: seq<Entry>): Entry
    requires run != []
  {
    run[|run| - 1]
  }

  // ---------------------------------------------------------------- the runs are maximal

  /** Each entry of the run joins the one before it. */
  ghost predicate IsRun(run: seq<Entry>) {
    run != [] && forall j :: 0 < j < |run| ==> Joins(run[j - 1], run[j])
  }

  /** The run before cannot be continued by this one. */
  ghost predicate Breaks(runs: seq<seq<Entry>>, i: nat)
    requires 0 < i < |runs|
  {
    runs[i - 1] != [] && runs[i] != [] && !Joins(LastIn(runs[i - 1]), runs[i][0])
  }

  /** The runs are the timeline, cut into pieces. */
  lemma {:induction false} RunsFlatten(entries: seq<Entry>)
    ensures Flatten(Runs(entries)) == entries
    decreases |entries|
  {
    if entries != [] {
      var n := |entries| - 1;
      var before, joins := Runs(entries[..n]), n > 0 && Joins(entries[n - 1], entries[n]);
      assert Runs(entries) == AddRun(before, entries[n], joins);
      RunsFlatten(entries[..n]);
      FlattenAdds(before, entries[n], joins);
      SplitLast(entries);
    }
  }

  lemma {:induction false} SplitLast(entries: seq<Entry>)
    requires entries != []
    ensures entries == entries[..|entries| - 1] + [entries[|entries| - 1]]
  {
  }

  lemma {:induction false} FlattenAdds(runs: seq<seq<Entry>>, e: Entry, joins: bool)
    ensures Flatten(AddRun(runs, e, joins)) == Flatten(runs) + [e]
  {
    var grown := AddRun(runs, e, joins);
    if joins && runs != [] {
      var m := |runs| - 1;
      assert grown[..m] == runs[..m];
      ConcatAssoc(Flatten(runs[..m]), runs[m], [e]);
    } else {
      assert grown[..|runs|] == runs;
    }
  }

  lemma {:induction false} RunsJoin(entries: seq<Entry>, i: nat)
    requires i < |Runs(entries)|
    ensures IsRun(Runs(entries)[i])
    decreases |entries|
  {
    var n := |entries| - 1;
    var before := Runs(entries[..n]);
    if i < |before| { RunsJoin(entries[..n], i); }
  }

  lemma {:induction false} RunsBreak(entries: seq<Entry>, i: nat)
    requires 0 < i < |Runs(entries)|
    ensures Breaks(Runs(entries), i)
    decreases |entries|
  {
    var n := |entries| - 1;
    var before := Runs(entries[..n]);
    if i < |before| { RunsBreak(entries[..n], i); }
  }

  // ---------------------------------------------------------------- counts agree

  function Total(entries: seq<Entry>): int {
    if entries == [] then 0 else Total(entries[..|entries| - 1]) + CountOf(entries[|entries| - 1])
  }

  ghost predicate Uncounted(entries: seq<Entry>) {
    forall e :: e in entries ==> CountOf(e) == 1
  }

  lemma {:induction false} TotalUncounted(entries: seq<Entry>)
    requires Uncounted(entries)
    ensures Total(entries) == |entries|
    decreases |entries|
  {
    if entries != [] {
      var n := |entries| - 1;
      assert forall e :: e in entries[..n] ==> e in entries;
      assert entries[n] in entries;
      TotalUncounted(entries[..n]);
    }
  }

  lemma {:induction false} TotalOfRows(rows: seq<Entry>, runs: seq<seq<Entry>>)
    requires RowsOf(rows, runs) && Uncounted(Flatten(runs))
    ensures Total(rows) == |Flatten(runs)|
    decreases |rows|
  {
    if rows != [] {
      var n := |rows| - 1;
      var a, b := Flatten(runs[..n]), runs[n];
      assert Flatten(runs) == a + b;
      assert Uncounted(a) by { assert forall e :: e in a ==> e in a + b; }
      TotalOfRows(rows[..n], runs[..n]);
      assert b[0] in a + b;
      assert CountOf(rows[n]) == |b|;
    }
  }

  /** When no entry carries a count yet, the rows count every entry exactly once. */
  lemma {:induction false} CountsAgree(entries: seq<Entry>, rows: seq<Entry>)
    requires RowsOf(rows, Runs(entries)) && Uncounted(entries)
    ensures Total(rows) == |entries| == Total(entries)
  {
    RunsFlatten(entries);
    TotalOfRows(rows, Runs(entries));
    TotalUncounted(entries);
  }

  // ---------------------------------------------------------------- what is never merged

  predicate StandsAlone(e: Entry) {
    e.kind.Comment? || NeverCoalesces(e)
  }

  function Alone(entries: seq<Entry>): seq<Entry> {
    if entries == [] then []
    else
      var n := |entries| - 1;
      Alone(entries[..n]) + if StandsAlone(entries[n]) then [entries[n]] else []
  }

  lemma {:induction false} AloneConcat(a: seq<Entry>, b: seq<Entry>)
    ensures Alone(a + b) == Alone(a) + Alone(b)
    decreases |b|
  {
    if b == [] {
      assert a + b == a && Alone(a) + [] == Alone(a);
    } else {
      var n := |b| - 1;
      assert (a + b)[..|a + b| - 1] == a + b[..n] && (a + b)[|a + b| - 1] == b[n];
      AloneConcat(a, b[..n]);
      ConcatAssoc(Alone(a), Alone(b[..n]), if StandsAlone(b[n]) then [b[n]] else []);
    }
  }

  /** A longer run holds neither comments nor evaluations, and neither does its row. */
  lemma {:induction false} AloneInRun(run: seq<Entry>)
    requires IsRun(run)
    ensures Alone(run) == Alone([RowOf(run)])
  {
    if |run| == 1 {
      assert run == [RowOf(run)];
    } else {
      forall j | 0 <= j < |run| ensures !StandsAlone(run[j]) {
        if j == 0 { assert Joins(run[0], run[1]); } else { assert Joins(run[j - 1], run[j]); }
      }
      NoneAlone(run);
      var row := RowOf(run);
      assert ActionText(row) == ActionText(run[|run| - 1]) && row.kind == run[|run| - 1].kind;
      assert [row][..0] == [];
    }
  }

  lemma {:induction false} NoneAlone(s: seq<Entry>)
    requires forall j :: 0 <= j < |s| ==> !StandsAlone(s[j])
    ensures Alone(s) == []
    decreases |s|
  {
    if s != [] { NoneAlone(s[..|s| - 1]); }
  }

  lemma {:induction false} AloneOfRows(rows: seq<Entry>, runs: seq<seq<Entry>>)
    requires RowsOf(rows, runs) && forall i :: 0 <= i < |runs| ==> IsRun(runs[i])
    ensures Alone(rows) == Alone(Flatten(runs))
    decreases |rows|
  {
    if rows != [] {
      var n := |rows| - 1;
      AloneOfRows(rows[..n], runs[..n]);
      assert IsRun(runs[n]) && rows[n] == RowOf(runs[n]);
      assert rows == rows[..n] + [rows[n]];
      AloneOfNext(rows[..n], Flatten(runs[..n]), runs[n], rows, Flatten(runs));
    }
  }

  lemma {:induction false} AloneOfNext(rows: seq<Entry>, entries: seq<Entry>, run: seq<Entry>, allRows: seq<Entry>,
                                       all: seq<Entry>)
    requires Alone(rows) == Alone(entries) && IsRun(run)
    requires allRows == rows + [RowOf(run)] && all == entries + run
    ensures Alone(allRows) == Alone(all)
  {
    AloneInRun(run);
    AloneConcat(rows, [RowOf(run)]);
    AloneConcat(entries, run);
  }

  /** Comments and squad-leader evaluations come through unchanged and in order. */
  lemma {:induction false} AlonePassThrough(entries: seq<Entry>, rows: seq<Entry>)
    requires RowsOf(rows, Runs(entries))
    ensures Alone(rows) == Alone(entries)
  {
    RunsFlatten(entries);
    forall i | 0 <= i < |Runs(entries)| ensures IsRun(Runs(entries)[i]) { RunsJoin(entries, i); }
    AloneOfRows(rows, Runs(entries));
  }

  // ---------------------------------------------------------------- a second pass

  ghost predicate Ascending(entries: seq<Entry>) {
    forall i, j :: 0 <= i <= j < |entries| ==> entries[i].createdAt <= entries[j].createdAt
  }

  /** In a run the first entry does what the last one does. */
  lemma {:induction false} RunIsUniform(run: seq<Entry>, k: nat)
    requires IsRun(run) && k < |run|
    ensures SameDoing(run[0], run[k]) && run[0].kind == run[k].kind
    ensures |run| > 1 ==> run[0].kind.Activity? && !NeverCoalesces(run[0])
    decreases k
  {
    if k > 0 { RunIsUniform(run, k - 1); assert Joins(run[k - 1], run[k]); }
    if |run| > 1 { assert Joins(run[0], run[1]); }
  }

  lemma {:induction false} FlattenFrom(runs: seq<seq<Entry>>, i: nat) returns (k: nat)
    requires i < |runs|
    ensures k + |runs[i]| <= |Flatten(runs)| && Flatten(runs)[k..k + |runs[i]|] == runs[i]
    decreases |runs|
  {
    var n := |runs| - 1;
    if i == n {
      k := |Flatten(runs[..n])|;
      assert Flatten(runs)[k..] == runs[n];
    } else {
      k := FlattenFrom(runs[..n], i);
      assert Flatten(runs)[..|Flatten(runs[..n])|] == Flatten(runs[..n]);
      assert Flatten(runs)[k..k + |runs[i]|] == Flatten(runs[..n])[k..k + |runs[i]|];
    }
  }

  /** On a timeline in order, no two neighbouring rows could still be merged. */
  lemma {:induction false} NothingLeftToMerge(entries: seq<Entry>, rows: seq<Entry>, i: nat)
    requires RowsOf(rows, Runs(entries)) && Ascending(entries) && 0 < i < |rows|
    ensures !Joins(rows[i - 1], rows[i])
  {
    RunsBreak(entries, i);
    RunEnds(entries, i);
    PrecedesRun(entries, i);
  }

  /** On a timeline in order, a run's last entry does what the first does, and is not older. */
  lemma {:induction false} RunEnds(entries: seq<Entry>, i: nat)
    requires Ascending(entries) && i < |Runs(entries)|
    ensures var run := Runs(entries)[i];
      && run != [] && SameDoing(run[0], LastIn(run)) && run[0].kind == LastIn(run).kind
      && run[0].createdAt <= LastIn(run).createdAt
      && (|run| > 1 ==> run[0].kind.Activity? && !NeverCoalesces(run[0]))
  {
    var run := Runs(entries)[i];
    RunsFlatten(entries);
    RunsJoin(entries, i);
    var k := FlattenFrom(Runs(entries), i);
    PartAscends(entries, k, run);
    RunIsUniform(run, |run| - 1);
  }

  lemma {:induction false} PartAscends(entries: seq<Entry>, k: nat, run: seq<Entry>)
    requires Ascending(entries) && run != [] && k + |run| <= |entries| && entries[k..k + |run|] == run
    ensures run[0].createdAt <= LastIn(run).createdAt
  {
    var m := |run| - 1;
    assert entries[k..k + |run|][0] == entries[k] && entries[k..k + |run|][m] == entries[k + m];
  }

  /** The last entry of a run is not younger than the first of the next. */
  lemma {:induction false} PrecedesRun(entries: seq<Entry>, i: nat)
    requires Ascending(entries) && 0 < i < |Runs(entries)|
    ensures Runs(entries)[i - 1] != [] && Runs(entries)[i] != []
    ensures LastIn(Runs(entries)[i - 1]).createdAt <= Runs(entries)[i][0].createdAt
  {
    var runs := Runs(entries);
    RunsFlatten(entries);
    RunsBreak(entries, i);
    FlattenNext(runs, i - 1);
    FlattenNext(runs, i);
    FlattenPrefix(runs, i + 1);
    LastThenFirst(entries, Flatten(runs[..i - 1]), runs[i - 1], runs[i]);
  }

  lemma {:induction false} FlattenNext(runs: seq<seq<Entry>>, i: nat)
    requires i < |runs|
    ensures Flatten(runs[..i + 1]) == Flatten(runs[..i]) + runs[i]
  {
    assert runs[..i + 1][..i] == runs[..i];
  }

  lemma {:induction false} LastThenFirst(entries: seq<Entry>, before: seq<Entry>, a: seq<Entry>, b: seq<Entry>)
    requires Ascending(entries) && a != [] && b != [] && (before + a) + b <= entries
    ensures LastIn(a).createdAt <= b[0].createdAt
  {
    var n := |before + a|;
    assert entries[n - 1] == ((before + a) + b)[n - 1] == LastIn(a) && entries[n] == ((before + a) + b)[n] == b[0];
  }

  lemma {:induction false} FlattenPrefix(runs: seq<seq<Entry>>, n: nat)
    requires n <= |runs|
    ensures Flatten(runs[..n]) <= Flatten(runs)
    decreases |runs|
  {
    if n < |runs| {
      assert runs[..|runs| - 1][..n] == runs[..n];
      FlattenPrefix(runs[..|runs| - 1], n);
    } else {
      assert runs[..n] == runs;
    }
  }

  lemma {:induction false} UnjoinedRuns(rows: seq<Entry>)
    requires forall i :: 0 < i < |rows| ==> !Joins(rows[i - 1], rows[i])
    ensures Runs(rows) == seq(|rows|, i requires 0 <= i < |rows| => [rows[i]])
    decreases |rows|
  {
    if rows != [] { UnjoinedRuns(rows[..|rows| - 1]); }
  }

  /** Coalescing twice is coalescing once. */
  lemma {:induction false} SecondPassIsIdentity(entries: seq<Entry>, rows: seq<Entry>, again: seq<Entry>)
    requires Ascending(entries) && RowsOf(rows, Runs(entries)) && RowsOf(again, Runs(rows))
    ensures again == rows
  {
    forall i | 0 < i < |rows| ensures !Joins(rows[i - 1], rows[i]) { NothingLeftToMerge(entries, rows, i); }
    UnjoinedRuns(rows);
    assert forall i :: 0 <= i < |rows| ==> Runs(rows)[i] == [rows[i]];
  }

  // ---------------------------------------------------------------- the rule, on the entries' fields

  /**
   * The entry goes into the row of the one before it exactly if both are activities with one action and actor, it
   * is no squad-leader evaluation, and they lie at most two minutes apart or a task has completed or failed. The
   * row then shows the new entry and counts one more; otherwise the entry gets a row of its own. Earlier rows stay.
   */
  lemma {:induction false} MergedIff(entries: seq<Entry>, i: nat, before: seq<Entry>, after: seq<Entry>)
    requires 0 < i < |entries| && RowsOf(before, Runs(entries[..i])) && RowsOf(after, Runs(entries[..i + 1]))
    ensures before != []
    ensures var prev, next, shown := entries[i - 1], entries[i], before[|before| - 1];
      if prev.kind == Activity && next.kind == Activity
        && prev.action == next.action && prev.actorType == next.actorType && prev.actorId == next.actorId
        && next.action != Some("squad_leader_evaluated")
        && (next.action == Some("task_completed") || next.action == Some("task_failed")
            || -120000 <= next.createdAt - prev.createdAt <= 120000)
      then after == before[..|before| - 1] + [next.(count := Some(1 + if shown.count.Some? then shown.count.value else 1))]
      else after == before + [next]
  {
    var joins := Joins(entries[i - 1], entries[i]);
    Advance(entries, i, before);
    SameJoin(entries, i, before);
    SameRows(after, AddRow(before, entries[i], joins), Runs(entries[..i + 1]));
    assert entries[..i][..i - 1] == entries[..i - 1];
  }

  lemma {:induction false} SameRows(a: seq<Entry>, b: seq<Entry>, runs: seq<seq<Entry>>)
    requires RowsOf(a, runs) && RowsOf(b, runs)
    ensures a == b
  {
  }
}
