/** Cumulative counters to daily counts: `grouped_diff(data, keys)` groups the
    records by every key but the last (the date), orders each group by date
    and replaces each value by its difference from the previous record of
    the group; the first record of a group keeps its value. */
module Cumulative {
  import opened Frames

  // ---------------------------------------------------------------------------
  // Series

  /** Day-over-day differences of a cumulative series; the first day keeps its value. */
  function Deltas(s: seq<int>): (d: seq<int>)
    ensures |d| == |s|
  {
    seq(|s|, i requires 0 <= i < |s| => if i == 0 then s[0] else s[i] - s[i - 1])
  }

  /** The running totals of a series of daily values. */
  function RunningTotals(d: seq<int>): (t: seq<int>)
    ensures |t| == |d|
    decreases |d|
  {
    if d == [] then []
    else
      var init := RunningTotals(d[..|d| - 1]);
      init + [(if init == [] then 0 else init[|init| - 1]) + d[|d| - 1]]
  }

  /** Re-accumulating the differences reproduces the cumulative series. */
  lemma {:induction false} RunningTotalsOfDeltas(s: seq<int>)
    ensures RunningTotals(Deltas(s)) == s
    decreases |s|
  {
    if s != [] {
      var n := |s| - 1;
      assert Deltas(s)[..n] == Deltas(s[..n]);
      RunningTotalsOfDeltas(s[..n]);
      assert s == s[..n] + [s[n]];
    }
  }

  /** Differencing the running totals reproduces the daily series. */
  lemma {:induction false} DeltasOfRunningTotals(d: seq<int>)
    ensures Deltas(RunningTotals(d)) == d
    decreases |d|
  {
    if d != [] {
      var n := |d| - 1;
      DeltasOfRunningTotals(d[..n]);
      var t := RunningTotals(d);
      assert t[..n] == RunningTotals(d[..n]);
      forall i | 0 <= i < |d| ensures Deltas(t)[i] == d[i] {
        if i < n {
          assert Deltas(t)[i] == Deltas(t[..n])[i];
          assert d[..n][i] == d[i];
        }
      }
    }
  }

  /** Cumulative counts [10, 15, 15, 20] differ to the daily counts
      [10, 5, 0, 5], whose running totals give the cumulative counts back. */
  lemma DeltasExample()
    ensures Deltas([10, 15, 15, 20]) == [10, 5, 0, 5]
    ensures RunningTotals([10, 5, 0, 5]) == [10, 15, 15, 20]
  {
    RunningTotalsOfDeltas([10, 15, 15, 20]);
  }

  // ---------------------------------------------------------------------------
  // Ordering of ISO dates

  /** Lexicographic order of strings, as Python compares them. */
  predicate LexLess(a: string, b: string)
    decreases |a|
  {
    |b| > 0 && (|a| == 0 || a[0] < b[0] || (a[0] == b[0] && LexLess(a[1..], b[1..])))
  }

  lemma {:induction false} LexLessIrreflexive(a: string)
    ensures !LexLess(a, a)
    decreases |a|
  {
    if |a| > 0 { LexLessIrreflexive(a[1..]); }
  }

  lemma {:induction false} LexLessTransitive(a: string, b: string, c: string)
    requires LexLess(a, b) && LexLess(b, c)
    ensures LexLess(a, c)
    decreases |a|
  {
    if |a| > 0 && a[0] == b[0] && b[0] == c[0] {
      LexLessTransitive(a[1..], b[1..], c[1..]);
    }
  }

  lemma {:induction false} LexLessAsymmetric(a: string, b: string)
    requires LexLess(a, b)
    ensures !LexLess(b, a)
    decreases |a|
  {
    if |a| > 0 && a[0] == b[0] {
      LexLessAsymmetric(a[1..], b[1..]);
    }
  }

  /** Transitivity read backwards: nothing after `a` lies before `p` when `p < a`. */
  lemma {:induction false} LexLessNotPast(p: string, a: string, q: string)
    requires LexLess(p, a) && !LexLess(p, q)
    ensures !LexLess(a, q)
    decreases |p|
  {
    if |q| > 0 && |p| > 0 && p[0] == a[0] && a[0] == q[0] {
      LexLessNotPast(p[1..], a[1..], q[1..]);
    }
  }

  // ---------------------------------------------------------------------------
  // Grouped differencing over records

  /** The date of a record, when it has a textual one. */
  predicate Dated(r: Row)
  {
    "date" in r && r["date"].Text?
  }

  /** `a` comes strictly before `b` in date order. */
  predicate Earlier(a: Row, b: Row)
  {
    Dated(a) && Dated(b) && LexLess(a["date"].text, b["date"].text)
  }

  /** `a` and `b` agree on every grouping column, missing or not. */
  predicate SameGroup(a: Row, b: Row, groupCols: seq<string>)
  {
    forall c :: c in groupCols ==> (c in a <==> c in b) && (c in a ==> a[c] == b[c])
  }

  /** `a` lies in the same group as `x` and strictly before it. */
  predicate Candidate(a: Row, x: Row, groupCols: seq<string>)
  {
    SameGroup(a, x, groupCols) && Earlier(a, x)
  }

  /** A candidate later than the latest one so far is later than all of them. */
  lemma NewLatest(rows: seq<Row>, groupCols: seq<string>, x: Row, n: nat, b: nat)
    requires n < |rows| && b < n
    requires Earlier(rows[b], rows[n])
    requires forall j :: 0 <= j < n && Candidate(rows[j], x, groupCols) ==> !Earlier(rows[b], rows[j])
    ensures forall j :: 0 <= j < n && Candidate(rows[j], x, groupCols) ==> !Earlier(rows[n], rows[j])
  {
    forall j | 0 <= j < n && Candidate(rows[j], x, groupCols) ensures !Earlier(rows[n], rows[j]) {
      LexLessNotPast(rows[b]["date"].text, rows[n]["date"].text, rows[j]["date"].text);
    }
  }

  /** Among `rows[..n]`, the latest record of `x`'s group before `x`. */
  function LatestBefore(rows: seq<Row>, groupCols: seq<string>, x: Row, n: nat): (res: Option<nat>)
    requires n <= |rows|
    ensures res.Some? ==> res.value < n && Candidate(rows[res.value], x, groupCols)
    ensures res.Some? ==> forall j :: 0 <= j < n && Candidate(rows[j], x, groupCols) ==> !Earlier(rows[res.value], rows[j])
    ensures res.None? ==> forall j :: 0 <= j < n ==> !Candidate(rows[j], x, groupCols)
  {
    if n == 0 then None
    else
      var best := LatestBefore(rows, groupCols, x, n - 1);
      var a := rows[n - 1];
      if !Candidate(a, x, groupCols) then best
      else if best.None? then
        LexLessIrreflexive(a["date"].text);
        Some(n - 1)
      else if Earlier(rows[best.value], a) then
        NewLatest(rows, groupCols, x, n - 1, best.value);
        LexLessIrreflexive(a["date"].text);
        Some(n - 1)
      else
        best
  }

  /** A value minus the value before it. */
  function Minus(a: Value, b: Value): Value
  {
    if a.Num? && b.Num? then Num(a.num - b.num) else a
  }

  /** One record of `grouped_diff`: each value column holds its difference
      from the previous record of the group in date order, or its own value
      when there is none; when the previous record lacks the value the
      difference is missing. */
  function DiffRecord(rows: seq<Row>, groupCols: seq<string>, values: seq<string>, i: nat): Row
    requires i < |rows|
  {
    var r := rows[i];
    match LatestBefore(rows, groupCols, r, |rows|)
    case None => r
    case Some(j) =>
      map c | c in r && (c !in values || c in rows[j]) :: if c in values then Minus(r[c], rows[j][c]) else r[c]
  }

  /** `grouped_diff(data, groupCols + ["date"])` over the columns `values`. */
  function GroupedDiff(rows: seq<Row>, groupCols: seq<string>, values: seq<string>): (out: seq<Row>)
    ensures |out| == |rows|
  {
    seq(|rows|, i requires 0 <= i < |rows| => DiffRecord(rows, groupCols, values, i))
  }

  /** Differences never cross groups: each differenced value is the record's
      own value, when no earlier record of its group exists, or its value
      minus that of the latest earlier record of the same group; other
      columns are untouched. */
  lemma DiffWithinGroup(rows: seq<Row>, groupCols: seq<string>, values: seq<string>, i: nat, c: string)
    requires i < |rows|
    ensures var out := GroupedDiff(rows, groupCols, values)[i];
      && (c !in values ==> (c in out <==> c in rows[i]) && (c in out ==> out[c] == rows[i][c]))
      && (c in values && c in out ==>
            c in rows[i] &&
            ((out[c] == rows[i][c] && forall j :: 0 <= j < |rows| ==> !Candidate(rows[j], rows[i], groupCols)) ||
             (exists j :: 0 <= j < |rows| && Candidate(rows[j], rows[i], groupCols) && c in rows[j] &&
                out[c] == Minus(rows[i][c], rows[j][c]) &&
                forall j' :: 0 <= j' < |rows| && Candidate(rows[j'], rows[i], groupCols) ==> !Earlier(rows[j], rows[j']))))
  {
    var res := LatestBefore(rows, groupCols, rows[i], |rows|);
    if res.Some? {
      var j := res.value;
      var out := GroupedDiff(rows, groupCols, values)[i];
      if c in values && c in out {
        assert Candidate(rows[j], rows[i], groupCols) && c in rows[j] && out[c] == Minus(rows[i][c], rows[j][c]);
      }
    }
  }

  /** The positions `idx` list a whole group in strictly increasing date order. */
  predicate GroupInOrder(rows: seq<Row>, groupCols: seq<string>, idx: seq<nat>)
  {
    && |idx| > 0 && idx[0] < |rows|
    && (forall k :: 0 <= k < |idx| ==>
          (idx[k] < |rows| && Dated(rows[idx[k]]) && SameGroup(rows[idx[k]], rows[idx[0]], groupCols)))
    && (forall k :: 0 < k < |idx| ==> Earlier(rows[idx[k - 1]], rows[idx[k]]))
    && (forall j ::
          (0 <= j < |rows| && Dated(rows[j]) && SameGroup(rows[j], rows[idx[0]], groupCols)) ==> j in idx)
  }

  lemma {:induction false} InOrderEarlier(rows: seq<Row>, groupCols: seq<string>, idx: seq<nat>, m: nat, k: nat)
    requires GroupInOrder(rows, groupCols, idx)
    requires k < |idx|
    ensures m < k ==> Earlier(rows[idx[m]], rows[idx[k]])
    decreases k
  {
    if m + 1 < k {
      InOrderEarlier(rows, groupCols, idx, m, k - 1);
      LexLessTransitive(rows[idx[m]]["date"].text, rows[idx[k - 1]]["date"].text, rows[idx[k]]["date"].text);
    }
  }

  /** In a group listed in date order, a record earlier than the one at
      position `k` sits before position `k`. */
  lemma EarlierSitsBefore(rows: seq<Row>, groupCols: seq<string>, idx: seq<nat>, m: nat, k: nat)
    requires GroupInOrder(rows, groupCols, idx)
    requires m < |idx| && k < |idx|
    ensures Earlier(rows[idx[m]], rows[idx[k]]) ==> m < k
  {
    if m == k {
      LexLessIrreflexive(rows[idx[k]]["date"].text);
    } else if k < m {
      InOrderEarlier(rows, groupCols, idx, k, m);
      LexLessAsymmetric(rows[idx[k]]["date"].text, rows[idx[m]]["date"].text);
    }
  }

  /** In a group listed in date order, every candidate for the record at
      position `k` is listed before it. */
  lemma CandidateListedBefore(rows: seq<Row>, groupCols: seq<string>, idx: seq<nat>, k: nat, j: nat)
    requires GroupInOrder(rows, groupCols, idx)
    requires k < |idx| && j < |rows| && Candidate(rows[j], rows[idx[k]], groupCols)
    ensures exists m :: 0 <= m < k && idx[m] == j
  {
    assert j in idx;
    var m :| 0 <= m < |idx| && idx[m] == j;
    EarlierSitsBefore(rows, groupCols, idx, m, k);
  }

  /** In a group listed in date order, the record before position `k` is
      the one at position `k - 1`, and the first has none. */
  lemma PreviousInOrder(rows: seq<Row>, groupCols: seq<string>, idx: seq<nat>, k: nat)
    requires GroupInOrder(rows, groupCols, idx)
    requires k < |idx|
    ensures LatestBefore(rows, groupCols, rows[idx[k]], |rows|) == if k == 0 then None else Some(idx[k - 1])
  {
    var x := rows[idx[k]];
    var res := LatestBefore(rows, groupCols, x, |rows|);
    if res.Some? {
      CandidateListedBefore(rows, groupCols, idx, k, res.value);
      var m :| 0 <= m < k && idx[m] == res.value;
      InOrderEarlier(rows, groupCols, idx, k - 1, k);
      assert Candidate(rows[idx[k - 1]], x, groupCols);
      InOrderEarlier(rows, groupCols, idx, m, k - 1);
    } else if k > 0 {
      InOrderEarlier(rows, groupCols, idx, k - 1, k);
      assert Candidate(rows[idx[k - 1]], x, groupCols);
    }
  }

  /** The values of column `v` at the positions `idx`. */
  function Series(rows: seq<Row>, idx: seq<nat>, v: string): seq<int>
    requires forall k :: 0 <= k < |idx| ==> idx[k] < |rows| && v in rows[idx[k]] && rows[idx[k]][v].Num?
  {
    seq(|idx|, k requires 0 <= k < |idx| => rows[idx[k]][v].num)
  }

  /** At position `k` of a group listed in date order, the differenced
      value is the `k`-th day-over-day difference of the group's series. */
  lemma DiffInOrder(rows: seq<Row>, groupCols: seq<string>, values: seq<string>, idx: seq<nat>, v: string, k: nat)
    requires GroupInOrder(rows, groupCols, idx)
    requires v in values && k < |idx|
    requires forall k :: 0 <= k < |idx| ==> v in rows[idx[k]] && rows[idx[k]][v].Num?
    ensures var r := DiffRecord(rows, groupCols, values, idx[k]);
      v in r && r[v] == Num(Deltas(Series(rows, idx, v))[k])
  {
    PreviousInOrder(rows, groupCols, idx, k);
  }

  /** Within a group listed in date order whose records all carry the value,
      the differenced series is the series' day-over-day differences, and
      re-accumulating it in date order reproduces the cumulative values. */
  lemma GroupedDiffRoundTrip(rows: seq<Row>, groupCols: seq<string>, values: seq<string>, idx: seq<nat>, v: string)
    requires GroupInOrder(rows, groupCols, idx)
    requires v in values
    requires forall k :: 0 <= k < |idx| ==> v in rows[idx[k]] && rows[idx[k]][v].Num?
    ensures var out := GroupedDiff(rows, groupCols, values);
      && (forall k :: 0 <= k < |idx| ==> v in out[idx[k]] && out[idx[k]][v].Num?)
      && Series(out, idx, v) == Deltas(Series(rows, idx, v))
      && RunningTotals(Series(out, idx, v)) == Series(rows, idx, v)
  {
    var out: seq<Row> := GroupedDiff(rows, groupCols, values);
    var d := Deltas(Series(rows, idx, v));
    forall k | 0 <= k < |idx|
      ensures v in out[idx[k]] && out[idx[k]][v] == Num(d[k])
    {
      DiffInOrder(rows, groupCols, values, idx, v, k);
    }
    assert Series(out, idx, v) == d;
    RunningTotalsOfDeltas(Series(rows, idx, v));
  }
}
