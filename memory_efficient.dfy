/** The row-table operations of the memory-efficient table library as its
    tests pin them down: the cross product of two CSV tables, the join of two
    tables ("inner", or "outer", which behaves as a pandas left merge) and
    the latest row of every key. Each operation writes its output rows one
    by one into a file; here it appends them to the sequence it returns. */
module MemoryEfficient {
  import opened Frames

  // ---------------------------------------------------------------------------
  // table_cross_product

  /** A CSV table: its header and its lines, each a list of cells. */
  datatype Csv = Csv(header: seq<string>, lines: seq<seq<string>>)

  /** One block per left line: that line followed by each right line in turn. */
  function PairBlocks(left: seq<seq<string>>, right: seq<seq<string>>): (bs: seq<seq<seq<string>>>)
    ensures |bs| == |left| && forall i :: 0 <= i < |bs| ==> |bs[i]| == |right|
  {
    seq(|left|, i requires 0 <= i < |left| =>
      seq(|right|, j requires 0 <= j < |right| => left[i] + right[j]))
  }

  /** The lines the cross product is expected to hold, left-major. */
  function CrossLines(left: seq<seq<string>>, right: seq<seq<string>>): seq<seq<string>>
  {
    Concat(PairBlocks(left, right))
  }

  /** The cross product has one line per pair of a left line and a right
      line, `|left| * |right|` of them; the pair (i, j) sits at position
      `i * |right| + j` and is the left line followed by the right line. */
  lemma CrossLinesAt(left: seq<seq<string>>, right: seq<seq<string>>, i: nat, j: nat)
    requires i < |left| && j < |right|
    ensures |CrossLines(left, right)| == |left| * |right|
    ensures i * |right| + j < |CrossLines(left, right)|
    ensures CrossLines(left, right)[i * |right| + j] == left[i] + right[j]
  {
    ConcatAt(PairBlocks(left, right), |right|, i, j);
  }

  /** The cross product of any two tables, empty ones included, has
      `|left| * |right|` lines. */
  lemma CrossLinesLength(left: seq<seq<string>>, right: seq<seq<string>>)
    ensures |CrossLines(left, right)| == |left| * |right|
  {
    ConcatLength(PairBlocks(left, right), |right|);
  }

  /** `table_cross_product(left, right, output)`: the header is the left
      header followed by the right one; for each left line, in order, one
      line per right line, in order. */
  method CrossProduct(left: Csv, right: Csv) returns (out: Csv)
    ensures out.header == left.header + right.header
    ensures out.lines == CrossLines(left.lines, right.lines)
  {
    var lines: seq<seq<string>> := [];
    ghost var bs := PairBlocks(left.lines, right.lines);
    for i := 0 to |left.lines|
      invariant lines == Concat(bs[..i])
    {
      for j := 0 to |right.lines|
        invariant lines == Concat(bs[..i]) + bs[i][..j]
      {
        lines := lines + [left.lines[i] + right.lines[j]];
      }
      assert bs[..i + 1][..i] == bs[..i];
      assert bs[i][..|right.lines|] == bs[i];
    }
    assert bs[..|left.lines|] == bs;
    out := Csv(left.header + right.header, lines);
  }

  /** The two tables of the cross-product test. */
  const CrossLeft: seq<seq<string>> := [["a", "1"], ["b", "2"], ["c", "3"], ["d", "4"]]
  const CrossRight: seq<seq<string>> := [["1", "a"], ["2", "b"], ["3", "c"], ["4", "d"]]

  /** The expected lines that start with the first two left lines. */
  lemma CrossExampleFirstHalf()
    ensures |CrossLines(CrossLeft, CrossRight)| == 16
    ensures CrossLines(CrossLeft, CrossRight)[0] == ["a", "1", "1", "a"]
    ensures CrossLines(CrossLeft, CrossRight)[1] == ["a", "1", "2", "b"]
    ensures CrossLines(CrossLeft, CrossRight)[2] == ["a", "1", "3", "c"]
    ensures CrossLines(CrossLeft, CrossRight)[3] == ["a", "1", "4", "d"]
    ensures CrossLines(CrossLeft, CrossRight)[4] == ["b", "2", "1", "a"]
    ensures CrossLines(CrossLeft, CrossRight)[5] == ["b", "2", "2", "b"]
    ensures CrossLines(CrossLeft, CrossRight)[6] == ["b", "2", "3", "c"]
    ensures CrossLines(CrossLeft, CrossRight)[7] == ["b", "2", "4", "d"]
  {
    CrossLinesLength(CrossLeft, CrossRight);
    assert CrossLines(CrossLeft, CrossRight)[0] == ["a", "1", "1", "a"] by { CrossLinesAt(CrossLeft, CrossRight, 0, 0); }
    assert CrossLines(CrossLeft, CrossRight)[1] == ["a", "1", "2", "b"] by { CrossLinesAt(CrossLeft, CrossRight, 0, 1); }
    assert CrossLines(CrossLeft, CrossRight)[2] == ["a", "1", "3", "c"] by { CrossLinesAt(CrossLeft, CrossRight, 0, 2); }
    assert CrossLines(CrossLeft, CrossRight)[3] == ["a", "1", "4", "d"] by { CrossLinesAt(CrossLeft, CrossRight, 0, 3); }
    assert CrossLines(CrossLeft, CrossRight)[4] == ["b", "2", "1", "a"] by { CrossLinesAt(CrossLeft, CrossRight, 1, 0); }
    assert CrossLines(CrossLeft, CrossRight)[5] == ["b", "2", "2", "b"] by { CrossLinesAt(CrossLeft, CrossRight, 1, 1); }
    assert CrossLines(CrossLeft, CrossRight)[6] == ["b", "2", "3", "c"] by { CrossLinesAt(CrossLeft, CrossRight, 1, 2); }
    assert CrossLines(CrossLeft, CrossRight)[7] == ["b", "2", "4", "d"] by { CrossLinesAt(CrossLeft, CrossRight, 1, 3); }
  }

  /** The expected lines that start with the last two left lines. */
  lemma CrossExampleSecondHalf()
    ensures |CrossLines(CrossLeft, CrossRight)| == 16
    ensures CrossLines(CrossLeft, CrossRight)[8] == ["c", "3", "1", "a"]
    ensures CrossLines(CrossLeft, CrossRight)[9] == ["c", "3", "2", "b"]
    ensures CrossLines(CrossLeft, CrossRight)[10] == ["c", "3", "3", "c"]
    ensures CrossLines(CrossLeft, CrossRight)[11] == ["c", "3", "4", "d"]
    ensures CrossLines(CrossLeft, CrossRight)[12] == ["d", "4", "1", "a"]
    ensures CrossLines(CrossLeft, CrossRight)[13] == ["d", "4", "2", "b"]
    ensures CrossLines(CrossLeft, CrossRight)[14] == ["d", "4", "3", "c"]
    ensures CrossLines(CrossLeft, CrossRight)[15] == ["d", "4", "4", "d"]
  {
    CrossLinesLength(CrossLeft, CrossRight);
    assert CrossLines(CrossLeft, CrossRight)[8] == ["c", "3", "1", "a"] by { CrossLinesAt(CrossLeft, CrossRight, 2, 0); }
    assert CrossLines(CrossLeft, CrossRight)[9] == ["c", "3", "2", "b"] by { CrossLinesAt(CrossLeft, CrossRight, 2, 1); }
    assert CrossLines(CrossLeft, CrossRight)[10] == ["c", "3", "3", "c"] by { CrossLinesAt(CrossLeft, CrossRight, 2, 2); }
    assert CrossLines(CrossLeft, CrossRight)[11] == ["c", "3", "4", "d"] by { CrossLinesAt(CrossLeft, CrossRight, 2, 3); }
    assert CrossLines(CrossLeft, CrossRight)[12] == ["d", "4", "1", "a"] by { CrossLinesAt(CrossLeft, CrossRight, 3, 0); }
    assert CrossLines(CrossLeft, CrossRight)[13] == ["d", "4", "2", "b"] by { CrossLinesAt(CrossLeft, CrossRight, 3, 1); }
    assert CrossLines(CrossLeft, CrossRight)[14] == ["d", "4", "3", "c"] by { CrossLinesAt(CrossLeft, CrossRight, 3, 2); }
    assert CrossLines(CrossLeft, CrossRight)[15] == ["d", "4", "4", "d"] by { CrossLinesAt(CrossLeft, CrossRight, 3, 3); }
  }

  /** All sixteen lines of the cross-product test's expected output, in
      order: each left line followed by each right line. */
  lemma CrossProductExample()
    ensures var lines := CrossLines(CrossLeft, CrossRight);
      && |lines| == 16
      && lines[0] == ["a", "1", "1", "a"]
      && lines[1] == ["a", "1", "2", "b"]
      && lines[2] == ["a", "1", "3", "c"]
      && lines[3] == ["a", "1", "4", "d"]
      && lines[4] == ["b", "2", "1", "a"]
      && lines[5] == ["b", "2", "2", "b"]
      && lines[6] == ["b", "2", "3", "c"]
      && lines[7] == ["b", "2", "4", "d"]
      && lines[8] == ["c", "3", "1", "a"]
      && lines[9] == ["c", "3", "2", "b"]
      && lines[10] == ["c", "3", "3", "c"]
      && lines[11] == ["c", "3", "4", "d"]
      && lines[12] == ["d", "4", "1", "a"]
      && lines[13] == ["d", "4", "2", "b"]
      && lines[14] == ["d", "4", "3", "c"]
      && lines[15] == ["d", "4", "4", "d"]
  {
    CrossExampleFirstHalf();
    CrossExampleSecondHalf();
  }

  // ---------------------------------------------------------------------------
  // table_join

  /** The `how` argument of `table_join`, as the tests use it. */
  datatype JoinHow = InnerJoin | OuterJoin

  /** The pandas merge the tests compare a join with: "outer" is compared
      with a left merge, "inner" with an inner one. */
  function ReferenceHow(how: JoinHow): (h: How)
    ensures h == Inner <==> how == InnerJoin
    ensures h == Left <==> how == OuterJoin
  {
    match how
    case InnerJoin => Inner
    case OuterJoin => Left
  }

  /** `l` widened by one more partner adds one row at the end. */
  lemma WidenSnoc(l: Row, ps: seq<Row>, r: Row)
    ensures Widen(l, ps + [r]) == Widen(l, ps) + [l + r]
  {
  }

  /** The rows the join writes for one left row: the row widened by each
      right row that agrees with it, in right order; under "outer", the row
      on its own when none does. */
  method JoinRow(l: Row, right: seq<Row>, on: seq<string>, keep: bool) returns (made: seq<Row>)
    ensures made == MadeOf(l, right, on, keep)
  {
    made := [];
    var found := false;
    for j := 0 to |right|
      invariant found <==> Partners(l, right[..j], on) != []
      invariant made == Widen(l, Partners(l, right[..j], on))
    {
      PartnersSnoc(l, right, on, j);
      if Agree(l, right[j], on) {
        WidenSnoc(l, Partners(l, right[..j], on), right[j]);
        made := made + [l + right[j]];
        found := true;
      }
    }
    assert right[..|right|] == right;
    if !found && keep {
      made := [l];
    }
  }

  /** `table_join(left, right, on, output, how=how)`: for each left row in
      order, the rows that row makes; "outer" keeps a left row without a
      partner. */
  method TableJoin(left: seq<Row>, right: seq<Row>, on: seq<string>, how: JoinHow) returns (out: seq<Row>)
    ensures out == Merge(left, right, on, ReferenceHow(how))
  {
    var keep := how == OuterJoin;
    out := [];
    for i := 0 to |left|
      invariant out == MergeLeftward(left[..i], right, on, keep)
    {
      var made := JoinRow(left[i], right, on, keep);
      out := out + made;
      MergeLeftwardAppend(left[..i], [left[i]], right, on, keep);
      assert left[..i + 1] == left[..i] + [left[i]];
    }
    assert left[..|left|] == left;
  }

  /** The inner join holds exactly the pairs of a left row and a right row
      that agree on the join columns, each as the left row widened by the
      right one. */
  lemma InnerJoinPairs(left: seq<Row>, right: seq<Row>, on: seq<string>, o: Row)
    ensures o in Merge(left, right, on, ReferenceHow(InnerJoin)) <==>
      exists l, r :: l in left && r in right && Agree(l, r, on) && o == l + r
  {
    MergeLeftwardMembers(left, right, on, false, o);
  }

  /** The "outer" join keeps every left row, widened by each partner or on
      its own when it has none, has at least one row per left row, and
      writes nothing that does not come from a left row. */
  lemma OuterJoinKeepsLeft(left: seq<Row>, right: seq<Row>, on: seq<string>)
    ensures var out := Merge(left, right, on, ReferenceHow(OuterJoin));
      && |out| >= |left|
      && (forall l :: l in left ==> exists o :: o in out && MadeFrom(o, l, right, on, true))
      && (forall o :: o in out ==> exists l :: l in left && MadeFrom(o, l, right, on, true))
  {
    var out := Merge(left, right, on, Left);
    MergeLeftwardCount(left, right, on, true);
    forall l | l in left
      ensures exists o :: o in out && MadeFrom(o, l, right, on, true)
    {
      if HasPartner(l, right, on) {
        var r :| r in right && Agree(l, r, on);
        MergeLeftwardComplete(left, right, on, true, l, l + r);
      } else {
        MergeLeftwardComplete(left, right, on, true, l, l);
      }
    }
    forall o | o in out
      ensures exists l :: l in left && MadeFrom(o, l, right, on, true)
    {
      MergeLeftwardSound(left, right, on, true, o);
    }
  }

  /** "outer" is not a full outer join: a right row without a partner is
      dropped, where a full outer merge would keep it. */
  lemma OuterJoinIsNotFullOuter()
    ensures var left := [map["key" := Text("a")]];
      var right := [map["key" := Text("b")]];
      && Merge(left, right, ["key"], ReferenceHow(OuterJoin)) == left
      && |Merge(left, right, ["key"], Outer)| == 2
  {
    var left := [map["key" := Text("a")]];
    var right := [map["key" := Text("b")]];
    assert Project(left[0], ["key"])["key"] == Text("a");
    assert Project(right[0], ["key"])["key"] == Text("b");
    assert !Agree(left[0], right[0], ["key"]);
    assert Partners(left[0], right, ["key"]) == [];
    assert Partners(right[0], left, ["key"]) == [];
    assert !HasPartner(right[0], left, ["key"]);
    assert MergeLeftward(left[1..], right, ["key"], true) == [];
  }

  /** The join columns the test passes for a pair of tables: `["key", "date"]`
      when both have a date, `["key"]` when the right one has none; a left
      table without a date is never joined with a dated right table. */
  function TestedJoinColumns(leftColumns: seq<string>, rightColumns: seq<string>): (on: Option<seq<string>>)
    ensures on == Some(["key", "date"]) <==> "date" in leftColumns && "date" in rightColumns
    ensures on == Some(["key"]) <==> "date" !in rightColumns
    ensures on == None <==> "date" !in leftColumns && "date" in rightColumns
  {
    if "date" !in rightColumns then Some(["key"])
    else if "date" in leftColumns then Some(["key", "date"])
    else None
  }

  /** The tested join columns are shared by both tables when both have a key. */
  lemma TestedJoinColumnsShared(leftColumns: seq<string>, rightColumns: seq<string>)
    requires "key" in leftColumns && "key" in rightColumns
    ensures var on := TestedJoinColumns(leftColumns, rightColumns);
      on.Some? ==> forall c :: c in on.value ==> c in leftColumns && c in rightColumns
  {
  }

  // ---------------------------------------------------------------------------
  // table_group_tail

  /** A row the latest slice can keep: it has a key and, when the table has
      a `total_confirmed` column, a value there (the rows
      `dropna(subset=["total_confirmed"])` keeps, without those `groupby`
      drops for a missing key). */
  predicate Eligible(header: seq<string>, r: Row)
  {
    "key" in r && ("total_confirmed" in header ==> "total_confirmed" in r)
  }

  /** True when row `i` is the last eligible row of its key: what
      `groupby(["key"]).tail(1)` keeps. */
  predicate IsTail(header: seq<string>, rows: seq<Row>, i: int)
    requires 0 <= i < |rows|
  {
    Eligible(header, rows[i]) &&
    forall j :: i < j < |rows| && Eligible(header, rows[j]) ==> rows[j]["key"] != rows[i]["key"]
  }

  /** The positions among the first `n` that the latest slice keeps: in
      increasing order, each the last eligible row of its key, and all of them. */
  function TailPositions(header: seq<string>, rows: seq<Row>, n: nat): (ps: seq<nat>)
    requires n <= |rows|
    ensures forall k :: 0 <= k < |ps| ==> ps[k] < n && IsTail(header, rows, ps[k])
    ensures forall k, k' :: 0 <= k < k' < |ps| ==> ps[k] < ps[k']
    ensures forall i :: 0 <= i < n && IsTail(header, rows, i) ==> i in ps
  {
    if n == 0 then []
    else TailPositions(header, rows, n - 1) + (if IsTail(header, rows, n - 1) then [n - 1] else [])
  }

  /** The rows at the positions. */
  function Pick(rows: seq<Row>, ps: seq<nat>): (out: seq<Row>)
    requires forall k :: 0 <= k < |ps| ==> ps[k] < |rows|
    ensures |out| == |ps|
  {
    seq(|ps|, k requires 0 <= k < |ps| => rows[ps[k]])
  }

  /** The test's reference: after `dropna(subset=["total_confirmed"])` when
      the column exists, `groupby(["key"]).tail(1)`, rows in input order. */
  function LatestSlice(header: seq<string>, rows: seq<Row>): seq<Row>
  {
    Pick(rows, TailPositions(header, rows, |rows|))
  }

  /** The latest slice has exactly one row per key among the eligible rows:
      each of its rows is eligible, no two share a key, and every eligible
      row's key has one. */
  lemma LatestSliceOnePerKey(header: seq<string>, rows: seq<Row>)
    ensures var out := LatestSlice(header, rows);
      && (forall k :: 0 <= k < |out| ==> Eligible(header, out[k]))
      && (forall k, k' :: 0 <= k < k' < |out| ==> out[k]["key"] != out[k']["key"])
      && (forall i :: 0 <= i < |rows| && Eligible(header, rows[i]) ==>
            exists k :: 0 <= k < |out| && out[k]["key"] == rows[i]["key"])
  {
    var ps := TailPositions(header, rows, |rows|);
    var out := LatestSlice(header, rows);
    forall i | 0 <= i < |rows| && Eligible(header, rows[i])
      ensures exists k :: 0 <= k < |out| && out[k]["key"] == rows[i]["key"]
    {
      var j := LastOfKey(header, rows, i);
      assert j in ps;
      var k :| 0 <= k < |ps| && ps[k] == j;
      assert out[k] == rows[j];
    }
  }

  /** Every eligible row has a last eligible row of its key at or after it. */
  lemma LastOfKey(header: seq<string>, rows: seq<Row>, i: nat) returns (j: nat)
    requires i < |rows| && Eligible(header, rows[i])
    ensures i <= j < |rows| && IsTail(header, rows, j) && rows[j]["key"] == rows[i]["key"]
    decreases |rows| - i
  {
    if IsTail(header, rows, i) {
      j := i;
    } else {
      var later :| i < later < |rows| && Eligible(header, rows[later]) && rows[later]["key"] == rows[i]["key"];
      j := LastOfKey(header, rows, later);
    }
  }

  /** The latest slice keeps its rows in input order: row `k` of the slice
      is the row at position `ps[k]` of the input, for increasing positions,
      each the last eligible row of its key. */
  lemma LatestSliceInOrder(header: seq<string>, rows: seq<Row>) returns (ps: seq<nat>)
    ensures var out := LatestSlice(header, rows);
      && |ps| == |out|
      && (forall k :: 0 <= k < |ps| ==> ps[k] < |rows| && out[k] == rows[ps[k]] && IsTail(header, rows, ps[k]))
      && (forall k, k' :: 0 <= k < k' < |ps| ==> ps[k] < ps[k'])
  {
    ps := TailPositions(header, rows, |rows|);
  }

  /** After the first pass over `n` rows, `last` maps each key of an eligible
      row to the position of its last eligible row so far. */
  predicate LastSeen(header: seq<string>, rows: seq<Row>, n: nat, last: map<Value, nat>)
    requires n <= |rows|
  {
    && (forall v :: v in last ==>
          last[v] < n && Eligible(header, rows[last[v]]) && rows[last[v]]["key"] == v)
    && (forall v, j :: v in last && last[v] < j < n && Eligible(header, rows[j]) ==> rows[j]["key"] != v)
    && (forall j :: 0 <= j < n && Eligible(header, rows[j]) ==> rows[j]["key"] in last)
  }

  /** After a whole first pass, an eligible row is the last of its key
      exactly when the pass recorded its position. */
  lemma TailIsRecorded(header: seq<string>, rows: seq<Row>, last: map<Value, nat>, i: nat)
    requires LastSeen(header, rows, |rows|, last)
    requires i < |rows| && Eligible(header, rows[i])
    ensures rows[i]["key"] in last
    ensures last[rows[i]["key"]] == i <==> IsTail(header, rows, i)
  {
    var v := rows[i]["key"];
    if last[v] != i {
      assert i < last[v];
    }
  }

  /** The first pass of `table_group_tail`: the position of the last
      eligible row of every key. */
  method LastPositions(header: seq<string>, rows: seq<Row>) returns (last: map<Value, nat>)
    ensures LastSeen(header, rows, |rows|, last)
  {
    last := map[];
    for i := 0 to |rows|
      invariant LastSeen(header, rows, i, last)
    {
      if Eligible(header, rows[i]) {
        last := last[rows[i]["key"] := i];
      }
    }
  }

  /** `table_group_tail(table, output)`: a first pass records, for every key,
      the position of its last eligible row; a second pass writes the rows
      at those positions, in input order. */
  method GroupTail(header: seq<string>, rows: seq<Row>) returns (out: seq<Row>)
    ensures out == LatestSlice(header, rows)
  {
    var last := LastPositions(header, rows);
    out := [];
    for i := 0 to |rows|
      invariant out == Pick(rows, TailPositions(header, rows, i))
    {
      ghost var ps := TailPositions(header, rows, i);
      if Eligible(header, rows[i]) {
        TailIsRecorded(header, rows, last, i);
        if last[rows[i]["key"]] == i {
          out := out + [rows[i]];
          assert Pick(rows, ps + [i]) == Pick(rows, ps) + [rows[i]];
        }
      }
    }
  }
}
