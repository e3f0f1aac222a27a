/** The Australian state feed: a JSON object mapping each date to an object
    mapping each state code to a list of cumulative counters
    `[confirmed, deceased, recovered, tested]` (shorter lists stop early).
    `parse_dataframes` flattens it into one record per (date, state) cell and
    turns the cumulative counters into daily counts per state. */
module AuCovid19Au {
  import opened Frames
  import opened Cumulative

  // ---------------------------------------------------------------------------
  // Dates and their ISO 8601 form

  /** A calendar date, as the index of the transposed feed carries it. */
  datatype Date = Date(year: int, month: int, day: int)

  /** The dates Python's `datetime.date` can hold. */
  predicate ValidDate(d: Date)
  {
    1 <= d.year <= 9999 && 1 <= d.month <= 12 && 1 <= d.day <= 31
  }

  /** Chronological order. */
  predicate Before(a: Date, b: Date)
  {
    a.year < b.year ||
    (a.year == b.year && (a.month < b.month || (a.month == b.month && a.day < b.day)))
  }

  /** Ten to the power `w`: the first number too wide for `w` digits. */
  function Pow10(w: nat): nat
  {
    if w == 0 then 1 else 10 * Pow10(w - 1)
  }

  predicate IsDigit(c: char)
  {
    '0' <= c <= '9'
  }

  predicate AllDigits(s: string)
  {
    forall i :: 0 <= i < |s| ==> IsDigit(s[i])
  }

  function DigitChar(n: int): (c: char)
    requires 0 <= n < 10
    ensures IsDigit(c) && c as int - '0' as int == n
  {
    ('0' as int + n) as char
  }

  /** The last `w` decimal digits of `n`, zero-padded on the left. */
  function Pad(n: nat, w: nat): (s: string)
    ensures |s| == w && AllDigits(s)
  {
    if w == 0 then [] else Pad(n / 10, w - 1) + [DigitChar(n % 10)]
  }

  /** The number a string of decimal digits spells. */
  function DigitsValue(s: string): nat
    requires AllDigits(s)
    decreases |s|
  {
    if s == [] then 0
    else DigitsValue(s[..|s| - 1]) * 10 + (s[|s| - 1] as int - '0' as int)
  }

  /** `date.isoformat()`: `YYYY-MM-DD`. */
  function IsoFormat(d: Date): (s: string)
    requires ValidDate(d)
    ensures |s| == 10 && s[4] == '-' && s[7] == '-'
  {
    Pad(d.year, 4) + "-" + Pad(d.month, 2) + "-" + Pad(d.day, 2)
  }

  /** `date.fromisoformat(s)` on the `YYYY-MM-DD` form, without the range check. */
  function ParseIso(s: string): Option<Date>
  {
    if |s| == 10 && s[4] == '-' && s[7] == '-' && AllDigits(s[..4]) && AllDigits(s[5..7]) && AllDigits(s[8..]) then
      Some(Date(DigitsValue(s[..4]), DigitsValue(s[5..7]), DigitsValue(s[8..])))
    else None
  }

  lemma {:induction false} PadValue(n: nat, w: nat)
    requires n < Pow10(w)
    ensures DigitsValue(Pad(n, w)) == n
  {
    if w > 0 {
      PadValue(n / 10, w - 1);
      var s := Pad(n, w);
      assert s[..w - 1] == Pad(n / 10, w - 1);
    }
  }

  lemma {:induction false} PadOfValue(s: string)
    requires AllDigits(s)
    ensures DigitsValue(s) < Pow10(|s|) && Pad(DigitsValue(s), |s|) == s
    decreases |s|
  {
    if s != [] {
      var init := s[..|s| - 1];
      PadOfValue(init);
      var v := DigitsValue(s);
      assert v / 10 == DigitsValue(init) && v % 10 == s[|s| - 1] as int - '0' as int;
      assert DigitsValue(init) + 1 <= Pow10(|init|);
      assert v < (DigitsValue(init) + 1) * 10 <= Pow10(|init|) * 10 == Pow10(|s|);
      assert s == init + [s[|s| - 1]];
    }
  }

  /** Distinct numbers below the width have distinct padded forms. */
  lemma PadInjective(a: nat, b: nat, w: nat)
    requires a < Pow10(w) && b < Pow10(w)
    ensures Pad(a, w) == Pad(b, w) <==> a == b
  {
    PadValue(a, w);
    PadValue(b, w);
  }

  /** Comparing strings of equal-length heads compares the heads first. */
  lemma {:induction false} LexLessConcat(x1: string, x2: string, y1: string, y2: string)
    requires |x1| == |y1|
    ensures LexLess(x1 + x2, y1 + y2) <==> LexLess(x1, y1) || (x1 == y1 && LexLess(x2, y2))
    decreases |x1|
  {
    if x1 != [] {
      LexLessConcat(x1[1..], x2, y1[1..], y2);
      assert (x1 + x2)[0] == x1[0] && (y1 + y2)[0] == y1[0];
      assert (x1 + x2)[1..] == x1[1..] + x2 && (y1 + y2)[1..] == y1[1..] + y2;
      assert LexLess(x1 + x2, y1 + y2) == (x1[0] < y1[0] || (x1[0] == y1[0] && LexLess(x1[1..] + x2, y1[1..] + y2)));
      assert LexLess(x1, y1) == (x1[0] < y1[0] || (x1[0] == y1[0] && LexLess(x1[1..], y1[1..])));
      assert x1 == [x1[0]] + x1[1..] && y1 == [y1[0]] + y1[1..];
      assert (x1 == y1) == (x1[0] == y1[0] && x1[1..] == y1[1..]);
    } else {
      assert x1 + x2 == x2 && y1 + y2 == y2 && !LexLess(x1, y1);
    }
  }

  /** Zero-padded numbers of one width sort as the numbers do. */
  lemma {:induction false} PadOrdered(a: nat, b: nat, w: nat)
    requires a < Pow10(w) && b < Pow10(w)
    ensures LexLess(Pad(a, w), Pad(b, w)) <==> a < b
  {
    if w > 0 {
      PadOrdered(a / 10, b / 10, w - 1);
      PadInjective(a / 10, b / 10, w - 1);
      LexLessConcat(Pad(a / 10, w - 1), [DigitChar(a % 10)], Pad(b / 10, w - 1), [DigitChar(b % 10)]);
    }
  }

  /** The ISO form parses back to the date. */
  lemma IsoRoundTrip(d: Date)
    requires ValidDate(d)
    ensures ParseIso(IsoFormat(d)) == Some(d)
  {
    var s := IsoFormat(d);
    assert s[..4] == Pad(d.year, 4) && s[5..7] == Pad(d.month, 2) && s[8..] == Pad(d.day, 2);
    PadValue(d.year, 4);
    PadValue(d.month, 2);
    PadValue(d.day, 2);
  }

  /** A string that parses to a valid date is that date's ISO form. */
  lemma ParsedIsIso(s: string)
    requires ParseIso(s).Some? && ValidDate(ParseIso(s).value)
    ensures IsoFormat(ParseIso(s).value) == s
  {
    PadOfValue(s[..4]);
    PadOfValue(s[5..7]);
    PadOfValue(s[8..]);
    assert s == s[..4] + "-" + s[5..7] + "-" + s[8..];
  }

  /** A shared leading dash does not change the order. */
  lemma DashLess(x: string, y: string)
    ensures LexLess("-" + x, "-" + y) <==> LexLess(x, y)
  {
    LexLessConcat("-", x, "-", y);
  }

  /** The `MM-DD` tail of the ISO form sorts by month, then day. */
  lemma MonthDayOrdered(a: Date, b: Date)
    requires ValidDate(a) && ValidDate(b)
    ensures LexLess(Pad(a.month, 2) + ("-" + Pad(a.day, 2)), Pad(b.month, 2) + ("-" + Pad(b.day, 2))) <==>
      a.month < b.month || (a.month == b.month && a.day < b.day)
  {
    var ma, mb := Pad(a.month, 2), Pad(b.month, 2);
    var da, db := Pad(a.day, 2), Pad(b.day, 2);
    PadOrdered(a.month, b.month, 2);
    PadOrdered(a.day, b.day, 2);
    PadInjective(a.month, b.month, 2);
    DashLess(da, db);
    LexLessConcat(ma, "-" + da, mb, "-" + db);
  }

  /** Sorting ISO date strings as text sorts the dates chronologically. */
  lemma IsoOrdered(a: Date, b: Date)
    requires ValidDate(a) && ValidDate(b)
    ensures LexLess(IsoFormat(a), IsoFormat(b)) <==> Before(a, b)
  {
    var ya, yb := Pad(a.year, 4), Pad(b.year, 4);
    var ta := Pad(a.month, 2) + ("-" + Pad(a.day, 2));
    var tb := Pad(b.month, 2) + ("-" + Pad(b.day, 2));
    PadOrdered(a.year, b.year, 4);
    PadInjective(a.year, b.year, 4);
    MonthDayOrdered(a, b);
    DashLess(ta, tb);
    LexLessConcat(ya, "-" + ta, yb, "-" + tb);
    assert IsoFormat(a) == ya + ("-" + ta);
    assert IsoFormat(b) == yb + ("-" + tb);
  }

  // ---------------------------------------------------------------------------
  // Records

  /** The counters of a cell, in the feed's order. */
  const MetricOrder: seq<string> := ["confirmed", "deceased", "recovered", "tested"]

  /** `grouped_diff` groups on every key but the date. */
  const GroupColumns: seq<string> := ["country_code", "subregion_1_code"]

  /** The record of one cell: its date, `AU`, the state code, and one
      counter per entry of the cell, in order. */
  function MakeRecord(date: Date, code: string, subset: seq<int>): (r: Row)
    requires ValidDate(date) && |subset| > 0
    ensures "date" in r && r["date"] == Text(IsoFormat(date))
    ensures "country_code" in r && r["country_code"] == Text("AU")
    ensures "subregion_1_code" in r && r["subregion_1_code"] == Text(code)
    ensures "confirmed" in r && r["confirmed"] == Num(subset[0])
    ensures ("deceased" in r <==> |subset| > 1) && ("deceased" in r ==> r["deceased"] == Num(subset[1]))
    ensures ("recovered" in r <==> |subset| > 2) && ("recovered" in r ==> r["recovered"] == Num(subset[2]))
    ensures ("tested" in r <==> |subset| > 3) && ("tested" in r ==> r["tested"] == Num(subset[3]))
    ensures r.Keys <= {"date", "country_code", "subregion_1_code", "confirmed", "deceased", "recovered", "tested"}
  {
    var r := map["date" := Text(IsoFormat(date)), "country_code" := Text("AU"),
                 "subregion_1_code" := Text(code), "confirmed" := Num(subset[0])];
    var r := if |subset| > 1 then r["deceased" := Num(subset[1])] else r;
    var r := if |subset| > 2 then r["recovered" := Num(subset[2])] else r;
    if |subset| > 3 then r["tested" := Num(subset[3])] else r
  }

  /** The counters a record carries always form a prefix of the feed's
      order, one per entry of the cell. */
  lemma MetricsFormPrefix(date: Date, code: string, subset: seq<int>)
    requires ValidDate(date) && |subset| > 0
    ensures var r := MakeRecord(date, code, subset);
      forall i :: 0 <= i < |MetricOrder| ==>
        (MetricOrder[i] in r <==> i < |subset|) && (MetricOrder[i] in r ==> r[MetricOrder[i]] == Num(subset[i]))
  {
  }

  // ---------------------------------------------------------------------------
  // Flattening

  /** The transposed feed: one row of cells per date, one column per state code. */
  predicate Rectangular(dates: seq<Date>, codes: seq<string>, cells: seq<seq<seq<int>>>)
  {
    && (forall i :: 0 <= i < |dates| ==> ValidDate(dates[i]))
    && |cells| == |dates|
    && (forall i :: 0 <= i < |cells| ==> |cells[i]| == |codes|)
  }

  /** Every cell holds at least the confirmed counter. */
  predicate NoEmptyCell(cells: seq<seq<seq<int>>>)
  {
    forall i, j :: 0 <= i < |cells| && 0 <= j < |cells[i]| ==> cells[i][j] != []
  }

  /** The cell (i, j) is empty and every cell before it, date-major, is not. */
  predicate FirstEmpty(cells: seq<seq<seq<int>>>, i: nat, j: nat)
  {
    && i < |cells| && j < |cells[i]| && cells[i][j] == []
    && (forall i', j' :: 0 <= i' < i && 0 <= j' < |cells[i']| ==> cells[i'][j'] != [])
    && (forall j' :: 0 <= j' < j ==> cells[i][j'] != [])
  }

  /** The records of one date, state by state. */
  function DateRecords(date: Date, codes: seq<string>, subsets: seq<seq<int>>): (rs: seq<Row>)
    requires ValidDate(date) && |subsets| == |codes|
    requires forall j :: 0 <= j < |subsets| ==> subsets[j] != []
    ensures |rs| == |codes|
  {
    seq(|codes|, j requires 0 <= j < |codes| => MakeRecord(date, codes[j], subsets[j]))
  }

  /** Adding a state adds its record at the end of the date's records. */
  lemma DateRecordsSnoc(date: Date, codes: seq<string>, subsets: seq<seq<int>>, j: nat)
    requires ValidDate(date) && |subsets| == |codes| && j < |codes|
    requires forall j' :: 0 <= j' <= j ==> subsets[j'] != []
    ensures DateRecords(date, codes[..j + 1], subsets[..j + 1])
         == DateRecords(date, codes[..j], subsets[..j]) + [MakeRecord(date, codes[j], subsets[j])]
  {
  }

  /** The first `n` dates of the feed form a feed of their own. */
  lemma PrefixTable(dates: seq<Date>, codes: seq<string>, cells: seq<seq<seq<int>>>, n: nat)
    requires Rectangular(dates, codes, cells) && n <= |dates|
    ensures Rectangular(dates[..n], codes, cells[..n])
    ensures NoEmptyCell(cells) ==> NoEmptyCell(cells[..n])
  {
  }

  /** The records of each date, date by date. */
  function Blocks(dates: seq<Date>, codes: seq<string>, cells: seq<seq<seq<int>>>): (bs: seq<seq<Row>>)
    requires Rectangular(dates, codes, cells) && NoEmptyCell(cells)
    ensures |bs| == |dates| && forall i :: 0 <= i < |bs| ==> |bs[i]| == |codes|
  {
    seq(|dates|, i requires 0 <= i < |dates| => DateRecords(dates[i], codes, cells[i]))
  }

  /** The records of the whole feed, date by date. */
  function Flatten(dates: seq<Date>, codes: seq<string>, cells: seq<seq<seq<int>>>): seq<Row>
    requires Rectangular(dates, codes, cells) && NoEmptyCell(cells)
  {
    Concat(Blocks(dates, codes, cells))
  }

  /** Adding a date adds its records at the end. */
  lemma FlattenSnoc(dates: seq<Date>, codes: seq<string>, cells: seq<seq<seq<int>>>, i: nat)
    requires Rectangular(dates, codes, cells) && i < |dates|
    requires NoEmptyCell(cells[..i + 1])
    ensures Rectangular(dates[..i], codes, cells[..i]) && NoEmptyCell(cells[..i])
    ensures Rectangular(dates[..i + 1], codes, cells[..i + 1])
    ensures Flatten(dates[..i + 1], codes, cells[..i + 1])
         == Flatten(dates[..i], codes, cells[..i]) + DateRecords(dates[i], codes, cells[i])
  {
    PrefixTable(dates, codes, cells, i + 1);
    PrefixTable(dates[..i + 1], codes, cells[..i + 1], i);
    assert dates[..i + 1][..i] == dates[..i] && cells[..i + 1][..i] == cells[..i];
    var bs := Blocks(dates[..i + 1], codes, cells[..i + 1]);
    assert bs[..i] == Blocks(dates[..i], codes, cells[..i]);
    assert bs[i] == DateRecords(dates[i], codes, cells[i]);
  }

  /** The feed flattens to one record per cell, `|dates| * |codes|` of them,
      date-major: the record of cell (i, j) sits at position `i * |codes| + j`. */
  lemma FlattenAt(dates: seq<Date>, codes: seq<string>, cells: seq<seq<seq<int>>>, i: nat, j: nat)
    requires Rectangular(dates, codes, cells) && NoEmptyCell(cells)
    requires i < |dates| && j < |codes|
    ensures |Flatten(dates, codes, cells)| == |dates| * |codes|
    ensures i * |codes| + j < |Flatten(dates, codes, cells)|
    ensures Flatten(dates, codes, cells)[i * |codes| + j] == MakeRecord(dates[i], codes[j], cells[i][j])
  {
    ConcatAt(Blocks(dates, codes, cells), |codes|, i, j);
  }

  /** A position below `|dates| * |codes|` is that of a (date, state) pair. */
  lemma {:induction false} CellIndex(dates: seq<Date>, codes: seq<string>, p: nat) returns (i: nat, j: nat)
    requires p < |dates| * |codes|
    ensures i < |dates| && j < |codes| && p == i * |codes| + j
    decreases |dates|
  {
    var n := |dates| - 1;
    var c := |codes|;
    assert |dates| * c == n * c + c;
    if p < n * c {
      i, j := CellIndex(dates[..n], codes, p);
    } else {
      i, j := n, p - n * c;
    }
  }

  /** Every record of the flattened feed is the record of some cell (i, j),
      found at position `i * |codes| + j`: flattening makes up no record. */
  lemma FlattenCovers(dates: seq<Date>, codes: seq<string>, cells: seq<seq<seq<int>>>, p: nat) returns (i: nat, j: nat)
    requires Rectangular(dates, codes, cells) && NoEmptyCell(cells)
    requires p < |Flatten(dates, codes, cells)|
    ensures i < |dates| && j < |codes| && p == i * |codes| + j
    ensures Flatten(dates, codes, cells)[p] == MakeRecord(dates[i], codes[j], cells[i][j])
  {
    ConcatLength(Blocks(dates, codes, cells), |codes|);
    i, j := CellIndex(dates, codes, p);
    FlattenAt(dates, codes, cells, i, j);
  }

  // ---------------------------------------------------------------------------
  // The parser

  datatype Outcome =
    | Parsed(rows: seq<Row>)
      /** `subset[0]` raised `IndexError` on the empty cell (dateIndex, codeIndex). */
    | EmptyCell(dateIndex: nat, codeIndex: nat)

  /** The loop body's record: the fixed columns, then one counter per entry
      of the cell, in the feed's order. */
  method BuildRecord(date: Date, code: string, subset: seq<int>) returns (record: Row)
    requires ValidDate(date) && |subset| > 0
    ensures record == MakeRecord(date, code, subset)
  {
    record := map["date" := Text(IsoFormat(date)), "country_code" := Text("AU"),
                  "subregion_1_code" := Text(code), "confirmed" := Num(subset[0])];
    if |subset| > 1 {
      record := record["deceased" := Num(subset[1])];
    }
    if |subset| > 2 {
      record := record["recovered" := Num(subset[2])];
    }
    if |subset| > 3 {
      record := record["tested" := Num(subset[3])];
    }
  }

  /** `Covid19AuPipeline.parse_dataframes` on the transposed feed: flattens
      date by date and state by state, then differences every counter
      within each (country, state) group in date order. */
  method ParseDataframes(dates: seq<Date>, codes: seq<string>, cells: seq<seq<seq<int>>>) returns (res: Outcome)
    requires Rectangular(dates, codes, cells)
    ensures res.EmptyCell? <==> !NoEmptyCell(cells)
    ensures res.EmptyCell? ==> FirstEmpty(cells, res.dateIndex, res.codeIndex)
    ensures res.Parsed? ==>
      (NoEmptyCell(cells) && res.rows == GroupedDiff(Flatten(dates, codes, cells), GroupColumns, MetricOrder))
  {
    var records: seq<Row> := [];
    for i := 0 to |dates|
      invariant NoEmptyCell(cells[..i])
      invariant records == Flatten(dates[..i], codes, cells[..i])
    {
      for j := 0 to |codes|
        invariant forall j' :: 0 <= j' < j ==> cells[i][j'] != []
        invariant records == Flatten(dates[..i], codes, cells[..i]) + DateRecords(dates[i], codes[..j], cells[i][..j])
      {
        var subset := cells[i][j];
        if |subset| == 0 {
          return EmptyCell(i, j);
        }
        var record := BuildRecord(dates[i], codes[j], subset);
        records := records + [record];
        DateRecordsSnoc(dates[i], codes, cells[i], j);
      }
      assert codes[..|codes|] == codes && cells[i][..|codes|] == cells[i];
      assert NoEmptyCell(cells[..i + 1]);
      FlattenSnoc(dates, codes, cells, i);
    }
    assert dates[..|dates|] == dates && cells[..|dates|] == cells;
    res := Parsed(GroupedDiff(records, GroupColumns, MetricOrder));
  }

  // ---------------------------------------------------------------------------
  // Daily counts re-accumulate to the feed's counters

  /** The positions of state `j`'s records, dates taken in the listed order. */
  function StatePositions(codes: seq<string>, order: seq<nat>, j: nat): seq<nat>
  {
    seq(|order|, k requires 0 <= k < |order| => order[k] * |codes| + j)
  }

  /** `order` lists every date index once, in chronological order. */
  predicate Chronological(dates: seq<Date>, order: seq<nat>)
  {
    && (forall k :: 0 <= k < |order| ==> order[k] < |dates|)
    && (forall i :: 0 <= i < |dates| ==> i in order)
    && (forall k :: 0 < k < |order| ==> Before(dates[order[k - 1]], dates[order[k]]))
  }

  /** The `k`-th listed position of state `j` holds the record of cell (order[k], j). */
  lemma StateRecord(dates: seq<Date>, codes: seq<string>, cells: seq<seq<seq<int>>>, order: seq<nat>, j: nat, k: nat)
    requires Rectangular(dates, codes, cells) && NoEmptyCell(cells)
    requires Chronological(dates, order) && k < |order| && j < |codes|
    ensures var idx := StatePositions(codes, order, j);
      && idx[k] < |Flatten(dates, codes, cells)|
      && Flatten(dates, codes, cells)[idx[k]] == MakeRecord(dates[order[k]], codes[j], cells[order[k]][j])
  {
    FlattenAt(dates, codes, cells, order[k], j);
  }

  /** Every record of state `j`'s group is at one of its listed positions. */
  lemma StateMember(dates: seq<Date>, codes: seq<string>, cells: seq<seq<seq<int>>>, order: seq<nat>, j: nat, p: nat)
    requires Rectangular(dates, codes, cells) && NoEmptyCell(cells)
    requires forall a, b :: 0 <= a < b < |codes| ==> codes[a] != codes[b]
    requires Chronological(dates, order) && |order| > 0 && j < |codes|
    requires p < |Flatten(dates, codes, cells)|
    requires "subregion_1_code" in Flatten(dates, codes, cells)[p]
    requires Flatten(dates, codes, cells)[p]["subregion_1_code"] == Text(codes[j])
    ensures p in StatePositions(codes, order, j)
  {
    var i, j' := FlattenCovers(dates, codes, cells, p);
    assert codes[j'] == codes[j];
    assert i in order;
    var k :| 0 <= k < |order| && order[k] == i;
    assert StatePositions(codes, order, j)[k] == p;
  }

  /** The `k`-th listed record of state `j` is dated and in the group of the first. */
  lemma StateInGroup(dates: seq<Date>, codes: seq<string>, cells: seq<seq<seq<int>>>, order: seq<nat>, j: nat, k: nat)
    requires Rectangular(dates, codes, cells) && NoEmptyCell(cells)
    requires Chronological(dates, order) && k < |order| && j < |codes|
    ensures var idx := StatePositions(codes, order, j);
      var rows := Flatten(dates, codes, cells);
      idx[0] < |rows| && idx[k] < |rows| && Dated(rows[idx[k]]) && SameGroup(rows[idx[k]], rows[idx[0]], GroupColumns)
  {
    StateRecord(dates, codes, cells, order, j, 0);
    StateRecord(dates, codes, cells, order, j, k);
  }

  /** Consecutive listed records of state `j` are in strictly increasing date order. */
  lemma StateOrdered(dates: seq<Date>, codes: seq<string>, cells: seq<seq<seq<int>>>, order: seq<nat>, j: nat, k: nat)
    requires Rectangular(dates, codes, cells) && NoEmptyCell(cells)
    requires Chronological(dates, order) && 0 < k < |order| && j < |codes|
    ensures var idx := StatePositions(codes, order, j);
      var rows := Flatten(dates, codes, cells);
      idx[k - 1] < |rows| && idx[k] < |rows| && Earlier(rows[idx[k - 1]], rows[idx[k]])
  {
    StateRecord(dates, codes, cells, order, j, k - 1);
    StateRecord(dates, codes, cells, order, j, k);
    IsoOrdered(dates[order[k - 1]], dates[order[k]]);
  }

  /** The state's records, listed in chronological order, are its whole group. */
  lemma StateGroupInOrder(dates: seq<Date>, codes: seq<string>, cells: seq<seq<seq<int>>>, order: seq<nat>, j: nat)
    requires Rectangular(dates, codes, cells) && NoEmptyCell(cells)
    requires forall a, b :: 0 <= a < b < |codes| ==> codes[a] != codes[b]
    requires Chronological(dates, order) && |order| > 0 && j < |codes|
    ensures GroupInOrder(Flatten(dates, codes, cells), GroupColumns, StatePositions(codes, order, j))
  {
    var rows := Flatten(dates, codes, cells);
    var idx := StatePositions(codes, order, j);
    StateRecord(dates, codes, cells, order, j, 0);
    forall k | 0 <= k < |idx|
      ensures idx[k] < |rows| && Dated(rows[idx[k]]) && SameGroup(rows[idx[k]], rows[idx[0]], GroupColumns)
    {
      StateInGroup(dates, codes, cells, order, j, k);
    }
    forall k | 0 < k < |idx|
      ensures Earlier(rows[idx[k - 1]], rows[idx[k]])
    {
      StateOrdered(dates, codes, cells, order, j, k);
    }
    forall p | 0 <= p < |rows| && Dated(rows[p]) && SameGroup(rows[p], rows[idx[0]], GroupColumns)
      ensures p in idx
    {
      assert "subregion_1_code" in GroupColumns;
      StateMember(dates, codes, cells, order, j, p);
    }
  }

  /** The `k`-th listed record of state `j` carries counter `m` of its cell. */
  lemma StateCounter(dates: seq<Date>, codes: seq<string>, cells: seq<seq<seq<int>>>, order: seq<nat>, j: nat, k: nat, m: nat)
    requires Rectangular(dates, codes, cells) && NoEmptyCell(cells)
    requires Chronological(dates, order) && k < |order| && j < |codes|
    requires m < |MetricOrder| && m < |cells[order[k]][j]|
    ensures var idx := StatePositions(codes, order, j);
      var rows := Flatten(dates, codes, cells);
      idx[k] < |rows| && MetricOrder[m] in rows[idx[k]] && rows[idx[k]][MetricOrder[m]] == Num(cells[order[k]][j][m])
  {
    StateRecord(dates, codes, cells, order, j, k);
    MetricsFormPrefix(dates[order[k]], codes[j], cells[order[k]][j]);
  }

  /** Counter `m` of state `j`, read in the listed date order, is the column
      of that counter in the state's cells. */
  lemma StateSeries(dates: seq<Date>, codes: seq<string>, cells: seq<seq<seq<int>>>, order: seq<nat>, j: nat, m: nat)
    requires Rectangular(dates, codes, cells) && NoEmptyCell(cells)
    requires Chronological(dates, order) && j < |codes|
    requires m < |MetricOrder| && forall i :: 0 <= i < |dates| ==> m < |cells[i][j]|
    ensures var rows := Flatten(dates, codes, cells);
      var idx := StatePositions(codes, order, j);
      && (forall k :: 0 <= k < |idx| ==> idx[k] < |rows| && MetricOrder[m] in rows[idx[k]] && rows[idx[k]][MetricOrder[m]].Num?)
      && Series(rows, idx, MetricOrder[m]) == seq(|order|, k requires 0 <= k < |order| => cells[order[k]][j][m])
  {
    var rows := Flatten(dates, codes, cells);
    var idx := StatePositions(codes, order, j);
    var v := MetricOrder[m];
    forall k | 0 <= k < |idx|
      ensures idx[k] < |rows| && v in rows[idx[k]] && rows[idx[k]][v] == Num(cells[order[k]][j][m])
    {
      StateCounter(dates, codes, cells, order, j, k, m);
    }
  }

  /** Within each state, re-accumulating the daily counts in date order gives
      back the feed's cumulative counters, for every counter all of that
      state's cells carry. */
  lemma DailyCountsReaccumulate(dates: seq<Date>, codes: seq<string>, cells: seq<seq<seq<int>>>, order: seq<nat>, j: nat, m: nat)
    requires Rectangular(dates, codes, cells) && NoEmptyCell(cells)
    requires forall a, b :: 0 <= a < b < |codes| ==> codes[a] != codes[b]
    requires Chronological(dates, order) && |order| > 0 && j < |codes|
    requires m < |MetricOrder| && forall i :: 0 <= i < |dates| ==> m < |cells[i][j]|
    ensures var out := GroupedDiff(Flatten(dates, codes, cells), GroupColumns, MetricOrder);
      var idx := StatePositions(codes, order, j);
      && (forall k :: 0 <= k < |idx| ==> idx[k] < |out| && MetricOrder[m] in out[idx[k]] && out[idx[k]][MetricOrder[m]].Num?)
      && RunningTotals(Series(out, idx, MetricOrder[m])) == seq(|order|, k requires 0 <= k < |order| => cells[order[k]][j][m])
  {
    var rows := Flatten(dates, codes, cells);
    var idx := StatePositions(codes, order, j);
    StateGroupInOrder(dates, codes, cells, order, j);
    StateSeries(dates, codes, cells, order, j, m);
    GroupedDiffRoundTrip(rows, GroupColumns, MetricOrder, idx, MetricOrder[m]);
  }
}
