/** The table semantics the pipelines rely on: a data frame is a sequence of
    records, a record maps a column name to a value, and a column that a record
    does not map is a missing (NaN / None) cell. The operations below are the
    pandas operations the core calls: column assignment and renaming, `dropna`,
    `merge` and `groupby(...).sum()`. */
module Frames {

  datatype Option<+T> = None | Some(value: T)

  /** A cell value: free text or an integer count. */
  datatype Value = Text(text: string) | Num(num: int)

  /** One record; a column absent from the map is a missing cell. */
  type Row = map<string, Value>

  /** True when the record has a value in every one of the columns. */
  predicate HasAll(r: Row, cols: seq<string>)
  {
    forall c :: c in cols ==> c in r
  }

  /** The record restricted to the columns: its identity when grouping or joining on them. */
  function Project(r: Row, cols: seq<string>): (k: Row)
    ensures forall c :: c in k <==> c in r && c in cols
    ensures forall c :: c in k ==> k[c] == r[c]
  {
    map c | c in r && c in cols :: r[c]
  }

  /** The integer in a cell; a missing or textual cell adds nothing to a sum. */
  function NumOr0(r: Row, c: string): int
  {
    if c in r && r[c].Num? then r[c].num else 0
  }

  /** `df[col] = v` on every record. */
  function Assign(rows: seq<Row>, col: string, v: Value): seq<Row>
  {
    seq(|rows|, i requires 0 <= i < |rows| => rows[i][col := v])
  }

  /** `df.drop(columns=[col])`. */
  function DropColumn(rows: seq<Row>, col: string): seq<Row>
  {
    seq(|rows|, i requires 0 <= i < |rows| => rows[i] - {col})
  }

  /** `df.rename(columns={from: to})` on one record. */
  function RenameIn(r: Row, from: string, to: string): Row
  {
    if from in r then (r - {from})[to := r[from]] else r
  }

  /** `df.rename(columns={from: to})`. */
  function RenameColumn(rows: seq<Row>, from: string, to: string): seq<Row>
  {
    seq(|rows|, i requires 0 <= i < |rows| => RenameIn(rows[i], from, to))
  }

  /** Applies `f` to the text in column `col` of one record; a missing or
      numeric cell is left as it is. */
  function MapTextIn(r: Row, col: string, f: string -> string): Row
  {
    if col in r && r[col].Text? then r[col := Text(f(r[col].text))] else r
  }

  /** Applying a function to every cell of a text column. */
  function MapText(rows: seq<Row>, col: string, f: string -> string): seq<Row>
  {
    seq(|rows|, i requires 0 <= i < |rows| => MapTextIn(rows[i], col, f))
  }

  /** The records that satisfy `p`, in their order: each such record as
      often as `rows` holds it, and nothing else. */
  function Where(rows: seq<Row>, p: Row -> bool): (out: seq<Row>)
    ensures |out| <= |rows|
    ensures forall r :: r in out <==> r in rows && p(r)
  {
    if rows == [] then []
    else (if p(rows[0]) then [rows[0]] else []) + Where(rows[1..], p)
  }

  /** A filter neither drops a copy of a record it keeps nor adds one. */
  lemma {:induction false} WhereMultiplicity(rows: seq<Row>, p: Row -> bool, r: Row)
    ensures multiset(Where(rows, p))[r] == if p(r) then multiset(rows)[r] else 0
    decreases |rows|
  {
    if rows != [] {
      WhereMultiplicity(rows[1..], p, r);
      var head: seq<Row> := if p(rows[0]) then [rows[0]] else [];
      assert Where(rows, p) == head + Where(rows[1..], p);
      assert rows == [rows[0]] + rows[1..];
      assert multiset(rows) == multiset([rows[0]]) + multiset(rows[1..]);
    }
  }

  /** `df.dropna(subset=[col])`. */
  function DropMissing(rows: seq<Row>, col: string): (out: seq<Row>)
    ensures forall r :: r in out ==> col in r
    ensures forall r :: r in rows ==> (r in out <==> col in r)
  {
    Where(rows, r => col in r)
  }

  /** `dropna` keeps every copy of a record that has the column and no copy
      of one that does not. */
  lemma DropMissingMultiplicity(rows: seq<Row>, col: string, r: Row)
    ensures multiset(DropMissing(rows, col))[r] == if col in r then multiset(rows)[r] else 0
  {
    WhereMultiplicity(rows, x => col in x, r);
  }

  // ---------------------------------------------------------------------------
  // Blocks laid end to end

  /** The blocks laid end to end. */
  function Concat<T>(blocks: seq<seq<T>>): seq<T>
    decreases |blocks|
  {
    if blocks == [] then [] else Concat(blocks[..|blocks| - 1]) + blocks[|blocks| - 1]
  }

  lemma MulStep(i: nat, k: nat, n: nat, j: nat)
    requires i < k && j < n
    ensures i * n + j < k * n
  {
    assert (i + 1) * n <= k * n;
  }

  /** Blocks of one width `c` lay out `|blocks| * c` elements. */
  lemma {:induction false} ConcatLength<T>(blocks: seq<seq<T>>, c: nat)
    requires forall k :: 0 <= k < |blocks| ==> |blocks[k]| == c
    ensures |Concat(blocks)| == |blocks| * c
    decreases |blocks|
  {
    if blocks != [] {
      var n := |blocks| - 1;
      ConcatLength(blocks[..n], c);
      assert |blocks| * c == n * c + c;
    }
  }

  /** Blocks of one width `c`: element `j` of block `i` lands at `i * c + j`. */
  lemma {:induction false} ConcatAt<T>(blocks: seq<seq<T>>, c: nat, i: nat, j: nat)
    requires forall k :: 0 <= k < |blocks| ==> |blocks[k]| == c
    requires i < |blocks| && j < c
    ensures |Concat(blocks)| == |blocks| * c
    ensures i * c + j < |Concat(blocks)| && Concat(blocks)[i * c + j] == blocks[i][j]
    decreases |blocks|
  {
    var n := |blocks| - 1;
    ConcatLength(blocks, c);
    ConcatLength(blocks[..n], c);
    MulStep(i, |blocks|, c, j);
    if i < n {
      ConcatAt(blocks[..n], c, i, j);
      MulStep(i, n, c, j);
    }
  }

  // ---------------------------------------------------------------------------
  // DataFrame.merge

  /** How a merge treats records without a partner: `inner` drops them, `left`
      keeps the left ones, `outer` keeps both sides. */
  datatype How = Inner | Left | Outer

  /** True when `l` and `r` agree on every join column; a missing cell agrees
      with a missing cell, as it does in pandas. */
  predicate Agree(l: Row, r: Row, on: seq<string>)
  {
    Project(l, on) == Project(r, on)
  }

  /** True when some record of `rows` agrees with `x` on the join columns. */
  predicate HasPartner(x: Row, rows: seq<Row>, on: seq<string>)
  {
    exists r :: r in rows && Agree(x, r, on)
  }

  /** The records of `right` that join with `l`, in `right`'s order, each as
      often as `right` holds it. */
  function Partners(l: Row, right: seq<Row>, on: seq<string>): (ps: seq<Row>)
    ensures forall r :: r in ps <==> r in right && Agree(l, r, on)
  {
    if right == [] then []
    else (if Agree(l, right[0], on) then [right[0]] else []) + Partners(l, right[1..], on)
  }

  /** Each agreeing right record is a partner as often as `right` holds it,
      so a merge makes one record per agreeing pair. */
  lemma {:induction false} PartnersMultiplicity(l: Row, right: seq<Row>, on: seq<string>, r: Row)
    ensures multiset(Partners(l, right, on))[r] == if Agree(l, r, on) then multiset(right)[r] else 0
    decreases |right|
  {
    if right != [] {
      PartnersMultiplicity(l, right[1..], on, r);
      var rest := Partners(l, right[1..], on);
      assert right == [right[0]] + right[1..];
      assert multiset(right)[r] == multiset([right[0]])[r] + multiset(right[1..])[r];
      if Agree(l, right[0], on) {
        assert Partners(l, right, on) == [right[0]] + rest;
        assert multiset(Partners(l, right, on))[r] == multiset([right[0]])[r] + multiset(rest)[r];
      } else {
        assert Partners(l, right, on) == rest;
      }
    }
  }

  /** Scanning one more right record adds it to the partners when it agrees. */
  lemma {:induction false} PartnersSnoc(l: Row, right: seq<Row>, on: seq<string>, j: nat)
    requires j < |right|
    ensures Partners(l, right[..j + 1], on)
         == Partners(l, right[..j], on) + (if Agree(l, right[j], on) then [right[j]] else [])
    decreases j
  {
    if j > 0 {
      PartnersSnoc(l, right[1..], on, j - 1);
      assert right[..j + 1][1..] == right[1..][..j];
      assert right[..j][1..] == right[1..][..j - 1];
    }
  }

  /** `l` widened by each of `rs` in turn. */
  function Widen(l: Row, rs: seq<Row>): (out: seq<Row>)
    ensures |out| == |rs|
  {
    seq(|rs|, j requires 0 <= j < |rs| => l + rs[j])
  }

  /** The left-driven part of a merge: for each left record in order, its
      widenings by its partners in right order, or the record alone when it
      has none and `keepUnmatched` holds. */
  function MergeLeftward(left: seq<Row>, right: seq<Row>, on: seq<string>, keepUnmatched: bool): seq<Row>
  {
    if left == [] then []
    else
      MadeOf(left[0], right, on, keepUnmatched) + MergeLeftward(left[1..], right, on, keepUnmatched)
  }

  /** `left.merge(right, on=on, how=how)`; the right-only records of an outer
      merge come after the left-driven part. */
  function Merge(left: seq<Row>, right: seq<Row>, on: seq<string>, how: How): seq<Row>
  {
    match how
    case Inner => MergeLeftward(left, right, on, false)
    case Left => MergeLeftward(left, right, on, true)
    case Outer => MergeLeftward(left, right, on, true) + Where(right, r => !HasPartner(r, left, on))
  }

  /** True when `o` is what a left-driven merge makes of the left record `l`:
      `l` itself when it has no partner and unmatched records are kept, or
      `l` widened by one of its partners. */
  predicate MadeFrom(o: Row, l: Row, right: seq<Row>, on: seq<string>, keep: bool)
  {
    (keep && !HasPartner(l, right, on) && o == l) ||
    (exists r :: r in right && Agree(l, r, on) && o == l + r)
  }

  lemma PartnersEmpty(l: Row, right: seq<Row>, on: seq<string>)
    ensures Partners(l, right, on) == [] <==> !HasPartner(l, right, on)
  {
    var ps := Partners(l, right, on);
    if ps != [] { assert ps[0] in ps; }
    if HasPartner(l, right, on) {
      var r :| r in right && Agree(l, r, on);
      assert r in ps;
    }
  }

  lemma WidenMembers(l: Row, right: seq<Row>, on: seq<string>, o: Row)
    ensures o in Widen(l, Partners(l, right, on)) <==> exists r :: r in right && Agree(l, r, on) && o == l + r
  {
    var ps := Partners(l, right, on);
    if o in Widen(l, ps) {
      var j :| 0 <= j < |ps| && Widen(l, ps)[j] == o;
      assert ps[j] in ps;
    }
    if exists r :: r in right && Agree(l, r, on) && o == l + r {
      var r :| r in right && Agree(l, r, on) && o == l + r;
      assert r in ps;
      var j :| 0 <= j < |ps| && ps[j] == r;
      assert Widen(l, ps)[j] == o;
    }
  }

  /** The records a left-driven merge makes of one left record. */
  function MadeOf(l: Row, right: seq<Row>, on: seq<string>, keep: bool): seq<Row>
  {
    var ps := Partners(l, right, on);
    if ps == [] && keep then [l] else Widen(l, ps)
  }

  lemma MadeOfMembers(l: Row, right: seq<Row>, on: seq<string>, keep: bool, o: Row)
    ensures o in MadeOf(l, right, on, keep) <==> MadeFrom(o, l, right, on, keep)
  {
    PartnersEmpty(l, right, on);
    WidenMembers(l, right, on, o);
  }

  lemma {:induction false} MergeLeftwardSound(left: seq<Row>, right: seq<Row>, on: seq<string>, keep: bool, o: Row)
    requires o in MergeLeftward(left, right, on, keep)
    ensures exists l :: l in left && MadeFrom(o, l, right, on, keep)
    decreases |left|
  {
    var made := MadeOf(left[0], right, on, keep);
    var later := MergeLeftward(left[1..], right, on, keep);
    assert MergeLeftward(left, right, on, keep) == made + later;
    if o in made {
      MadeOfMembers(left[0], right, on, keep, o);
      assert left[0] in left;
    } else {
      MergeLeftwardSound(left[1..], right, on, keep, o);
      var l :| l in left[1..] && MadeFrom(o, l, right, on, keep);
      assert l in left;
    }
  }

  lemma {:induction false} MergeLeftwardComplete(left: seq<Row>, right: seq<Row>, on: seq<string>, keep: bool, l: Row, o: Row)
    requires l in left && MadeFrom(o, l, right, on, keep)
    ensures o in MergeLeftward(left, right, on, keep)
    decreases |left|
  {
    var made := MadeOf(left[0], right, on, keep);
    var later := MergeLeftward(left[1..], right, on, keep);
    assert MergeLeftward(left, right, on, keep) == made + later;
    if l == left[0] {
      MadeOfMembers(left[0], right, on, keep, o);
    } else {
      var i :| 0 <= i < |left| && left[i] == l;
      assert left[1..][i - 1] == l;
      MergeLeftwardComplete(left[1..], right, on, keep, l, o);
    }
  }

  /** Every record of an inner or left merge is made from a left record, and
      everything a left record makes is there: a left merge never adds a
      record that does not come from the left table. */
  lemma MergeLeftwardMembers(left: seq<Row>, right: seq<Row>, on: seq<string>, keep: bool, o: Row)
    ensures o in MergeLeftward(left, right, on, keep) <==> exists l :: l in left && MadeFrom(o, l, right, on, keep)
  {
    if o in MergeLeftward(left, right, on, keep) {
      MergeLeftwardSound(left, right, on, keep, o);
    }
    if exists l :: l in left && MadeFrom(o, l, right, on, keep) {
      var l :| l in left && MadeFrom(o, l, right, on, keep);
      MergeLeftwardComplete(left, right, on, keep, l, o);
    }
  }

  /** An outer merge reflects both tables: every left record is there,
      widened by each partner or alone; every right record with a left
      partner is there widened by it; every right record without one is
      there on its own, as often as the right table holds it; and nothing
      else is. */
  lemma OuterMergeMembers(left: seq<Row>, right: seq<Row>, on: seq<string>)
    ensures var out := Merge(left, right, on, Outer);
      && (forall o :: o in out <==>
            (exists l :: l in left && MadeFrom(o, l, right, on, true)) || (o in right && !HasPartner(o, left, on)))
      && (forall l :: l in left ==> exists o :: o in out && MadeFrom(o, l, right, on, true))
      && (forall r, l :: r in right && l in left && Agree(l, r, on) ==> l + r in out)
      && (forall r :: r in right && !HasPartner(r, left, on) ==> multiset(out)[r] >= multiset(right)[r])
  {
    var leftward := MergeLeftward(left, right, on, true);
    var rightOnly := Where(right, r => !HasPartner(r, left, on));
    var out := Merge(left, right, on, Outer);
    assert out == leftward + rightOnly;
    forall o ensures o in out <==>
      (exists l :: l in left && MadeFrom(o, l, right, on, true)) || (o in right && !HasPartner(o, left, on))
    {
      MergeLeftwardMembers(left, right, on, true, o);
    }
    forall l | l in left ensures exists o :: o in out && MadeFrom(o, l, right, on, true) {
      PartnersEmpty(l, right, on);
      if HasPartner(l, right, on) {
        var r :| r in right && Agree(l, r, on);
        MergeLeftwardComplete(left, right, on, true, l, l + r);
      } else {
        MergeLeftwardComplete(left, right, on, true, l, l);
      }
    }
    forall r, l | r in right && l in left && Agree(l, r, on) ensures l + r in out {
      MergeLeftwardComplete(left, right, on, true, l, l + r);
    }
    forall r | r in right && !HasPartner(r, left, on) ensures multiset(out)[r] >= multiset(right)[r] {
      WhereMultiplicity(right, x => !HasPartner(x, left, on), r);
      assert multiset(out) == multiset(leftward) + multiset(rightOnly);
    }
  }

  /** Merging a split left table merges each part in turn. */
  lemma {:induction false} MergeLeftwardAppend(a: seq<Row>, b: seq<Row>, right: seq<Row>, on: seq<string>, keep: bool)
    ensures MergeLeftward(a + b, right, on, keep) == MergeLeftward(a, right, on, keep) + MergeLeftward(b, right, on, keep)
    decreases |a|
  {
    if a == [] {
      assert a + b == b;
    } else {
      assert (a + b)[0] == a[0] && (a + b)[1..] == a[1..] + b;
      MergeLeftwardAppend(a[1..], b, right, on, keep);
    }
  }

  /** Number of records a left-driven merge produces. */
  function MergedCount(left: seq<Row>, right: seq<Row>, on: seq<string>, keep: bool): nat
  {
    if left == [] then 0
    else
      var n := |Partners(left[0], right, on)|;
      (if n == 0 && keep then 1 else n) + MergedCount(left[1..], right, on, keep)
  }

  lemma {:induction false} MergeLeftwardCount(left: seq<Row>, right: seq<Row>, on: seq<string>, keep: bool)
    ensures |MergeLeftward(left, right, on, keep)| == MergedCount(left, right, on, keep)
    ensures keep ==> MergedCount(left, right, on, keep) >= |left|
    decreases |left|
  {
    if left != [] {
      MergeLeftwardCount(left[1..], right, on, keep);
    }
  }

  // ---------------------------------------------------------------------------
  // DataFrame.groupby(keys).sum()

  /** True when the record belongs to the group whose key is `k`. A record
      missing a key column belongs to no group: pandas drops it. */
  predicate InGroup(r: Row, keys: seq<string>, k: Row)
  {
    HasAll(r, keys) && Project(r, keys) == k
  }

  /** The distinct group keys, in order of first appearance. */
  function GroupKeys(rows: seq<Row>, keys: seq<string>): (ks: seq<Row>)
    ensures forall i, j :: 0 <= i < j < |ks| ==> ks[i] != ks[j]
    ensures forall r :: r in rows && HasAll(r, keys) ==> Project(r, keys) in ks
    ensures forall k :: k in ks ==> exists r :: r in rows && InGroup(r, keys, k)
    decreases |rows|
  {
    if rows == [] then []
    else
      var init := rows[..|rows| - 1];
      var last := rows[|rows| - 1];
      assert rows == init + [last];
      assert forall r :: r in init ==> r in rows;
      assert last in rows;
      var ks := GroupKeys(init, keys);
      if HasAll(last, keys) && Project(last, keys) !in ks then ks + [Project(last, keys)] else ks
  }

  /** The sum of column `v` over the records of group `k`. */
  function GroupTotal(rows: seq<Row>, keys: seq<string>, k: Row, v: string): int
    decreases |rows|
  {
    if rows == [] then 0
    else
      var last := rows[|rows| - 1];
      GroupTotal(rows[..|rows| - 1], keys, k, v) + (if InGroup(last, keys, k) then NumOr0(last, v) else 0)
  }

  /** The group's key widened by the sum of each value column over the group. */
  function GroupRow(rows: seq<Row>, keys: seq<string>, values: seq<string>, k: Row): Row
  {
    k + map v | v in values :: Num(GroupTotal(rows, keys, k, v))
  }

  /** `rows.groupby(keys).sum().reset_index()` restricted to the value columns
      `values`: one record per group, in order of first appearance. */
  function GroupSum(rows: seq<Row>, keys: seq<string>, values: seq<string>): seq<Row>
  {
    var ks := GroupKeys(rows, keys);
    seq(|ks|, i requires 0 <= i < |ks| => GroupRow(rows, keys, values, ks[i]))
  }

  lemma ProjectGroupRow(rows: seq<Row>, keys: seq<string>, values: seq<string>, k: Row)
    requires forall v :: v in values ==> v !in keys
    requires forall c :: c in k ==> c in keys
    ensures Project(GroupRow(rows, keys, values, k), keys) == k
  {
    var g := GroupRow(rows, keys, values, k);
    assert forall c :: c in keys && c in g ==> c in k;
  }

  /** The grouped records and the distinct keys correspond one to one, in order. */
  lemma GroupSumKeys(rows: seq<Row>, keys: seq<string>, values: seq<string>)
    requires forall v :: v in values ==> v !in keys
    ensures var out := GroupSum(rows, keys, values);
      && |out| == |GroupKeys(rows, keys)|
      && forall i :: 0 <= i < |out| ==> Project(out[i], keys) == GroupKeys(rows, keys)[i] && HasAll(out[i], keys)
  {
    var ks := GroupKeys(rows, keys);
    var out := GroupSum(rows, keys, values);
    forall i | 0 <= i < |out|
      ensures Project(out[i], keys) == ks[i] && HasAll(out[i], keys)
    {
      assert ks[i] in ks;
      var r :| r in rows && InGroup(r, keys, ks[i]);
      ProjectGroupRow(rows, keys, values, ks[i]);
    }
  }

  /** `groupby(keys).sum()` yields one record per group: no two grouped
      records share a key, each key is the key of some input record, and
      every input record that has all key columns finds its group. */
  lemma GroupSumOnePerGroup(rows: seq<Row>, keys: seq<string>, values: seq<string>)
    requires forall v :: v in values ==> v !in keys
    ensures var out := GroupSum(rows, keys, values);
      && (forall i, j :: 0 <= i < j < |out| ==> Project(out[i], keys) != Project(out[j], keys))
      && (forall i :: 0 <= i < |out| ==> exists r :: r in rows && InGroup(r, keys, Project(out[i], keys)))
      && (forall r :: r in rows && HasAll(r, keys) ==> exists i :: 0 <= i < |out| && Project(out[i], keys) == Project(r, keys))
  {
    var ks := GroupKeys(rows, keys);
    var out := GroupSum(rows, keys, values);
    GroupSumKeys(rows, keys, values);
    forall i, j | 0 <= i < j < |out|
      ensures Project(out[i], keys) != Project(out[j], keys)
    {
      assert Project(out[i], keys) == ks[i] && Project(out[j], keys) == ks[j];
    }
    forall i | 0 <= i < |out|
      ensures exists r :: r in rows && InGroup(r, keys, Project(out[i], keys))
    {
      assert ks[i] in ks;
      assert Project(out[i], keys) == ks[i];
    }
    forall r | r in rows && HasAll(r, keys)
      ensures exists i :: 0 <= i < |out| && Project(out[i], keys) == Project(r, keys)
    {
      assert Project(r, keys) in ks;
      var i :| 0 <= i < |ks| && ks[i] == Project(r, keys);
      assert Project(out[i], keys) == Project(r, keys);
    }
  }

  /** Each grouped record holds, in every summed column, the sum of that
      column over its group, and holds nothing beyond its key and sums. */
  lemma GroupSumTotals(rows: seq<Row>, keys: seq<string>, values: seq<string>)
    requires forall v :: v in values ==> v !in keys
    ensures var out := GroupSum(rows, keys, values);
      && (forall i, c :: 0 <= i < |out| && c in out[i] ==> c in keys || c in values)
      && (forall i, v :: 0 <= i < |out| && v in values ==>
            v in out[i] && out[i][v] == Num(GroupTotal(rows, keys, Project(out[i], keys), v)))
  {
    GroupSumKeys(rows, keys, values);
    var ks := GroupKeys(rows, keys);
    var out := GroupSum(rows, keys, values);
    forall i | 0 <= i < |out|
      ensures forall c :: c in out[i] ==> c in keys || c in values
    {
      assert ks[i] in ks;
    }
  }

  // Conservation: summing a column over the grouped records gives the sum over
  // every record that has all key columns.

  /** The sum of column `v` over the records that have every key column. */
  function KeyedColumnTotal(rows: seq<Row>, keys: seq<string>, v: string): int
    decreases |rows|
  {
    if rows == [] then 0
    else
      var last := rows[|rows| - 1];
      KeyedColumnTotal(rows[..|rows| - 1], keys, v) + (if HasAll(last, keys) then NumOr0(last, v) else 0)
  }

  /** The sum over the groups `ks` of each group's total. */
  function TotalOverGroups(rows: seq<Row>, keys: seq<string>, ks: seq<Row>, v: string): int
    decreases |ks|
  {
    if ks == [] then 0
    else TotalOverGroups(rows, keys, ks[..|ks| - 1], v) + GroupTotal(rows, keys, ks[|ks| - 1], v)
  }

  /** The sum of column `v` over the records of a grouped table. */
  function ColumnTotal(rows: seq<Row>, v: string): int
    decreases |rows|
  {
    if rows == [] then 0 else ColumnTotal(rows[..|rows| - 1], v) + NumOr0(rows[|rows| - 1], v)
  }

  /** How much record `x` adds to the groups `ks` taken together. */
  function Share(x: Row, keys: seq<string>, ks: seq<Row>, v: string): int
    decreases |ks|
  {
    if ks == [] then 0
    else Share(x, keys, ks[..|ks| - 1], v) + (if InGroup(x, keys, ks[|ks| - 1]) then NumOr0(x, v) else 0)
  }

  lemma {:induction false} TotalOverGroupsSnoc(init: seq<Row>, x: Row, keys: seq<string>, ks: seq<Row>, v: string)
    ensures TotalOverGroups(init + [x], keys, ks, v) == TotalOverGroups(init, keys, ks, v) + Share(x, keys, ks, v)
    decreases |ks|
  {
    if ks != [] {
      TotalOverGroupsSnoc(init, x, keys, ks[..|ks| - 1], v);
      assert (init + [x])[..|init + [x]| - 1] == init;
    }
  }

  lemma {:induction false} ShareOfMember(x: Row, keys: seq<string>, ks: seq<Row>, v: string)
    requires forall i, j :: 0 <= i < j < |ks| ==> ks[i] != ks[j]
    ensures Share(x, keys, ks, v) == if HasAll(x, keys) && Project(x, keys) in ks then NumOr0(x, v) else 0
    decreases |ks|
  {
    if ks != [] {
      var init := ks[..|ks| - 1];
      ShareOfMember(x, keys, init, v);
      assert ks == init + [ks[|ks| - 1]];
      if HasAll(x, keys) && Project(x, keys) == ks[|ks| - 1] {
        assert Project(x, keys) !in init by {
          forall i | 0 <= i < |init| ensures init[i] != ks[|ks| - 1] {
            assert init[i] == ks[i];
          }
        }
      }
    }
  }

  lemma {:induction false} GroupTotalOfAbsentKey(rows: seq<Row>, keys: seq<string>, k: Row, v: string)
    requires k !in GroupKeys(rows, keys)
    ensures GroupTotal(rows, keys, k, v) == 0
    decreases |rows|
  {
    if rows != [] {
      var init := rows[..|rows| - 1];
      var last := rows[|rows| - 1];
      assert rows == init + [last];
      GroupTotalOfAbsentKey(init, keys, k, v);
    }
  }

  lemma {:induction false} TotalOverGroupsAppend(rows: seq<Row>, keys: seq<string>, ks: seq<Row>, k: Row, v: string)
    ensures TotalOverGroups(rows, keys, ks + [k], v) == TotalOverGroups(rows, keys, ks, v) + GroupTotal(rows, keys, k, v)
  {
    assert (ks + [k])[..|ks + [k]| - 1] == ks;
  }

  lemma GroupKeysSnoc(init: seq<Row>, x: Row, keys: seq<string>, v: string)
    ensures GroupKeys(init + [x], keys)
         == if HasAll(x, keys) && Project(x, keys) !in GroupKeys(init, keys)
            then GroupKeys(init, keys) + [Project(x, keys)] else GroupKeys(init, keys)
    ensures KeyedColumnTotal(init + [x], keys, v)
         == KeyedColumnTotal(init, keys, v) + (if HasAll(x, keys) then NumOr0(x, v) else 0)
  {
    var rows := init + [x];
    assert rows[..|rows| - 1] == init && rows[|rows| - 1] == x;
  }

  /** A record that opens a new group adds its amount through that group. */
  lemma GroupTotalsGrow(init: seq<Row>, x: Row, keys: seq<string>, v: string)
    requires HasAll(x, keys) && Project(x, keys) !in GroupKeys(init, keys)
    ensures TotalOverGroups(init + [x], keys, GroupKeys(init, keys) + [Project(x, keys)], v)
         == TotalOverGroups(init, keys, GroupKeys(init, keys), v) + NumOr0(x, v)
  {
    var ks0 := GroupKeys(init, keys);
    var p := Project(x, keys);
    var ks := ks0 + [p];
    assert p in ks;
    TotalOverGroupsSnoc(init, x, keys, ks, v);
    ShareOfMember(x, keys, ks, v);
    TotalOverGroupsAppend(init, keys, ks0, p, v);
    GroupTotalOfAbsentKey(init, keys, p, v);
  }

  /** A record of a known group, or of none, adds its amount, if any, to the
      groups already there. */
  lemma GroupTotalsSame(init: seq<Row>, x: Row, keys: seq<string>, v: string)
    requires !(HasAll(x, keys) && Project(x, keys) !in GroupKeys(init, keys))
    ensures TotalOverGroups(init + [x], keys, GroupKeys(init, keys), v)
         == TotalOverGroups(init, keys, GroupKeys(init, keys), v) + (if HasAll(x, keys) then NumOr0(x, v) else 0)
  {
    var ks0 := GroupKeys(init, keys);
    TotalOverGroupsSnoc(init, x, keys, ks0, v);
    ShareOfMember(x, keys, ks0, v);
  }

  /** Adding record `x` to the rows adds its share to the group totals,
      whether or not it opens a new group. */
  lemma GroupTotalsStep(init: seq<Row>, x: Row, keys: seq<string>, v: string)
    requires TotalOverGroups(init, keys, GroupKeys(init, keys), v) == KeyedColumnTotal(init, keys, v)
    ensures TotalOverGroups(init + [x], keys, GroupKeys(init + [x], keys), v) == KeyedColumnTotal(init + [x], keys, v)
  {
    GroupKeysSnoc(init, x, keys, v);
    if HasAll(x, keys) && Project(x, keys) !in GroupKeys(init, keys) {
      GroupTotalsGrow(init, x, keys, v);
    } else {
      GroupTotalsSame(init, x, keys, v);
    }
  }

  /** Grouping neither loses nor invents any amount: the group totals add up
      to the sum over every record that has all key columns. */
  lemma {:induction false} GroupTotalsConserve(rows: seq<Row>, keys: seq<string>, v: string)
    ensures TotalOverGroups(rows, keys, GroupKeys(rows, keys), v) == KeyedColumnTotal(rows, keys, v)
    decreases |rows|
  {
    if rows != [] {
      var init := rows[..|rows| - 1];
      assert rows == init + [rows[|rows| - 1]];
      GroupTotalsConserve(init, keys, v);
      GroupTotalsStep(init, rows[|rows| - 1], keys, v);
    }
  }

  lemma {:induction false} ColumnTotalOfGroupRows(rows: seq<Row>, keys: seq<string>, values: seq<string>, ks: seq<Row>, v: string)
    requires v in values && v !in keys
    ensures ColumnTotal(seq(|ks|, i requires 0 <= i < |ks| => GroupRow(rows, keys, values, ks[i])), v)
            == TotalOverGroups(rows, keys, ks, v)
    decreases |ks|
  {
    var out := seq(|ks|, i requires 0 <= i < |ks| => GroupRow(rows, keys, values, ks[i]));
    if ks != [] {
      var init := ks[..|ks| - 1];
      ColumnTotalOfGroupRows(rows, keys, values, init, v);
      assert out[..|out| - 1] == seq(|init|, i requires 0 <= i < |init| => GroupRow(rows, keys, values, init[i]));
    }
  }

  /** Conservation of `groupby(keys).sum()`: the summed column of the grouped
      table adds up to the column's sum over every record that has all key
      columns. */
  lemma GroupSumConserves(rows: seq<Row>, keys: seq<string>, values: seq<string>, v: string)
    requires v in values && v !in keys
    ensures ColumnTotal(GroupSum(rows, keys, values), v) == KeyedColumnTotal(rows, keys, v)
  {
    ColumnTotalOfGroupRows(rows, keys, values, GroupKeys(rows, keys), v);
    GroupTotalsConserve(rows, keys, v);
  }
}
