/** The Peruvian health authority's case-line source: confirmed and deceased
    case records (one record per person) become daily counts per district and
    per region (subregion1), with district names prepared for fuzzy matching
    and the district names that collide across provinces rewritten. */
module PeAuthority {
  import opened Frames

  // ---------------------------------------------------------------------------
  // Column adapter and sex labels

  /** `_column_adapter`: each source column and the column it becomes, in
      declaration order. Two source columns feed `date` and two feed `age`. */
  const ColumnAdapter: seq<(string, string)> := [
    ("FECHA_RESULTADO", "date"),
    ("FECHA_FALLECIMIENTO", "date"),
    ("DISTRITO", "subregion2_name"),
    ("PROVINCIA", "province_name"),
    ("EDAD", "age"),
    ("EDAD_DECLARADA", "age"),
    ("SEXO", "sex")
  ]

  /** Renaming one record through an adapter, dropping the columns the
      adapter does not name: only the adapted columns stay, under their new
      names. When two adapted source columns of the record feed the same
      column, this model lets the later adapter entry win; the library
      routine's own rule for that case is not part of this model. */
  function RenameRecord(r: Row, adapter: seq<(string, string)>): Row
    decreases |adapter|
  {
    if adapter == [] then map[]
    else
      var acc := RenameRecord(r, adapter[..|adapter| - 1]);
      var entry := adapter[|adapter| - 1];
      if entry.0 in r then acc[entry.1 := r[entry.0]] else acc
  }

  /** Renaming every record of a table through an adapter. */
  function TableRename(rows: seq<Row>, adapter: seq<(string, string)>): seq<Row>
  {
    seq(|rows|, i requires 0 <= i < |rows| => RenameRecord(rows[i], adapter))
  }

  /** The adapter entry `k` is the last one that feeds column `c` from a
      column the record has. */
  predicate LastFeeding(r: Row, adapter: seq<(string, string)>, c: string, k: int)
  {
    0 <= k < |adapter| && adapter[k].1 == c && adapter[k].0 in r &&
    forall k' :: k < k' < |adapter| && adapter[k'].1 == c ==> adapter[k'].0 !in r
  }

  /** A renamed record has a column exactly when some adapter entry feeds it
      from a column the record has, and its value is the one the last such
      entry brings. */
  lemma {:induction false} RenameRecordSpec(r: Row, adapter: seq<(string, string)>, c: string)
    ensures c in RenameRecord(r, adapter) <==> exists k :: 0 <= k < |adapter| && adapter[k].1 == c && adapter[k].0 in r
    ensures c in RenameRecord(r, adapter) ==>
      exists k :: LastFeeding(r, adapter, c, k) && RenameRecord(r, adapter)[c] == r[adapter[k].0]
    decreases |adapter|
  {
    if adapter != [] {
      var n := |adapter| - 1;
      var init := adapter[..n];
      RenameRecordSpec(r, init, c);
      assert forall k :: 0 <= k < n ==> init[k] == adapter[k];
      if adapter[n].1 == c && adapter[n].0 in r {
        assert LastFeeding(r, adapter, c, n);
      } else if c in RenameRecord(r, init) {
        var k :| LastFeeding(r, init, c, k) && RenameRecord(r, init)[c] == r[init[k].0];
        assert LastFeeding(r, adapter, c, k);
      }
    }
  }

  lemma AdapterEntries()
    ensures ColumnAdapter[0] == ("FECHA_RESULTADO", "date") && ColumnAdapter[1] == ("FECHA_FALLECIMIENTO", "date")
    ensures ColumnAdapter[2] == ("DISTRITO", "subregion2_name") && ColumnAdapter[3] == ("PROVINCIA", "province_name")
    ensures ColumnAdapter[4] == ("EDAD", "age") && ColumnAdapter[5] == ("EDAD_DECLARADA", "age")
    ensures ColumnAdapter[6] == ("SEXO", "sex") && |ColumnAdapter| == 7
  {
  }

  /** Only the five canonical columns survive the Peruvian adapter. */
  lemma PeruRenameColumns(r: Row, c: string)
    requires c in RenameRecord(r, ColumnAdapter)
    ensures c in {"date", "subregion2_name", "province_name", "age", "sex"}
  {
    AdapterEntries();
    RenameRecordSpec(r, ColumnAdapter, c);
  }

  /** Both date columns become `date`; the death date wins when a record has both. */
  lemma PeruRenameDate(r: Row)
    ensures "FECHA_FALLECIMIENTO" in r ==>
      "date" in RenameRecord(r, ColumnAdapter) && RenameRecord(r, ColumnAdapter)["date"] == r["FECHA_FALLECIMIENTO"]
    ensures "FECHA_RESULTADO" in r && "FECHA_FALLECIMIENTO" !in r ==>
      "date" in RenameRecord(r, ColumnAdapter) && RenameRecord(r, ColumnAdapter)["date"] == r["FECHA_RESULTADO"]
    ensures "FECHA_RESULTADO" !in r && "FECHA_FALLECIMIENTO" !in r ==> "date" !in RenameRecord(r, ColumnAdapter)
  {
    AdapterEntries();
    var a := ColumnAdapter;
    var out := RenameRecord(r, a);
    RenameRecordSpec(r, a, "date");
    if "date" in out {
      var k :| LastFeeding(r, a, "date", k) && out["date"] == r[a[k].0];
      if "FECHA_FALLECIMIENTO" in r { assert k == 1; } else { assert k == 0; }
    }
  }

  /** The district and province columns carry over under their new names. */
  lemma PeruRenamePlaces(r: Row)
    ensures "DISTRITO" in r <==> "subregion2_name" in RenameRecord(r, ColumnAdapter)
    ensures "DISTRITO" in r ==> RenameRecord(r, ColumnAdapter)["subregion2_name"] == r["DISTRITO"]
    ensures "PROVINCIA" in r <==> "province_name" in RenameRecord(r, ColumnAdapter)
    ensures "PROVINCIA" in r ==> RenameRecord(r, ColumnAdapter)["province_name"] == r["PROVINCIA"]
  {
    AdapterEntries();
    var a := ColumnAdapter;
    var out := RenameRecord(r, a);
    RenameRecordSpec(r, a, "subregion2_name");
    RenameRecordSpec(r, a, "province_name");
    if "subregion2_name" in out {
      var k :| LastFeeding(r, a, "subregion2_name", k) && out["subregion2_name"] == r[a[k].0];
      assert k == 2;
    }
    if "province_name" in out {
      var k :| LastFeeding(r, a, "province_name", k) && out["province_name"] == r[a[k].0];
      assert k == 3;
    }
  }

  /** With the Peruvian adapter a renamed record holds only the five canonical
      columns; both date columns become `date` (the death date wins when a
      record has both) and the district and province columns carry over. */
  lemma PeruRename(r: Row)
    ensures forall c :: c in RenameRecord(r, ColumnAdapter) ==>
      c in {"date", "subregion2_name", "province_name", "age", "sex"}
    ensures "FECHA_FALLECIMIENTO" in r ==>
      "date" in RenameRecord(r, ColumnAdapter) && RenameRecord(r, ColumnAdapter)["date"] == r["FECHA_FALLECIMIENTO"]
    ensures "FECHA_RESULTADO" in r && "FECHA_FALLECIMIENTO" !in r ==>
      "date" in RenameRecord(r, ColumnAdapter) && RenameRecord(r, ColumnAdapter)["date"] == r["FECHA_RESULTADO"]
    ensures "FECHA_RESULTADO" !in r && "FECHA_FALLECIMIENTO" !in r ==> "date" !in RenameRecord(r, ColumnAdapter)
    ensures "DISTRITO" in r <==> "subregion2_name" in RenameRecord(r, ColumnAdapter)
    ensures "DISTRITO" in r ==> RenameRecord(r, ColumnAdapter)["subregion2_name"] == r["DISTRITO"]
    ensures "PROVINCIA" in r <==> "province_name" in RenameRecord(r, ColumnAdapter)
    ensures "PROVINCIA" in r ==> RenameRecord(r, ColumnAdapter)["province_name"] == r["PROVINCIA"]
  {
    forall c | c in RenameRecord(r, ColumnAdapter)
      ensures c in {"date", "subregion2_name", "province_name", "age", "sex"}
    {
      PeruRenameColumns(r, c);
    }
    PeruRenameDate(r);
    PeruRenamePlaces(r);
  }

  /** The Spanish sex label of one record looked up in a two-entry
      dictionary: the masculine label becomes "male", the feminine one
      "female", and any other label, or none, becomes missing. */
  function SexIn(r: Row): Row
  {
    if "sex" in r && r["sex"] == Text("MASCULINO") then r["sex" := Text("male")]
    else if "sex" in r && r["sex"] == Text("FEMENINO") then r["sex" := Text("female")]
    else r - {"sex"}
  }

  /** The sex label of every record translated. */
  function TranslateSex(rows: seq<Row>): seq<Row>
  {
    seq(|rows|, i requires 0 <= i < |rows| => SexIn(rows[i]))
  }

  /** The sex translation keeps every record and every other column; the
      column ends up holding only "male" or "female", exactly for the records
      labelled "MASCULINO" or "FEMENINO" respectively, and is missing elsewhere. */
  lemma SexTranslated(rows: seq<Row>)
    ensures var out := TranslateSex(rows);
      && |out| == |rows|
      && (forall i, c :: 0 <= i < |out| && c != "sex" ==>
            (c in out[i] <==> c in rows[i]) && (c in out[i] ==> out[i][c] == rows[i][c]))
      && (forall i :: 0 <= i < |out| ==>
            ("sex" in out[i] <==> "sex" in rows[i] && rows[i]["sex"] in {Text("MASCULINO"), Text("FEMENINO")}))
      && (forall i :: 0 <= i < |out| && "sex" in out[i] ==>
            (out[i]["sex"] == Text("male") <==> rows[i]["sex"] == Text("MASCULINO")) &&
            (out[i]["sex"] == Text("female") <==> rows[i]["sex"] == Text("FEMENINO")))
  {
  }

  // ---------------------------------------------------------------------------
  // Case records to daily counts

  /** The columns a daily count is grouped by: the report date, the two
      location columns passed as index columns, and age and sex. */
  const CaseKeys: seq<string> := ["date", "province_name", "subregion2_name", "age", "sex"]

  /** The case records with the event date named `dateColumn` and the count
      column `countColumn` set to 1, ready for summing. */
  function CaseOnes(cases: seq<Row>, dateColumn: string, countColumn: string): seq<Row>
  {
    Assign(RenameColumn(cases, dateColumn, "date"), countColumn, Num(1))
  }

  /** The case-to-time-series conversion with province and district as the
      index columns, as this model assumes it: one record per date, location,
      age and sex, whose `countColumn` counts the case records with those
      values. */
  function CaseCounts(cases: seq<Row>, dateColumn: string, countColumn: string): seq<Row>
    requires countColumn !in CaseKeys
  {
    GroupSum(CaseOnes(cases, dateColumn, countColumn), CaseKeys, [countColumn])
  }

  /** The number of records of group `k`. */
  function GroupCount(rows: seq<Row>, keys: seq<string>, k: Row): nat
    decreases |rows|
  {
    if rows == [] then 0
    else GroupCount(rows[..|rows| - 1], keys, k) + (if InGroup(rows[|rows| - 1], keys, k) then 1 else 0)
  }

  lemma ProjectAssigned(r: Row, c: string, v: Value, keys: seq<string>)
    requires c !in keys
    ensures Project(r[c := v], keys) == Project(r, keys)
    ensures HasAll(r[c := v], keys) <==> HasAll(r, keys)
  {
    assert forall x :: x in keys ==> (x in r[c := v] <==> x in r);
  }

  lemma {:induction false} GroupTotalOfOnes(rows: seq<Row>, keys: seq<string>, k: Row, c: string)
    requires c !in keys
    ensures GroupTotal(Assign(rows, c, Num(1)), keys, k, c) == GroupCount(rows, keys, k)
    decreases |rows|
  {
    if rows != [] {
      var n := |rows| - 1;
      var ones := Assign(rows, c, Num(1));
      assert ones[..n] == Assign(rows[..n], c, Num(1));
      GroupTotalOfOnes(rows[..n], keys, k, c);
      ProjectAssigned(rows[n], c, Num(1), keys);
    }
  }

  /** Each daily count is the number of case records of its date, location,
      age and sex; no two counts share those values; and every case record
      that has all of them is counted under its own. */
  lemma CaseCountsCount(cases: seq<Row>, dateColumn: string, countColumn: string, i: int)
    requires countColumn !in CaseKeys
    requires 0 <= i < |CaseCounts(cases, dateColumn, countColumn)|
    ensures var out := CaseCounts(cases, dateColumn, countColumn);
      HasAll(out[i], CaseKeys) && countColumn in out[i] &&
      out[i][countColumn] == Num(GroupCount(RenameColumn(cases, dateColumn, "date"), CaseKeys, Project(out[i], CaseKeys)))
  {
    var prepared := RenameColumn(cases, dateColumn, "date");
    var ones := CaseOnes(cases, dateColumn, countColumn);
    GroupSumKeys(ones, CaseKeys, [countColumn]);
    GroupSumTotals(ones, CaseKeys, [countColumn]);
    var out := CaseCounts(cases, dateColumn, countColumn);
    GroupTotalOfOnes(prepared, CaseKeys, Project(out[i], CaseKeys), countColumn);
  }

  lemma CaseCountsCover(cases: seq<Row>, dateColumn: string, countColumn: string, r: Row)
    requires countColumn !in CaseKeys
    requires r in RenameColumn(cases, dateColumn, "date") && HasAll(r, CaseKeys)
    ensures var out := CaseCounts(cases, dateColumn, countColumn);
      exists i :: 0 <= i < |out| && Project(out[i], CaseKeys) == Project(r, CaseKeys)
  {
    var prepared := RenameColumn(cases, dateColumn, "date");
    var ones := CaseOnes(cases, dateColumn, countColumn);
    GroupSumKeys(ones, CaseKeys, [countColumn]);
    var i :| 0 <= i < |prepared| && prepared[i] == r;
    ProjectAssigned(r, countColumn, Num(1), CaseKeys);
    assert ones[i] == r[countColumn := Num(1)];
    assert ones[i] in ones && HasAll(ones[i], CaseKeys);
    var ks := GroupKeys(ones, CaseKeys);
    assert Project(r, CaseKeys) in ks;
    var j :| 0 <= j < |ks| && ks[j] == Project(r, CaseKeys);
    assert Project(CaseCounts(cases, dateColumn, countColumn)[j], CaseKeys) == Project(r, CaseKeys);
  }

  /** Each daily count is the number of case records of its date, location,
      age and sex; no two counts share those values; and every case record
      that has all of them is counted under its own. */
  lemma CaseCountsAreCounts(cases: seq<Row>, dateColumn: string, countColumn: string)
    requires countColumn !in CaseKeys
    ensures var prepared := RenameColumn(cases, dateColumn, "date");
      var out := CaseCounts(cases, dateColumn, countColumn);
      && (forall i :: 0 <= i < |out| ==>
            (HasAll(out[i], CaseKeys) && countColumn in out[i] &&
             out[i][countColumn] == Num(GroupCount(prepared, CaseKeys, Project(out[i], CaseKeys)))))
      && (forall i, j :: 0 <= i < j < |out| ==> Project(out[i], CaseKeys) != Project(out[j], CaseKeys))
      && (forall r :: r in prepared && HasAll(r, CaseKeys) ==>
            exists i :: 0 <= i < |out| && Project(out[i], CaseKeys) == Project(r, CaseKeys))
  {
    var prepared := RenameColumn(cases, dateColumn, "date");
    var ones := CaseOnes(cases, dateColumn, countColumn);
    var out := CaseCounts(cases, dateColumn, countColumn);
    GroupSumOnePerGroup(ones, CaseKeys, [countColumn]);
    forall i | 0 <= i < |out|
      ensures HasAll(out[i], CaseKeys) && countColumn in out[i] &&
        out[i][countColumn] == Num(GroupCount(prepared, CaseKeys, Project(out[i], CaseKeys)))
    {
      CaseCountsCount(cases, dateColumn, countColumn, i);
    }
    forall r | r in prepared && HasAll(r, CaseKeys)
      ensures exists i :: 0 <= i < |out| && Project(out[i], CaseKeys) == Project(r, CaseKeys)
    {
      CaseCountsCover(cases, dateColumn, countColumn, r);
    }
  }

  /** Merging the confirmed and the deceased count tables, as this model
      assumes the library merge does it: a full outer merge on the columns the
      two share, which are the grouping columns. */
  function MergeCounts(confirmed: seq<Row>, deceased: seq<Row>): seq<Row>
  {
    Merge(confirmed, deceased, CaseKeys, Outer)
  }

  /** `m` carries the confirmed count of `x` and the deceased count of `y`. */
  predicate CarriesBoth(m: Row, x: Row, y: Row)
  {
    "new_confirmed" in x && "new_deceased" in y && "new_confirmed" in m && "new_deceased" in m &&
    m["new_confirmed"] == x["new_confirmed"] && m["new_deceased"] == y["new_deceased"]
  }

  /** The outer merge of the count tables `c` and `d` loses neither: every
      record of `c` is there, merged with the record of `d` of the same date,
      location, age and sex into one record that carries both counts, or
      alone; every record of `d` without a partner in `c` is there on its
      own, as often as `d` holds it; and nothing else is. */
  ghost predicate KeepsBoth(c: seq<Row>, d: seq<Row>)
  {
    var out := MergeCounts(c, d);
    && (forall o :: o in out <==>
          (exists x :: x in c && MadeFrom(o, x, d, CaseKeys, true)) || (o in d && !HasPartner(o, c, CaseKeys)))
    && (forall x :: x in c ==> exists o :: o in out && MadeFrom(o, x, d, CaseKeys, true))
    && (forall x, y :: x in c && y in d && Agree(x, y, CaseKeys) ==>
          x + y in out && CarriesBoth(x + y, x, y))
    && (forall y :: y in d && !HasPartner(y, c, CaseKeys) ==> multiset(out)[y] >= multiset(d)[y])
  }

  /** Two count tables, one holding only `new_confirmed` and one only
      `new_deceased`, merge without loss. */
  lemma OuterMergeCounts(c: seq<Row>, d: seq<Row>)
    requires forall x :: x in c ==> "new_confirmed" in x && "new_deceased" !in x
    requires forall y :: y in d ==> "new_deceased" in y && "new_confirmed" !in y
    ensures KeepsBoth(c, d)
  {
    OuterMergeMembers(c, d, CaseKeys);
    forall x, y | x in c && y in d ensures CarriesBoth(x + y, x, y) {
      assert "new_confirmed" !in y;
    }
  }

  /** `table_multimerge` of the confirmed and deceased daily counts loses
      neither table, as `KeepsBoth` states. */
  lemma MergeCountsKeepsBoth(casesConfirmed: seq<Row>, casesDeceased: seq<Row>)
    ensures KeepsBoth(CaseCounts(casesConfirmed, "date_new_confirmed", "new_confirmed"),
                      CaseCounts(casesDeceased, "date_new_deceased", "new_deceased"))
  {
    CountTable(casesConfirmed, "date_new_confirmed", "new_confirmed", "new_deceased");
    CountTable(casesDeceased, "date_new_deceased", "new_deceased", "new_confirmed");
    OuterMergeCounts(CaseCounts(casesConfirmed, "date_new_confirmed", "new_confirmed"),
                     CaseCounts(casesDeceased, "date_new_deceased", "new_deceased"));
  }

  /** Every record of a daily count table holds its count column and not the other. */
  lemma CountTable(cases: seq<Row>, dateColumn: string, countColumn: string, other: string)
    requires countColumn !in CaseKeys && other !in CaseKeys && other != countColumn
    ensures forall x :: x in CaseCounts(cases, dateColumn, countColumn) ==> countColumn in x && other !in x
  {
    forall x | x in CaseCounts(cases, dateColumn, countColumn) ensures countColumn in x && other !in x {
      CountColumns(cases, dateColumn, countColumn, other, x);
    }
  }

  /** A daily count record holds its count column and no other count. */
  lemma CountColumns(cases: seq<Row>, dateColumn: string, countColumn: string, other: string, x: Row)
    requires countColumn !in CaseKeys && other !in CaseKeys && other != countColumn
    requires x in CaseCounts(cases, dateColumn, countColumn)
    ensures countColumn in x && other !in x
  {
    var out := CaseCounts(cases, dateColumn, countColumn);
    GroupSumTotals(CaseOnes(cases, dateColumn, countColumn), CaseKeys, [countColumn]);
    var a :| 0 <= a < |out| && out[a] == x;
  }

  // ---------------------------------------------------------------------------
  // Dates and the province gazetteer

  /** The date of one record rewritten from day/month/year to ISO form by the
      parser `isoDate`, a parameter; a date it rejects becomes missing. */
  function IsoDateIn(r: Row, isoDate: string -> Option<string>): Row
  {
    if "date" in r && r["date"].Text? then
      match isoDate(r["date"].text)
      case Some(d) => r["date" := Text(d)]
      case None => r - {"date"}
    else r
  }

  /** Every date of the table rewritten to ISO form. */
  function IsoDates(rows: seq<Row>, isoDate: string -> Option<string>): seq<Row>
  {
    seq(|rows|, i requires 0 <= i < |rows| => IsoDateIn(rows[i], isoDate))
  }

  /** One record of the province gazetteer. */
  datatype Province = Province(provinceName: string, subregion1Code: string, subregion1Name: string)

  /** The gazetteer as a table whose province names went through `fuzzy`. */
  function GazetteerRows(provinces: seq<Province>, fuzzy: string -> string): seq<Row>
  {
    seq(|provinces|, i requires 0 <= i < |provinces| =>
      map["province_name" := Text(fuzzy(provinces[i].provinceName)),
          "subregion1_code" := Text(provinces[i].subregion1Code),
          "subregion1_name" := Text(provinces[i].subregion1Name)])
  }

  /** The data joined with the gazetteer: an inner join on the one column
      they share, `province_name`. */
  function JoinGazetteer(rows: seq<Row>, provinces: seq<Province>, fuzzy: string -> string): seq<Row>
  {
    Merge(rows, GazetteerRows(provinces, fuzzy), ["province_name"], Inner)
  }

  /** True when the record's province is the normalised name of `p`. */
  predicate NamesProvince(r: Row, p: Province, fuzzy: string -> string)
  {
    "province_name" in r && r["province_name"] == Text(fuzzy(p.provinceName))
  }

  lemma AgreeWithGazetteerRow(l: Row, provinces: seq<Province>, fuzzy: string -> string, i: int)
    requires 0 <= i < |provinces|
    ensures Agree(l, GazetteerRows(provinces, fuzzy)[i], ["province_name"]) <==> NamesProvince(l, provinces[i], fuzzy)
  {
    var g := GazetteerRows(provinces, fuzzy)[i];
    if NamesProvince(l, provinces[i], fuzzy) {
      assert Project(l, ["province_name"]) == Project(g, ["province_name"]);
    }
    if Agree(l, g, ["province_name"]) {
      assert "province_name" in Project(g, ["province_name"]);
    }
  }

  /** Every record of the gazetteer join is a data record widened by the
      gazetteer entry its normalised province names. */
  lemma GazetteerJoinSound(rows: seq<Row>, provinces: seq<Province>, fuzzy: string -> string, o: Row)
    requires o in JoinGazetteer(rows, provinces, fuzzy)
    ensures exists l, i :: (l in rows && 0 <= i < |provinces| && NamesProvince(l, provinces[i], fuzzy) &&
      o == l + GazetteerRows(provinces, fuzzy)[i])
  {
    var gaz := GazetteerRows(provinces, fuzzy);
    MergeLeftwardMembers(rows, gaz, ["province_name"], false, o);
    var l :| l in rows && MadeFrom(o, l, gaz, ["province_name"], false);
    var g :| g in gaz && Agree(l, g, ["province_name"]) && o == l + g;
    var i :| 0 <= i < |gaz| && gaz[i] == g;
    AgreeWithGazetteerRow(l, provinces, fuzzy, i);
  }

  /** The gazetteer join keeps every data record whose normalised province
      names a gazetteer entry, widened by that entry. */
  lemma GazetteerJoinComplete(rows: seq<Row>, provinces: seq<Province>, fuzzy: string -> string, l: Row, i: int)
    requires l in rows && 0 <= i < |provinces| && NamesProvince(l, provinces[i], fuzzy)
    ensures l + GazetteerRows(provinces, fuzzy)[i] in JoinGazetteer(rows, provinces, fuzzy)
  {
    var gaz := GazetteerRows(provinces, fuzzy);
    var o := l + gaz[i];
    AgreeWithGazetteerRow(l, provinces, fuzzy, i);
    assert gaz[i] in gaz;
    assert MadeFrom(o, l, gaz, ["province_name"], false);
    MergeLeftwardMembers(rows, gaz, ["province_name"], false, o);
  }

  // ---------------------------------------------------------------------------
  // Subregion1 rollup and district rows

  /** The grouping columns of the subregion1 rollup. */
  const Subregion1Keys: seq<string> := ["date", "country_code", "subregion1_code", "age", "sex"]

  /** The count columns that the rollup sums. */
  const Metrics: seq<string> := ["new_confirmed", "new_deceased"]

  /** The data without its district column, summed per date, country,
      region, age and sex: the record of a region and day sums its districts; a missing count adds
      nothing, and a record missing a grouping column is dropped. The result
      has no `subregion2_name` column, which is what assigning None to it
      leaves in this model. */
  function Subregion1(data: seq<Row>): seq<Row>
  {
    GroupSum(DropColumn(data, "subregion2_name"), Subregion1Keys, Metrics)
  }

  /** The district records: the normalised district name moves to
      `match_string` and `subregion2_name` is set to "". */
  function Districts(data: seq<Row>): seq<Row>
  {
    Assign(RenameColumn(data, "subregion2_name", "match_string"), "subregion2_name", Text(""))
  }

  /** The district record of `r` before disambiguation: its district name
      moved to `match_string` and `subregion2_name` blank. */
  function DistrictNamed(r: Row): Row
  {
    RenameIn(r, "subregion2_name", "match_string")["subregion2_name" := Text("")]
  }

  /** What the disambiguated district record of `r` looks like. */
  function DistrictOf(r: Row): Row
  {
    ApplyRules(DistrictNamed(r), CollisionRules)
  }

  /** Rewriting the colliding names of the district table gives `DistrictOf` of each record. */
  lemma DistrictsOfData(data: seq<Row>)
    ensures |Districts(data)| == |data|
    ensures forall i :: 0 <= i < |data| ==> ApplyRules(Districts(data)[i], CollisionRules) == DistrictOf(data[i])
  {
  }

  /** A district record agrees with its source record on every column but
      the district name columns. */
  lemma DistrictOfKeeps(r: Row, c: string)
    requires c != "match_string" && c != "subregion2_name"
    ensures (c in DistrictOf(r) <==> c in r) && (c in r ==> DistrictOf(r)[c] == r[c])
  {
    ApplyRulesKeepsOtherColumns(DistrictNamed(r), CollisionRules, c);
  }

  /** A region record carries no `subregion2_name`. */
  predicate IsSubregion1Row(r: Row)
  {
    "subregion2_name" !in r
  }

  /** A district record carries an empty `subregion2_name`. */
  predicate IsDistrictRow(r: Row)
  {
    "subregion2_name" in r && r["subregion2_name"] == Text("")
  }

  // ---------------------------------------------------------------------------
  // District name disambiguation

  /** Two provinces that share a district name. */
  datatype CollisionRule = CollisionRule(province1: string, province2: string, district: string)

  /** The district names that occur in two provinces, as normalised names. */
  const CollisionRules: seq<CollisionRule> := [
    CollisionRule("lima", "canete", "sanluis"),
    CollisionRule("lima", "yauyos", "miraflores"),
    CollisionRule("ica", "chincha", "pueblonuevo"),
    CollisionRule("canete", "huarochiri", "sanantonio"),
    CollisionRule("bolognesi", "huaylas", "huallanca")
  ]

  /** True when the record lies in `province` and its match string is `district`. */
  predicate Masked(r: Row, province: string, district: string)
  {
    "province_name" in r && r["province_name"] == Text(province) &&
    "match_string" in r && r["match_string"] == Text(district)
  }

  /** One masked assignment on one record: a record of the province whose
      match string is the district gets `district, province` instead. */
  function Retarget(r: Row, province: string, district: string): Row
  {
    if Masked(r, province, district) then r["match_string" := Text(district + ", " + province)] else r
  }

  /** One rule: its first province, then its second. */
  function ApplyRule(r: Row, rule: CollisionRule): Row
  {
    Retarget(Retarget(r, rule.province1, rule.district), rule.province2, rule.district)
  }

  /** The rules in order. */
  function ApplyRules(r: Row, rules: seq<CollisionRule>): Row
    decreases |rules|
  {
    if rules == [] then r
    else ApplyRule(ApplyRules(r, rules[..|rules| - 1]), rules[|rules| - 1])
  }

  /** True when some rule names the record's province and its match string. */
  predicate Collides(r: Row, rules: seq<CollisionRule>)
  {
    exists k :: 0 <= k < |rules| &&
      (Masked(r, rules[k].province1, rules[k].district) || Masked(r, rules[k].province2, rules[k].district))
  }

  /** No rule's district name contains a comma, so no rewritten match string
      equals a rule's district. */
  predicate CommaFree(rules: seq<CollisionRule>)
  {
    forall k :: 0 <= k < |rules| ==> ',' !in rules[k].district
  }

  /** The match string `district, province` a colliding record ends with. */
  function Qualified(r: Row): Row
    requires "match_string" in r && r["match_string"].Text?
    requires "province_name" in r && r["province_name"].Text?
  {
    r["match_string" := Text(r["match_string"].text + ", " + r["province_name"].text)]
  }

  lemma QualifiedHasComma(s: string, p: string)
    ensures ',' in s + ", " + p
  {
    assert (s + ", " + p)[|s|] == ',';
  }

  /** Applying the rules rewrites exactly the records a rule names, to
      `district, province`, and leaves every other record as it is. */
  lemma {:induction false} ApplyRulesSpec(r: Row, rules: seq<CollisionRule>)
    requires CommaFree(rules)
    ensures Collides(r, rules) ==> ApplyRules(r, rules) == Qualified(r)
    ensures !Collides(r, rules) ==> ApplyRules(r, rules) == r
    decreases |rules|
  {
    if rules != [] {
      var n := |rules| - 1;
      var init := rules[..n];
      var rule := rules[n];
      assert CommaFree(init) by {
        forall k | 0 <= k < |init| ensures ',' !in init[k].district { assert init[k] == rules[k]; }
      }
      ApplyRulesSpec(r, init);
      if Collides(r, init) {
        var q := Qualified(r);
        QualifiedHasComma(r["match_string"].text, r["province_name"].text);
        assert !Masked(q, rule.province1, rule.district) && !Masked(q, rule.province2, rule.district);
        var k :| 0 <= k < |init| &&
          (Masked(r, init[k].province1, init[k].district) || Masked(r, init[k].province2, init[k].district));
        assert init[k] == rules[k];
      } else {
        assert forall k :: 0 <= k < n ==> init[k] == rules[k];
        if Masked(r, rule.province1, rule.district) {
          QualifiedHasComma(rule.district, rule.province1);
          assert !Masked(Qualified(r), rule.province2, rule.district);
        }
      }
    }
  }

  /** Running the disambiguation a second time changes nothing. */
  lemma ApplyRulesIdempotent(r: Row, rules: seq<CollisionRule>)
    requires CommaFree(rules)
    ensures ApplyRules(ApplyRules(r, rules), rules) == ApplyRules(r, rules)
  {
    ApplyRulesSpec(r, rules);
    if Collides(r, rules) {
      var q := Qualified(r);
      QualifiedHasComma(r["match_string"].text, r["province_name"].text);
      assert !Collides(q, rules);
      ApplyRulesSpec(q, rules);
    }
  }

  /** The same district in the two provinces of a rule ends with two
      different match strings. */
  lemma CollidingDistrictsSeparate(a: Row, b: Row, rules: seq<CollisionRule>, k: int)
    requires CommaFree(rules) && 0 <= k < |rules|
    requires rules[k].province1 != rules[k].province2
    requires Masked(a, rules[k].province1, rules[k].district)
    requires Masked(b, rules[k].province2, rules[k].district)
    ensures "match_string" in ApplyRules(a, rules) && "match_string" in ApplyRules(b, rules)
    ensures ApplyRules(a, rules)["match_string"] != ApplyRules(b, rules)["match_string"]
  {
    ApplyRulesSpec(a, rules);
    ApplyRulesSpec(b, rules);
    var d := rules[k].district;
    var sa := d + ", " + rules[k].province1;
    var sb := d + ", " + rules[k].province2;
    assert sa[|d| + 2..] == rules[k].province1;
    assert sb[|d| + 2..] == rules[k].province2;
  }

  /** The disambiguation changes nothing but the match string. */
  lemma {:induction false} ApplyRulesKeepsOtherColumns(r: Row, rules: seq<CollisionRule>, c: string)
    requires c != "match_string"
    ensures (c in ApplyRules(r, rules) <==> c in r) && (c in r ==> ApplyRules(r, rules)[c] == r[c])
    ensures "match_string" in ApplyRules(r, rules) <==> "match_string" in r
    decreases |rules|
  {
    if rules != [] {
      ApplyRulesKeepsOtherColumns(r, rules[..|rules| - 1], c);
    }
  }

  lemma PeruRulesCommaFree()
    ensures CommaFree(CollisionRules)
  {
  }

  lemma SanLuisQualified(r: Row, province: string)
    requires province == "lima" || province == "canete"
    requires Masked(r, province, "sanluis")
    ensures "match_string" in ApplyRules(r, CollisionRules)
    ensures ApplyRules(r, CollisionRules)["match_string"] == Text("sanluis, " + province)
  {
    PeruRulesCommaFree();
    ApplyRulesSpec(r, CollisionRules);
    assert Masked(r, CollisionRules[0].province1, CollisionRules[0].district) ||
      Masked(r, CollisionRules[0].province2, CollisionRules[0].district);
  }

  /** Two districts named `sanluis`, one in `lima` and one in `canete`, end
      with the match strings `sanluis, lima` and `sanluis, canete`. */
  lemma SanLuisSeparates(a: Row, b: Row)
    requires Masked(a, "lima", "sanluis") && Masked(b, "canete", "sanluis")
    ensures "match_string" in ApplyRules(a, CollisionRules) && "match_string" in ApplyRules(b, CollisionRules)
    ensures ApplyRules(a, CollisionRules)["match_string"] == Text("sanluis, lima")
    ensures ApplyRules(b, CollisionRules)["match_string"] == Text("sanluis, canete")
  {
    SanLuisQualified(a, "lima");
    SanLuisQualified(b, "canete");
  }

  /** One masked assignment over the table, for one province and district:
      every masked record is rewritten. */
  method MaskAssign(data: seq<Row>, province: string, district: string) returns (out: seq<Row>)
    ensures |out| == |data|
    ensures forall i :: 0 <= i < |out| ==> out[i] == Retarget(data[i], province, district)
  {
    out := data;
    for i := 0 to |data|
      invariant |out| == |data|
      invariant forall j :: 0 <= j < i ==> out[j] == Retarget(data[j], province, district)
      invariant forall j :: i <= j < |data| ==> out[j] == data[j]
    {
      if Masked(out[i], province, district) {
        out := out[i := out[i]["match_string" := Text(district + ", " + province)]];
      }
    }
  }

  /** The disambiguation loop: for each rule, for each of its two provinces,
      rewrite the masked records. */
  method Disambiguate(data: seq<Row>, rules: seq<CollisionRule>) returns (out: seq<Row>)
    ensures |out| == |data|
    ensures forall i :: 0 <= i < |out| ==> out[i] == ApplyRules(data[i], rules)
  {
    out := data;
    for k := 0 to |rules|
      invariant |out| == |data|
      invariant forall i :: 0 <= i < |out| ==> out[i] == ApplyRules(data[i], rules[..k])
    {
      var rule := rules[k];
      var provinces := [rule.province1, rule.province2];
      for p := 0 to |provinces|
        invariant |out| == |data|
        invariant forall i :: 0 <= i < |out| ==>
          out[i] == if p == 0 then ApplyRules(data[i], rules[..k])
                    else if p == 1 then Retarget(ApplyRules(data[i], rules[..k]), rule.province1, rule.district)
                    else ApplyRule(ApplyRules(data[i], rules[..k]), rule)
      {
        out := MaskAssign(out, provinces[p], rule.district);
      }
      assert rules[..k + 1][..k] == rules[..k];
    }
    assert rules[..|rules|] == rules;
  }

  /** After disambiguation no district record still carries a bare name that
      collides in its province. */
  lemma ApplyRulesLeavesNoCollision(r: Row, rules: seq<CollisionRule>)
    requires CommaFree(rules)
    ensures !Collides(ApplyRules(r, rules), rules)
  {
    ApplyRulesSpec(r, rules);
    if Collides(r, rules) {
      QualifiedHasComma(r["match_string"].text, r["province_name"].text);
    }
  }

  // ---------------------------------------------------------------------------
  // The whole source

  /** A record stamped with the country code of Peru. */
  predicate StampedPE(r: Row)
  {
    "country_code" in r && r["country_code"] == Text("PE")
  }

  /** A joined record: stamped, and in a gazetteer province whose region code it carries. */
  predicate InGazetteer(r: Row, provinces: seq<Province>, fuzzy: string -> string)
  {
    exists p :: p in provinces && NamesProvince(r, p, fuzzy) &&
      "subregion1_code" in r && r["subregion1_code"] == Text(p.subregion1Code)
  }

  /** After dropping the undated records and stamping the country, every record
      has a date and is stamped `PE`, and no dated record was lost. */
  lemma DatedAndStamped(counts: seq<Row>)
    ensures var out := Assign(DropMissing(counts, "date"), "country_code", Text("PE"));
      && (forall i :: 0 <= i < |out| ==> "date" in out[i] && StampedPE(out[i]))
      && (forall r :: r in counts && "date" in r ==> r["country_code" := Text("PE")] in out)
  {
    var dated := DropMissing(counts, "date");
    var out := Assign(dated, "country_code", Text("PE"));
    forall i | 0 <= i < |out| ensures "date" in out[i] && StampedPE(out[i]) {
      assert dated[i] in dated;
    }
    forall r | r in counts && "date" in r ensures r["country_code" := Text("PE")] in out {
      assert r in dated;
      var i :| 0 <= i < |dated| && dated[i] == r;
      assert out[i] == r["country_code" := Text("PE")];
    }
  }

  lemma PreparedStamped(data: seq<Row>, isoDate: string -> Option<string>, fuzzy: string -> string)
    ensures var stamped := Assign(data, "country_code", Text("PE"));
      forall r :: r in MapText(MapText(IsoDates(stamped, isoDate), "province_name", fuzzy), "subregion2_name", fuzzy)
        ==> StampedPE(r)
  {
    var d2 := Assign(data, "country_code", Text("PE"));
    var d3 := IsoDates(d2, isoDate);
    var d4 := MapText(d3, "province_name", fuzzy);
    var d5 := MapText(d4, "subregion2_name", fuzzy);
    forall r | r in d5 ensures StampedPE(r) {
      var i :| 0 <= i < |d5| && d5[i] == r;
      assert StampedPE(d2[i]);
      assert StampedPE(d3[i]);
      assert StampedPE(d4[i]);
    }
  }

  /** A record of the gazetteer join is stamped and in the gazetteer. */
  lemma JoinedRow(data: seq<Row>, provinces: seq<Province>, fuzzy: string -> string, o: Row)
    requires forall r :: r in data ==> StampedPE(r)
    requires o in JoinGazetteer(data, provinces, fuzzy)
    ensures StampedPE(o) && InGazetteer(o, provinces, fuzzy)
    ensures StampedPE(o - {"subregion1_name"}) && InGazetteer(o - {"subregion1_name"}, provinces, fuzzy)
  {
    var gaz := GazetteerRows(provinces, fuzzy);
    GazetteerJoinSound(data, provinces, fuzzy, o);
    var l, i :| l in data && 0 <= i < |provinces| && NamesProvince(l, provinces[i], fuzzy) && o == l + gaz[i];
    var p := provinces[i];
    GazetteerRowFields(provinces, fuzzy, i);
    assert o["country_code"] == l["country_code"];
    assert o["province_name"] == Text(fuzzy(p.provinceName)) && o["subregion1_code"] == Text(p.subregion1Code);
    assert p in provinces;
    var d := o - {"subregion1_name"};
    assert d["country_code"] == o["country_code"];
    assert d["province_name"] == o["province_name"] && d["subregion1_code"] == o["subregion1_code"];
  }

  lemma GazetteerRowFields(provinces: seq<Province>, fuzzy: string -> string, i: nat)
    requires i < |provinces|
    ensures var g := GazetteerRows(provinces, fuzzy)[i];
      && "country_code" !in g
      && "province_name" in g && g["province_name"] == Text(fuzzy(provinces[i].provinceName))
      && "subregion1_code" in g && g["subregion1_code"] == Text(provinces[i].subregion1Code)
  {
  }

  lemma JoinedRows(data: seq<Row>, provinces: seq<Province>, fuzzy: string -> string)
    requires forall r :: r in data ==> StampedPE(r)
    ensures forall r :: r in DropColumn(JoinGazetteer(data, provinces, fuzzy), "subregion1_name") ==>
      StampedPE(r) && InGazetteer(r, provinces, fuzzy)
  {
    var joined := JoinGazetteer(data, provinces, fuzzy);
    var out := DropColumn(joined, "subregion1_name");
    forall r | r in out ensures StampedPE(r) && InGazetteer(r, provinces, fuzzy) {
      var i :| 0 <= i < |out| && out[i] == r;
      JoinedRow(data, provinces, fuzzy, joined[i]);
    }
  }

  lemma ProjectSame(a: Row, b: Row, keys: seq<string>)
    requires forall c :: c in keys ==> (c in a <==> c in b) && (c in a ==> a[c] == b[c])
    ensures Project(a, keys) == Project(b, keys) && (HasAll(a, keys) <==> HasAll(b, keys))
  {
  }

  /** Group totals only look at the grouping columns and the summed column. */
  lemma {:induction false} GroupTotalPointwise(a: seq<Row>, b: seq<Row>, keys: seq<string>, k: Row, v: string)
    requires |a| == |b|
    requires forall i :: 0 <= i < |a| ==>
      Project(a[i], keys) == Project(b[i], keys) && (HasAll(a[i], keys) <==> HasAll(b[i], keys)) &&
      NumOr0(a[i], v) == NumOr0(b[i], v)
    ensures GroupTotal(a, keys, k, v) == GroupTotal(b, keys, k, v)
    decreases |a|
  {
    if a != [] {
      GroupTotalPointwise(a[..|a| - 1], b[..|b| - 1], keys, k, v);
    }
  }

  /** A district record and the rollup's record for the same district agree
      on every grouping column and every count. */
  lemma DistrictMatchesRollupRecord(r: Row)
    ensures Project(r - {"subregion2_name"}, Subregion1Keys) == Project(DistrictOf(r), Subregion1Keys)
    ensures HasAll(r - {"subregion2_name"}, Subregion1Keys) <==> HasAll(DistrictOf(r), Subregion1Keys)
    ensures forall v :: v in Metrics ==> NumOr0(r - {"subregion2_name"}, v) == NumOr0(DistrictOf(r), v)
  {
    forall c | c in Subregion1Keys || c in Metrics
      ensures (c in r - {"subregion2_name"} <==> c in DistrictOf(r))
      ensures c in DistrictOf(r) ==> (r - {"subregion2_name"})[c] == DistrictOf(r)[c]
    {
      DistrictOfKeeps(r, c);
    }
    ProjectSame(r - {"subregion2_name"}, DistrictOf(r), Subregion1Keys);
  }

  /** The district records agree with the rollup's input on every grouping
      column and every count. */
  lemma DistrictsMatchRollupInput(data: seq<Row>, dis: seq<Row>, v: string)
    requires |dis| == |data|
    requires forall i :: 0 <= i < |dis| ==> dis[i] == DistrictOf(data[i])
    requires v in Metrics
    ensures forall k :: GroupTotal(DropColumn(data, "subregion2_name"), Subregion1Keys, k, v) == GroupTotal(dis, Subregion1Keys, k, v)
  {
    var input := DropColumn(data, "subregion2_name");
    forall i | 0 <= i < |dis|
      ensures Project(input[i], Subregion1Keys) == Project(dis[i], Subregion1Keys)
      ensures HasAll(input[i], Subregion1Keys) <==> HasAll(dis[i], Subregion1Keys)
      ensures NumOr0(input[i], v) == NumOr0(dis[i], v)
    {
      DistrictMatchesRollupRecord(data[i]);
    }
    forall k ensures GroupTotal(input, Subregion1Keys, k, v) == GroupTotal(dis, Subregion1Keys, k, v) {
      GroupTotalPointwise(input, dis, Subregion1Keys, k, v);
    }
  }

  /** Every record of `sub` is a region record, stamped, with all grouping
      columns and all counts. */
  predicate RegionRecords(sub: seq<Row>)
  {
    forall i :: 0 <= i < |sub| ==>
      IsSubregion1Row(sub[i]) && StampedPE(sub[i]) && HasAll(sub[i], Subregion1Keys) && HasAll(sub[i], Metrics)
  }

  /** No two records of `sub` share a date, region, age and sex. */
  predicate OnePerGroup(sub: seq<Row>)
  {
    forall i, j :: 0 <= i < j < |sub| ==> Project(sub[i], Subregion1Keys) != Project(sub[j], Subregion1Keys)
  }

  /** Each count of each record of `sub` is that count summed over the
      records of `rows` in its group. */
  predicate SumsOver(sub: seq<Row>, rows: seq<Row>)
  {
    forall i, v :: 0 <= i < |sub| && v in Metrics ==>
      v in sub[i] && sub[i][v] == Num(GroupTotal(rows, Subregion1Keys, Project(sub[i], Subregion1Keys), v))
  }

  /** Every record of `rows` with all grouping columns has its group in `sub`. */
  predicate Covers(sub: seq<Row>, rows: seq<Row>)
  {
    forall r :: r in rows && HasAll(r, Subregion1Keys) ==>
      exists i :: 0 <= i < |sub| && Project(sub[i], Subregion1Keys) == Project(r, Subregion1Keys)
  }

  /** Every record of `dis` is a stamped district record in a gazetteer
      province, without a bare colliding name. */
  predicate DistrictRecords(dis: seq<Row>, provinces: seq<Province>, fuzzy: string -> string)
  {
    forall i :: 0 <= i < |dis| ==>
      IsDistrictRow(dis[i]) && StampedPE(dis[i]) && InGazetteer(dis[i], provinces, fuzzy) &&
      !Collides(dis[i], CollisionRules)
  }

  lemma DistrictRowsShape(data: seq<Row>, dis: seq<Row>, provinces: seq<Province>, fuzzy: string -> string)
    requires forall r :: r in data ==> StampedPE(r) && InGazetteer(r, provinces, fuzzy)
    requires |dis| == |data|
    requires forall i :: 0 <= i < |dis| ==> dis[i] == DistrictOf(data[i])
    ensures DistrictRecords(dis, provinces, fuzzy)
  {
    PeruRulesCommaFree();
    forall i | 0 <= i < |dis|
      ensures IsDistrictRow(dis[i]) && StampedPE(dis[i]) && InGazetteer(dis[i], provinces, fuzzy)
      ensures !Collides(dis[i], CollisionRules)
    {
      var r := data[i];
      assert r in data;
      var d := DistrictNamed(r);
      ApplyRulesKeepsOtherColumns(d, CollisionRules, "subregion2_name");
      DistrictOfKeeps(r, "country_code");
      DistrictOfKeeps(r, "province_name");
      DistrictOfKeeps(r, "subregion1_code");
      var p :| p in provinces && NamesProvince(r, p, fuzzy) &&
        "subregion1_code" in r && r["subregion1_code"] == Text(p.subregion1Code);
      assert NamesProvince(dis[i], p, fuzzy);
      ApplyRulesLeavesNoCollision(d, CollisionRules);
    }
  }

  /** A subregion record built from the group of a stamped record without a
      district column keeps that shape and has every key and metric. */
  lemma Subregion1GroupRow(input: seq<Row>, r: Row)
    requires StampedPE(r) && "subregion2_name" !in r && HasAll(r, Subregion1Keys)
    ensures var g := GroupRow(input, Subregion1Keys, Metrics, Project(r, Subregion1Keys));
      IsSubregion1Row(g) && StampedPE(g) && HasAll(g, Subregion1Keys) && HasAll(g, Metrics)
  {
    var k := Project(r, Subregion1Keys);
    assert "country_code" in Subregion1Keys;
    assert "subregion2_name" !in k;
  }

  lemma Subregion1Record(data: seq<Row>, i: int)
    requires forall r :: r in data ==> StampedPE(r)
    requires 0 <= i < |Subregion1(data)|
    ensures var g := Subregion1(data)[i];
      IsSubregion1Row(g) && StampedPE(g) && HasAll(g, Subregion1Keys) && HasAll(g, Metrics)
  {
    var input := DropColumn(data, "subregion2_name");
    var ks := GroupKeys(input, Subregion1Keys);
    var k := ks[i];
    assert k in ks;
    var r :| r in input && InGroup(r, Subregion1Keys, k);
    var j :| 0 <= j < |input| && input[j] == r;
    assert data[j] in data;
    assert r == data[j] - {"subregion2_name"};
    Subregion1GroupRow(input, r);
  }

  lemma Subregion1Records(data: seq<Row>)
    requires forall r :: r in data ==> StampedPE(r)
    ensures RegionRecords(Subregion1(data))
  {
    forall i | 0 <= i < |Subregion1(data)|
      ensures var g := Subregion1(data)[i];
        IsSubregion1Row(g) && StampedPE(g) && HasAll(g, Subregion1Keys) && HasAll(g, Metrics)
    {
      Subregion1Record(data, i);
    }
  }

  lemma Subregion1Groups(data: seq<Row>)
    ensures OnePerGroup(Subregion1(data))
    ensures Covers(Subregion1(data), DropColumn(data, "subregion2_name"))
  {
    GroupSumOnePerGroup(DropColumn(data, "subregion2_name"), Subregion1Keys, Metrics);
  }

  lemma Subregion1Sums(data: seq<Row>)
    ensures SumsOver(Subregion1(data), DropColumn(data, "subregion2_name"))
  {
    GroupSumTotals(DropColumn(data, "subregion2_name"), Subregion1Keys, Metrics);
  }

  lemma SumsCarryOver(sub: seq<Row>, a: seq<Row>, b: seq<Row>)
    requires SumsOver(sub, a)
    requires forall k, v :: v in Metrics ==> GroupTotal(a, Subregion1Keys, k, v) == GroupTotal(b, Subregion1Keys, k, v)
    ensures SumsOver(sub, b)
  {
  }

  lemma CoversCarryOver(sub: seq<Row>, data: seq<Row>, dis: seq<Row>)
    requires Covers(sub, DropColumn(data, "subregion2_name"))
    requires |dis| == |data|
    requires forall i :: 0 <= i < |dis| ==> dis[i] == DistrictOf(data[i])
    ensures Covers(sub, dis)
  {
    var input := DropColumn(data, "subregion2_name");
    forall r | r in dis && HasAll(r, Subregion1Keys)
      ensures exists i :: 0 <= i < |sub| && Project(sub[i], Subregion1Keys) == Project(r, Subregion1Keys)
    {
      var j :| 0 <= j < |dis| && dis[j] == r;
      DistrictMatchesRollupRecord(data[j]);
      assert input[j] in input;
    }
  }

  lemma WhereNone(a: seq<Row>, p: Row -> bool)
    requires forall r :: r in a ==> !p(r)
    ensures Where(a, p) == []
  {
  }

  lemma {:induction false} WhereAll(b: seq<Row>, p: Row -> bool)
    requires forall r :: r in b ==> p(r)
    ensures Where(b, p) == b
    decreases |b|
  {
    if b != [] {
      WhereAll(b[1..], p);
    }
  }

  lemma {:induction false} WhereConcat(a: seq<Row>, b: seq<Row>, p: Row -> bool)
    ensures Where(a + b, p) == Where(a, p) + Where(b, p)
    decreases |a|
  {
    if a != [] {
      assert (a + b)[1..] == a[1..] + b;
      WhereConcat(a[1..], b, p);
    } else {
      assert a + b == b;
    }
  }

  lemma DistrictsOfOutput(sub: seq<Row>, dis: seq<Row>)
    requires RegionRecords(sub)
    requires forall i :: 0 <= i < |dis| ==> IsDistrictRow(dis[i])
    ensures Where(sub + dis, IsDistrictRow) == dis
  {
    WhereConcat(sub, dis, IsDistrictRow);
    WhereNone(sub, IsDistrictRow);
    WhereAll(dis, IsDistrictRow);
  }

  /** The concatenation holds region records first, then district records,
      each kind keeping its promises. */
  lemma AssembleKinds(sub: seq<Row>, dis: seq<Row>, provinces: seq<Province>, fuzzy: string -> string)
    requires RegionRecords(sub) && OnePerGroup(sub)
    requires DistrictRecords(dis, provinces, fuzzy)
    ensures var out := sub + dis;
      && (forall i :: 0 <= i < |out| ==> IsSubregion1Row(out[i]) || IsDistrictRow(out[i]))
      && (forall i, j :: 0 <= i < j < |out| && IsSubregion1Row(out[j]) ==> IsSubregion1Row(out[i]))
      && (forall i :: 0 <= i < |out| ==> StampedPE(out[i]))
      && (forall i :: 0 <= i < |out| && IsDistrictRow(out[i]) ==>
            InGazetteer(out[i], provinces, fuzzy) && !Collides(out[i], CollisionRules))
      && (forall i :: 0 <= i < |out| && IsSubregion1Row(out[i]) ==>
            HasAll(out[i], Subregion1Keys) && HasAll(out[i], Metrics))
      && (forall i, j :: 0 <= i < j < |out| && IsSubregion1Row(out[j]) ==>
            Project(out[i], Subregion1Keys) != Project(out[j], Subregion1Keys))
  {
    var out := sub + dis;
    forall i | 0 <= i < |out|
      ensures i < |sub| ==> out[i] == sub[i]
      ensures i >= |sub| ==> out[i] == dis[i - |sub|]
    {
    }
  }

  /** In the concatenation each region count sums the district records. */
  lemma AssembleSums(sub: seq<Row>, dis: seq<Row>, provinces: seq<Province>, fuzzy: string -> string)
    requires RegionRecords(sub) && SumsOver(sub, dis)
    requires DistrictRecords(dis, provinces, fuzzy)
    ensures var out := sub + dis;
      forall i, v :: 0 <= i < |out| && IsSubregion1Row(out[i]) && v in Metrics ==>
        v in out[i] && out[i][v] == Num(GroupTotal(Where(out, IsDistrictRow), Subregion1Keys, Project(out[i], Subregion1Keys), v))
  {
    var out := sub + dis;
    DistrictsOfOutput(sub, dis);
    forall i | 0 <= i < |out| && IsSubregion1Row(out[i]) ensures i < |sub| {
    }
  }

  /** In the concatenation each district record finds its region record. */
  lemma AssembleCovers(sub: seq<Row>, dis: seq<Row>, provinces: seq<Province>, fuzzy: string -> string)
    requires RegionRecords(sub) && Covers(sub, dis)
    requires DistrictRecords(dis, provinces, fuzzy)
    ensures var out := sub + dis;
      forall i :: 0 <= i < |out| && IsDistrictRow(out[i]) && HasAll(out[i], Subregion1Keys) ==>
        exists j :: 0 <= j < |out| && IsSubregion1Row(out[j]) && Project(out[j], Subregion1Keys) == Project(out[i], Subregion1Keys)
  {
    var out := sub + dis;
    forall i | 0 <= i < |out| && IsDistrictRow(out[i]) && HasAll(out[i], Subregion1Keys)
      ensures exists j :: 0 <= j < |out| && IsSubregion1Row(out[j]) && Project(out[j], Subregion1Keys) == Project(out[i], Subregion1Keys)
    {
      assert i >= |sub|;
      assert out[i] == dis[i - |sub|];
      assert out[i] in dis;
      var j :| 0 <= j < |sub| && Project(sub[j], Subregion1Keys) == Project(out[i], Subregion1Keys);
      assert out[j] == sub[j];
    }
  }

  /** What `parse_dataframes` promises of its output: regional records
      (no `subregion2_name`) come first, district records (`subregion2_name`
      blank) after them; every record is stamped `PE`; district records are in
      the gazetteer and their names no longer collide; regional records carry
      every key and metric, one record per key, each metric the sum over the
      district records of that region; every district record with all keys
      has its regional record. */
  predicate ParsedTable(out: seq<Row>, provinces: seq<Province>, fuzzy: string -> string)
  {
    && (forall i :: 0 <= i < |out| ==> IsSubregion1Row(out[i]) || IsDistrictRow(out[i]))
    && (forall i, j :: 0 <= i < j < |out| && IsSubregion1Row(out[j]) ==> IsSubregion1Row(out[i]))
    && (forall i :: 0 <= i < |out| ==> StampedPE(out[i]))
    && (forall i :: 0 <= i < |out| && IsDistrictRow(out[i]) ==>
          InGazetteer(out[i], provinces, fuzzy) && !Collides(out[i], CollisionRules))
    && (forall i :: 0 <= i < |out| && IsSubregion1Row(out[i]) ==>
          HasAll(out[i], Subregion1Keys) && HasAll(out[i], Metrics))
    && (forall i, j :: 0 <= i < j < |out| && IsSubregion1Row(out[j]) ==>
          Project(out[i], Subregion1Keys) != Project(out[j], Subregion1Keys))
    && (forall i, v :: 0 <= i < |out| && IsSubregion1Row(out[i]) && v in Metrics ==>
          v in out[i] && out[i][v] == Num(GroupTotal(Where(out, IsDistrictRow), Subregion1Keys, Project(out[i], Subregion1Keys), v)))
    && (forall i :: 0 <= i < |out| && IsDistrictRow(out[i]) && HasAll(out[i], Subregion1Keys) ==>
          exists j :: 0 <= j < |out| && IsSubregion1Row(out[j]) && Project(out[j], Subregion1Keys) == Project(out[i], Subregion1Keys))
  }

  /** The table `parse_dataframes` returns, assembled from the joined
      district records `data`: the regional rollup followed by the district
      records with their colliding names rewritten. */
  lemma AssembledTable(data: seq<Row>, districts: seq<Row>, provinces: seq<Province>, fuzzy: string -> string)
    requires forall r :: r in data ==> StampedPE(r) && InGazetteer(r, provinces, fuzzy)
    requires |districts| == |data| && forall i :: 0 <= i < |districts| ==> districts[i] == DistrictOf(data[i])
    ensures ParsedTable(Subregion1(data) + districts, provinces, fuzzy)
  {
    var subregion1 := Subregion1(data);
    Subregion1Records(data);
    Subregion1Groups(data);
    Subregion1Sums(data);
    DistrictRowsShape(data, districts, provinces, fuzzy);
    forall k, v | v in Metrics
      ensures GroupTotal(DropColumn(data, "subregion2_name"), Subregion1Keys, k, v) == GroupTotal(districts, Subregion1Keys, k, v)
    {
      DistrictsMatchRollupInput(data, districts, v);
    }
    SumsCarryOver(subregion1, DropColumn(data, "subregion2_name"), districts);
    CoversCarryOver(subregion1, data, districts);
    AssembleKinds(subregion1, districts, provinces, fuzzy);
    AssembleSums(subregion1, districts, provinces, fuzzy);
    AssembleCovers(subregion1, districts, provinces, fuzzy);
  }

  /** A district record is blank in `subregion2_name` and keeps the district
      name as its match string, qualified by the province exactly when a
      collision rule names the two; every other column is the source's. */
  lemma DistrictOfSpec(r: Row)
    ensures IsDistrictRow(DistrictOf(r))
    ensures "match_string" in DistrictOf(r) <==> "subregion2_name" in r || "match_string" in r
    ensures "subregion2_name" in r && !Collides(DistrictNamed(r), CollisionRules) ==>
      DistrictOf(r)["match_string"] == r["subregion2_name"]
    ensures "subregion2_name" in r && Collides(DistrictNamed(r), CollisionRules) ==>
      && r["subregion2_name"].Text?
      && "province_name" in r && r["province_name"].Text?
      && DistrictOf(r)["match_string"] == Text(r["subregion2_name"].text + ", " + r["province_name"].text)
    ensures forall c :: c != "match_string" && c != "subregion2_name" ==>
      (c in DistrictOf(r) <==> c in r) && (c in r ==> DistrictOf(r)[c] == r[c])
  {
    var d := DistrictNamed(r);
    PeruRulesCommaFree();
    ApplyRulesSpec(d, CollisionRules);
    ApplyRulesKeepsOtherColumns(d, CollisionRules, "subregion2_name");
    forall c | c != "match_string" && c != "subregion2_name"
      ensures (c in DistrictOf(r) <==> c in r) && (c in r ==> DistrictOf(r)[c] == r[c])
    {
      DistrictOfKeeps(r, c);
    }
    if Collides(d, CollisionRules) {
      var k :| 0 <= k < |CollisionRules| &&
        (Masked(d, CollisionRules[k].province1, CollisionRules[k].district) ||
         Masked(d, CollisionRules[k].province2, CollisionRules[k].district));
      assert d["province_name"] == r["province_name"];
    }
  }

  // ---------------------------------------------------------------------------
  // The gazetteer table

  /** One dated count record as the gazetteer join sees it: stamped `PE`,
      its date in ISO form and its province and district names normalised. */
  function PrepareRecord(r: Row, fuzzy: string -> string, isoDate: string -> Option<string>): Row
  {
    MapTextIn(MapTextIn(IsoDateIn(r["country_code" := Text("PE")], isoDate), "province_name", fuzzy), "subregion2_name", fuzzy)
  }

  /** The count records with a date, stamped, with ISO dates and normalised
      names, table operation by table operation. */
  function Prepared(counts: seq<Row>, fuzzy: string -> string, isoDate: string -> Option<string>): seq<Row>
  {
    MapText(MapText(IsoDates(Assign(DropMissing(counts, "date"), "country_code", Text("PE")), isoDate),
      "province_name", fuzzy), "subregion2_name", fuzzy)
  }

  /** The prepared table is the dated records, each prepared. */
  lemma PreparedAt(counts: seq<Row>, fuzzy: string -> string, isoDate: string -> Option<string>)
    ensures |Prepared(counts, fuzzy, isoDate)| == |DropMissing(counts, "date")|
    ensures forall i :: 0 <= i < |DropMissing(counts, "date")| ==>
      Prepared(counts, fuzzy, isoDate)[i] == PrepareRecord(DropMissing(counts, "date")[i], fuzzy, isoDate)
  {
  }

  /** The prepared records joined with the gazetteer, without `subregion1_name`. */
  function Gazetteered(counts: seq<Row>, provinces: seq<Province>, fuzzy: string -> string,
                       isoDate: string -> Option<string>): seq<Row>
  {
    DropColumn(JoinGazetteer(Prepared(counts, fuzzy, isoDate), provinces, fuzzy), "subregion1_name")
  }

  /** What the count record `r` becomes once joined with gazetteer entry `i`. */
  function JoinedRecord(r: Row, provinces: seq<Province>, fuzzy: string -> string,
                        isoDate: string -> Option<string>, i: int): Row
    requires 0 <= i < |provinces|
  {
    (PrepareRecord(r, fuzzy, isoDate) + GazetteerRows(provinces, fuzzy)[i]) - {"subregion1_name"}
  }

  /** True when the prepared `r` names gazetteer entry `i`'s province. */
  predicate JoinsEntry(r: Row, provinces: seq<Province>, fuzzy: string -> string,
                       isoDate: string -> Option<string>, i: int)
  {
    0 <= i < |provinces| && NamesProvince(PrepareRecord(r, fuzzy, isoDate), provinces[i], fuzzy)
  }

  /** Every prepared record is some dated count record, prepared. */
  lemma PreparedFrom(counts: seq<Row>, fuzzy: string -> string, isoDate: string -> Option<string>, l: Row)
    requires l in Prepared(counts, fuzzy, isoDate)
    ensures exists r :: r in counts && "date" in r && l == PrepareRecord(r, fuzzy, isoDate)
  {
    var dated := DropMissing(counts, "date");
    var prepared := Prepared(counts, fuzzy, isoDate);
    PreparedAt(counts, fuzzy, isoDate);
    var m :| 0 <= m < |prepared| && prepared[m] == l;
    assert dated[m] in dated;
  }

  /** Every record of the gazetteer table is a prepared record widened by the
      gazetteer entry its province names, without `subregion1_name`. */
  lemma GazetteeredFromJoin(counts: seq<Row>, provinces: seq<Province>, fuzzy: string -> string,
                            isoDate: string -> Option<string>, o: Row)
    requires o in Gazetteered(counts, provinces, fuzzy, isoDate)
    ensures exists l, i :: (l in Prepared(counts, fuzzy, isoDate) && 0 <= i < |provinces| &&
      NamesProvince(l, provinces[i], fuzzy) && o == (l + GazetteerRows(provinces, fuzzy)[i]) - {"subregion1_name"})
  {
    var prepared := Prepared(counts, fuzzy, isoDate);
    var joined := JoinGazetteer(prepared, provinces, fuzzy);
    var out := Gazetteered(counts, provinces, fuzzy, isoDate);
    var k :| 0 <= k < |out| && out[k] == o;
    assert joined[k] in joined;
    GazetteerJoinSound(prepared, provinces, fuzzy, joined[k]);
  }

  lemma GazetteeredSound(counts: seq<Row>, provinces: seq<Province>, fuzzy: string -> string,
                         isoDate: string -> Option<string>, o: Row)
    requires o in Gazetteered(counts, provinces, fuzzy, isoDate)
    ensures exists r, i :: (r in counts && "date" in r && JoinsEntry(r, provinces, fuzzy, isoDate, i) &&
      o == JoinedRecord(r, provinces, fuzzy, isoDate, i))
  {
    GazetteeredFromJoin(counts, provinces, fuzzy, isoDate, o);
    var l, i :| l in Prepared(counts, fuzzy, isoDate) && 0 <= i < |provinces| &&
      NamesProvince(l, provinces[i], fuzzy) && o == (l + GazetteerRows(provinces, fuzzy)[i]) - {"subregion1_name"};
    PreparedFrom(counts, fuzzy, isoDate, l);
    var r :| r in counts && "date" in r && l == PrepareRecord(r, fuzzy, isoDate);
    assert JoinsEntry(r, provinces, fuzzy, isoDate, i);
    assert o == JoinedRecord(r, provinces, fuzzy, isoDate, i);
  }

  lemma GazetteeredComplete(counts: seq<Row>, provinces: seq<Province>, fuzzy: string -> string,
                            isoDate: string -> Option<string>, r: Row, i: int)
    requires r in counts && "date" in r && JoinsEntry(r, provinces, fuzzy, isoDate, i)
    ensures JoinedRecord(r, provinces, fuzzy, isoDate, i) in Gazetteered(counts, provinces, fuzzy, isoDate)
  {
    PreparedHas(counts, fuzzy, isoDate, r);
    JoinedHas(Prepared(counts, fuzzy, isoDate), provinces, fuzzy, PrepareRecord(r, fuzzy, isoDate), i);
  }

  /** Every dated count record is prepared. */
  lemma PreparedHas(counts: seq<Row>, fuzzy: string -> string, isoDate: string -> Option<string>, r: Row)
    requires r in counts && "date" in r
    ensures PrepareRecord(r, fuzzy, isoDate) in Prepared(counts, fuzzy, isoDate)
  {
    var dated := DropMissing(counts, "date");
    assert r in dated;
    var m :| 0 <= m < |dated| && dated[m] == r;
    PreparedAt(counts, fuzzy, isoDate);
    assert Prepared(counts, fuzzy, isoDate)[m] == PrepareRecord(r, fuzzy, isoDate);
  }

  /** A prepared record whose province names gazetteer entry `i` is in the
      join, widened by that entry and without `subregion1_name`. */
  lemma JoinedHas(prepared: seq<Row>, provinces: seq<Province>, fuzzy: string -> string, l: Row, i: int)
    requires l in prepared && 0 <= i < |provinces| && NamesProvince(l, provinces[i], fuzzy)
    ensures (l + GazetteerRows(provinces, fuzzy)[i]) - {"subregion1_name"}
      in DropColumn(JoinGazetteer(prepared, provinces, fuzzy), "subregion1_name")
  {
    var joined := JoinGazetteer(prepared, provinces, fuzzy);
    GazetteerJoinComplete(prepared, provinces, fuzzy, l, i);
    var k :| 0 <= k < |joined| && joined[k] == l + GazetteerRows(provinces, fuzzy)[i];
    assert DropColumn(joined, "subregion1_name")[k] == joined[k] - {"subregion1_name"};
  }

  /** The gazetteer table holds exactly the joined records of the dated count
      records whose normalised province the gazetteer names. */
  lemma GazetteeredMembers(counts: seq<Row>, provinces: seq<Province>, fuzzy: string -> string,
                           isoDate: string -> Option<string>, o: Row)
    ensures o in Gazetteered(counts, provinces, fuzzy, isoDate) <==>
      exists r, i :: r in counts && "date" in r && JoinsEntry(r, provinces, fuzzy, isoDate, i) &&
        o == JoinedRecord(r, provinces, fuzzy, isoDate, i)
  {
    if o in Gazetteered(counts, provinces, fuzzy, isoDate) {
      GazetteeredSound(counts, provinces, fuzzy, isoDate, o);
    }
    if exists r, i :: r in counts && "date" in r && JoinsEntry(r, provinces, fuzzy, isoDate, i) &&
        o == JoinedRecord(r, provinces, fuzzy, isoDate, i) {
      var r, i :| r in counts && "date" in r && JoinsEntry(r, provinces, fuzzy, isoDate, i) &&
        o == JoinedRecord(r, provinces, fuzzy, isoDate, i);
      GazetteeredComplete(counts, provinces, fuzzy, isoDate, r, i);
    }
  }

  /** Every record of the gazetteer table is stamped `PE` and lies in a
      gazetteer province whose region code it carries. */
  lemma GazetteeredRecords(counts: seq<Row>, provinces: seq<Province>, fuzzy: string -> string,
                           isoDate: string -> Option<string>)
    ensures forall r :: r in Gazetteered(counts, provinces, fuzzy, isoDate) ==>
      StampedPE(r) && InGazetteer(r, provinces, fuzzy)
  {
    PreparedStamped(DropMissing(counts, "date"), isoDate, fuzzy);
    JoinedRows(Prepared(counts, fuzzy, isoDate), provinces, fuzzy);
  }

  /** Dropping the undated records, stamping, reformatting dates, normalising
      names and joining with the gazetteer, step by step: the result is the
      gazetteer table, every record of it stamped and in the gazetteer, and
      no dated count record whose province the gazetteer names is lost. */
  method GazetteerTable(counts: seq<Row>, provinces: seq<Province>, fuzzy: string -> string,
                        isoDate: string -> Option<string>) returns (data: seq<Row>)
    ensures data == Gazetteered(counts, provinces, fuzzy, isoDate)
    ensures forall r :: r in data ==> StampedPE(r) && InGazetteer(r, provinces, fuzzy)
    ensures forall r, i :: r in counts && "date" in r && JoinsEntry(r, provinces, fuzzy, isoDate, i) ==>
      JoinedRecord(r, provinces, fuzzy, isoDate, i) in data
  {
    // Drop the records without a date, stamp the country, reformat the date
    data := DropMissing(counts, "date");
    data := Assign(data, "country_code", Text("PE"));
    data := IsoDates(data, isoDate);

    // Normalise the names and join with the gazetteer
    data := MapText(data, "province_name", fuzzy);
    data := MapText(data, "subregion2_name", fuzzy);
    data := JoinGazetteer(data, provinces, fuzzy);
    data := DropColumn(data, "subregion1_name");

    GazetteeredRecords(counts, provinces, fuzzy, isoDate);
    forall r, i | r in counts && "date" in r && JoinsEntry(r, provinces, fuzzy, isoDate, i)
      ensures JoinedRecord(r, provinces, fuzzy, isoDate, i) in data
    {
      GazetteeredComplete(counts, provinces, fuzzy, isoDate, r, i);
    }
  }

  // ---------------------------------------------------------------------------
  // The whole source as functions

  /** A case-line table through the adapter, its date column named
      `dateColumn`, its sex labels translated. */
  function Cases(raw: seq<Row>, dateColumn: string): seq<Row>
  {
    TranslateSex(RenameColumn(TableRename(raw, ColumnAdapter), "date", dateColumn))
  }

  /** The confirmed and the deceased daily counts, merged. */
  function DailyCounts(confirmed: seq<Row>, deceased: seq<Row>): seq<Row>
  {
    MergeCounts(CaseCounts(Cases(confirmed, "date_new_confirmed"), "date_new_confirmed", "new_confirmed"),
                CaseCounts(Cases(deceased, "date_new_deceased"), "date_new_deceased", "new_deceased"))
  }

  /** The disambiguated district record of each joined record. */
  function DistrictTable(data: seq<Row>): seq<Row>
  {
    seq(|data|, i requires 0 <= i < |data| => DistrictOf(data[i]))
  }

  /** The table `parse_dataframes` returns: the region records of the joined
      table followed by its district records. */
  function Parsed(confirmed: seq<Row>, deceased: seq<Row>, provinces: seq<Province>,
                  fuzzy: string -> string, isoDate: string -> Option<string>): seq<Row>
  {
    var data := Gazetteered(DailyCounts(confirmed, deceased), provinces, fuzzy, isoDate);
    Subregion1(data) + DistrictTable(data)
  }

  /** The returned table keeps every promise `ParsedTable` lists. */
  lemma ParsedIsParsedTable(confirmed: seq<Row>, deceased: seq<Row>, provinces: seq<Province>,
                            fuzzy: string -> string, isoDate: string -> Option<string>)
    ensures ParsedTable(Parsed(confirmed, deceased, provinces, fuzzy, isoDate), provinces, fuzzy)
  {
    var data := Gazetteered(DailyCounts(confirmed, deceased), provinces, fuzzy, isoDate);
    GazetteeredRecords(DailyCounts(confirmed, deceased), provinces, fuzzy, isoDate);
    AssembledTable(data, DistrictTable(data), provinces, fuzzy);
  }

  /** The district records of the returned table are the district table of
      the joined records. */
  lemma ParsedDistrictTable(confirmed: seq<Row>, deceased: seq<Row>, provinces: seq<Province>,
                            fuzzy: string -> string, isoDate: string -> Option<string>)
    ensures var data := Gazetteered(DailyCounts(confirmed, deceased), provinces, fuzzy, isoDate);
      Where(Parsed(confirmed, deceased, provinces, fuzzy, isoDate), IsDistrictRow) == DistrictTable(data)
  {
    var counts := DailyCounts(confirmed, deceased);
    var data := Gazetteered(counts, provinces, fuzzy, isoDate);
    GazetteeredRecords(counts, provinces, fuzzy, isoDate);
    Subregion1Records(data);
    DistrictRowsShape(data, DistrictTable(data), provinces, fuzzy);
    DistrictsOfOutput(Subregion1(data), DistrictTable(data));
  }

  /** A district record of the gazetteer table comes from a dated count
      record whose province the gazetteer names. */
  lemma DistrictTableSound(counts: seq<Row>, provinces: seq<Province>, fuzzy: string -> string,
                           isoDate: string -> Option<string>, o: Row)
    requires o in DistrictTable(Gazetteered(counts, provinces, fuzzy, isoDate))
    ensures exists r, i :: (r in counts && "date" in r && JoinsEntry(r, provinces, fuzzy, isoDate, i) &&
      o == DistrictOf(JoinedRecord(r, provinces, fuzzy, isoDate, i)))
  {
    var data := Gazetteered(counts, provinces, fuzzy, isoDate);
    var dis := DistrictTable(data);
    var k :| 0 <= k < |dis| && dis[k] == o;
    assert data[k] in data;
    GazetteeredSound(counts, provinces, fuzzy, isoDate, data[k]);
  }

  /** Every dated count record whose province the gazetteer names has its
      district record in the gazetteer table's district table. */
  lemma DistrictTableComplete(counts: seq<Row>, provinces: seq<Province>, fuzzy: string -> string,
                              isoDate: string -> Option<string>, r: Row, i: int)
    requires r in counts && "date" in r && JoinsEntry(r, provinces, fuzzy, isoDate, i)
    ensures DistrictOf(JoinedRecord(r, provinces, fuzzy, isoDate, i)) in DistrictTable(Gazetteered(counts, provinces, fuzzy, isoDate))
  {
    GazetteeredComplete(counts, provinces, fuzzy, isoDate, r, i);
    DistrictTableHas(Gazetteered(counts, provinces, fuzzy, isoDate), JoinedRecord(r, provinces, fuzzy, isoDate, i));
  }

  lemma DistrictTableHas(data: seq<Row>, x: Row)
    requires x in data
    ensures DistrictOf(x) in DistrictTable(data)
  {
    var k :| 0 <= k < |data| && data[k] == x;
    assert DistrictTable(data)[k] == DistrictOf(x);
  }

  /** The district records of the returned table are exactly the
      disambiguated joined records of the merged daily counts that have a
      date and a province the gazetteer names: none is lost, none is made up. */
  lemma ParsedDistricts(confirmed: seq<Row>, deceased: seq<Row>, provinces: seq<Province>,
                        fuzzy: string -> string, isoDate: string -> Option<string>, o: Row)
    ensures o in Where(Parsed(confirmed, deceased, provinces, fuzzy, isoDate), IsDistrictRow) <==>
      exists r, i :: (r in DailyCounts(confirmed, deceased) && "date" in r && JoinsEntry(r, provinces, fuzzy, isoDate, i) &&
        o == DistrictOf(JoinedRecord(r, provinces, fuzzy, isoDate, i)))
  {
    var counts := DailyCounts(confirmed, deceased);
    ParsedDistrictTable(confirmed, deceased, provinces, fuzzy, isoDate);
    if o in DistrictTable(Gazetteered(counts, provinces, fuzzy, isoDate)) {
      DistrictTableSound(counts, provinces, fuzzy, isoDate, o);
    }
    if exists r, i :: (r in counts && "date" in r && JoinsEntry(r, provinces, fuzzy, isoDate, i) &&
        o == DistrictOf(JoinedRecord(r, provinces, fuzzy, isoDate, i))) {
      var r, i :| r in counts && "date" in r && JoinsEntry(r, provinces, fuzzy, isoDate, i) &&
        o == DistrictOf(JoinedRecord(r, provinces, fuzzy, isoDate, i));
      DistrictTableComplete(counts, provinces, fuzzy, isoDate, r, i);
    }
  }

  /** `PeruDataSource.parse_dataframes`, step by step: from the confirmed and
      deceased case lines to the region records followed by the district
      records. */
  method ParseDataframes(confirmed: seq<Row>, deceased: seq<Row>, provinces: seq<Province>,
                         fuzzy: string -> string, isoDate: string -> Option<string>) returns (out: seq<Row>)
    ensures out == Parsed(confirmed, deceased, provinces, fuzzy, isoDate)
    ensures ParsedTable(out, provinces, fuzzy)
  {
    // Rename the adapted columns and name each table's date after its event
    var casesConfirmed := RenameColumn(TableRename(confirmed, ColumnAdapter), "date", "date_new_confirmed");
    var casesDeceased := RenameColumn(TableRename(deceased, ColumnAdapter), "date", "date_new_deceased");

    // Translate the sex label, one table after the other
    casesConfirmed := TranslateSex(casesConfirmed);
    casesDeceased := TranslateSex(casesDeceased);

    // Case records to daily counts, joined into one table
    var dataConfirmed := CaseCounts(casesConfirmed, "date_new_confirmed", "new_confirmed");
    var dataDeceased := CaseCounts(casesDeceased, "date_new_deceased", "new_deceased");
    var data := MergeCounts(dataConfirmed, dataDeceased);

    data := GazetteerTable(data, provinces, fuzzy, isoDate);

    // Roll the districts up to their region
    var subregion1 := Subregion1(data);

    // District records, with the colliding names rewritten
    var districts := Disambiguate(Districts(data), CollisionRules);
    DistrictsOfData(data);
    assert districts == DistrictTable(data);

    out := subregion1 + districts;
    ParsedIsParsedTable(confirmed, deceased, provinces, fuzzy, isoDate);
  }
}
