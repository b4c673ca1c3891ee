/**
 The location hierarchy table: rebuilt in batches from dot-separated region codes, and loaded
 into child-to-parent maps.
 */
module Hierarchy {
  import opened Wrappers
  import opened Decimal
  import opened Model
  import Text

  // ---------- Region codes ----------

  /** The code cut at every dot. */
  function Split(kode: string): (parts: seq<string>)
    ensures |parts| >= 1
    ensures forall i :: 0 <= i < |parts| ==> '.' !in parts[i]
  {
    if kode == "" then [""]
    else
      var rest := Split(kode[1..]);
      if kode[0] == '.' then [""] + rest else [[kode[0]] + rest[0]] + rest[1..]
  }

  function CityKode(parts: seq<string>): string
    requires |parts| == 4
  {
    parts[0] + "." + parts[1]
  }

  function DistrictKode(parts: seq<string>): string
    requires |parts| == 4
  {
    parts[0] + "." + parts[1] + "." + parts[2]
  }

  // ----- What the parts are -----

  lemma {:induction false} SplitWithoutDot(a: string)
    requires '.' !in a
    ensures Split(a) == [a]
  {
    if a != "" {
      assert a[0] in a;
      SplitWithoutDot(a[1..]);
      assert [a[0]] + a[1..] == a;
    }
  }

  /** Text before the first dot is the first part. */
  lemma {:induction false} SplitAtDot(a: string, b: string)
    requires '.' !in a
    ensures Split(a + "." + b) == [a] + Split(b)
  {
    var s := a + "." + b;
    if a == "" {
      assert s[1..] == b;
    } else {
      assert s[0] == a[0] && a[0] in a;
      assert s[1..] == a[1..] + "." + b;
      SplitAtDot(a[1..], b);
      assert [a[0]] + a[1..] == a;
    }
  }

  lemma {:induction false} SplitJoins(kode: string)
    ensures Text.Join(Split(kode), ".") == kode
  {
    if kode != "" {
      SplitJoins(kode[1..]);
      var rest := Split(kode[1..]);
      if kode[0] == '.' {
        assert ([""] + rest)[1..] == rest;
      } else {
        assert kode == [kode[0]] + Text.Join(rest, ".");
      }
    }
  }

  /** A code of four parts, without dots, with dots between them. */
  ghost predicate IsFourParts(kode: string, p: string, c: string, d: string, s: string) {
    && '.' !in p && '.' !in c && '.' !in d && '.' !in s
    && kode == p + "." + c + "." + d + "." + s
  }

  lemma SplitOfFour(kode: string, p: string, c: string, d: string, s: string)
    requires IsFourParts(kode, p, c, d, s)
    ensures Split(kode) == [p, c, d, s]
  {
    hide Split;
    assert kode == p + "." + (c + "." + (d + "." + s));
    SplitAtDot(p, c + "." + (d + "." + s));
    SplitAtDot(c, d + "." + s);
    SplitAtDot(d, s);
    SplitWithoutDot(s);
  }

  lemma FourOfSplit(kode: string)
    requires |Split(kode)| == 4
    ensures exists p, c, d, s :: IsFourParts(kode, p, c, d, s)
  {
    hide Split;
    var parts := Split(kode);
    SplitJoins(kode);
    var rest := parts[1..];
    assert rest[1..] == [parts[2], parts[3]] && rest[1..][1..] == [parts[3]];
    assert Text.Join([parts[3]], ".") == parts[3];
    assert Text.Join(rest[1..], ".") == parts[2] + "." + parts[3];
    assert Text.Join(rest, ".") == parts[1] + "." + (parts[2] + "." + parts[3]);
    assert kode == parts[0] + "." + (parts[1] + "." + (parts[2] + "." + parts[3]));
    assert kode == parts[0] + "." + parts[1] + "." + parts[2] + "." + parts[3];
    assert IsFourParts(kode, parts[0], parts[1], parts[2], parts[3]);
  }

  // ---------- Rows ----------

  datatype CodeRow = CodeRow(id: Int64, kode: string)

  datatype HierarchyRow = HierarchyRow(provinceId: Int64, cityId: Int64, districtId: Int64, subDistrictId: Int64)

  type KodeIndex = map<string, Int64>

  /** The hierarchy row of a sub-district, when its code has four parts and every parent exists. */
  function RowFor(index: KodeIndex, s: CodeRow): Option<HierarchyRow> {
    var parts := Split(s.kode);
    if |parts| != 4 then None
    else if parts[0] !in index || CityKode(parts) !in index || DistrictKode(parts) !in index then None
    else Some(HierarchyRow(index[parts[0]], index[CityKode(parts)], index[DistrictKode(parts)], s.id))
  }

  function Optional(row: Option<HierarchyRow>): seq<HierarchyRow> {
    match row
    case None => []
    case Some(r) => [r]
  }

  function RowsFor(index: KodeIndex, subs: seq<CodeRow>): seq<HierarchyRow> {
    if subs == [] then [] else Optional(RowFor(index, subs[0])) + RowsFor(index, subs[1..])
  }

  lemma {:induction false} RowsForSnoc(index: KodeIndex, subs: seq<CodeRow>, s: CodeRow)
    ensures RowsFor(index, subs + [s]) == RowsFor(index, subs) + Optional(RowFor(index, s))
  {
    hide RowFor, Optional;
    var last := Optional(RowFor(index, s));
    if subs == [] {
      assert [] + [s] == [s] && [s][1..] == [];
      assert last + [] == last && [] + last == last;
    } else {
      assert (subs + [s])[1..] == subs[1..] + [s];
      RowsForSnoc(index, subs[1..], s);
      var first, rest := Optional(RowFor(index, subs[0])), RowsFor(index, subs[1..]);
      assert first + (rest + last) == (first + rest) + last;
    }
  }

  /** Later codes overwrite earlier ones. */
  function IndexKodes(parents: seq<CodeRow>): KodeIndex {
    if parents == [] then map[]
    else
      var last := parents[|parents| - 1];
      IndexKodes(parents[..|parents| - 1])[last.kode := last.id]
  }

  method LoadKodes(parents: seq<CodeRow>) returns (index: KodeIndex)
    ensures index == IndexKodes(parents)
  {
    index := map[];
    for i := 0 to |parents|
      invariant index == IndexKodes(parents[..i])
    {
      assert parents[..i + 1][..i] == parents[..i];
      index := index[parents[i].kode := parents[i].id];
    }
    assert parents[..|parents|] == parents;
  }

  // ---------- The table ----------

  ghost predicate HasSubDistrict(table: seq<HierarchyRow>, id: Int64) {
    exists i :: 0 <= i < |table| && table[i].subDistrictId == id
  }

  /** INSERT ... ON CONFLICT DO NOTHING of one row, sub-districts being unique in the table. */
  ghost function InsertRow(table: seq<HierarchyRow>, r: HierarchyRow): seq<HierarchyRow> {
    if HasSubDistrict(table, r.subDistrictId) then table else table + [r]
  }

  ghost function InsertRows(table: seq<HierarchyRow>, rows: seq<HierarchyRow>): seq<HierarchyRow>
    decreases rows
  {
    if rows == [] then table else InsertRows(InsertRow(table, rows[0]), rows[1..])
  }

  lemma {:induction false} InsertRowsConcat(table: seq<HierarchyRow>, a: seq<HierarchyRow>, b: seq<HierarchyRow>)
    ensures InsertRows(table, a + b) == InsertRows(InsertRows(table, a), b)
    decreases a
  {
    hide InsertRow;
    if a == [] {
      assert a + b == b;
    } else {
      assert (a + b)[1..] == a[1..] + b;
      InsertRowsConcat(InsertRow(table, a[0]), a[1..], b);
    }
  }

  const BATCH_ROWS := 4000
  const ROW_PARAMETERS := 5

  /** The database side: the rows stored so far, and how many rows each statement carried. */
  class HierarchyTable {
    var rows: seq<HierarchyRow>
    ghost var statements: seq<nat>

    constructor ()
      ensures rows == [] && statements == []
    {
      rows, statements := [], [];
    }

    /** One multi-row insert statement. */
    method Execute(batch: seq<HierarchyRow>)
      modifies this
      ensures rows == InsertRows(old(rows), batch)
      ensures statements == old(statements) + [|batch|]
    {
      for i := 0 to |batch|
        invariant rows == InsertRows(old(rows), batch[..i])
        invariant statements == old(statements)
      {
        assert batch[..i + 1] == batch[..i] + [batch[i]];
        InsertRowsConcat(old(rows), batch[..i], [batch[i]]);
        assert [batch[i]][1..] == [];
        var known := Contains(batch[i].subDistrictId);
        if !known {
          rows := rows + [batch[i]];
        }
      }
      assert batch[..|batch|] == batch;
      statements := statements + [|batch|];
    }

    method Contains(id: Int64) returns (r: bool)
      ensures r == HasSubDistrict(rows, id)
    {
      for i := 0 to |rows|
        invariant forall k :: 0 <= k < i ==> rows[k].subDistrictId != id
      {
        if rows[i].subDistrictId == id {
          return true;
        }
      }
      return false;
    }
  }

  ghost function Total(ns: seq<nat>): nat {
    if ns == [] then 0 else Total(ns[..|ns| - 1]) + ns[|ns| - 1]
  }

  /** Every statement carries between one row and a full batch, so at most 20000 parameters. */
  ghost predicate BatchesFit(statements: seq<nat>) {
    forall i :: 0 <= i < |statements| ==>
      0 < statements[i] <= BATCH_ROWS && statements[i] * ROW_PARAMETERS <= 20000
  }

  /** Since `start` and `before` the table has received the rows `written`, by the statements
      `issued`. */
  ghost predicate Written(table: HierarchyTable, start: seq<HierarchyRow>, before: seq<nat>,
                          written: seq<HierarchyRow>, issued: seq<nat>)
    reads table
  {
    && table.rows == InsertRows(start, written)
    && table.statements == before + issued
    && BatchesFit(issued) && Total(issued) == |written|
  }

  ghost predicate FullBatches(statements: seq<nat>) {
    forall i :: 0 <= i < |statements| ==> statements[i] == BATCH_ROWS
  }

  /** 4000 rows in every statement, and at most 4000 in the last one. */
  ghost predicate AllButLastFull(statements: seq<nat>) {
    && (forall i :: 0 <= i < |statements| - 1 ==> statements[i] == 4000)
    && (statements != [] ==> statements[|statements| - 1] <= 4000)
  }

  lemma OneMoreBatch(statements: seq<nat>, n: nat)
    requires FullBatches(statements) && n <= BATCH_ROWS
    ensures AllButLastFull(statements) && AllButLastFull(statements + [n])
    ensures n == BATCH_ROWS ==> FullBatches(statements + [n])
  {
  }

  /** Writes the pending rows, if there are any. */
  method Flush(table: HierarchyTable, pending: seq<HierarchyRow>, ghost start: seq<HierarchyRow>,
               ghost before: seq<nat>, ghost written: seq<HierarchyRow>, ghost issued: seq<nat>)
    returns (ghost issued': seq<nat>)
    requires Written(table, start, before, written, issued) && |pending| <= BATCH_ROWS
    modifies table
    ensures Written(table, start, before, written + pending, issued')
    ensures issued' == if pending == [] then issued else issued + [|pending|]
  {
    issued' := issued;
    if |pending| == 0 {
      assert written + pending == written;
      return;
    }
    InsertRowsConcat(start, written, pending);
    TotalSnoc(issued, |pending|);
    table.Execute(pending);
    issued' := issued + [|pending|];
    assert before + issued + [|pending|] == before + issued';
  }

  /** Adds a row to the pending batch, and writes the batch when that fills it. */
  method AddRow(table: HierarchyTable, row: HierarchyRow, pending: seq<HierarchyRow>, ghost start: seq<HierarchyRow>,
                ghost before: seq<nat>, ghost written: seq<HierarchyRow>, ghost issued: seq<nat>)
    returns (pending': seq<HierarchyRow>, ghost written': seq<HierarchyRow>, ghost issued': seq<nat>)
    requires Written(table, start, before, written, issued) && FullBatches(issued) && |pending| < BATCH_ROWS
    modifies table
    ensures Written(table, start, before, written', issued') && FullBatches(issued') && |pending'| < BATCH_ROWS
    ensures written' + pending' == written + pending + [row]
  {
    hide Written, FullBatches;
    pending', written', issued' := pending + [row], written, issued;
    assert written + (pending + [row]) == written + pending + [row];
    if |pending'| >= BATCH_ROWS {
      OneMoreBatch(issued, |pending'|);
      issued' := Flush(table, pending', start, before, written, issued);
      written' := written + pending';
      pending' := [];
      assert written' + [] == written';
    }
  }

  /** The rebuild: rows are collected into a pending batch that is written whenever it is full,
      and once more at the end. */
  method RebuildLocationHierarchy(table: HierarchyTable, parents: seq<CodeRow>, subs: seq<CodeRow>)
    returns (count: nat, ghost issued: seq<nat>)
    modifies table
    ensures table.rows == InsertRows(old(table.rows), RowsFor(IndexKodes(parents), subs))
    ensures count == |RowsFor(IndexKodes(parents), subs)|
    ensures table.statements == old(table.statements) + issued
    ensures BatchesFit(issued) && Total(issued) == count
    ensures AllButLastFull(issued)
  {
    ghost var start, before := table.rows, table.statements;
    var kodeToID := LoadKodes(parents);
    var pending: seq<HierarchyRow> := [];
    count, issued := 0, [];
    ghost var written: seq<HierarchyRow> := [];
    hide RowFor, Written, RowsFor, IndexKodes, InsertRows, FullBatches, AllButLastFull, BatchesFit, Total;
    NothingWrittenYet(table, kodeToID);
    assert subs[..0] == [];
    for i := 0 to |subs|
      invariant |pending| < BATCH_ROWS
      invariant written + pending == RowsFor(kodeToID, subs[..i])
      invariant Written(table, start, before, written, issued)
      invariant count == |written + pending|
      invariant FullBatches(issued)
    {
      assert subs[..i + 1] == subs[..i] + [subs[i]];
      RowsForSnoc(kodeToID, subs[..i], subs[i]);
      var row := Compute(kodeToID, subs[i]);
      if row == None {
        assert written + pending + [] == written + pending;
        continue;
      }
      pending, written, issued := AddRow(table, row.value, pending, start, before, written, issued);
      count := count + 1;
    }
    assert subs[..|subs|] == subs;
    OneMoreBatch(issued, |pending|);
    issued := Flush(table, pending, start, before, written, issued);
    WrittenMeans(table, start, before, written + pending, issued);
  }

  lemma NothingWrittenYet(table: HierarchyTable, index: KodeIndex)
    ensures Written(table, table.rows, table.statements, [], []) && FullBatches([])
    ensures RowsFor(index, []) == []
  {
  }

  lemma WrittenMeans(table: HierarchyTable, start: seq<HierarchyRow>, before: seq<nat>,
                     written: seq<HierarchyRow>, issued: seq<nat>)
    requires Written(table, start, before, written, issued)
    ensures table.rows == InsertRows(start, written) && table.statements == before + issued
    ensures BatchesFit(issued) && Total(issued) == |written|
  {
  }

  lemma TotalSnoc(ns: seq<nat>, n: nat)
    ensures Total(ns + [n]) == Total(ns) + n
  {
    assert (ns + [n])[..|ns|] == ns;
  }

  method Compute(index: KodeIndex, s: CodeRow) returns (row: Option<HierarchyRow>)
    ensures row == RowFor(index, s)
  {
    var parts := Split(s.kode);
    if |parts| != 4 {
      return None;
    }
    var provinceKode, cityKode := parts[0], parts[0] + "." + parts[1];
    var districtKode := parts[0] + "." + parts[1] + "." + parts[2];
    if provinceKode !in index {
      return None;
    }
    if cityKode !in index {
      return None;
    }
    if districtKode !in index {
      return None;
    }
    return Some(HierarchyRow(index[provinceKode], index[cityKode], index[districtKode], s.id));
  }

  // ---------- Consistency of the rows ----------

  /** No two rows disagree about a parent, and no sub-district has two rows. */
  ghost predicate Consistent(rows: seq<HierarchyRow>) {
    && (forall i, j :: 0 <= i < |rows| && 0 <= j < |rows| && rows[i].cityId == rows[j].cityId ==>
          rows[i].provinceId == rows[j].provinceId)
    && (forall i, j :: 0 <= i < |rows| && 0 <= j < |rows| && rows[i].districtId == rows[j].districtId ==>
          rows[i].cityId == rows[j].cityId)
    && (forall i, j :: 0 <= i < |rows| && 0 <= j < |rows| && rows[i].subDistrictId == rows[j].subDistrictId ==>
          rows[i].districtId == rows[j].districtId)
  }

  /** Ids are primary keys: different codes have different ids. */
  ghost predicate DistinctCodeIds(parents: seq<CodeRow>) {
    forall i, j :: 0 <= i < |parents| && 0 <= j < |parents| && parents[i].id == parents[j].id ==>
      parents[i].kode == parents[j].kode
  }

  ghost predicate DistinctSubIds(subs: seq<CodeRow>) {
    forall i, j :: 0 <= i < |subs| && 0 <= j < |subs| && subs[i].id == subs[j].id ==> subs[i].kode == subs[j].kode
  }

  ghost predicate IndexInjective(index: KodeIndex) {
    forall k, l :: k in index && l in index && index[k] == index[l] ==> k == l
  }

  lemma {:induction false} IndexFromParents(parents: seq<CodeRow>)
    ensures forall k :: k in IndexKodes(parents) ==>
              exists i :: 0 <= i < |parents| && parents[i].kode == k && parents[i].id == IndexKodes(parents)[k]
  {
    if parents != [] {
      var front, last := parents[..|parents| - 1], parents[|parents| - 1];
      IndexFromParents(front);
      var index := IndexKodes(parents);
      forall k | k in index
        ensures exists i :: 0 <= i < |parents| && parents[i].kode == k && parents[i].id == index[k]
      {
        if k == last.kode {
          assert parents[|parents| - 1].kode == k;
        } else {
          assert k in IndexKodes(front);
          var i :| 0 <= i < |front| && front[i].kode == k && front[i].id == IndexKodes(front)[k];
          assert parents[i] == front[i];
        }
      }
    }
  }

  lemma DistinctIdsGiveInjectiveIndex(parents: seq<CodeRow>)
    requires DistinctCodeIds(parents)
    ensures IndexInjective(IndexKodes(parents))
  {
    hide IndexKodes;
    IndexFromParents(parents);
  }

  /** Equal parent codes of two four-part codes mean equal leading parts. */
  lemma SameCitySameProvince(a: seq<string>, b: seq<string>)
    requires |a| == 4 && |b| == 4 && forall i :: 0 <= i < 4 ==> '.' !in a[i] && '.' !in b[i]
    requires CityKode(a) == CityKode(b)
    ensures a[0] == b[0]
  {
    Text.SeparatorSplits(a[0], a[1], b[0], b[1], '.');
  }

  lemma SameDistrictSameCity(a: seq<string>, b: seq<string>)
    requires |a| == 4 && |b| == 4 && forall i :: 0 <= i < 4 ==> '.' !in a[i] && '.' !in b[i]
    requires DistrictKode(a) == DistrictKode(b)
    ensures CityKode(a) == CityKode(b)
  {
    assert DistrictKode(a) == a[0] + "." + (a[1] + "." + a[2]);
    assert DistrictKode(b) == b[0] + "." + (b[1] + "." + b[2]);
    Text.SeparatorSplits(a[0], a[1] + "." + a[2], b[0], b[1] + "." + b[2], '.');
    Text.SeparatorSplits(a[1], a[2], b[1], b[2], '.');
  }

  lemma RowsAgree(index: KodeIndex, s: CodeRow, t: CodeRow)
    requires IndexInjective(index) && RowFor(index, s).Some? && RowFor(index, t).Some?
    ensures var r, q := RowFor(index, s).value, RowFor(index, t).value;
            && (r.cityId == q.cityId ==> r.provinceId == q.provinceId)
            && (r.districtId == q.districtId ==> r.cityId == q.cityId)
  {
    var a, b := Split(s.kode), Split(t.kode);
    hide Split;
    if CityKode(a) == CityKode(b) {
      SameCitySameProvince(a, b);
    }
    if DistrictKode(a) == DistrictKode(b) {
      SameDistrictSameCity(a, b);
    }
  }

  lemma {:induction false} RowsComeFromSubs(index: KodeIndex, subs: seq<CodeRow>)
    ensures forall r :: r in RowsFor(index, subs) ==> exists k :: 0 <= k < |subs| && RowFor(index, subs[k]) == Some(r)
  {
    hide RowFor;
    if subs != [] {
      RowsComeFromSubs(index, subs[1..]);
      forall r | r in RowsFor(index, subs)
        ensures exists k :: 0 <= k < |subs| && RowFor(index, subs[k]) == Some(r)
      {
        if RowFor(index, subs[0]) == Some(r) {
          assert RowFor(index, subs[0]) == Some(r);
        } else {
          assert r in RowsFor(index, subs[1..]);
          var k :| 0 <= k < |subs[1..]| && RowFor(index, subs[1..][k]) == Some(r);
          assert RowFor(index, subs[k + 1]) == Some(r);
        }
      }
    }
  }

  /** From codes with distinct ids the rebuild computes consistent rows. */
  lemma RebuiltRowsConsistent(parents: seq<CodeRow>, subs: seq<CodeRow>)
    requires DistinctCodeIds(parents) && DistinctSubIds(subs)
    ensures Consistent(RowsFor(IndexKodes(parents), subs))
  {
    var index := IndexKodes(parents);
    var rows := RowsFor(index, subs);
    DistinctIdsGiveInjectiveIndex(parents);
    RowsComeFromSubs(index, subs);
    hide RowsFor, IndexKodes;
    forall i, j | 0 <= i < |rows| && 0 <= j < |rows|
      ensures rows[i].cityId == rows[j].cityId ==> rows[i].provinceId == rows[j].provinceId
      ensures rows[i].districtId == rows[j].districtId ==> rows[i].cityId == rows[j].cityId
      ensures rows[i].subDistrictId == rows[j].subDistrictId ==> rows[i].districtId == rows[j].districtId
    {
      assert rows[i] in rows && rows[j] in rows;
      var k :| 0 <= k < |subs| && RowFor(index, subs[k]) == Some(rows[i]);
      var l :| 0 <= l < |subs| && RowFor(index, subs[l]) == Some(rows[j]);
      RowsAgree(index, subs[k], subs[l]);
      SameSubSameRow(index, subs[k], subs[l]);
      assert subs[k].id == subs[l].id ==> subs[k].kode == subs[l].kode;
    }
  }

  lemma SameSubSameRow(index: KodeIndex, s: CodeRow, t: CodeRow)
    requires RowFor(index, s).Some? && RowFor(index, t).Some?
    ensures RowFor(index, s).value.subDistrictId == s.id && RowFor(index, t).value.subDistrictId == t.id
    ensures s.kode == t.kode ==> RowFor(index, s).value.districtId == RowFor(index, t).value.districtId
  {
  }

  ghost predicate DistinctSubDistricts(rows: seq<HierarchyRow>) {
    forall i, j :: 0 <= i < j < |rows| ==> rows[i].subDistrictId != rows[j].subDistrictId
  }

  /** Into an empty table, distinct sub-districts all go, in order. */
  lemma {:induction false} FreshTableTakesAll(table: seq<HierarchyRow>, rows: seq<HierarchyRow>)
    requires DistinctSubDistricts(rows)
    requires forall i :: 0 <= i < |rows| ==> !HasSubDistrict(table, rows[i].subDistrictId)
    ensures InsertRows(table, rows) == table + rows
    decreases rows
  {
    if rows == [] {
      assert table + rows == table;
    } else {
      var next, rest := table + [rows[0]], rows[1..];
      assert forall i :: 0 <= i < |rest| ==> rest[i] == rows[i + 1];
      FreshTableTakesAll(next, rest);
      assert next + rest == table + rows;
    }
  }

  // ---------- Loading the parent maps ----------

  type Pairs = seq<(Int64, Int64)>

  /** The child-parent pairs of one pair of columns, row by row. */
  function CityPairs(rows: seq<HierarchyRow>): (ps: Pairs)
    ensures |ps| == |rows| && forall i :: 0 <= i < |rows| ==> ps[i] == (rows[i].cityId, rows[i].provinceId)
  {
    seq(|rows|, i requires 0 <= i < |rows| => (rows[i].cityId, rows[i].provinceId))
  }

  function DistrictPairs(rows: seq<HierarchyRow>): (ps: Pairs)
    ensures |ps| == |rows| && forall i :: 0 <= i < |rows| ==> ps[i] == (rows[i].districtId, rows[i].cityId)
  {
    seq(|rows|, i requires 0 <= i < |rows| => (rows[i].districtId, rows[i].cityId))
  }

  function SubDistrictPairs(rows: seq<HierarchyRow>): (ps: Pairs)
    ensures |ps| == |rows| && forall i :: 0 <= i < |rows| ==> ps[i] == (rows[i].subDistrictId, rows[i].districtId)
  {
    seq(|rows|, i requires 0 <= i < |rows| => (rows[i].subDistrictId, rows[i].districtId))
  }

  /** The map in which the last pair with a key decides. */
  function LastWrite(ps: Pairs): map<Int64, Int64> {
    if ps == [] then map[]
    else LastWrite(ps[..|ps| - 1])[ps[|ps| - 1].0 := ps[|ps| - 1].1]
  }

  /** The map in which the first pair with a key decides. */
  function FirstWrite(ps: Pairs): map<Int64, Int64> {
    if ps == [] then map[]
    else
      var m, p := FirstWrite(ps[..|ps| - 1]), ps[|ps| - 1];
      if p.0 in m then m else m[p.0 := p.1]
  }

  function Loaded(rows: seq<HierarchyRow>): HierarchyMap {
    HierarchyMap(LastWrite(CityPairs(rows)), LastWrite(DistrictPairs(rows)), LastWrite(SubDistrictPairs(rows)))
  }

  lemma WriteSnoc(ps: Pairs, p: (Int64, Int64))
    ensures LastWrite(ps + [p]) == LastWrite(ps)[p.0 := p.1]
    ensures FirstWrite(ps + [p]) == if p.0 in FirstWrite(ps) then FirstWrite(ps) else FirstWrite(ps)[p.0 := p.1]
  {
    assert (ps + [p])[..|ps|] == ps;
  }

  method LoadFullHierarchy(rows: seq<HierarchyRow>) returns (h: HierarchyMap)
    ensures h == Loaded(rows)
  {
    hide LastWrite;
    h := HierarchyMap(map[], map[], map[]);
    NothingWritten();
    for i := 0 to |rows|
      invariant h == Loaded(rows[..i])
    {
      var r := rows[i];
      ghost var front := rows[..i];
      assert CityPairs(rows[..i + 1]) == CityPairs(front) + [(r.cityId, r.provinceId)];
      assert DistrictPairs(rows[..i + 1]) == DistrictPairs(front) + [(r.districtId, r.cityId)];
      assert SubDistrictPairs(rows[..i + 1]) == SubDistrictPairs(front) + [(r.subDistrictId, r.districtId)];
      WriteSnoc(CityPairs(front), (r.cityId, r.provinceId));
      WriteSnoc(DistrictPairs(front), (r.districtId, r.cityId));
      WriteSnoc(SubDistrictPairs(front), (r.subDistrictId, r.districtId));
      h := h.(cityToProvince := h.cityToProvince[r.cityId := r.provinceId]);
      h := h.(districtToCity := h.districtToCity[r.districtId := r.cityId]);
      h := h.(subDistrictToDistrict := h.subDistrictToDistrict[r.subDistrictId := r.districtId]);
    }
    assert rows[..|rows|] == rows;
  }

  lemma NothingWritten()
    ensures Loaded([]) == HierarchyMap(map[], map[], map[])
  {
  }

  method LoadCityProvinceMapping(rows: seq<HierarchyRow>) returns (mapping: map<Int64, Int64>)
    ensures mapping == FirstWrite(CityPairs(rows))
  {
    mapping := map[];
    for i := 0 to |rows|
      invariant mapping == FirstWrite(CityPairs(rows[..i]))
    {
      ghost var front := rows[..i];
      assert CityPairs(rows[..i + 1]) == CityPairs(front) + [(rows[i].cityId, rows[i].provinceId)];
      WriteSnoc(CityPairs(front), (rows[i].cityId, rows[i].provinceId));
      if rows[i].cityId !in mapping {
        mapping := mapping[rows[i].cityId := rows[i].provinceId];
      }
    }
    assert rows[..|rows|] == rows;
  }

  /** No child has two parents. */
  ghost predicate Functional(ps: Pairs) {
    forall i, j :: 0 <= i < |ps| && 0 <= j < |ps| && ps[i].0 == ps[j].0 ==> ps[i].1 == ps[j].1
  }

  /** A map that takes every key, and every value, from some pair. */
  ghost predicate DrawnFrom(m: map<Int64, Int64>, ps: Pairs) {
    && (forall k :: k in m ==> (k, m[k]) in ps)
    && (forall i :: 0 <= i < |ps| ==> ps[i].0 in m)
  }

  lemma {:induction false} WritesAreDrawn(ps: Pairs)
    ensures DrawnFrom(LastWrite(ps), ps) && DrawnFrom(FirstWrite(ps), ps)
  {
    if ps != [] {
      var front, p := ps[..|ps| - 1], ps[|ps| - 1];
      WritesAreDrawn(front);
      assert ps == front + [p];
      WriteSnoc(front, p);
    }
  }

  /** Over functional pairs there is only one such map, whatever the order of the pairs. */
  lemma DrawnUnique(m: map<Int64, Int64>, ps: Pairs, m': map<Int64, Int64>, ps': Pairs)
    requires Functional(ps) && DrawnFrom(m, ps) && DrawnFrom(m', ps')
    requires forall p :: p in ps <==> p in ps'
    ensures m == m'
  {
    forall k | k in m
      ensures k in m' && m'[k] == m[k]
    {
      var i :| 0 <= i < |ps'| && ps'[i] == (k, m[k]);
      assert (k, m'[k]) in ps && (k, m[k]) in ps;
    }
    forall k | k in m'
      ensures k in m
    {
      var i :| 0 <= i < |ps| && ps[i] == (k, m'[k]);
    }
  }

  lemma ConsistentIsFunctional(rows: seq<HierarchyRow>)
    requires Consistent(rows)
    ensures Functional(CityPairs(rows)) && Functional(DistrictPairs(rows)) && Functional(SubDistrictPairs(rows))
  {
  }

  lemma SameRowsSamePairs(rows: seq<HierarchyRow>, rows': seq<HierarchyRow>)
    requires multiset(rows) == multiset(rows')
    ensures forall p :: p in CityPairs(rows) ==> p in CityPairs(rows')
    ensures forall p :: p in DistrictPairs(rows) ==> p in DistrictPairs(rows')
    ensures forall p :: p in SubDistrictPairs(rows) ==> p in SubDistrictPairs(rows')
  {
    forall i | 0 <= i < |rows|
      ensures CityPairs(rows)[i] in CityPairs(rows')
      ensures DistrictPairs(rows)[i] in DistrictPairs(rows')
      ensures SubDistrictPairs(rows)[i] in SubDistrictPairs(rows')
    {
      assert rows[i] in multiset(rows');
      var j :| 0 <= j < |rows'| && rows'[j] == rows[i];
      assert CityPairs(rows')[j] == CityPairs(rows)[i];
      assert DistrictPairs(rows')[j] == DistrictPairs(rows)[i];
      assert SubDistrictPairs(rows')[j] == SubDistrictPairs(rows)[i];
    }
  }

  /** The loaded maps do not depend on the order in which the rows are read. */
  lemma LoadOrderIrrelevant(rows: seq<HierarchyRow>, rows': seq<HierarchyRow>)
    requires Consistent(rows) && multiset(rows) == multiset(rows')
    ensures Loaded(rows) == Loaded(rows')
  {
    hide LastWrite, FirstWrite, DrawnFrom, Functional, Consistent;
    ConsistentIsFunctional(rows);
    SameRowsSamePairs(rows, rows');
    SameRowsSamePairs(rows', rows);
    WritesAreDrawn(CityPairs(rows));
    WritesAreDrawn(CityPairs(rows'));
    WritesAreDrawn(DistrictPairs(rows));
    WritesAreDrawn(DistrictPairs(rows'));
    WritesAreDrawn(SubDistrictPairs(rows));
    WritesAreDrawn(SubDistrictPairs(rows'));
    var h, h' := Loaded(rows), Loaded(rows');
    DrawnUnique(h.cityToProvince, CityPairs(rows), h'.cityToProvince, CityPairs(rows'));
    DrawnUnique(h.districtToCity, DistrictPairs(rows), h'.districtToCity, DistrictPairs(rows'));
    DrawnUnique(h.subDistrictToDistrict, SubDistrictPairs(rows), h'.subDistrictToDistrict, SubDistrictPairs(rows'));
  }

  lemma FunctionalLookup(ps: Pairs, i: nat)
    requires Functional(ps) && i < |ps|
    ensures Lookup(LastWrite(ps), ps[i].0) == ps[i].1
  {
    hide LastWrite;
    WritesAreDrawn(ps);
    var j :| 0 <= j < |ps| && ps[j] == (ps[i].0, LastWrite(ps)[ps[i].0]);
  }

  /** Climbing from a sub-district gives back its own row. */
  lemma ClimbGivesRow(rows: seq<HierarchyRow>, i: nat)
    requires Consistent(rows) && i < |rows|
    ensures var h, r := Loaded(rows), rows[i];
            && Lookup(h.subDistrictToDistrict, r.subDistrictId) == r.districtId
            && Lookup(h.districtToCity, r.districtId) == r.cityId
            && Lookup(h.cityToProvince, r.cityId) == r.provinceId
  {
    hide LastWrite, Functional, Consistent;
    ConsistentIsFunctional(rows);
    FunctionalLookup(SubDistrictPairs(rows), i);
    FunctionalLookup(DistrictPairs(rows), i);
    FunctionalLookup(CityPairs(rows), i);
  }

  /** Over consistent rows the first write and the last write agree. */
  lemma FirstWriteIsLastWrite(rows: seq<HierarchyRow>)
    requires Consistent(rows)
    ensures FirstWrite(CityPairs(rows)) == Loaded(rows).cityToProvince
  {
    hide LastWrite, FirstWrite;
    ConsistentIsFunctional(rows);
    WritesAreDrawn(CityPairs(rows));
    DrawnUnique(FirstWrite(CityPairs(rows)), CityPairs(rows), LastWrite(CityPairs(rows)), CityPairs(rows));
  }

  /** Every parent that a loaded map names is itself a key of the next map up. */
  ghost predicate ClosedUpwards(h: HierarchyMap) {
    FeedsInto(h.subDistrictToDistrict, h.districtToCity) && FeedsInto(h.districtToCity, h.cityToProvince)
  }

  ghost predicate FeedsInto(m: map<Int64, Int64>, up: map<Int64, Int64>) {
    forall k :: k in m ==> m[k] in up
  }

  lemma DrawnFeeds(m: map<Int64, Int64>, ps: Pairs, up: map<Int64, Int64>, qs: Pairs)
    requires DrawnFrom(m, ps) && DrawnFrom(up, qs)
    requires |ps| == |qs| && forall i :: 0 <= i < |ps| ==> ps[i].1 == qs[i].0
    ensures FeedsInto(m, up)
  {
    forall k | k in m
      ensures m[k] in up
    {
      var i :| 0 <= i < |ps| && ps[i] == (k, m[k]);
      assert qs[i].0 in up;
    }
  }

  lemma LoadedIsClosed(rows: seq<HierarchyRow>)
    ensures ClosedUpwards(Loaded(rows))
  {
    hide LastWrite, FirstWrite, DrawnFrom, FeedsInto;
    WritesAreDrawn(CityPairs(rows));
    WritesAreDrawn(DistrictPairs(rows));
    WritesAreDrawn(SubDistrictPairs(rows));
    DrawnFeeds(LastWrite(SubDistrictPairs(rows)), SubDistrictPairs(rows), LastWrite(DistrictPairs(rows)),
               DistrictPairs(rows));
    DrawnFeeds(LastWrite(DistrictPairs(rows)), DistrictPairs(rows), LastWrite(CityPairs(rows)), CityPairs(rows));
  }

  // ---------- From region codes to loaded maps ----------

  /** Primary keys: no id occurs twice. */
  ghost predicate DistinctIds(subs: seq<CodeRow>) {
    forall i, j :: 0 <= i < j < |subs| ==> subs[i].id != subs[j].id
  }

  lemma {:induction false} RowsHoldSubs(index: KodeIndex, subs: seq<CodeRow>, k: nat)
    requires k < |subs| && RowFor(index, subs[k]).Some?
    ensures RowFor(index, subs[k]).value in RowsFor(index, subs)
  {
    hide RowFor;
    if k > 0 {
      assert subs[1..][k - 1] == subs[k];
      RowsHoldSubs(index, subs[1..], k - 1);
    }
  }

  lemma RowHasSubId(index: KodeIndex, s: CodeRow)
    ensures RowFor(index, s).Some? ==> RowFor(index, s).value.subDistrictId == s.id
  {
  }

  lemma {:induction false} DistinctIdsDistinctRows(index: KodeIndex, subs: seq<CodeRow>)
    requires DistinctIds(subs)
    ensures DistinctSubDistricts(RowsFor(index, subs))
  {
    hide RowFor;
    if subs != [] {
      var rest := subs[1..];
      assert forall i :: 0 <= i < |rest| ==> rest[i] == subs[i + 1];
      DistinctIdsDistinctRows(index, rest);
      RowsComeFromSubs(index, rest);
      RowHasSubId(index, subs[0]);
      forall r | r in RowsFor(index, rest)
        ensures r.subDistrictId != subs[0].id
      {
        var k :| 0 <= k < |rest| && RowFor(index, rest[k]) == Some(r);
        RowHasSubId(index, rest[k]);
      }
      assert forall j :: 0 <= j < |RowsFor(index, rest)| ==> RowsFor(index, rest)[j] in RowsFor(index, rest);
    }
  }

  /** The rebuild of an empty table stores every row that the codes give, in order. */
  lemma RebuildStoresAll(parents: seq<CodeRow>, subs: seq<CodeRow>)
    requires DistinctIds(subs)
    ensures InsertRows([], RowsFor(IndexKodes(parents), subs)) == RowsFor(IndexKodes(parents), subs)
  {
    hide RowsFor, IndexKodes, InsertRows;
    var rows := RowsFor(IndexKodes(parents), subs);
    DistinctIdsDistinctRows(IndexKodes(parents), subs);
    FreshTableTakesAll([], rows);
    assert [] + rows == rows;
  }

  /** Where the maps lead from a sub-district. */
  ghost predicate ClimbsTo(h: HierarchyMap, id: Int64, district: Int64, city: Int64, province: Int64) {
    && id in h.subDistrictToDistrict && h.subDistrictToDistrict[id] == district
    && district in h.districtToCity && h.districtToCity[district] == city
    && city in h.cityToProvince && h.cityToProvince[city] == province
  }

  lemma RowClimbs(rows: seq<HierarchyRow>, r: HierarchyRow)
    requires Consistent(rows) && r in rows
    ensures ClimbsTo(Loaded(rows), r.subDistrictId, r.districtId, r.cityId, r.provinceId)
  {
    hide LastWrite, Consistent;
    var i :| 0 <= i < |rows| && rows[i] == r;
    ClimbGivesRow(rows, i);
    WritesAreDrawn(CityPairs(rows));
    WritesAreDrawn(DistrictPairs(rows));
    WritesAreDrawn(SubDistrictPairs(rows));
  }

  lemma UnknownSubDistrict(index: KodeIndex, subs: seq<CodeRow>, k: nat)
    requires DistinctIds(subs) && k < |subs| && RowFor(index, subs[k]) == None
    ensures subs[k].id !in Loaded(RowsFor(index, subs)).subDistrictToDistrict
  {
    hide RowFor, RowsFor, LastWrite;
    var rows, id := RowsFor(index, subs), subs[k].id;
    var ps := SubDistrictPairs(rows);
    WritesAreDrawn(ps);
    RowsComeFromSubs(index, subs);
    forall i | 0 <= i < |rows|
      ensures ps[i].0 != id
    {
      assert rows[i] in rows;
      var l :| 0 <= l < |subs| && RowFor(index, subs[l]) == Some(rows[i]);
      RowHasSubId(index, subs[l]);
    }
  }

  lemma ClimbFromRow(parents: seq<CodeRow>, subs: seq<CodeRow>, stored: seq<HierarchyRow>, k: nat)
    requires DistinctCodeIds(parents) && DistinctIds(subs) && k < |subs|
    requires multiset(stored) == multiset(InsertRows([], RowsFor(IndexKodes(parents), subs)))
    ensures var h := Loaded(stored);
            match RowFor(IndexKodes(parents), subs[k])
            case None => subs[k].id !in h.subDistrictToDistrict
            case Some(r) => r.subDistrictId == subs[k].id && ClimbsTo(h, subs[k].id, r.districtId, r.cityId, r.provinceId)
  {
    hide RowFor, RowsFor, IndexKodes, InsertRows, Loaded, Consistent, ClimbsTo;
    var index := IndexKodes(parents);
    var rows := RowsFor(index, subs);
    RebuildStoresAll(parents, subs);
    RebuiltRowsConsistent(parents, subs);
    LoadOrderIrrelevant(rows, stored);
    RowHasSubId(index, subs[k]);
    if RowFor(index, subs[k]).Some? {
      RowsHoldSubs(index, subs, k);
      RowClimbs(rows, RowFor(index, subs[k]).value);
    } else {
      UnknownSubDistrict(index, subs, k);
    }
  }

  /** End to end: rebuild an empty table from region codes and load the stored rows in any order. From
      a sub-district with the code p.c.d.s the maps lead to exactly the regions with the codes p.c.d,
      p.c and p, when all three are there, and else nowhere. */
  lemma RebuiltHierarchyClimbs(parents: seq<CodeRow>, subs: seq<CodeRow>, stored: seq<HierarchyRow>, k: nat,
                               p: string, c: string, d: string, s: string)
    requires DistinctCodeIds(parents) && DistinctIds(subs) && k < |subs|
    requires multiset(stored) == multiset(InsertRows([], RowsFor(IndexKodes(parents), subs)))
    requires IsFourParts(subs[k].kode, p, c, d, s)
    ensures var index, h := IndexKodes(parents), Loaded(stored);
            if p in index && p + "." + c in index && p + "." + c + "." + d in index
            then ClimbsTo(h, subs[k].id, index[p + "." + c + "." + d], index[p + "." + c], index[p])
            else subs[k].id !in h.subDistrictToDistrict
  {
    hide Split, RowsFor, IndexKodes, InsertRows, Loaded, ClimbsTo;
    ClimbFromRow(parents, subs, stored, k);
    SplitOfFour(subs[k].kode, p, c, d, s);
  }

  /** From a sub-district whose code does not have four parts they lead nowhere. */
  lemma OtherCodesLeadNowhere(parents: seq<CodeRow>, subs: seq<CodeRow>, stored: seq<HierarchyRow>, k: nat)
    requires DistinctCodeIds(parents) && DistinctIds(subs) && k < |subs|
    requires multiset(stored) == multiset(InsertRows([], RowsFor(IndexKodes(parents), subs)))
    requires forall p, c, d, s :: !IsFourParts(subs[k].kode, p, c, d, s)
    ensures subs[k].id !in Loaded(stored).subDistrictToDistrict
  {
    hide Split, RowsFor, IndexKodes, InsertRows, Loaded, ClimbsTo, IsFourParts;
    ClimbFromRow(parents, subs, stored, k);
    if |Split(subs[k].kode)| == 4 {
      FourOfSplit(subs[k].kode);
    }
  }

  /** With distinct codes, a code is looked up as the id of its own region. */
  lemma {:induction false} CodesAreIndexed(parents: seq<CodeRow>, i: nat)
    requires i < |parents|
    requires forall j, l :: 0 <= j < l < |parents| ==> parents[j].kode != parents[l].kode
    ensures parents[i].kode in IndexKodes(parents) && IndexKodes(parents)[parents[i].kode] == parents[i].id
  {
    if i < |parents| - 1 {
      CodesAreIndexed(parents[..|parents| - 1], i);
    }
  }
}
