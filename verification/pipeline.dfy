/**
 * The whole processing step for one uploaded table: column check, the two
 * drops, the pivot and the ", " rendering of its cells.
 */
module Pipeline {
  import opened Wrappers
  import opened Clock
  import opened MealWindows
  import opened SeqFilter
  import opened Punches
  import opened CellText
  import opened Pivot
  import opened Schema

  /** The only error the step reports itself: a required column is absent. */
  datatype Error = MissingColumns

  /** The displayed table: row key to date to cell text. */
  type Output = map<Key, map<string, string>>

  /**
   * Processes the parsed rows of a table with header `columns`. A missing
   * required column is an error and produces no table at all.
   */
  function Process(columns: seq<string>, rows: seq<Row>): (r: Result<Output, Error>)
    ensures r.Err? <==> exists c :: c in RequiredColumns && c !in columns
    ensures r.Err? ==> r.error == MissingColumns
  {
    if !HasRequiredColumns(columns) then Err(MissingColumns)
    else Ok(Render(PivotTable(Survivors(rows))))
  }

  /** Row `row` survives both drops with key `k`. */
  ghost predicate AdmittedWithKey(row: Row, k: Key) {
    Admit(row).Some? && KeyOf(Admit(row).value) == k
  }

  /** Row `row` survives both drops with key `k` and date `d`. */
  ghost predicate AdmittedAt(row: Row, k: Key, d: string) {
    AdmittedWithKey(row, k) && row.date == Some(d)
  }

  /** What one uploaded row contributes to the cell (`k`, `d`). */
  function RowCell(k: Key, d: string): Row -> Option<string> {
    Then(Admit, CellOf(k, d))
  }

  /** A key labels some survivor exactly when it labels some admitted row. */
  lemma SurvivorKeys(rows: seq<Row>, k: Key)
    ensures (exists j :: 0 <= j < |Survivors(rows)| && KeyOf(Survivors(rows)[j]) == k)
        <==> (exists i :: 0 <= i < |rows| && AdmittedWithKey(rows[i], k))
  {
    var cs, idx := Survivors(rows), KeptIndices(Admit, rows);
    if j :| 0 <= j < |cs| && KeyOf(cs[j]) == k {
      assert Admit(rows[idx[j]]) == Some(cs[j]);
      assert AdmittedWithKey(rows[idx[j]], k);
    }
    if i :| 0 <= i < |rows| && AdmittedWithKey(rows[i], k) {
      assert i in idx;
      var j :| 0 <= j < |idx| && idx[j] == i;
      assert Admit(rows[i]) == Some(cs[j]);
    }
  }

  /** What a row contributes to cell (`k`, `d`): its time text, exactly when it survives with `k` and `d`. */
  lemma RowCellOfRow(row: Row, k: Key, d: string)
    ensures RowCell(k, d)(row).Some? <==> AdmittedAt(row, k, d)
    ensures RowCell(k, d)(row).Some? ==> row.time.Some? && RowCell(k, d)(row).value == FormatTime(row.time.value)
  {
  }

  /** Cell (`k`, `d`) of the survivors is the cell (`k`, `d`) computed over the uploaded rows. */
  lemma SurvivorTimes(rows: seq<Row>, k: Key, d: string)
    ensures Times(Survivors(rows), k, d) == FilterMap(RowCell(k, d), rows)
  {
    FilterMapThen(Admit, CellOf(k, d), rows);
  }

  /** A row-level cell is non-empty exactly when some row survives with key `k` and date `d`. */
  lemma RowCellNonEmpty(rows: seq<Row>, k: Key, d: string)
    ensures FilterMap(RowCell(k, d), rows) != [] <==> exists i :: 0 <= i < |rows| && AdmittedAt(rows[i], k, d)
  {
    var idx := KeptIndices(RowCell(k, d), rows);
    if i :| 0 <= i < |rows| && AdmittedAt(rows[i], k, d) {
      RowCellOfRow(rows[i], k, d);
      assert i in idx;
    }
    if FilterMap(RowCell(k, d), rows) != [] {
      var i := idx[0];
      RowCellOfRow(rows[i], k, d);
    }
  }

  /**
   * End to end, for a table with all required columns: the output has a row
   * for key `k` exactly when some uploaded row survives with that key; in it
   * a cell for date `d` exactly when some surviving row has key `k` and date
   * `d`; and that cell's text is the ", "-join of the times of exactly those
   * rows, in upload order and without deduplication, which it reads back into.
   */
  lemma ProcessOutput(columns: seq<string>, rows: seq<Row>, k: Key, d: string)
    requires HasRequiredColumns(columns)
    ensures Process(columns, rows).Ok?
    ensures var out := Process(columns, rows).value;
      && (k in out <==> exists i :: 0 <= i < |rows| && AdmittedWithKey(rows[i], k))
      && (k in out ==> (d in out[k] <==> exists i :: 0 <= i < |rows| && AdmittedAt(rows[i], k, d)))
      && (k in out && d in out[k] ==> out[k][d] == Join(FilterMap(RowCell(k, d), rows), Separator))
      && (k in out && d in out[k] ==> SplitCell(out[k][d]) == Some(FilterMap(RowCell(k, d), rows)))
  {
    var cs := Survivors(rows);
    PivotRow(cs, k);
    SurvivorKeys(rows, k);
    SurvivorTimes(rows, k, d);
    RowCellNonEmpty(rows, k, d);
    if k in PivotTable(cs) {
      PivotCell(cs, k, d);
      TimesNonEmpty(cs, k, d);
      if d in PivotTable(cs)[k] {
        RenderedCells(cs, k, d);
      }
    }
  }

  /**
   * The entries of a row-level cell are, in order, the `HH:MM:SS` texts of
   * exactly the rows that survive with key `k` and date `d`.
   */
  lemma RowCellSelects(rows: seq<Row>, k: Key, d: string)
    ensures var cell, idx := FilterMap(RowCell(k, d), rows), KeptIndices(RowCell(k, d), rows);
      && |cell| == |idx|
      && (forall a, b :: 0 <= a < b < |idx| ==> idx[a] < idx[b])
      && (forall i :: 0 <= i < |rows| ==> (i in idx <==> AdmittedAt(rows[i], k, d)))
      && (forall j :: 0 <= j < |cell| ==>
            idx[j] < |rows| && rows[idx[j]].time.Some? && cell[j] == FormatTime(rows[idx[j]].time.value))
  {
    var cell, idx := FilterMap(RowCell(k, d), rows), KeptIndices(RowCell(k, d), rows);
    forall i | 0 <= i < |rows| ensures i in idx <==> AdmittedAt(rows[i], k, d) {
      RowCellOfRow(rows[i], k, d);
    }
    forall j | 0 <= j < |cell|
      ensures idx[j] < |rows| && rows[idx[j]].time.Some? && cell[j] == FormatTime(rows[idx[j]].time.value)
    {
      RowCellOfRow(rows[idx[j]], k, d);
    }
  }

  /** A missing required column is reported and nothing else is produced. */
  lemma MissingColumnRejects(columns: seq<string>, rows: seq<Row>, c: string)
    requires c in RequiredColumns && c !in columns
    ensures Process(columns, rows) == Err(MissingColumns)
  {
  }
}
