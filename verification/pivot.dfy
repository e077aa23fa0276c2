/**
 * The pivot: surviving punches grouped by (EmployeeID, FirstName, Department,
 * Category) into rows and by Date into columns, each cell listing the punch
 * times of its group in input order.
 */
module Pivot {
  import opened Wrappers
  import opened Clock
  import opened MealWindows
  import opened SeqFilter
  import opened Punches
  import opened CellText

  /** The index of a pivot row. */
  datatype Key = Key(employeeId: string, firstName: string, department: string, category: Category)

  function KeyOf(c: Classified): Key {
    Key(c.punch.employeeId, c.punch.firstName, c.punch.department, c.category)
  }

  /** Row key to date to the time texts of that cell. */
  type Table = map<Key, map<string, seq<string>>>

  /** The cell at (`k`, `d`), empty when the table has none. */
  function Lookup(t: Table, k: Key, d: string): seq<string> {
    if k in t && d in t[k] then t[k][d] else []
  }

  /** Every row has a cell and every cell an entry. */
  ghost predicate NoEmptyCells(t: Table) {
    forall k :: k in t ==> t[k] != map[] && forall d :: d in t[k] ==> t[k][d] != []
  }

  /** Appends the time text of `c` to its cell, creating the row or cell as needed. */
  function Insert(t: Table, c: Classified): (t': Table)
    ensures t'.Keys == t.Keys + {KeyOf(c)}
    ensures NoEmptyCells(t) ==> NoEmptyCells(t')
  {
    var k, d := KeyOf(c), c.punch.date;
    var row := if k in t then t[k] else map[];
    var cell := if d in row then row[d] else [];
    t[k := row[d := cell + [FormatTime(c.punch.time)]]]
  }

  /** Inserting `c` appends its time text to its own cell and leaves every other cell alone. */
  lemma InsertLookup(t: Table, c: Classified, k: Key, d: string)
    ensures Lookup(Insert(t, c), k, d) ==
            Lookup(t, k, d) + (if KeyOf(c) == k && c.punch.date == d then [FormatTime(c.punch.time)] else [])
  {
  }

  /** The pivot, built by visiting the punches in input order. */
  function PivotTable(cs: seq<Classified>): (t: Table)
    ensures NoEmptyCells(t)
  {
    if |cs| == 0 then map[] else Insert(PivotTable(cs[..|cs| - 1]), cs[|cs| - 1])
  }

  /** One more punch is one more insertion. */
  lemma PivotSnoc(cs: seq<Classified>, c: Classified)
    ensures PivotTable(cs + [c]) == Insert(PivotTable(cs), c)
  {
    assert (cs + [c])[..|cs|] == cs;
  }

  /** What one punch contributes to the cell (`k`, `d`). */
  function CellOf(k: Key, d: string): Classified -> Option<string> {
    c => if KeyOf(c) == k && c.punch.date == d then Some(FormatTime(c.punch.time)) else None
  }

  /**
   * Reference definition of one cell: the time texts of all punches with key
   * `k` and date `d`, in input order, without deduplication.
   */
  function Times(cs: seq<Classified>, k: Key, d: string): (ts: seq<string>)
    ensures FixedWidth(ts)
    ensures |ts| == |KeptIndices(CellOf(k, d), cs)|
    ensures forall j :: 0 <= j < |ts| ==>
      var i := KeptIndices(CellOf(k, d), cs)[j];
      i < |cs| && KeyOf(cs[i]) == k && cs[i].punch.date == d && ts[j] == FormatTime(cs[i].punch.time)
  {
    var ts := FilterMap(CellOf(k, d), cs);
    forall j | 0 <= j < |ts| ensures |ts[j]| == 8 {
      assert CellOf(k, d)(cs[KeptIndices(CellOf(k, d), cs)[j]]) == Some(ts[j]);
    }
    ts
  }

  /** Every cell of the pivot is exactly its reference list, and absent cells have none. */
  lemma {:induction false} PivotCells(cs: seq<Classified>, k: Key, d: string)
    ensures Lookup(PivotTable(cs), k, d) == Times(cs, k, d)
  {
    if |cs| > 0 {
      var front, c := cs[..|cs| - 1], cs[|cs| - 1];
      PivotCells(front, k, d);
      InsertLookup(PivotTable(front), c, k, d);
      assert Lookup(PivotTable(cs), k, d) ==
        Lookup(PivotTable(front), k, d) + (if KeyOf(c) == k && c.punch.date == d then [FormatTime(c.punch.time)] else []);
      assert Times(cs, k, d) == FilterMap(CellOf(k, d), front) + (match CellOf(k, d)(c) case Some(x) => [x] case None => []);
    }
  }

  /** A punch with key `k` and date `d` exists exactly when their reference cell is non-empty. */
  lemma TimesNonEmpty(cs: seq<Classified>, k: Key, d: string)
    ensures Times(cs, k, d) != [] <==> exists i :: 0 <= i < |cs| && KeyOf(cs[i]) == k && cs[i].punch.date == d
  {
    var idx := KeptIndices(CellOf(k, d), cs);
    if Times(cs, k, d) != [] {
      var i := idx[0];
      assert i < |cs| && KeyOf(cs[i]) == k && cs[i].punch.date == d;
    }
    if i :| 0 <= i < |cs| && KeyOf(cs[i]) == k && cs[i].punch.date == d {
      assert CellOf(k, d)(cs[i]).Some?;
      assert i in idx;
    }
  }

  /** The pivot has a row for key `k` exactly when some punch carries `k`. */
  lemma PivotRow(cs: seq<Classified>, k: Key)
    ensures k in PivotTable(cs) <==> exists i :: 0 <= i < |cs| && KeyOf(cs[i]) == k
  {
    var t := PivotTable(cs);
    if k in t {
      assert t[k] != map[];
      var d :| d in t[k];
      PivotCells(cs, k, d);
      TimesNonEmpty(cs, k, d);
    }
    if i :| 0 <= i < |cs| && KeyOf(cs[i]) == k {
      PivotCells(cs, k, cs[i].punch.date);
      TimesNonEmpty(cs, k, cs[i].punch.date);
    }
  }

  /**
   * In row `k`, the pivot has a cell for date `d` exactly when some punch
   * carries `k` and `d`, and that cell is its non-empty reference list.
   */
  lemma PivotCell(cs: seq<Classified>, k: Key, d: string)
    requires k in PivotTable(cs)
    ensures d in PivotTable(cs)[k] <==> exists i :: 0 <= i < |cs| && KeyOf(cs[i]) == k && cs[i].punch.date == d
    ensures d in PivotTable(cs)[k] ==> PivotTable(cs)[k][d] != [] && PivotTable(cs)[k][d] == Times(cs, k, d)
  {
    PivotCells(cs, k, d);
    TimesNonEmpty(cs, k, d);
  }

  /**
   * Coverage and uniqueness: the pivot has one row for each key some punch
   * carries and no other, and in that row one non-empty cell for each date
   * some punch with that key carries and no other.
   */
  lemma PivotCoverage(cs: seq<Classified>)
    ensures forall k :: k in PivotTable(cs) <==> exists i :: 0 <= i < |cs| && KeyOf(cs[i]) == k
    ensures forall k, d :: k in PivotTable(cs) ==>
              (d in PivotTable(cs)[k] <==> exists i :: 0 <= i < |cs| && KeyOf(cs[i]) == k && cs[i].punch.date == d)
    ensures forall k, d :: k in PivotTable(cs) && d in PivotTable(cs)[k] ==>
              PivotTable(cs)[k][d] != [] && PivotTable(cs)[k][d] == Times(cs, k, d)
  {
    forall k ensures k in PivotTable(cs) <==> exists i :: 0 <= i < |cs| && KeyOf(cs[i]) == k {
      PivotRow(cs, k);
    }
    forall k, d | k in PivotTable(cs)
      ensures d in PivotTable(cs)[k] <==> exists i :: 0 <= i < |cs| && KeyOf(cs[i]) == k && cs[i].punch.date == d
      ensures d in PivotTable(cs)[k] ==> PivotTable(cs)[k][d] != [] && PivotTable(cs)[k][d] == Times(cs, k, d)
    {
      PivotCell(cs, k, d);
    }
  }

  /** The displayed table: every cell's times joined with ", ". */
  function Render(t: Table): (out: map<Key, map<string, string>>)
    ensures out.Keys == t.Keys
    ensures forall k :: k in t ==> out[k].Keys == t[k].Keys
  {
    map k | k in t :: map d | d in t[k] :: Join(t[k][d], Separator)
  }

  /**
   * Each displayed cell of the pivot is the ", "-join of exactly the time
   * texts of its group's punches, in input order, and it reads back into
   * them: the number of entries it lists is the number of such punches.
   */
  lemma RenderedCells(cs: seq<Classified>, k: Key, d: string)
    requires k in PivotTable(cs) && d in PivotTable(cs)[k]
    ensures Render(PivotTable(cs))[k][d] == Join(Times(cs, k, d), Separator)
    ensures SplitCell(Render(PivotTable(cs))[k][d]) == Some(Times(cs, k, d))
  {
    PivotCell(cs, k, d);
    SplitJoin(Times(cs, k, d));
  }
}
