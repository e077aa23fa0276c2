/**
 * Punch records and the two filtering steps applied before the pivot:
 * rows whose date or time could not be parsed are dropped, then rows whose
 * time falls in no meal window are dropped.
 */
module Punches {
  import opened Wrappers
  import opened Clock
  import opened MealWindows
  import opened SeqFilter

  /**
   * An uploaded row after the `Date` and `Time` columns were parsed with
   * errors coerced to "missing": `date` is the re-rendered `DD-MM-YYYY` text
   * of a parsed date and `time` the parsed time of day, each `None` when
   * parsing failed.
   */
  datatype Row = Row(employeeId: string, firstName: string, department: string,
                     date: Option<string>, time: Option<Time>)

  /** A row whose date and time both parsed. */
  datatype Punch = Punch(employeeId: string, firstName: string, department: string,
                         date: string, time: Time)

  /** A punch together with the meal category of its time. */
  datatype Classified = Classified(punch: Punch, category: Category)

  /** A row survives the invalid-row drop exactly when both fields parsed. */
  function Parsed(row: Row): (p: Option<Punch>)
    ensures p.Some? <==> row.date.Some? && row.time.Some?
    ensures p.Some? ==> p.value.date == row.date.value && p.value.time == row.time.value
                        && p.value.employeeId == row.employeeId && p.value.firstName == row.firstName
                        && p.value.department == row.department
  {
    match (row.date, row.time)
    case (Some(d), Some(t)) => Some(Punch(row.employeeId, row.firstName, row.department, d, t))
    case _ => None
  }

  /** A punch survives the uncategorised-row drop exactly when its time has a category. */
  function Classify(p: Punch): (c: Option<Classified>)
    ensures c.Some? <==> CategorizeTime(p.time).Some?
    ensures c.Some? ==> c.value.punch == p && CategorizeTime(p.time) == Some(c.value.category)
  {
    match CategorizeTime(p.time)
    case Some(cat) => Some(Classified(p, cat))
    case None => None
  }

  /**
   * Drop rows with a missing date or time: the punches are, in order, the
   * rows whose date and time both parsed, each with that row's own fields.
   */
  function DropInvalid(rows: seq<Row>): (ps: seq<Punch>)
    ensures |ps| <= |rows|
    ensures var idx := KeptIndices(Parsed, rows);
      && |ps| == |idx|
      && (forall i :: 0 <= i < |rows| ==> (i in idx <==> rows[i].date.Some? && rows[i].time.Some?))
      && (forall k :: 0 <= k < |ps| ==>
            idx[k] < |rows| && Parsed(rows[idx[k]]) == Some(ps[k])
            && rows[idx[k]].date == Some(ps[k].date) && rows[idx[k]].time == Some(ps[k].time)
            && ps[k].employeeId == rows[idx[k]].employeeId && ps[k].firstName == rows[idx[k]].firstName
            && ps[k].department == rows[idx[k]].department)
  {
    FilterMap(Parsed, rows)
  }

  /**
   * Attach categories, dropping punches outside every meal window: what is
   * left is, in order, exactly the punches whose time has a category, each
   * with that category.
   */
  function DropUncategorised(ps: seq<Punch>): (cs: seq<Classified>)
    ensures |cs| <= |ps|
    ensures var idx := KeptIndices(Classify, ps);
      && |cs| == |idx|
      && (forall i :: 0 <= i < |ps| ==> (i in idx <==> CategorizeTime(ps[i].time).Some?))
      && (forall k :: 0 <= k < |cs| ==>
            idx[k] < |ps| && cs[k].punch == ps[idx[k]]
            && CategorizeTime(cs[k].punch.time) == Some(cs[k].category))
  {
    FilterMap(Classify, ps)
  }

  /** What one row contributes to the pivot, if anything. */
  function Admit(row: Row): (c: Option<Classified>)
    ensures c.Some? <==> row.date.Some? && row.time.Some? && CategorizeTime(row.time.value).Some?
  {
    match Parsed(row)
    case Some(p) => Classify(p)
    case None => None
  }

  /**
   * The rows that reach the pivot: dropping invalid rows and then
   * uncategorised ones keeps exactly what `Admit` keeps, in order.
   */
  function Survivors(rows: seq<Row>): (cs: seq<Classified>)
    ensures cs == FilterMap(Admit, rows)
  {
    SurvivorsAreAdmitted(rows);
    DropUncategorised(DropInvalid(rows))
  }

  /** The two drops in a row are the single drop by `Admit`. */
  lemma SurvivorsAreAdmitted(rows: seq<Row>)
    ensures DropUncategorised(DropInvalid(rows)) == FilterMap(Admit, rows)
  {
    FilterMapThen(Parsed, Classify, rows);
    forall i | 0 <= i < |rows| ensures Then(Parsed, Classify)(rows[i]) == Admit(rows[i]) {
    }
    FilterMapPointwise(Then(Parsed, Classify), Admit, rows);
  }

  /**
   * The drops only remove rows: what survives is, in the original order,
   * exactly the rows with a parsed date, a parsed time and a meal category,
   * each carrying its own fields and the category of its time.
   */
  lemma SurvivorsExactly(rows: seq<Row>)
    ensures |Survivors(rows)| <= |rows|
    ensures var cs, idx := Survivors(rows), KeptIndices(Admit, rows);
      && |idx| == |cs|
      && (forall k, l :: 0 <= k < l < |idx| ==> idx[k] < idx[l])
      && (forall i :: 0 <= i < |rows| ==>
            (i in idx <==> rows[i].date.Some? && rows[i].time.Some? && CategorizeTime(rows[i].time.value).Some?))
      && (forall k :: 0 <= k < |cs| ==> idx[k] < |rows| && Survives(rows[idx[k]], cs[k]))
  {
    var cs, idx := Survivors(rows), KeptIndices(Admit, rows);
    forall k | 0 <= k < |cs| ensures idx[k] < |rows| && Survives(rows[idx[k]], cs[k]) {
      assert Admit(rows[idx[k]]) == Some(cs[k]);
    }
  }

  /** `c` is what row `row` becomes when it survives both drops. */
  ghost predicate Survives(row: Row, c: Classified) {
    && row.date == Some(c.punch.date) && row.time == Some(c.punch.time)
    && c.punch.employeeId == row.employeeId && c.punch.firstName == row.firstName
    && c.punch.department == row.department
    && CategorizeTime(c.punch.time) == Some(c.category)
  }
}
