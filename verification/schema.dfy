/** The column check made before any row is looked at. */
module Schema {

  /** The columns an uploaded table must have, in the order the application lists them. */
  const RequiredColumns: seq<string> := ["EmployeeID", "FirstName", "Department", "Date", "Time"]

  /** Whether every name in `required` is one of `columns` (checked left to right). */
  function AllPresent(required: seq<string>, columns: seq<string>): (ok: bool)
    ensures ok <==> forall i :: 0 <= i < |required| ==> required[i] in columns
  {
    |required| == 0 || (required[0] in columns && AllPresent(required[1..], columns))
  }

  /** The check proper: all five required columns are present, in any order, among any others. */
  function HasRequiredColumns(columns: seq<string>): (ok: bool)
    ensures ok <==> "EmployeeID" in columns && "FirstName" in columns && "Department" in columns
                    && "Date" in columns && "Time" in columns
  {
    assert RequiredColumns[0] == "EmployeeID" && RequiredColumns[1] == "FirstName";
    assert RequiredColumns[2] == "Department" && RequiredColumns[3] == "Date" && RequiredColumns[4] == "Time";
    AllPresent(RequiredColumns, columns)
  }
}
