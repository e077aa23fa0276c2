/**
 * The text of one pivot cell: the punch times of a group joined with ", ",
 * and the reading of such text back into its `HH:MM:SS` entries.
 */
module CellText {
  import opened Wrappers

  const Separator: string := ", "

  /** The total length of the entries of `xs`. */
  function Width(xs: seq<string>): nat {
    if |xs| == 0 then 0 else |xs[0]| + Width(xs[1..])
  }

  /** The entries of `xs` with `sep` between neighbours (no leading or trailing separator). */
  function Join(xs: seq<string>, sep: string): (s: string)
    ensures |xs| > 0 ==> |s| == Width(xs) + |sep| * (|xs| - 1)
    ensures |xs| > 0 ==> xs[0] <= s
  {
    if |xs| == 0 then ""
    else if |xs| == 1 then xs[0]
    else xs[0] + sep + Join(xs[1..], sep)
  }

  /** Every entry is 8 characters wide, the width of `HH:MM:SS`. */
  predicate FixedWidth(xs: seq<string>) {
    forall i :: 0 <= i < |xs| ==> |xs[i]| == 8
  }

  /**
   * Reads the text of a cell made of 8-character entries (`HH:MM:SS`) with
   * ", " between neighbours back into those entries; any other text gives
   * `None`.
   */
  function SplitCell(s: string): (r: Option<seq<string>>)
    ensures r.Some? ==> |r.value| > 0 && FixedWidth(r.value)
    decreases |s|
  {
    if |s| == 8 then Some([s])
    else if |s| > 10 && s[8..10] == Separator then
      match SplitCell(s[10..])
      case Some(rest) => Some([s[..8]] + rest)
      case None => None
    else None
  }

  /**
   * Joining with ", " loses nothing: the cell text gives back every entry, in
   * order and with repetitions, so its number of entries is the number joined.
   */
  lemma {:induction false} SplitJoin(xs: seq<string>)
    requires |xs| > 0 && FixedWidth(xs)
    ensures SplitCell(Join(xs, Separator)) == Some(xs)
    ensures |Join(xs, Separator)| == 10 * |xs| - 2
  {
    if |xs| > 1 {
      var rest := xs[1..];
      SplitJoin(rest);
      var s := Join(xs, Separator);
      assert s == xs[0] + Separator + Join(rest, Separator);
      assert s[..8] == xs[0];
      assert s[8..10] == Separator;
      assert s[10..] == Join(rest, Separator);
      assert |s| > 10;
      assert SplitCell(s) == Some([s[..8]] + xs[1..]);
      assert xs == [xs[0]] + rest;
    } else {
      assert xs == [xs[0]];
    }
  }

  /**
   * Text that reads as a cell is exactly the ", "-join of what it reads as:
   * together with `SplitJoin`, a cell's text and its list of entries
   * determine each other.
   */
  lemma {:induction false} JoinSplit(s: string)
    requires SplitCell(s).Some?
    ensures Join(SplitCell(s).value, Separator) == s
    decreases |s|
  {
    if |s| != 8 {
      var rest := SplitCell(s[10..]).value;
      JoinSplit(s[10..]);
      var xs := [s[..8]] + rest;
      assert SplitCell(s).value == xs;
      assert xs[1..] == rest && |rest| > 0;
      assert Join(xs, Separator) == s[..8] + Separator + Join(rest, Separator);
      assert s == s[..8] + s[8..10] + s[10..];
    }
  }
}
