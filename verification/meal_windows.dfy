/**
 * The meal-window classifier: a punch time is checked against three inclusive
 * windows in a fixed priority order, Dinner first, then the midday window, whose
 * label is spelled "Launch", then Breakfast.
 */
module MealWindows {
  import opened Wrappers
  import opened Clock

  datatype Category = Dinner | Launch | Breakfast

  /** The category a `Category` column text stands for, if any. */
  function CategoryOfLabel(s: string): Option<Category> {
    if s == "Dinner" then Some(Dinner)
    else if s == "Launch" then Some(Launch)
    else if s == "Breakfast" then Some(Breakfast)
    else None
  }

  /**
   * The text the application writes into the `Category` column; the text
   * reads back as the category it was written for.
   */
  function Label(c: Category): (s: string)
    ensures |s| > 0
    ensures CategoryOfLabel(s) == Some(c)
  {
    match c
    case Dinner => "Dinner"
    case Launch => "Launch"
    case Breakfast => "Breakfast"
  }

  /** Only the three labels read as categories, each as its own. */
  lemma LabelOfCategory(s: string, c: Category)
    ensures CategoryOfLabel(s) == Some(c) <==> s == Label(c)
  {
  }

  /**
   * Distinct categories have distinct labels, so grouping by the category
   * text (as the pivot does) is grouping by the category.
   */
  lemma LabelInjective(a: Category, b: Category)
    ensures Label(a) == Label(b) <==> a == b
  {
  }

  /** A meal window: the times `lo <= t <= hi`, both ends included. */
  datatype Window = Window(category: Category, lo: Time, hi: Time) {
    predicate Contains(t: Time) {
      lo <= t <= hi
    }
  }

  const DinnerWindow: Window := Window(Dinner, Hms(19, 0, 0), Hms(23, 30, 0))
  const LaunchWindow: Window := Window(Launch, Hms(12, 0, 0), Hms(15, 30, 0))
  const BreakfastWindow: Window := Window(Breakfast, Hms(5, 30, 0), Hms(9, 50, 0))

  /** The windows in the order the classifier tests them. */
  const PriorityOrder: seq<Window> := [DinnerWindow, LaunchWindow, BreakfastWindow]

  /**
   * The classifier as the application writes it: an if / elif chain. As the
   * windows do not overlap, each category is given exactly to the times in
   * its own window, whatever the order of the tests.
   */
  function CategorizeTime(t: Time): (r: Option<Category>)
    ensures r == Some(Dinner) <==> DinnerWindow.Contains(t)
    ensures r == Some(Launch) <==> LaunchWindow.Contains(t)
    ensures r == Some(Breakfast) <==> BreakfastWindow.Contains(t)
    ensures r.None? <==> !DinnerWindow.Contains(t) && !LaunchWindow.Contains(t) && !BreakfastWindow.Contains(t)
  {
    if DinnerWindow.Contains(t) then Some(Dinner)
    else if LaunchWindow.Contains(t) then Some(Launch)
    else if BreakfastWindow.Contains(t) then Some(Breakfast)
    else None
  }

  /**
   * The classifier returns a category exactly when some meal window of that
   * category contains the time, and nothing exactly when no window does.
   */
  lemma CategorizeByWindows(t: Time)
    ensures CategorizeTime(t).None? <==> forall w :: w in PriorityOrder ==> !w.Contains(t)
    ensures forall c :: CategorizeTime(t) == Some(c) <==> exists w :: w in PriorityOrder && w.Contains(t) && w.category == c
  {
  }

  /**
   * The first window of `ws` that contains `t`, or `None`: classification
   * by any priority list of windows.
   */
  function FirstMatch(ws: seq<Window>, t: Time): (r: Option<Category>)
    ensures r.None? <==> forall i :: 0 <= i < |ws| ==> !ws[i].Contains(t)
    ensures r.Some? ==>
      exists i :: 0 <= i < |ws| && ws[i].Contains(t) && ws[i].category == r.value
                  && forall j :: 0 <= j < i ==> !ws[j].Contains(t)
  {
    if |ws| == 0 then None
    else if ws[0].Contains(t) then Some(ws[0].category)
    else
      var r := FirstMatch(ws[1..], t);
      assert forall i :: 1 <= i < |ws| ==> ws[i] == ws[1..][i - 1];
      r
  }

  /** No time of day lies in two windows of `ws` with different categories. */
  ghost predicate Disjoint(ws: seq<Window>) {
    forall i, j, t: Time :: 0 <= i < |ws| && 0 <= j < |ws| && ws[i].Contains(t) && ws[j].Contains(t)
      ==> ws[i].category == ws[j].category
  }

  /** The if / elif chain is first-match over the priority list. */
  lemma CategorizeIsFirstMatch(t: Time)
    ensures CategorizeTime(t) == FirstMatch(PriorityOrder, t)
  {
    CategorizeByWindows(t);
    assert PriorityOrder[1..] == [LaunchWindow, BreakfastWindow];
    assert PriorityOrder[1..][1..] == [BreakfastWindow];
    assert PriorityOrder[1..][1..][1..] == [];
  }

  /** The three meal windows do not overlap: at most one test can succeed. */
  lemma MealWindowsDisjoint()
    ensures Disjoint(PriorityOrder)
  {
  }

  /** With disjoint windows, first-match returns the one window containing `t`. */
  lemma {:induction false} FirstMatchOfDisjoint(ws: seq<Window>, t: Time, c: Category)
    requires Disjoint(ws)
    ensures FirstMatch(ws, t) == Some(c) <==> exists w :: w in ws && w.Contains(t) && w.category == c
  {
    if exists w :: w in ws && w.Contains(t) && w.category == c {
      var w :| w in ws && w.Contains(t) && w.category == c;
      var k :| 0 <= k < |ws| && ws[k] == w;
      var r := FirstMatch(ws, t);
      assert r.Some?;
      var i :| 0 <= i < |ws| && ws[i].Contains(t) && ws[i].category == r.value;
      assert ws[i].category == ws[k].category;
    }
  }

  /**
   * Priority order does not matter for these windows: checking them in any
   * order (any permutation of the three) classifies every time the same way.
   */
  lemma PriorityIrrelevant(ws: seq<Window>, t: Time)
    requires multiset(ws) == multiset(PriorityOrder)
    ensures FirstMatch(ws, t) == CategorizeTime(t)
  {
    MealWindowsDisjoint();
    assert forall w :: w in ws <==> w in PriorityOrder by {
      forall w ensures w in ws <==> w in PriorityOrder {
        assert w in ws <==> w in multiset(ws);
        assert w in PriorityOrder <==> w in multiset(PriorityOrder);
      }
    }
    assert Disjoint(ws) by {
      forall i, j, t': Time | 0 <= i < |ws| && 0 <= j < |ws| && ws[i].Contains(t') && ws[j].Contains(t')
        ensures ws[i].category == ws[j].category
      {
        assert ws[i] in PriorityOrder && ws[j] in PriorityOrder;
      }
    }
    var r := CategorizeTime(t);
    CategorizeByWindows(t);
    if r.Some? {
      FirstMatchOfDisjoint(ws, t, r.value);
    } else {
      assert forall i :: 0 <= i < |ws| ==> !ws[i].Contains(t) by {
        forall i | 0 <= i < |ws| ensures !ws[i].Contains(t) {
          assert ws[i] in PriorityOrder;
        }
      }
    }
  }

  /** The Dinner window: 19:00:00 through 23:30:00, both included. */
  lemma DinnerWindowExact(t: Time)
    ensures CategorizeTime(t) == Some(Dinner) <==> Hms(19, 0, 0) <= t <= Hms(23, 30, 0)
  {
  }

  /** Outside Dinner, the "Launch" window: 12:00:00 through 15:30:00. */
  lemma LaunchWindowExact(t: Time)
    ensures CategorizeTime(t) == Some(Launch) <==> Hms(12, 0, 0) <= t <= Hms(15, 30, 0)
  {
  }

  /** Outside both, the Breakfast window: 05:30:00 through 09:50:00. */
  lemma BreakfastWindowExact(t: Time)
    ensures CategorizeTime(t) == Some(Breakfast) <==> Hms(5, 30, 0) <= t <= Hms(9, 50, 0)
  {
  }

  /** Every other time of day is left without a category. */
  lemma NoWindowExact(t: Time)
    ensures CategorizeTime(t).None? <==>
      !(Hms(19, 0, 0) <= t <= Hms(23, 30, 0)) && !(Hms(12, 0, 0) <= t <= Hms(15, 30, 0))
      && !(Hms(5, 30, 0) <= t <= Hms(9, 50, 0))
  {
  }

  /** The window edges, on and one second past each boundary. */
  lemma WindowBoundaries()
    ensures CategorizeTime(Hms(19, 0, 0)) == Some(Dinner) && CategorizeTime(Hms(18, 59, 59)).None?
    ensures CategorizeTime(Hms(23, 30, 0)) == Some(Dinner) && CategorizeTime(Hms(23, 30, 1)).None?
    ensures CategorizeTime(Hms(12, 0, 0)) == Some(Launch) && CategorizeTime(Hms(11, 59, 59)).None?
    ensures CategorizeTime(Hms(15, 30, 0)) == Some(Launch) && CategorizeTime(Hms(15, 30, 1)).None?
    ensures CategorizeTime(Hms(5, 30, 0)) == Some(Breakfast) && CategorizeTime(Hms(5, 29, 59)).None?
    ensures CategorizeTime(Hms(9, 50, 0)) == Some(Breakfast) && CategorizeTime(Hms(9, 50, 1)).None?
    ensures CategorizeTime(Hms(10, 0, 0)).None?
  {
  }
}
