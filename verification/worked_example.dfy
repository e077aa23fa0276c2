/**
 * A small upload run end to end: two dinner punches and one midday punch of
 * one employee, plus a punch at 10:00:00 (in no window) and one whose date did
 * not parse.
 */
module WorkedExample {
  import opened Wrappers
  import opened Clock
  import opened MealWindows
  import opened SeqFilter
  import opened Punches
  import opened CellText
  import opened Pivot
  import opened Schema
  import opened Pipeline

  const R1: Row := Row("E1", "Alice", "Sales", Some("01-01-2024"), Some(Hms(19, 15, 0)))
  const R2: Row := Row("E1", "Alice", "Sales", Some("01-01-2024"), Some(Hms(19, 45, 0)))
  const R3: Row := Row("E1", "Alice", "Sales", Some("02-01-2024"), Some(Hms(13, 0, 0)))
  const R4: Row := Row("E1", "Alice", "Sales", Some("02-01-2024"), Some(Hms(10, 0, 0)))
  const R5: Row := Row("E1", "Alice", "Sales", None, Some(Hms(20, 0, 0)))
  const Rows: seq<Row> := [R1, R2, R3, R4, R5]

  const DinnerKey: Key := Key("E1", "Alice", "Sales", Dinner)
  const LaunchKey: Key := Key("E1", "Alice", "Sales", Launch)

  const P1: Punch := Punch("E1", "Alice", "Sales", "01-01-2024", Hms(19, 15, 0))
  const P2: Punch := Punch("E1", "Alice", "Sales", "01-01-2024", Hms(19, 45, 0))
  const P3: Punch := Punch("E1", "Alice", "Sales", "02-01-2024", Hms(13, 0, 0))
  const P4: Punch := Punch("E1", "Alice", "Sales", "02-01-2024", Hms(10, 0, 0))

  /** The first two rows both parse. */
  lemma ExampleFirstTwoParse()
    ensures FilterMap(Parsed, [R1, R2]) == [P1, P2]
  {
    assert Parsed(R1) == Some(P1) && Parsed(R2) == Some(P2);
    FilterMapSnoc(Parsed, [], R1);
    FilterMapSnoc(Parsed, [R1], R2);
    assert [] + [R1] == [R1] && [R1] + [R2] == [R1, R2];
  }

  /** So does the third. */
  lemma ExampleFirstThreeParse()
    ensures FilterMap(Parsed, [R1, R2, R3]) == [P1, P2, P3]
  {
    ExampleFirstTwoParse();
    assert Parsed(R3) == Some(P3);
    FilterMapSnoc(Parsed, [R1, R2], R3);
    assert [R1, R2] + [R3] == [R1, R2, R3];
  }

  /** So does the fourth, the 10:00:00 punch: it is well-formed, only outside every window. */
  lemma ExampleFirstFourParse()
    ensures FilterMap(Parsed, [R1, R2, R3, R4]) == [P1, P2, P3, P4]
  {
    ExampleFirstThreeParse();
    assert Parsed(R4) == Some(P4);
    FilterMapSnoc(Parsed, [R1, R2, R3], R4);
    assert [R1, R2, R3] + [R4] == [R1, R2, R3, R4];
  }

  /** The unparsed row is dropped; the others keep their order. */
  lemma ExampleDropInvalid()
    ensures DropInvalid(Rows) == [P1, P2, P3, P4]
  {
    ExampleFirstFourParse();
    assert Parsed(R5).None?;
    FilterMapSnoc(Parsed, [R1, R2, R3, R4], R5);
    assert [R1, R2, R3, R4] + [R5] == Rows;
  }

  const C1: Classified := Classified(P1, Dinner)
  const C2: Classified := Classified(P2, Dinner)
  const C3: Classified := Classified(P3, Launch)

  /** The categories of the four parsed punches. */
  lemma ExampleCategories()
    ensures Classify(P1) == Some(C1) && Classify(P2) == Some(C2)
    ensures Classify(P3) == Some(C3) && Classify(P4).None?
  {
    assert CategorizeTime(Hms(19, 15, 0)) == Some(Dinner);
    assert CategorizeTime(Hms(19, 45, 0)) == Some(Dinner);
    assert CategorizeTime(Hms(13, 0, 0)) == Some(Launch);
    assert CategorizeTime(Hms(10, 0, 0)).None?;
  }

  /** The two dinner punches have a meal category. */
  lemma ExampleFirstTwoClassify()
    ensures FilterMap(Classify, [P1, P2]) == [C1, C2]
  {
    ExampleCategories();
    FilterMapSnoc(Classify, [], P1);
    assert [] + [P1] == [P1];
    FilterMapSnoc(Classify, [P1], P2);
    assert [P1] + [P2] == [P1, P2];
  }

  /** So does the midday punch. */
  lemma ExampleFirstThreeClassify()
    ensures FilterMap(Classify, [P1, P2, P3]) == [C1, C2, C3]
  {
    ExampleFirstTwoClassify();
    ExampleCategories();
    FilterMapSnoc(Classify, [P1, P2], P3);
    assert [P1, P2] + [P3] == [P1, P2, P3];
  }

  /** The 10:00:00 punch is dropped; the others keep their order. */
  lemma ExampleDropUncategorised()
    ensures DropUncategorised([P1, P2, P3, P4]) == [C1, C2, C3]
  {
    ExampleFirstThreeClassify();
    ExampleCategories();
    assert [P1, P2, P3, P4][..3] == [P1, P2, P3];
  }

  /** The time texts of the three categorised punches. */
  lemma ExampleTimeTexts()
    ensures FormatTime(P1.time) == "19:15:00" && FormatTime(P2.time) == "19:45:00"
    ensures FormatTime(P3.time) == "13:00:00"
  {
    assert P1.time == 69300 && P2.time == 71100 && P3.time == 46800;
    assert TwoDigits(19) == "19" && TwoDigits(15) == "15" && TwoDigits(45) == "45";
    assert TwoDigits(13) == "13" && TwoDigits(0) == "00";
    assert FormatTime(69300) == TwoDigits(19) + ":" + TwoDigits(15) + ":" + TwoDigits(0);
    assert FormatTime(71100) == TwoDigits(19) + ":" + TwoDigits(45) + ":" + TwoDigits(0);
    assert FormatTime(46800) == TwoDigits(13) + ":" + TwoDigits(0) + ":" + TwoDigits(0);
  }

  /** The first dinner punch opens the Dinner row. */
  lemma ExamplePivotOne()
    ensures PivotTable([C1]) == map[DinnerKey := map["01-01-2024" := ["19:15:00"]]]
  {
    PivotSnoc([], C1);
    assert [] + [C1] == [C1];
    assert KeyOf(C1) == DinnerKey && C1.punch.date == "01-01-2024";
    ExampleTimeTexts();
    var e: Table := map[];
    var inner: map<string, seq<string>> := map[];
    assert Insert(e, C1) == e[DinnerKey := inner["01-01-2024" := [] + ["19:15:00"]]];
    assert [] + ["19:15:00"] == ["19:15:00"];
    assert inner["01-01-2024" := ["19:15:00"]] == map["01-01-2024" := ["19:15:00"]];
  }

  /** The second dinner punch, same date, joins the same cell after the first. */
  lemma ExamplePivotTwo()
    ensures PivotTable([C1, C2]) == map[DinnerKey := map["01-01-2024" := ["19:15:00", "19:45:00"]]]
  {
    ExamplePivotOne();
    PivotSnoc([C1], C2);
    assert [C1] + [C2] == [C1, C2];
    assert KeyOf(C2) == DinnerKey && C2.punch.date == "01-01-2024";
    ExampleTimeTexts();
    var t1 := map[DinnerKey := map["01-01-2024" := ["19:15:00"]]];
    var two: seq<string> := ["19:15:00", "19:45:00"];
    assert ["19:15:00"] + ["19:45:00"] == two;
    assert Insert(t1, C2) == t1[DinnerKey := t1[DinnerKey]["01-01-2024" := two]];
    assert t1[DinnerKey]["01-01-2024" := two] == map["01-01-2024" := two];
  }

  /** Both dinner times share one cell, in upload order; the midday time has its own row. */
  lemma ExamplePivot()
    ensures PivotTable([C1, C2, C3])
         == map[DinnerKey := map["01-01-2024" := ["19:15:00", "19:45:00"]], LaunchKey := map["02-01-2024" := ["13:00:00"]]]
  {
    ExamplePivotTwo();
    PivotSnoc([C1, C2], C3);
    assert [C1, C2] + [C3] == [C1, C2, C3];
    var t2 := map[DinnerKey := map["01-01-2024" := ["19:15:00", "19:45:00"]]];
    assert KeyOf(C3) == LaunchKey && C3.punch.date == "02-01-2024" && LaunchKey !in t2;
    ExampleTimeTexts();
    var inner: map<string, seq<string>> := map[];
    assert Insert(t2, C3) == t2[LaunchKey := inner["02-01-2024" := [] + ["13:00:00"]]];
    assert [] + ["13:00:00"] == ["13:00:00"];
    assert inner["02-01-2024" := ["13:00:00"]] == map["02-01-2024" := ["13:00:00"]];
  }

  /** Joining the cells of that pivot. */
  lemma ExampleRender()
    ensures Render(map[DinnerKey := map["01-01-2024" := ["19:15:00", "19:45:00"]], LaunchKey := map["02-01-2024" := ["13:00:00"]]])
         == map[DinnerKey := map["01-01-2024" := "19:15:00, 19:45:00"], LaunchKey := map["02-01-2024" := "13:00:00"]]
  {
    var t := map[DinnerKey := map["01-01-2024" := ["19:15:00", "19:45:00"]], LaunchKey := map["02-01-2024" := ["13:00:00"]]];
    var out := Render(t);
    assert DinnerKey != LaunchKey;
    assert Join(["19:15:00", "19:45:00"], Separator) == "19:15:00, 19:45:00";
    assert Join(["13:00:00"], Separator) == "13:00:00";
    assert out.Keys == {DinnerKey, LaunchKey};
    assert out[DinnerKey].Keys == {"01-01-2024"} && out[LaunchKey].Keys == {"02-01-2024"};
    assert out[DinnerKey] == map["01-01-2024" := "19:15:00, 19:45:00"];
    assert out[LaunchKey] == map["02-01-2024" := "13:00:00"];
  }

  /** The displayed result of the whole step. */
  lemma ExampleOutput()
    ensures Process(RequiredColumns, Rows) == Ok(map[
      DinnerKey := map["01-01-2024" := "19:15:00, 19:45:00"],
      LaunchKey := map["02-01-2024" := "13:00:00"]
    ])
  {
    ExampleDropInvalid();
    ExampleDropUncategorised();
    ExamplePivot();
    ExampleRender();
    assert HasRequiredColumns(RequiredColumns);
  }
}
