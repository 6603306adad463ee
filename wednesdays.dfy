/**
 * `count_wednesdays` (app.py): every line read from the dates file is
 * stripped and parsed with `%Y-%m-%d`, and the lines whose date has
 * `weekday() == 2` are counted.  The count is a generator summed in line
 * order, so the first line that does not parse aborts it with a `ValueError`;
 * here the error carries the stripped text of that line.
 */
module Wednesdays {
  import opened Wrappers
  import opened Text
  import opened Calendar
  import opened DateParse

  /** The date one line stands for, once stripped. */
  function LineDate(line: string): Option<Date>
  {
    ParseDate(Strip(line))
  }

  /** The weekday of the date a line stands for, if it stands for one. */
  function LineWeekday(line: string): (w: Option<int>)
    ensures w.Some? <==> LineDate(line).Some?
    ensures w.Some? ==> 0 <= w.value < 7
  {
    match LineDate(line)
    case None => None
    case Some(d) => Some(Weekday(d))
  }

  /** The positions of the lines that name a Wednesday. */
  ghost function WednesdayLines(lines: seq<string>): set<int>
  {
    set i | 0 <= i < |lines| && LineWeekday(lines[i]) == Some(Wednesday)
  }

  /** Every line parses. */
  ghost predicate AllParse(lines: seq<string>)
  {
    forall i :: 0 <= i < |lines| ==> LineDate(lines[i]).Some?
  }

  /** Line `i` is the first that does not parse. */
  ghost predicate FirstFailure(lines: seq<string>, i: int)
  {
    && 0 <= i < |lines|
    && LineDate(lines[i]).None?
    && forall j :: 0 <= j < i ==> LineDate(lines[j]).Some?
  }

  /** Each line, stripped, parsed and reduced to its weekday. */
  function LineWeekdays(lines: seq<string>): (ws: seq<Option<int>>)
    ensures |ws| == |lines| && forall i :: 0 <= i < |lines| ==> ws[i] == LineWeekday(lines[i])
  {
    seq(|lines|, i requires 0 <= i < |lines| => LineWeekday(lines[i]))
  }

  /** The positions in `ws` that hold a Wednesday. */
  ghost function WednesdayPositions(ws: seq<Option<int>>): set<int>
  {
    set i | 0 <= i < |ws| && ws[i] == Some(Wednesday)
  }

  /**
   * The generator's sum over the lines' weekdays, failing with the position
   * of the first line without a date.  It runs over all but the last entry
   * first, so an earlier failure wins over a later one.
   */
  function SumWednesdays(ws: seq<Option<int>>): (r: Result<nat, nat>)
    ensures r.Ok? <==> forall i :: 0 <= i < |ws| ==> ws[i].Some?
    ensures r.Ok? ==> r.value <= |ws|
    ensures r.Err? ==> r.error < |ws| && ws[r.error].None? && forall j :: 0 <= j < r.error ==> ws[j].Some?
    decreases |ws|
  {
    if ws == [] then Ok(0)
    else
      var k := |ws| - 1;
      match SumWednesdays(ws[..k])
      case Err(e) => Err(e)
      case Ok(n) =>
        if ws[k].None? then Err(k)
        else Ok(if ws[k] == Some(Wednesday) then n + 1 else n)
  }

  /** A successful sum is the number of positions that hold a Wednesday. */
  lemma {:induction false} SumCountsWednesdays(ws: seq<Option<int>>)
    requires SumWednesdays(ws).Ok?
    ensures SumWednesdays(ws).value == |WednesdayPositions(ws)|
  {
    if ws == [] {
      assert WednesdayPositions(ws) == {};
    } else {
      var k := |ws| - 1;
      SumCountsWednesdays(ws[..k]);
      PositionsOfPrefix(ws);
    }
  }

  /** Dropping the last entry drops its position, if it held a Wednesday, and nothing else. */
  lemma PositionsOfPrefix(ws: seq<Option<int>>)
    requires ws != []
    ensures var k := |ws| - 1;
            |WednesdayPositions(ws)| == |WednesdayPositions(ws[..k])| + if ws[k] == Some(Wednesday) then 1 else 0
  {
    var k := |ws| - 1;
    var here: set<int> := if ws[k] == Some(Wednesday) then {k} else {};
    assert WednesdayPositions(ws) == WednesdayPositions(ws[..k]) + here;
    assert k !in WednesdayPositions(ws[..k]);
  }

  /**
   * `count_wednesdays`' count: the number of lines that name a Wednesday when
   * every line parses, and otherwise the stripped text of the first line
   * that does not.
   */
  function CountWednesdays(lines: seq<string>): (r: Result<nat, string>)
    ensures r.Ok? <==> AllParse(lines)
    ensures r.Ok? ==> r.value == |WednesdayLines(lines)| && r.value <= |lines|
    ensures r.Err? ==> exists i :: FirstFailure(lines, i) && r.error == Strip(lines[i])
  {
    var ws := LineWeekdays(lines);
    assert WednesdayLines(lines) == WednesdayPositions(ws);
    match SumWednesdays(ws)
    case Ok(n) =>
      SumCountsWednesdays(ws);
      Ok(n)
    case Err(i) =>
      assert FirstFailure(lines, i);
      Err(Strip(lines[i]))
  }

  /** A blank line (one that strips to nothing) makes the whole count fail. */
  lemma BlankLineFails(lines: seq<string>, i: int)
    requires 0 <= i < |lines| && Strip(lines[i]) == ""
    ensures CountWednesdays(lines).Err?
  {
    assert LineDate(lines[i]) == None;
  }

  /** A line that is not a valid date makes the whole count fail. */
  lemma MalformedLineFails(lines: seq<string>, i: int)
    requires 0 <= i < |lines| && forall date :: !Parses(Strip(lines[i]), date)
    ensures CountWednesdays(lines).Err?
  {
    ParseDateMeetsFormat(Strip(lines[i]));
  }

  /** The count over lines split into two runs is the sum of the two runs' counts. */
  lemma {:induction false} SumAppend(a: seq<Option<int>>, b: seq<Option<int>>)
    requires SumWednesdays(a).Ok? && SumWednesdays(b).Ok?
    ensures SumWednesdays(a + b) == Ok(SumWednesdays(a).value + SumWednesdays(b).value)
  {
    if b != [] {
      var k := |b| - 1;
      var ab := a + b;
      assert ab[..|ab| - 1] == a + b[..k];
      assert ab[|ab| - 1] == b[k];
      assert SumWednesdays(b[..k]).Ok? by {
        assert forall i :: 0 <= i < k ==> b[..k][i] == b[i];
      }
      SumAppend(a, b[..k]);
    } else {
      assert a + b == a;
    }
  }

  /** A line whose stripped text is the date `d`, in the format, stands for `d`'s weekday. */
  lemma LineOfDate(line: string, text: string, d: Date)
    requires Strip(line) == text && ParseDate(text) == Some(d)
    ensures LineWeekday(line) == Some(Weekday(d))
  {
  }

  /** `2024-01-01\n`, as `readlines` gives it, is a Monday. */
  lemma LineOfJanuary1()
    ensures LineWeekday("2024-01-01\n") == Some(0)
  {
    StripNewline("2024-01-01");
    ParsesJanuary1();
    LineOfDate("2024-01-01\n", "2024-01-01", Date(2024, 1, 1));
    January2024(1);
  }

  lemma LineOfJanuary3()
    ensures LineWeekday("2024-01-03\n") == Some(Wednesday)
  {
    StripNewline("2024-01-03");
    ParsesJanuary3();
    LineOfDate("2024-01-03\n", "2024-01-03", Date(2024, 1, 3));
    January2024(3);
  }

  lemma LineOfJanuary10()
    ensures LineWeekday("2024-01-10\n") == Some(Wednesday)
  {
    StripNewline("2024-01-10");
    ParsesJanuary10();
    LineOfDate("2024-01-10\n", "2024-01-10", Date(2024, 1, 10));
    January2024(10);
  }

  lemma LineOfJanuary17()
    ensures LineWeekday("2024-01-17\n") == Some(Wednesday)
  {
    StripNewline("2024-01-17");
    ParsesJanuary17();
    LineOfDate("2024-01-17\n", "2024-01-17", Date(2024, 1, 17));
    January2024(17);
  }

  /** Four lines, the first a Monday and the other three Wednesdays, count 3. */
  lemma CountOfMondayAndThreeWednesdays(lines: seq<string>)
    requires |lines| == 4 && LineWeekday(lines[0]) == Some(0)
    requires LineWeekday(lines[1]) == Some(Wednesday) && LineWeekday(lines[2]) == Some(Wednesday)
    requires LineWeekday(lines[3]) == Some(Wednesday)
    ensures CountWednesdays(lines) == Ok(3)
  {
    var ws := LineWeekdays(lines);
    assert ws[..0] == [];
    assert SumWednesdays(ws[..1]) == Ok(0) by { assert ws[..1][..0] == []; }
    assert SumWednesdays(ws[..2]) == Ok(1) by { assert ws[..2][..1] == ws[..1]; }
    assert SumWednesdays(ws[..3]) == Ok(2) by { assert ws[..3][..2] == ws[..2]; }
    assert ws[..4][..3] == ws[..3];
    assert ws[..4] == ws;
  }

  /** Three Wednesdays in January 2024 and one Monday: the count is 3. */
  lemma ExampleCount(lines: seq<string>)
    requires lines == ["2024-01-01\n", "2024-01-03\n", "2024-01-10\n", "2024-01-17\n"]
    ensures CountWednesdays(lines) == Ok(3)
  {
    LineOfJanuary1();
    LineOfJanuary3();
    LineOfJanuary10();
    LineOfJanuary17();
    assert lines[0] == "2024-01-01\n" && lines[1] == "2024-01-03\n";
    assert lines[2] == "2024-01-10\n" && lines[3] == "2024-01-17\n";
    CountOfMondayAndThreeWednesdays(lines);
  }

  /** A blank line between dates fails the count. */
  lemma ExampleBlankLine()
    ensures CountWednesdays(["2024-01-03\n", "\n"]).Err?
  {
    var lines := ["2024-01-03\n", "\n"];
    assert Strip(lines[1]) == "";
    BlankLineFails(lines, 1);
  }
}
