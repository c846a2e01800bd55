/** Loading golden test data from a spreadsheet, as the command-line tool
    and the web app each do it: choosing the input and expected-output
    columns, turning rows into test cases, and (in the web app) attaching
    an optional reason to each case. */
module Sheets {
  import opened Wrappers
  import opened Text
  import opened Engine

  /** A sheet as read: the column names and, per row, its cells already
      converted with `str`. */
  datatype Frame = Frame(columns: seq<string>, rows: seq<seq<string>>)

  /** `str(row[c])`; a cell the row does not have is NaN, printed `nan`. */
  function Cell(row: seq<string>, c: nat): string {
    if c < |row| then row[c] else "nan"
  }

  /** A stripped cell the loaders keep: neither empty nor `nan`. */
  predicate Usable(v: string) {
    v != "" && v != "nan"
  }

  // ---------------------------------------------------------------------
  // Column choice
  // ---------------------------------------------------------------------

  /** `next((col for col in columns if wanted(col)), None)` as an index. */
  function FindColumn(cols: seq<string>, wanted: string -> bool): (r: Option<nat>)
    ensures r.Some? <==> exists i | 0 <= i < |cols| :: wanted(cols[i])
    ensures r.Some? ==> r.value < |cols| && wanted(cols[r.value])
    ensures r.Some? ==> forall j | 0 <= j < r.value :: !wanted(cols[j])
  {
    if |cols| == 0 then None
    else if wanted(cols[0]) then Some(0)
    else
      match FindColumn(cols[1..], wanted)
      case None => None
      case Some(k) => Some(k + 1)
  }

  /** The test for one exact column name. */
  function Named(name: string): string -> bool {
    n => n == name
  }

  /** A column the sheet has is found by name. */
  lemma FindNamed(cols: seq<string>, name: string)
    requires name in cols
    ensures FindColumn(cols, Named(name)).Some?
    ensures cols[FindColumn(cols, Named(name)).value] == name
  {
    var i :| 0 <= i < |cols| && cols[i] == name;
    assert Named(name)(cols[i]);
  }

  /** A column name that looks like the input column. */
  predicate IsInputName(name: string) {
    Contains(Lower(name), "input")
  }

  /** A column name that looks like the expected-output column. */
  predicate IsOutputName(name: string) {
    Contains(Lower(name), "output") || Contains(Lower(name), "expected")
  }

  /** The message of pandas' `IndexError` for a default column the sheet
      does not have. */
  function NoColumnError(k: nat): string {
    "IndexError: index " + NatToString(k) + " is out of bounds for axis 0 with size " + NatToString(k)
  }

  /** The input and output column indices. The named columns `input_data`
      and `expected_output` win when both exist; otherwise the first
      input-like and the first output-like column, defaulting to columns 0
      and 1. Both defaults are evaluated before the search, so a sheet with
      fewer than two columns raises `IndexError` there. */
  function ChooseColumns(cols: seq<string>): (r: Result<(nat, nat)>)
    ensures r.Failure? <==> !("input_data" in cols && "expected_output" in cols) && |cols| < 2
    ensures r.Success? ==> r.value.0 < |cols| && r.value.1 < |cols|
    ensures "input_data" in cols && "expected_output" in cols ==>
      cols[r.value.0] == "input_data" && cols[r.value.1] == "expected_output"
    ensures r.Success? && !("input_data" in cols && "expected_output" in cols) ==>
      && (IsInputName(cols[r.value.0]) || (r.value.0 == 0 && forall i | 0 <= i < |cols| :: !IsInputName(cols[i])))
      && (forall j | 0 <= j < r.value.0 :: !IsInputName(cols[j]))
      && (IsOutputName(cols[r.value.1]) || (r.value.1 == 1 && forall i | 0 <= i < |cols| :: !IsOutputName(cols[i])))
      && (forall j | 0 <= j < r.value.1 :: !IsOutputName(cols[j]))
  {
    if "input_data" in cols && "expected_output" in cols then
      FindNamed(cols, "input_data");
      FindNamed(cols, "expected_output");
      Success((FindColumn(cols, Named("input_data")).value, FindColumn(cols, Named("expected_output")).value))
    else if |cols| == 0 then
      Failure(NoColumnError(0))
    else if |cols| == 1 then
      Failure(NoColumnError(1))
    else
      Success((FindColumn(cols, IsInputName).GetOr(0), FindColumn(cols, IsOutputName).GetOr(1)))
  }

  // ---------------------------------------------------------------------
  // Rows to test cases (command-line loader)
  // ---------------------------------------------------------------------

  /** The test case one row yields, if any: both cells stripped, and the row
      dropped when either is empty or `nan`. */
  function RowCase(row: seq<string>, ic: nat, oc: nat): seq<TestCase> {
    var input := Strip(Cell(row, ic));
    var expected := Strip(Cell(row, oc));
    if Usable(input) && Usable(expected) then [TestCase(input, expected)] else []
  }

  /** The kept rows' test cases, in row order. */
  function SelectPairs(rows: seq<seq<string>>, ic: nat, oc: nat): (r: seq<TestCase>)
    ensures |r| <= |rows|
    ensures forall k | 0 <= k < |r| ::
      && Usable(r[k].input) && Usable(r[k].expected)
      && Stripped(r[k].input) && Stripped(r[k].expected)
  {
    if |rows| == 0 then [] else RowCase(rows[0], ic, oc) + SelectPairs(rows[1..], ic, oc)
  }

  /** Selection works row by row: the cases of two blocks of rows are the
      cases of the first followed by those of the second. */
  lemma {:induction false} SelectPairsAppend(a: seq<seq<string>>, b: seq<seq<string>>, ic: nat, oc: nat)
    ensures SelectPairs(a + b, ic, oc) == SelectPairs(a, ic, oc) + SelectPairs(b, ic, oc)
  {
    if |a| > 0 {
      assert (a + b)[0] == a[0];
      assert (a + b)[1..] == a[1..] + b;
      SelectPairsAppend(a[1..], b, ic, oc);
    } else {
      assert a + b == b;
    }
  }

  /** A test case is loaded exactly when some row's stripped cells are it
      and neither is empty or `nan`. */
  lemma {:induction false} SelectPairsMember(rows: seq<seq<string>>, ic: nat, oc: nat, c: TestCase)
    ensures c in SelectPairs(rows, ic, oc) <==>
      && Usable(c.input) && Usable(c.expected)
      && exists k | 0 <= k < |rows| ::
           Strip(Cell(rows[k], ic)) == c.input && Strip(Cell(rows[k], oc)) == c.expected
  {
    if |rows| > 0 {
      SelectPairsMember(rows[1..], ic, oc, c);
      if exists k | 0 <= k < |rows| - 1 ::
           Strip(Cell(rows[1..][k], ic)) == c.input && Strip(Cell(rows[1..][k], oc)) == c.expected
      {
        var k :| 0 <= k < |rows| - 1 &&
          Strip(Cell(rows[1..][k], ic)) == c.input && Strip(Cell(rows[1..][k], oc)) == c.expected;
        assert rows[k + 1] == rows[1..][k];
      }
      if exists k | 0 <= k < |rows| ::
           Strip(Cell(rows[k], ic)) == c.input && Strip(Cell(rows[k], oc)) == c.expected
      {
        var k :| 0 <= k < |rows| &&
          Strip(Cell(rows[k], ic)) == c.input && Strip(Cell(rows[k], oc)) == c.expected;
        if k > 0 {
          assert rows[1..][k - 1] == rows[k];
        }
      }
    }
  }

  /** The data written and returned when the sheet cannot be loaded. */
  const SampleData: seq<TestCase> := [
    TestCase("What is 2+2?", "4"),
    TestCase("What is the capital of France?", "Paris"),
    TestCase("Translate \"hello\" to Spanish", "hola")
  ]

  /** The command-line `load_excel_data`: `read` is the outcome of reading
      the sheet. Any exception, whether from reading or from choosing the
      columns, falls back to the sample data. */
  function MainLoad(read: Result<Frame>): (r: seq<TestCase>)
    ensures read.Failure? ==> r == SampleData
    ensures read.Success? && ChooseColumns(read.value.columns).Failure? ==> r == SampleData
    ensures read.Success? && ChooseColumns(read.value.columns).Success? ==> |r| <= |read.value.rows|
    ensures forall k | 0 <= k < |r| :: Usable(r[k].input) && Usable(r[k].expected)
  {
    match read
    case Failure(_) => SampleData
    case Success(f) =>
      match ChooseColumns(f.columns)
      case Failure(_) => SampleData
      case Success(cols) => SelectPairs(f.rows, cols.0, cols.1)
  }

  // ---------------------------------------------------------------------
  // Rows with an optional reason (web-app loader)
  // ---------------------------------------------------------------------

  /** A loaded row of the web app: a pair, or a triple when the row carries
      a reason. */
  datatype Row = Pair(input: string, expected: string) | Triple(input: string, expected: string, reason: string)

  /** The `reason` column, if the sheet has one. */
  function ReasonColumn(cols: seq<string>): (r: Option<nat>)
    ensures r.Some? <==> "reason" in cols
    ensures r.Some? ==> r.value < |cols| && cols[r.value] == "reason"
  {
    if "reason" in cols then FindNamed(cols, "reason"); FindColumn(cols, Named("reason"))
    else FindColumn(cols, Named("reason"))
  }

  /** The row one sheet row yields, if any. */
  function RowOf(row: seq<string>, ic: nat, oc: nat, rc: Option<nat>): (r: seq<Row>)
    ensures |r| <= 1
    ensures |r| == 1 <==> Usable(Strip(Cell(row, ic))) && Usable(Strip(Cell(row, oc)))
    ensures |r| == 1 ==> r[0].input == Strip(Cell(row, ic)) && r[0].expected == Strip(Cell(row, oc))
    ensures |r| == 1 && r[0].Triple? ==> rc.Some? && r[0].reason == Strip(Cell(row, rc.value)) && Usable(r[0].reason)
  {
    var input := Strip(Cell(row, ic));
    var expected := Strip(Cell(row, oc));
    if !(Usable(input) && Usable(expected)) then []
    else if rc.Some? && Usable(Strip(Cell(row, rc.value))) then
      [Triple(input, expected, Strip(Cell(row, rc.value)))]
    else [Pair(input, expected)]
  }

  /** The kept rows, in row order. */
  function SelectRows(rows: seq<seq<string>>, ic: nat, oc: nat, rc: Option<nat>): (r: seq<Row>)
    ensures |r| <= |rows|
    ensures forall k | 0 <= k < |r| :: r[k].Triple? ==> rc.Some? && Usable(r[k].reason) && Stripped(r[k].reason)
  {
    if |rows| == 0 then [] else RowOf(rows[0], ic, oc, rc) + SelectRows(rows[1..], ic, oc, rc)
  }

  /** The web-app `load_excel_data`: `read` is `None` when neither an
      upload nor a path is given, else the outcome of reading the sheet.
      Every exception yields no rows. */
  function AppLoad(read: Option<Result<Frame>>): (r: seq<Row>)
    ensures read.None? || read.value.Failure? ==> r == []
    ensures read.Some? && read.value.Success? && ChooseColumns(read.value.value.columns).Failure? ==> r == []
    ensures forall k | 0 <= k < |r| :: r[k].Triple? ==> read.Some? && read.value.Success? && "reason" in read.value.value.columns
  {
    match read
    case None => []
    case Some(Failure(_)) => []
    case Some(Success(f)) =>
      match ChooseColumns(f.columns)
      case Failure(_) => []
      case Success(cols) => SelectRows(f.rows, cols.0, cols.1, ReasonColumn(f.columns))
  }

  /** A kept row is a triple exactly when the sheet has a reason column and
      the row's stripped reason is neither empty nor `nan`. */
  lemma RowOfReason(row: seq<string>, ic: nat, oc: nat, rc: Option<nat>)
    requires Usable(Strip(Cell(row, ic))) && Usable(Strip(Cell(row, oc)))
    ensures |RowOf(row, ic, oc, rc)| == 1
    ensures RowOf(row, ic, oc, rc)[0].Triple? <==> rc.Some? && Usable(Strip(Cell(row, rc.value)))
  {
  }

  /** The test case a row stands for, its reason dropped. */
  function ProjectCase(row: Row): (c: TestCase)
    ensures c.input == row.input && c.expected == row.expected
  {
    TestCase(row.input, row.expected)
  }

  /** Every row's test case, in order. */
  function Cases(rows: seq<Row>): (r: seq<TestCase>)
    ensures |r| == |rows|
    ensures forall k | 0 <= k < |rows| :: r[k] == ProjectCase(rows[k])
  {
    if |rows| == 0 then [] else [ProjectCase(rows[0])] + Cases(rows[1..])
  }

  lemma {:induction false} CasesAppend(a: seq<Row>, b: seq<Row>)
    ensures Cases(a + b) == Cases(a) + Cases(b)
    decreases |a|
  {
    if |a| == 0 {
      assert a + b == b;
    } else {
      assert (a + b)[0] == a[0];
      assert (a + b)[1..] == a[1..] + b;
      CasesAppend(a[1..], b);
    }
  }

  /** Whether a row is kept does not depend on its reason: dropping the
      reasons gives exactly the command-line loader's cases. */
  lemma {:induction false} SelectRowsProject(rows: seq<seq<string>>, ic: nat, oc: nat, rc: Option<nat>)
    ensures Cases(SelectRows(rows, ic, oc, rc)) == SelectPairs(rows, ic, oc)
  {
    if |rows| > 0 {
      SelectRowsProject(rows[1..], ic, oc, rc);
      CasesAppend(RowOf(rows[0], ic, oc, rc), SelectRows(rows[1..], ic, oc, rc));
    }
  }

  /** The two loaders choose the same columns and keep the same rows; they
      differ only in the reasons the web app attaches and in what an
      unusable sheet yields. */
  lemma LoadersAgree(f: Frame)
    ensures ChooseColumns(f.columns).Success? ==>
      Cases(AppLoad(Some(Success(f)))) == MainLoad(Success(f))
    ensures ChooseColumns(f.columns).Failure? ==>
      AppLoad(Some(Success(f))) == [] && MainLoad(Success(f)) == SampleData
  {
    match ChooseColumns(f.columns)
    case Success(cols) =>
      SelectRowsProject(f.rows, cols.0, cols.1, ReasonColumn(f.columns));
    case Failure(_) =>
  }

  // ---------------------------------------------------------------------
  // Reason counts shown after loading
  // ---------------------------------------------------------------------

  /** `sum(1 for pair in data_pairs if len(pair) == 3)` */
  function ReasonCount(rows: seq<Row>): (n: nat)
    ensures n <= |rows|
  {
    if |rows| == 0 then 0 else (if rows[0].Triple? then 1 else 0) + ReasonCount(rows[1..])
  }

  /** `any(len(pair) == 3 for pair in data_pairs)` */
  predicate HasReason(rows: seq<Row>) {
    exists k | 0 <= k < |rows| :: rows[k].Triple?
  }

  /** The app reports reasoning exactly when it counts at least one row
      with a reason. */
  lemma {:induction false} ReasonCountPositive(rows: seq<Row>)
    ensures HasReason(rows) <==> ReasonCount(rows) > 0
  {
    if |rows| > 0 {
      ReasonCountPositive(rows[1..]);
      if HasReason(rows[1..]) {
        var k :| 0 <= k < |rows| - 1 && rows[1..][k].Triple?;
        assert rows[k + 1].Triple?;
      }
      if HasReason(rows) && !rows[0].Triple? {
        var k :| 0 <= k < |rows| && rows[k].Triple?;
        assert rows[1..][k - 1].Triple?;
      }
    }
  }

  /** Without a reason column, no loaded row has a reason. */
  lemma NoReasonColumn(f: Frame)
    requires "reason" !in f.columns
    ensures ReasonCount(AppLoad(Some(Success(f)))) == 0
  {
    var r := AppLoad(Some(Success(f)));
    ReasonCountPositive(r);
  }

  // ---------------------------------------------------------------------
  // Handing the web app's rows to the engine
  // ---------------------------------------------------------------------

  /** The engine unpacks every row as `input, expected`: a row with a
      reason has one value too many. */
  function UnpackCase(row: Row): (r: Result<TestCase>)
    ensures r.Success? <==> row.Pair?
    ensures r.Success? ==> r.value == ProjectCase(row)
  {
    match row
    case Pair(i, e) => Success(TestCase(i, e))
    case Triple(_, _, _) => Failure("ValueError: too many values to unpack (expected 2)")
  }

  /** Unpacking the rows in order; the first row with a reason raises. */
  function UnpackRows(rows: seq<Row>): (r: Result<seq<TestCase>>)
    ensures r.Success? <==> !HasReason(rows)
    ensures r.Success? ==> r.value == Cases(rows)
  {
    if |rows| == 0 then Success([])
    else
      match UnpackCase(rows[0])
      case Failure(e) => Failure(e)
      case Success(c) =>
        match UnpackRows(rows[1..])
        case Failure(e) => HasReasonTail(rows); Failure(e)
        case Success(cs) => Success([c] + cs)
  }

  /** A reason further on is a reason in the whole. */
  lemma HasReasonTail(rows: seq<Row>)
    requires |rows| > 0 && HasReason(rows[1..])
    ensures HasReason(rows)
  {
    var k :| 0 <= k < |rows| - 1 && rows[1..][k].Triple?;
    assert rows[k + 1].Triple?;
  }

  /** The columns of a sheet with a reason for each case. */
  const ReasonColumns: seq<string> := ["input_data", "expected_output", "reason"]

  /** With the named input, output and reason columns, a first row whose
      three cells are all usable is loaded by the web app with its reason,
      and the engine cannot unpack the loaded rows. */
  lemma ReasonRowBreaksUnpacking(f: Frame)
    requires f.columns == ReasonColumns && |f.rows| > 0
    requires forall c | 0 <= c < 3 :: Usable(Strip(Cell(f.rows[0], c)))
    ensures |AppLoad(Some(Success(f)))| > 0 && AppLoad(Some(Success(f)))[0].Triple?
    ensures UnpackRows(AppLoad(Some(Success(f)))).Failure?
  {
    var cols := f.columns;
    assert |cols[0]| == 10 && |cols[1]| == 15 && |cols[2]| == 6;
    var chosen := ChooseColumns(cols).value;
    assert chosen == (0, 1);
    assert ReasonColumn(cols) == Some(2);
    var rows := SelectRows(f.rows, 0, 1, Some(2));
    assert rows == RowOf(f.rows[0], 0, 1, Some(2)) + SelectRows(f.rows[1..], 0, 1, Some(2));
    assert rows[0].Triple?;
    assert HasReason(rows);
  }

  /** Dropping the reasons instead never fails, keeps every row, and gives
      what unpacking gives whenever unpacking succeeds. */
  lemma CasesCorrectUnpack(rows: seq<Row>)
    ensures |Cases(rows)| == |rows|
    ensures UnpackRows(rows).Success? ==> UnpackRows(rows).value == Cases(rows)
    ensures UnpackRows(rows).Failure? <==> ReasonCount(rows) > 0
  {
    ReasonCountPositive(rows);
  }
}
