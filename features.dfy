/**
 * Feature engineering: turns transaction records into the four training
 * sets per record type (classifier rows and coarse-category ids; regressor
 * rows and amounts). Calendar fields are taken from the record's parsed
 * date; parsing the text and the clock are outside the model.
 */
module Features {
  import opened Prelude
  import opened Categories

  datatype Weekday = Monday | Tuesday | Wednesday | Thursday | Friday | Saturday | Sunday

  /** `Date.getDay()`: Sunday is 0, Monday 1, ..., Saturday 6. */
  function JsGetDay(w: Weekday): nat {
    match w
    case Sunday => 0
    case Monday => 1
    case Tuesday => 2
    case Wednesday => 3
    case Thursday => 4
    case Friday => 5
    case Saturday => 6
  }

  /** `datetime.weekday()`: Monday is 0, ..., Sunday 6. */
  function PyWeekday(w: Weekday): nat {
    match w
    case Monday => 0
    case Tuesday => 1
    case Wednesday => 2
    case Thursday => 3
    case Friday => 4
    case Saturday => 5
    case Sunday => 6
  }

  /** The TypeScript conversion of `getDay()` to a Monday-first day of the week. */
  function DayOfWeek(getDay: nat): nat {
    if getDay == 0 then 6 else getDay - 1
  }

  /** The conversion makes the TypeScript day of the week the Python one. */
  lemma DayOfWeekMatchesPython(w: Weekday)
    ensures DayOfWeek(JsGetDay(w)) == PyWeekday(w)
    ensures PyWeekday(w) < 7
  {
  }

  /** A calendar date as its fields: year, month 1 .. 12, day of the month, weekday. */
  datatype Date = Date(year: int, month: int, day: int, weekday: Weekday)

  /**
   * A transaction record. `date` is `None` when the stored text is not a
   * `YYYY-MM-DD` date; `kind` is the stored type, normally "expense" or
   * "income".
   */
  datatype Transaction = Transaction(date: Option<Date>, amount: real, category: string, kind: string)

  /** A boolean feature as the number 1 or 0. */
  function Flag(b: bool): real {
    if b then 1.0 else 0.0
  }

  datatype Calendar = Calendar(dow: nat, dom: int, month: int, isWeekend: real, isMonthStart: real, isMonthEnd: real)

  /** The calendar features of a date whose Monday-first day of the week is `dow`. */
  function CalendarFeatures(dow: nat, d: Date): (c: Calendar)
    ensures c.dow == dow && c.dom == d.day && c.month == d.month
    ensures c.isWeekend == 1.0 <==> dow >= 5
    ensures c.isMonthStart == 1.0 <==> d.day <= 3
    ensures c.isMonthEnd == 1.0 <==> d.day >= 28
    ensures c.isWeekend in {0.0, 1.0} && c.isMonthStart in {0.0, 1.0} && c.isMonthEnd in {0.0, 1.0}
  {
    Calendar(dow, d.day, d.month, Flag(dow >= 5), Flag(d.day <= 3), Flag(d.day >= 28))
  }

  /** The calendar features the TypeScript code derives from a date. */
  function CalendarOf(d: Date): (c: Calendar)
    ensures c.dow < 7
    ensures c.isWeekend == 1.0 <==> d.weekday == Saturday || d.weekday == Sunday
  {
    CalendarFeatures(DayOfWeek(JsGetDay(d.weekday)), d)
  }

  /** The Python code's features, from `weekday()` directly, are the same. */
  lemma PythonCalendarAgrees(d: Date)
    ensures CalendarFeatures(PyWeekday(d.weekday), d) == CalendarOf(d)
  {
    DayOfWeekMatchesPython(d.weekday);
  }

  /** The classifier's view: `[dow, month, amount, isWeekend, isMonthStart, isMonthEnd]`. */
  function ClfRow(c: Calendar, amount: real): (row: seq<real>)
    ensures |row| == 6 && row[2] == amount
  {
    [c.dow as real, c.month as real, amount, c.isWeekend, c.isMonthStart, c.isMonthEnd]
  }

  /** The regressor's view: `[dow, month, isWeekend, isMonthStart, fineId]`. */
  function RegRow(c: Calendar, fineId: real): (row: seq<real>)
    ensures |row| == 5 && row[4] == fineId
  {
    [c.dow as real, c.month as real, c.isWeekend, c.isMonthStart, fineId]
  }

  predicate IsExpense(tr: Transaction) {
    tr.kind == "expense"
  }

  predicate IsKnown(tr: Transaction) {
    tr.category in ALL_CATEGORIES
  }

  /** Every record the feature engineer keeps has a parsed date. */
  predicate KnownDated(rows: seq<Transaction>) {
    forall tr <- rows :: IsKnown(tr) ==> tr.date.Some?
  }

  /** The classifier target of a record: the id of its coarse category. */
  function CoarseIdOf(tr: Transaction): (id: real)
    ensures IdToCoarse(id) == Some(CoarseOf(tr.category, IsExpense(tr)))
  {
    var c := CoarseOf(tr.category, IsExpense(tr));
    CoarseIdRoundTrip(c);
    CoarseToId(c) as real
  }

  /** The two training sets of one record type: classifier rows and targets, regressor rows and targets. */
  datatype Side = Side(xClf: seq<seq<real>>, yClf: seq<real>, xReg: seq<seq<real>>, yReg: seq<real>)

  /** The expense and the income training sets. */
  datatype Datasets = Datasets(expense: Side, income: Side)

  const NO_ROWS := Side([], [], [], [])

  /** A kept record's classifier row. */
  function ClfRowOf(tr: Transaction): seq<real>
    requires tr.date.Some?
  {
    ClfRow(CalendarOf(tr.date.value), tr.amount)
  }

  /** A kept record's regressor row, its fine category numbered by its position in `order`. */
  function RegRowOf(tr: Transaction, order: seq<string>): seq<real>
    requires tr.date.Some? && tr.category in order
  {
    RegRow(CalendarOf(tr.date.value), CategoryToId(order, tr.category) as real)
  }

  /** The four entries one kept record adds to the sets of its side. */
  function Push(s: Side, tr: Transaction, order: seq<string>): Side
    requires tr.date.Some? && tr.category in order
  {
    Side(s.xClf + [ClfRowOf(tr)], s.yClf + [CoarseIdOf(tr)], s.xReg + [RegRowOf(tr, order)], s.yReg + [tr.amount])
  }

  /** `order` numbers every fine category. */
  predicate Numbers(order: seq<string>) {
    forall c <- ALL_CATEGORIES :: c in order
  }

  /**
   * The datasets of `rows`, record by record: unknown categories are
   * skipped, records of type "expense" go to the expense sets and records of
   * any other type to the income sets.
   */
  function DatasetsOf(rows: seq<Transaction>, order: seq<string>): Datasets
    requires KnownDated(rows) && Numbers(order)
  {
    if rows == [] then Datasets(NO_ROWS, NO_ROWS)
    else
      var tr := rows[|rows| - 1];
      var d := DatasetsOf(rows[..|rows| - 1], order);
      if !IsKnown(tr) then d
      else if IsExpense(tr) then d.(expense := Push(d.expense, tr, order))
      else d.(income := Push(d.income, tr, order))
  }

  /** The sets of one side. */
  function SideOf(d: Datasets, expense: bool): Side {
    if expense then d.expense else d.income
  }

  /** The records of `rows` kept for one side: known category, and of type "expense" or not. */
  function KeptOfSide(rows: seq<Transaction>, expense: bool): (kept: seq<Transaction>)
    ensures |kept| <= |rows|
    ensures forall k :: 0 <= k < |kept| ==> kept[k] in rows && IsKnown(kept[k]) && IsExpense(kept[k]) == expense
  {
    if rows == [] then []
    else
      var tr := rows[|rows| - 1];
      var init := KeptOfSide(rows[..|rows| - 1], expense);
      WithinPrefix(init, rows, |rows| - 1);
      if IsKnown(tr) && IsExpense(tr) == expense then init + [tr] else init
  }

  /** Elements of a prefix of `rows` are elements of `rows`. */
  lemma WithinPrefix(xs: seq<Transaction>, rows: seq<Transaction>, n: nat)
    requires n <= |rows| && forall k :: 0 <= k < |xs| ==> xs[k] in rows[..n]
    ensures forall k :: 0 <= k < |xs| ==> xs[k] in rows
  {
    forall k | 0 <= k < |xs| ensures xs[k] in rows {
      var i :| 0 <= i < n && rows[..n][i] == xs[k];
      assert rows[i] == xs[k];
    }
  }

  /** Each record of `kept` has a date and a numbered category. */
  predicate Usable(kept: seq<Transaction>, order: seq<string>) {
    forall k :: 0 <= k < |kept| ==> kept[k].date.Some? && kept[k].category in order
  }

  /** `s` holds, position by position, the rows and targets of the records `kept`. */
  ghost predicate Lists(s: Side, kept: seq<Transaction>, order: seq<string>)
    requires Usable(kept, order)
  {
    && |s.xClf| == |s.yClf| == |s.xReg| == |s.yReg| == |kept|
    && forall k :: 0 <= k < |kept| ==>
         && s.xClf[k] == ClfRowOf(kept[k]) && s.yClf[k] == CoarseIdOf(kept[k])
         && s.xReg[k] == RegRowOf(kept[k], order) && s.yReg[k] == kept[k].amount
  }

  lemma KeptUsable(rows: seq<Transaction>, expense: bool, order: seq<string>)
    requires KnownDated(rows) && Numbers(order)
    ensures Usable(KeptOfSide(rows, expense), order)
  {
    var kept := KeptOfSide(rows, expense);
    forall k | 0 <= k < |kept|
      ensures kept[k].date.Some? && kept[k].category in order
    {
      assert kept[k] in rows;
    }
  }

  lemma KnownDatedPrefix(rows: seq<Transaction>, n: nat)
    requires KnownDated(rows) && n <= |rows|
    ensures KnownDated(rows[..n])
  {
    forall tr | tr in rows[..n]
      ensures IsKnown(tr) ==> tr.date.Some?
    {
      assert tr in rows;
    }
  }

  lemma PushLists(s: Side, kept: seq<Transaction>, tr: Transaction, order: seq<string>)
    requires Usable(kept, order) && tr.date.Some? && tr.category in order && Lists(s, kept, order)
    ensures Usable(kept + [tr], order) && Lists(Push(s, tr, order), kept + [tr], order)
  {
    var kept' := kept + [tr];
    var s' := Push(s, tr, order);
    forall k | 0 <= k < |kept'|
      ensures kept'[k].date.Some? && kept'[k].category in order
    {
      if k < |kept| { assert kept'[k] == kept[k]; }
    }
    forall k | 0 <= k < |kept'|
      ensures && s'.xClf[k] == ClfRowOf(kept'[k]) && s'.yClf[k] == CoarseIdOf(kept'[k])
              && s'.xReg[k] == RegRowOf(kept'[k], order) && s'.yReg[k] == kept'[k].amount
    {
      if k < |kept| {
        assert kept'[k] == kept[k];
        assert s'.xClf[k] == s.xClf[k] && s'.yClf[k] == s.yClf[k];
        assert s'.xReg[k] == s.xReg[k] && s'.yReg[k] == s.yReg[k];
      }
    }
  }

  /**
   * Each side's sets list exactly the kept records of that side, in input
   * order, one entry per record in each of the four sets.
   */
  lemma {:induction false} DatasetsBySide(rows: seq<Transaction>, order: seq<string>, expense: bool)
    requires KnownDated(rows) && Numbers(order)
    ensures Usable(KeptOfSide(rows, expense), order)
    ensures Lists(SideOf(DatasetsOf(rows, order), expense), KeptOfSide(rows, expense), order)
  {
    KeptUsable(rows, expense, order);
    if rows != [] {
      var init := rows[..|rows| - 1];
      KnownDatedPrefix(rows, |rows| - 1);
      DatasetsBySide(init, order, expense);
      KeptUsable(init, expense, order);
      var tr := rows[|rows| - 1];
      if IsKnown(tr) && IsExpense(tr) == expense {
        assert tr in rows;
        PushLists(SideOf(DatasetsOf(init, order), expense), KeptOfSide(init, expense), tr, order);
      }
    }
  }

  /**
   * Every classifier row has 6 columns, every regressor row 5, and every
   * classifier target is a coarse id.
   */
  lemma DatasetsShape(rows: seq<Transaction>, order: seq<string>, expense: bool)
    requires KnownDated(rows) && Numbers(order)
    ensures var s := SideOf(DatasetsOf(rows, order), expense);
      && (forall k :: 0 <= k < |s.xClf| ==> |s.xClf[k]| == 6)
      && (forall k :: 0 <= k < |s.xReg| ==> |s.xReg[k]| == 5)
      && (forall k :: 0 <= k < |s.yClf| ==> IdToCoarse(s.yClf[k]).Some?)
  {
    DatasetsBySide(rows, order, expense);
  }

  /** Appending one record to the input appends at most one entry to each set of its side. */
  lemma DatasetsStep(rows: seq<Transaction>, n: nat, order: seq<string>)
    requires n < |rows| && KnownDated(rows[..n + 1]) && Numbers(order)
    ensures KnownDated(rows[..n])
    ensures var d := DatasetsOf(rows[..n], order);
      var tr := rows[n];
      DatasetsOf(rows[..n + 1], order) ==
        if !IsKnown(tr) then d
        else if IsExpense(tr) then d.(expense := Push(d.expense, tr, order))
        else d.(income := Push(d.income, tr, order))
  {
    KnownDatedPrefix(rows[..n + 1], n);
    assert rows[..n + 1][..n] == rows[..n];
  }

  lemma KnownDatedExtend(rows: seq<Transaction>, n: nat)
    requires n < |rows| && KnownDated(rows[..n]) && (IsKnown(rows[n]) ==> rows[n].date.Some?)
    ensures KnownDated(rows[..n + 1])
  {
    assert rows[..n + 1] == rows[..n] + [rows[n]];
  }

  lemma ArrangementNumbers(order: seq<string>)
    requires IsArrangementOf(order, ALL_CATEGORIES)
    ensures Numbers(order)
  {
  }

  /** `buildDatasets`: one pass over the records, pushing the four entries of each kept record. */
  method BuildDatasets(rows: seq<Transaction>) returns (d: Datasets)
    requires KnownDated(rows)
    ensures d == DatasetsOf(rows, ALL_CATEGORIES)
  {
    d := Datasets(NO_ROWS, NO_ROWS);
    for n := 0 to |rows|
      invariant KnownDated(rows[..n])
      invariant d == DatasetsOf(rows[..n], ALL_CATEGORIES)
    {
      var tr := rows[n];
      KnownDatedPrefix(rows, n + 1);
      DatasetsStep(rows, n, ALL_CATEGORIES);
      if !IsKnown(tr) {
        continue;
      }
      assert tr in rows;
      var c := CalendarOf(tr.date.value);
      var coarseId := CoarseIdOf(tr);
      var fineId := CategoryToId(ALL_CATEGORIES, tr.category) as real;
      var s := if IsExpense(tr) then d.expense else d.income;
      s := Side(s.xClf + [ClfRow(c, tr.amount)], s.yClf + [coarseId], s.xReg + [RegRow(c, fineId)], s.yReg + [tr.amount]);
      if IsExpense(tr) {
        d := d.(expense := s);
      } else {
        d := d.(income := s);
      }
    }
    assert rows[..|rows|] == rows;
  }

  /**
   * `build_datasets`: the same pass, with the Python ids of the fine
   * categories (`order` is the iteration order of the category set); a kept
   * record whose date does not parse raises.
   */
  method PyBuildDatasets(rows: seq<Transaction>, order: seq<string>) returns (r: Result<Datasets, string>)
    requires IsArrangementOf(order, ALL_CATEGORIES)
    ensures r.Ok? <==> KnownDated(rows)
    ensures r.Ok? ==> Numbers(order) && r.value == DatasetsOf(rows, order)
  {
    ArrangementNumbers(order);
    var d := Datasets(NO_ROWS, NO_ROWS);
    for n := 0 to |rows|
      invariant KnownDated(rows[..n])
      invariant d == DatasetsOf(rows[..n], order)
    {
      var tr := rows[n];
      if IsKnown(tr) && tr.date.None? {
        assert tr in rows;
        return Err("time data does not match format '%Y-%m-%d'");
      }
      KnownDatedExtend(rows, n);
      DatasetsStep(rows, n, order);
      if !IsKnown(tr) {
        continue;
      }
      PythonCalendarAgrees(tr.date.value);
      var c := CalendarFeatures(PyWeekday(tr.date.value.weekday), tr.date.value);
      var coarseId := CoarseIdOf(tr);
      var fineId := CategoryToId(order, tr.category) as real;
      var s := if IsExpense(tr) then d.expense else d.income;
      s := Side(s.xClf + [ClfRow(c, tr.amount)], s.yClf + [coarseId], s.xReg + [RegRow(c, fineId)], s.yReg + [tr.amount]);
      if IsExpense(tr) {
        d := d.(expense := s);
      } else {
        d := d.(income := s);
      }
    }
    assert rows[..|rows|] == rows;
    return Ok(d);
  }
}
