/** The "View Tasks" filter chain (app.py:89-95): up to three optional
    predicates applied one after another to the loaded rows. */
module TaskFilters {
  import opened Wrappers
  import opened Strings
  import opened Tasks

  /** The three filter widgets: analyst text ("" = off), supervisor and status ("All" = off). */
  datatype Criteria = Criteria(analyst: string, supervisor: string, status: string)

  /** One step of the chain. */
  datatype Step = ByAnalyst | BySupervisor | ByStatus

  /** `a` is an order-preserving subsequence of `b`. */
  ghost predicate IsSubsequence(a: seq<Row>, b: seq<Row>)
    decreases |b|
  {
    if a == [] then true
    else if b == [] then false
    else (a[0] == b[0] && IsSubsequence(a[1..], b[1..])) || IsSubsequence(a, b[1..])
  }

  /** Boolean-mask selection of a DataFrame: the rows that pass `keep`, in order. */
  function Select(rows: seq<Row>, keep: Row -> bool): (kept: seq<Row>)
    ensures forall row :: row in kept ==> keep(row)
    ensures forall row :: row in rows && keep(row) ==> row in kept
    ensures IsSubsequence(kept, rows)
  {
    if rows == [] then []
    else if keep(rows[0]) then [rows[0]] + Select(rows[1..], keep)
    else Select(rows[1..], keep)
  }

  /** `str.contains(text, case=False, na=False)` on the analyst column: a NULL
      analyst never matches (app.py:91). */
  predicate AnalystMatches(analyst: Option<string>, text: string)
  {
    analyst.Some? && ContainsIgnoringCase(analyst.value, text)
  }

  function AnalystTest(text: string): Row -> bool
  {
    (row: Row) => AnalystMatches(row.task.analyst, text)
  }

  function SupervisorTest(name: string): Row -> bool
  {
    (row: Row) => row.task.supervisor == name
  }

  function StatusTest(name: string): Row -> bool
  {
    (row: Row) => row.task.status == name
  }

  /** One step as the screen runs it: a step whose widget is off leaves the rows alone. */
  function ApplyStep(rows: seq<Row>, c: Criteria, step: Step): seq<Row>
  {
    match step
    case ByAnalyst => if c.analyst != "" then Select(rows, AnalystTest(c.analyst)) else rows
    case BySupervisor => if c.supervisor != ALL then Select(rows, SupervisorTest(c.supervisor)) else rows
    case ByStatus => if c.status != ALL then Select(rows, StatusTest(c.status)) else rows
  }

  /** The chain in the order of app.py:90-95. */
  function ApplyFilters(rows: seq<Row>, c: Criteria): seq<Row>
  {
    ApplyStep(ApplyStep(ApplyStep(rows, c, ByAnalyst), c, BySupervisor), c, ByStatus)
  }

  /** The chain with its steps taken in any given order. */
  function ApplyInOrder(rows: seq<Row>, c: Criteria, order: seq<Step>): seq<Row>
    decreases |order|
  {
    if order == [] then rows else ApplyInOrder(ApplyStep(rows, c, order[0]), c, order[1..])
  }

  /** Reference meaning of one step, independent of how it is run: the step is
      off, or the row passes it. */
  predicate Keeps(c: Criteria, step: Step, row: Row)
  {
    match step
    case ByAnalyst => c.analyst == "" || AnalystMatches(row.task.analyst, c.analyst)
    case BySupervisor => c.supervisor == ALL || row.task.supervisor == c.supervisor
    case ByStatus => c.status == ALL || row.task.status == c.status
  }

  /** A row passes every step of `order`. */
  predicate KeepsAll(c: Criteria, order: seq<Step>, row: Row)
  {
    forall i :: 0 <= i < |order| ==> Keeps(c, order[i], row)
  }

  /** A row passes all three filters. */
  predicate Admits(c: Criteria, row: Row)
  {
    Keeps(c, ByAnalyst, row) && Keeps(c, BySupervisor, row) && Keeps(c, ByStatus, row)
  }

  function KeepsTest(c: Criteria, step: Step): Row -> bool
  {
    (row: Row) => Keeps(c, step, row)
  }

  function KeepsAllTest(c: Criteria, order: seq<Step>): Row -> bool
  {
    (row: Row) => KeepsAll(c, order, row)
  }

  function Both(p: Row -> bool, q: Row -> bool): Row -> bool
  {
    (row: Row) => p(row) && q(row)
  }

  /** Selection depends only on what the predicate says about each row. */
  lemma {:induction false} SelectExt(rows: seq<Row>, p: Row -> bool, q: Row -> bool)
    requires forall row :: p(row) == q(row)
    ensures Select(rows, p) == Select(rows, q)
    decreases |rows|
  {
    if rows != [] {
      SelectExt(rows[1..], p, q);
    }
  }

  /** Selecting with a predicate every row passes returns the rows unchanged. */
  lemma {:induction false} SelectKeepsAll(rows: seq<Row>, p: Row -> bool)
    requires forall row :: row in rows ==> p(row)
    ensures Select(rows, p) == rows
    decreases |rows|
  {
    if rows != [] {
      SelectKeepsAll(rows[1..], p);
      assert [rows[0]] + rows[1..] == rows;
    }
  }

  /** Two selections in a row are one selection with the conjunction. */
  lemma {:induction false} SelectFuse(rows: seq<Row>, p: Row -> bool, q: Row -> bool)
    ensures Select(Select(rows, p), q) == Select(rows, Both(p, q))
    decreases |rows|
  {
    if rows != [] {
      SelectFuse(rows[1..], p, q);
      if p(rows[0]) {
        assert Select(rows, p) == [rows[0]] + Select(rows[1..], p);
        assert Select(rows, p)[1..] == Select(rows[1..], p);
      }
    }
  }

  /** Two selections commute. */
  lemma SelectCommute(rows: seq<Row>, p: Row -> bool, q: Row -> bool)
    ensures Select(Select(rows, p), q) == Select(Select(rows, q), p)
  {
    SelectFuse(rows, p, q);
    SelectFuse(rows, q, p);
    SelectExt(rows, Both(p, q), Both(q, p));
  }

  /** Selecting twice with the same predicate is selecting once. */
  lemma SelectIdempotent(rows: seq<Row>, p: Row -> bool)
    ensures Select(Select(rows, p), p) == Select(rows, p)
  {
    SelectKeepsAll(Select(rows, p), p);
  }

  /** Each step, on or off, is a selection by its reference meaning `Keeps`. */
  lemma StepIsSelect(rows: seq<Row>, c: Criteria, step: Step)
    ensures ApplyStep(rows, c, step) == Select(rows, KeepsTest(c, step))
  {
    match step
    case ByAnalyst =>
      if c.analyst != "" {
        SelectExt(rows, AnalystTest(c.analyst), KeepsTest(c, step));
      } else {
        SelectKeepsAll(rows, KeepsTest(c, step));
      }
    case BySupervisor =>
      if c.supervisor != ALL {
        SelectExt(rows, SupervisorTest(c.supervisor), KeepsTest(c, step));
      } else {
        SelectKeepsAll(rows, KeepsTest(c, step));
      }
    case ByStatus =>
      if c.status != ALL {
        SelectExt(rows, StatusTest(c.status), KeepsTest(c, step));
      } else {
        SelectKeepsAll(rows, KeepsTest(c, step));
      }
  }

  /** Running the steps in any order selects the rows that pass all of them. */
  lemma {:induction false} InOrderIsSelect(rows: seq<Row>, c: Criteria, order: seq<Step>)
    ensures ApplyInOrder(rows, c, order) == Select(rows, KeepsAllTest(c, order))
    decreases |order|
  {
    if order == [] {
      SelectKeepsAll(rows, KeepsAllTest(c, order));
    } else {
      var first := ApplyStep(rows, c, order[0]);
      InOrderIsSelect(first, c, order[1..]);
      StepIsSelect(rows, c, order[0]);
      SelectFuse(rows, KeepsTest(c, order[0]), KeepsAllTest(c, order[1..]));
      forall row ensures Both(KeepsTest(c, order[0]), KeepsAllTest(c, order[1..]))(row) == KeepsAllTest(c, order)(row) {
        if KeepsAll(c, order, row) {
          forall i | 0 <= i < |order[1..]| ensures Keeps(c, order[1..][i], row) {
            assert order[1..][i] == order[i + 1];
          }
        }
        if Keeps(c, order[0], row) && KeepsAll(c, order[1..], row) {
          forall i | 0 <= i < |order| ensures Keeps(c, order[i], row) {
            if i > 0 {
              assert order[i] == order[1..][i - 1];
            }
          }
        }
      }
      SelectExt(rows, Both(KeepsTest(c, order[0]), KeepsAllTest(c, order[1..])), KeepsAllTest(c, order));
    }
  }

  /** The filters commute: any two orders that use the same steps give the same rows. */
  lemma AnyOrderSameResult(rows: seq<Row>, c: Criteria, o1: seq<Step>, o2: seq<Step>)
    requires forall s :: s in o1 <==> s in o2
    ensures ApplyInOrder(rows, c, o1) == ApplyInOrder(rows, c, o2)
  {
    InOrderIsSelect(rows, c, o1);
    InOrderIsSelect(rows, c, o2);
    forall row ensures KeepsAllTest(c, o1)(row) == KeepsAllTest(c, o2)(row) {
      if KeepsAll(c, o1, row) {
        forall i | 0 <= i < |o2| ensures Keeps(c, o2[i], row) {
          assert o2[i] in o1;
          var k :| 0 <= k < |o1| && o1[k] == o2[i];
        }
      }
      if KeepsAll(c, o2, row) {
        forall i | 0 <= i < |o1| ensures Keeps(c, o1[i], row) {
          assert o1[i] in o2;
          var k :| 0 <= k < |o2| && o2[k] == o1[i];
        }
      }
    }
    SelectExt(rows, KeepsAllTest(c, o1), KeepsAllTest(c, o2));
  }

  /** The screen's chain is the reference filter: it keeps, in their loaded
      order, exactly the rows that pass every active filter. */
  lemma FiltersSelectAdmitted(rows: seq<Row>, c: Criteria)
    ensures ApplyFilters(rows, c) == Select(rows, KeepsAllTest(c, [ByAnalyst, BySupervisor, ByStatus]))
    ensures IsSubsequence(ApplyFilters(rows, c), rows)
    ensures forall row :: row in ApplyFilters(rows, c) <==> row in rows && Admits(c, row)
  {
    var order := [ByAnalyst, BySupervisor, ByStatus];
    assert ApplyFilters(rows, c) == ApplyInOrder(rows, c, order);
    InOrderIsSelect(rows, c, order);
    forall row ensures KeepsAll(c, order, row) == Admits(c, row) {
      if Admits(c, row) {
        forall i | 0 <= i < |order| ensures Keeps(c, order[i], row) {
        }
      }
      if KeepsAll(c, order, row) {
        assert Keeps(c, order[0], row) && Keeps(c, order[1], row) && Keeps(c, order[2], row);
      }
    }
  }

  /** The three filters give the same rows whatever order they are applied in. */
  lemma FiltersCommute(rows: seq<Row>, c: Criteria, order: seq<Step>)
    requires ByAnalyst in order && BySupervisor in order && ByStatus in order
    ensures ApplyInOrder(rows, c, order) == ApplyFilters(rows, c)
  {
    var screen := [ByAnalyst, BySupervisor, ByStatus];
    assert ApplyFilters(rows, c) == ApplyInOrder(rows, c, screen);
    forall s ensures s in order && s in screen {
      match s
      case ByAnalyst =>
      case BySupervisor =>
      case ByStatus =>
    }
    AnyOrderSameResult(rows, c, order, screen);
  }

  /** Filtering the filtered rows again changes nothing. */
  lemma FiltersIdempotent(rows: seq<Row>, c: Criteria)
    ensures ApplyFilters(ApplyFilters(rows, c), c) == ApplyFilters(rows, c)
  {
    var all := KeepsAllTest(c, [ByAnalyst, BySupervisor, ByStatus]);
    FiltersSelectAdmitted(rows, c);
    FiltersSelectAdmitted(ApplyFilters(rows, c), c);
    SelectIdempotent(rows, all);
  }

  /** With every widget at its default the whole table is shown. */
  lemma FiltersOffKeepAll(rows: seq<Row>)
    ensures ApplyFilters(rows, Criteria("", ALL, ALL)) == rows
  {
  }

  /** A non-empty analyst filter never keeps a row whose analyst is NULL. */
  lemma NullAnalystNeverKept(rows: seq<Row>, c: Criteria, row: Row)
    requires c.analyst != "" && row in ApplyFilters(rows, c)
    ensures row.task.analyst.Some?
  {
    FiltersSelectAdmitted(rows, c);
  }

  /** The analyst filter ignores case: "lee" finds "Lee Tan". */
  lemma AnalystFilterIgnoresCase()
    ensures AnalystMatches(Some("Lee Tan"), "lee")
    ensures AnalystMatches(Some("LEE TAN"), "Lee")
  {
    assert Lower("Lee Tan")[..3] == "lee" == Lower("lee");
    assert MatchesAt(Lower("Lee Tan"), Lower("lee"), 0);
    ContainsIff(Lower("Lee Tan"), Lower("lee"));
    assert Lower("LEE TAN")[..3] == "lee" == Lower("Lee");
    assert MatchesAt(Lower("LEE TAN"), Lower("Lee"), 0);
    ContainsIff(Lower("LEE TAN"), Lower("Lee"));
  }
}
