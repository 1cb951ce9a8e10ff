/** The "Add Task" and "Edit Task" screens (app.py:37-72, 107-192): how form
    values become a stored row, and where the edit flow ends. */
module Flows {
  import opened Wrappers
  import opened Strings
  import opened Tasks
  import opened TaskType
  import opened TaskFilters
  import opened Store

  // ---------------------------------------------------------------- the form

  /** What the add or edit form holds when its button is pressed. `reason` is
      read only when `category` is "Others"; `notApplicable` is the "Mark 'Date
      Received' as N/A" checkbox and `date` the date picker's value. */
  datatype FormInput = FormInput(
    category: string,
    reason: string,
    offence: string,
    analyst: string,
    supervisor: string,
    status: string,
    fileLocation: string,
    notApplicable: bool,
    date: Date,
    workFile: string,
    caseRef: string,
    remarks: string)

  /** The row the add form inserts (app.py:47, 57-61, 68-71). */
  function NewTask(input: FormInput): Task
  {
    Task(Compose(input.category, input.reason), input.offence, Some(input.analyst),
         input.supervisor, input.status, input.fileLocation,
         if input.notApplicable then None else Some(input.date),
         input.workFile, input.caseRef, input.remarks)
  }

  /** Pressing "Add Task" (app.py:67-72): one INSERT of `NewTask(input)`. */
  method AddTask(table: TaskTable, input: FormInput) returns (id: int)
    requires table.Valid()
    modifies table
    ensures table.Valid()
    ensures id == old(table.nextId) && table.nextId == id + 1
    ensures id !in old(table.rows) && forall k :: k in old(table.rows) ==> k < id
    ensures table.rows == old(table.rows)[id := NewTask(input)]
  {
    id := table.Insert(NewTask(input));
  }

  /** Choosing N/A on the add form stores NULL; otherwise the picked date is stored. */
  lemma AddStoresDateOrNull(input: FormInput)
    ensures NewTask(input).dateReceived == None <==> input.notApplicable
    ensures !input.notApplicable ==> NewTask(input).dateReceived == Some(input.date)
  {
  }

  // ------------------------------------------------------------ id parsing

  predicate IsDigit(c: char)
  {
    '0' <= c <= '9'
  }

  predicate AllDigits(s: string)
  {
    forall i :: 0 <= i < |s| ==> IsDigit(s[i])
  }

  /** The value of a string of decimal digits. */
  function DigitsValue(s: string): nat
    requires AllDigits(s)
    decreases |s|
  {
    if s == [] then 0 else DigitsValue(s[..|s| - 1]) * 10 + (s[|s| - 1] as int - '0' as int)
  }

  /** The texts `int()` accepts here: an optional sign followed by one or more digits. */
  predicate IsIntLiteral(text: string)
  {
    && |text| > 0
    && (IsDigit(text[0]) || (|text| > 1 && (text[0] == '+' || text[0] == '-')))
    && forall i :: 0 < i < |text| ==> IsDigit(text[i])
  }

  /** `int(task_id_to_edit)` (app.py:116): the number, or None where Python
      raises ValueError. */
  function ParseId(text: string): (id: Option<int>)
    ensures id.Some? <==> IsIntLiteral(text)
  {
    if |text| > 1 && (text[0] == '+' || text[0] == '-') && AllDigits(text[1..]) then
      var magnitude: int := DigitsValue(text[1..]);
      Some(if text[0] == '-' then -magnitude else magnitude)
    else if |text| > 0 && AllDigits(text) then
      Some(DigitsValue(text))
    else
      None
  }

  /** How an id is written in decimal, as the table view shows it. */
  function Decimal(n: nat): string
    decreases n
  {
    if n < 10 then [('0' as int + n) as char] else Decimal(n / 10) + [('0' as int + n % 10) as char]
  }

  lemma {:induction false} DecimalDigits(n: nat)
    ensures |Decimal(n)| > 0 && AllDigits(Decimal(n)) && DigitsValue(Decimal(n)) == n
    decreases n
  {
    if n >= 10 {
      DecimalDigits(n / 10);
      var s := Decimal(n);
      assert s[..|s| - 1] == Decimal(n / 10);
    }
  }

  /** Typing an id as the table shows it finds that id. */
  lemma ParseDecimal(n: nat)
    ensures ParseId(Decimal(n)) == Some(n)
    ensures ParseId("-" + Decimal(n)) == Some(-(n as int))
  {
    DecimalDigits(n);
    assert ("-" + Decimal(n))[1..] == Decimal(n);
  }

  // ------------------------------------------------------------- edit flow

  /** The pre-filled edit form (app.py:124-171). `storedDate` is the stored
      date; when it is NULL the N/A checkbox is offered, already ticked. */
  datatype EditForm = EditForm(
    category: string,
    reason: string,
    offence: string,
    analyst: Option<string>,
    supervisor: string,
    status: string,
    fileLocation: string,
    storedDate: Option<Date>,
    workFile: string,
    caseRef: string,
    remarks: string)
  {
    predicate OffersNotApplicable()
    {
      storedDate.None?
    }
  }

  /** Pre-filling the form from a stored row. None where a stored category,
      supervisor or status is missing from its choice list, so that `.index`
      raises ValueError (app.py:130, 145, 151). */
  function Prefill(t: Task): Option<EditForm>
  {
    var (category, reason) := Split(t.taskType);
    if category in CATEGORIES && t.supervisor in SUPERVISORS && t.status in STATUSES then
      Some(EditForm(category, reason, t.offence, t.analyst, t.supervisor, t.status,
                    t.fileLocation, t.dateReceived, t.workFile, t.caseRef, t.remarks))
    else
      None
  }

  /** The row written by "Update Task" (app.py:137, 157-167, 175-183). The N/A
      checkbox exists only when the stored date was NULL, so only then can the
      written date be NULL. */
  function Submit(form: EditForm, input: FormInput): Task
  {
    Task(Compose(input.category, input.reason), input.offence, Some(input.analyst),
         input.supervisor, input.status, input.fileLocation,
         if form.OffersNotApplicable() && input.notApplicable then None else Some(input.date),
         input.workFile, input.caseRef, input.remarks)
  }

  /** The values the widgets of a pre-filled form hold when the user changes
      nothing; `today` is what a date picker shows when it has no stored value. */
  function Untouched(form: EditForm, today: Date): FormInput
  {
    FormInput(form.category, form.reason, form.offence,
              if form.analyst.Some? then form.analyst.value else "",
              form.supervisor, form.status, form.fileLocation,
              form.OffersNotApplicable(),
              if form.storedDate.Some? then form.storedDate.value else today,
              form.workFile, form.caseRef, form.remarks)
  }

  /** Where one evaluation of the edit screen ends. `InvalidId` is the
      "Please enter a valid numeric Task ID!" message. */
  datatype EditOutcome =
    | Idle
    | InvalidId
    | NotFound(id: int)
    | FormShown(id: int, form: EditForm)
    | Updated(id: int, task: Task)

  /** The edit screen's branching (app.py:113-192). `submit` is the form's
      contents when "Update Task" was pressed, None when it was not. */
  function Classify(text: string, rows: map<int, Task>, submit: Option<FormInput>): (o: EditOutcome)
    ensures o == Idle <==> text == ""
    ensures text != "" && !IsIntLiteral(text) ==> o == InvalidId
    ensures o.NotFound? ==> ParseId(text) == Some(o.id) && o.id !in rows
    ensures o.FormShown? ==> ParseId(text) == Some(o.id) && o.id in rows && Prefill(rows[o.id]) == Some(o.form) && submit.None?
    ensures o.FormShown? ==> (o.form.OffersNotApplicable() <==> rows[o.id].dateReceived.None?)
    ensures o.Updated? ==> ParseId(text) == Some(o.id) && o.id in rows && submit.Some?
    ensures o.Updated? ==> Prefill(rows[o.id]).Some? && o.task == Submit(Prefill(rows[o.id]).value, submit.value)
    ensures o.Updated? && rows[o.id].dateReceived.Some? ==> o.task.dateReceived.Some?
  {
    if text == "" then Idle
    else match ParseId(text)
      case None => InvalidId
      case Some(id) =>
        if id !in rows then NotFound(id)
        else match Prefill(rows[id])
          case None => InvalidId
          case Some(form) =>
            match submit
            case None => FormShown(id, form)
            case Some(input) => Updated(id, Submit(form, input))
  }

  /** One evaluation of the edit screen against the table: only the `Updated`
      outcome writes, and it writes exactly the row it names. */
  method RunEdit(table: TaskTable, text: string, submit: Option<FormInput>) returns (o: EditOutcome)
    requires table.Valid()
    modifies table
    ensures table.Valid() && table.nextId == old(table.nextId)
    ensures o == Classify(text, old(table.rows), submit)
    ensures o.Updated? ==> table.rows == old(table.rows)[o.id := o.task]
    ensures !o.Updated? ==> table.rows == old(table.rows)
  {
    if text == "" {
      return Idle;
    }
    var parsed := ParseId(text);
    if parsed.None? {
      return InvalidId;
    }
    var id := parsed.value;
    var found := table.Get(id);
    if found.None? {
      return NotFound(id);
    }
    var form := Prefill(found.value);
    if form.None? {
      return InvalidId;
    }
    if submit.None? {
      return FormShown(id, form.value);
    }
    var written := Submit(form.value, submit.value);
    table.Update(id, written);
    o := Updated(id, written);
  }

  /** A numeric id with no stored row ends in the not-found warning (app.py:188-189). */
  lemma AbsentIdIsNotFound(text: string, rows: map<int, Task>, submit: Option<FormInput>, id: int)
    requires ParseId(text) == Some(id) && id !in rows
    ensures Classify(text, rows, submit) == NotFound(id)
  {
  }

  /** A stored id whose row pre-fills shows the form, and with the button
      pressed writes what the form holds (app.py:119-184). */
  lemma StoredIdOpensForm(text: string, rows: map<int, Task>, submit: Option<FormInput>, id: int)
    requires ParseId(text) == Some(id) && id in rows && Prefill(rows[id]).Some?
    ensures var form := Prefill(rows[id]).value;
      Classify(text, rows, submit) ==
        if submit.None? then FormShown(id, form) else Updated(id, Submit(form, submit.value))
  {
  }

  /** A stored category, supervisor or status that is no longer offered by its
      choice list ends the flow with the same message as a non-numeric id. */
  lemma LegacyValueReportsInvalidId(text: string, rows: map<int, Task>, submit: Option<FormInput>, id: int)
    requires ParseId(text) == Some(id) && id in rows
    requires Split(rows[id].taskType).0 !in CATEGORIES
          || rows[id].supervisor !in SUPERVISORS
          || rows[id].status !in STATUSES
    ensures Classify(text, rows, submit) == InvalidId
  {
  }

  /** A row the add form wrote (choices taken from the lists) can be edited:
      looking up its id shows the form with every field as entered, the
      "Others" reason recovered and the N/A box ticked exactly when N/A was
      chosen. */
  lemma {:induction false} AddedTaskOpensForEditing(input: FormInput, rows: map<int, Task>, id: nat)
    requires input.category in CATEGORIES && input.supervisor in SUPERVISORS && input.status in STATUSES
    requires id in rows && rows[id] == NewTask(input)
    ensures var o := Classify(Decimal(id), rows, None);
      && o.FormShown? && o.id == id
      && o.form.category == input.category
      && o.form.reason == (if input.category == OTHERS then input.reason else "")
      && o.form.analyst == Some(input.analyst)
      && o.form.supervisor == input.supervisor && o.form.status == input.status
      && (o.form.OffersNotApplicable() <==> input.notApplicable)
  {
    ParseDecimal(id);
    DecimalDigits(id);
    SplitCompose(input.category, input.reason);
  }

  /** Pressing "Update Task" without changing anything writes back the row it
      was loaded from, provided its type was composed the way the forms
      compose it and its analyst is not NULL. */
  lemma {:induction false} UnchangedSubmitKeepsRow(t: Task, form: EditForm, today: Date)
    requires Prefill(t) == Some(form) && t.analyst.Some?
    requires Compose(Split(t.taskType).0, Split(t.taskType).1) == t.taskType
    ensures Submit(form, Untouched(form, today)) == t
  {
  }

  // ------------------------------------------------------ end-to-end scenario

  /** Add a "Pro" task with no date for supervisor LHH, find it through the
      supervisor filter, then set its status to "Completed" through the edit
      screen: the row read back differs from the added one in its status only. */
  method AddFilterEdit(today: Date) returns (shown: seq<Row>, added: Task, final: Option<Task>)
    ensures exists row :: row in shown && row.task == added
    ensures added.taskType == "Pro" && added.dateReceived == None
    ensures final == Some(added.(status := "Completed"))
  {
    var table := new TaskTable();
    var input := FormInput("Pro", "", "", "A. Tan", "LHH", "Pending Analyst", "", true, today, "", "", "");
    var id := AddTask(table, input);
    added := NewTask(input);
    var loaded := table.LoadAll();
    shown := ApplyFilters(loaded, Criteria("", "LHH", ALL));
    FiltersSelectAdmitted(loaded, Criteria("", "LHH", ALL));
    assert Row(id, added) in shown;
    var edited := input.(status := "Completed");
    ParseDecimal(id);
    SplitCompose(input.category, input.reason);
    var o := RunEdit(table, Decimal(id), Some(edited));
    final := table.Get(id);
  }
}
