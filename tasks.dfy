/** The `tasks` table's row type and the fixed choice lists of the screen (app.py:15-29, 41, 52-53). */
module Tasks {
  import opened Wrappers

  /** A calendar date, kept opaque: it is only stored, shown and compared. */
  datatype Date = Date(year: int, month: int, day: int)

  /** The ten non-id columns of a `tasks` row. `analyst` is nullable because the
      list filter treats a NULL analyst specially; `dateReceived` is NULL when
      the date was marked N/A. */
  datatype Task = Task(
    taskType: string,
    offence: string,
    analyst: Option<string>,
    supervisor: string,
    status: string,
    fileLocation: string,
    dateReceived: Option<Date>,
    workFile: string,
    caseRef: string,
    remarks: string)

  /** A row as loaded by `SELECT * FROM tasks`: the id and its columns. */
  datatype Row = Row(id: int, task: Task)

  const OTHERS: string := "Others"
  const CATEGORIES: seq<string> := ["Pro", "RFI", "MLA", "CV", OTHERS]
  const SUPERVISORS: seq<string> := ["LHH", "MHS", "MSS", "LWL", "ALAK"]
  const STATUSES: seq<string> := ["Pending Analyst", "Pending Supervisor", "Pending DD", "Completed"]

  /** The filter choice that switches the supervisor or status filter off. */
  const ALL: string := "All"
}
