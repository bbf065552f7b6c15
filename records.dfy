/** The nested (wire) shape of subjects and schedules that the ingestion
    consumes and the transformer produces, and the entries of the reports the
    engine returns. */
module Records {
  import opened Common
  import opened Tables

  /** One weekly time block as JSON: `weekDay` and the `period` strings as
      sent, teacher and classroom names, and the optional group code. */
  datatype NestedSchedule = NestedSchedule(
    weekDay: Option<string>,
    period: Option<seq<string>>,
    teacher: Option<string>,
    classroom: Option<string>,
    whichClass: Option<string>)

  /** A subject as JSON: `name` is the code, `description` the display name,
      `greve` the on-strike flag. */
  datatype NestedSubject = NestedSubject(
    name: Option<string>,
    description: Option<string>,
    semester: Option<string>,
    multiClass: bool,
    greve: bool,
    classes: Option<seq<NestedSchedule>>,
    classList: Option<seq<string>>)

  /** What a JavaScript exception inside the engine can be: a `TypeError`
      from reading a property of `undefined`, or a statement the database
      rejected. */
  datatype Fault = TypeError | Violated(violation: Violation)

  /** Why an item was skipped or reported as an error. */
  datatype Reason =
    | AlreadyExists
    | MissingFields
    | GroupNotFound(groupCode: string)
    | SubjectNotFound
    | Thrown(fault: Fault)          // the exception's own message
    | SubjectFailed(fault: Fault)   // populate, first pass
    | ClassFailed(fault: Fault)     // populate, second pass, per subject
    | ScheduleFailed(fault: Fault)  // populate, second pass, per schedule

  datatype Entry = Entry(name: string, reason: Reason)

  const DefaultGroup: string := "DEFAULT"

  /** `schedule.whichClass || "DEFAULT"`. */
  function GroupCodeOf(s: NestedSchedule): string {
    OrElse(s.whichClass, DefaultGroup)
  }
}
