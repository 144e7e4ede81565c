/** The job-application record shared by the list view, the app state and the add-job form. */
module Jobs {

  datatype Option<+T> = None | Some(value: T)

  /** Identifiers are assigned by the server and compared with `!==`. */
  type JobId = int

  /** One tracked application, as the server returns it. */
  datatype Job = Job(
    id: JobId,
    company: string,
    jobTitle: string,
    appliedFrom: string,
    applicationLink: string,
    note: string,
    createdAt: string)
}
