/** The complaint record the dashboard works on. */
module Complaints {

  /** The handling stage of a complaint. */
  datatype Status = Pending | InProgress | Resolved

  /** A citizen complaint, with the fields the dashboard reads. */
  datatype Complaint = Complaint(
    id: string,
    title: string,
    description: string,
    location: string,
    department: string,
    status: Status,
    createdAt: string)

  /** The string a status is stored and selected as. */
  function StatusValue(s: Status): string {
    match s
    case Pending => "pending"
    case InProgress => "in-progress"
    case Resolved => "resolved"
  }
}
