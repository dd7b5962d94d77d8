/** The entities the handlers work on: guild members and rows of the shift table. */
module Records {
  import opened Wrappers

  /** A guild member: their ID, their display name and the IDs of the roles they hold. */
  datatype Member = Member(id: nat, name: string, roles: set<nat>)

  /**
   * One row of the `shifts` table. The user ID is kept as the member's number
   * (the table stores its decimal text); the duration is in whole minutes.
   */
  datatype ShiftRecord = ShiftRecord(
    userId: nat,
    username: string,
    sessionHost: string,
    timeIn: string,
    timeOut: string,
    rankRoleId: nat,
    duration: nat,
    rating: Option<int>,
    notes: Option<string>)
}
