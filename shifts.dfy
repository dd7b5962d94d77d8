/**
 * The three command handlers over the `shifts` table: logging a shift,
 * tallying every member's quota and resetting the log.
 */
module Shifts {
  import opened Wrappers
  import opened Config
  import opened Ranks
  import opened Clock
  import opened Records
  import opened Quota

  /** Why a shift was not logged. */
  datatype LogError = NotPermitted | RatingOutOfRange | InvalidTimeFormat

  /** What the tally reported. */
  datatype TallyOutcome =
    | TallyDenied             // caller below the supervisor ranks
    | GuildNotFound
    | NothingLogged           // no roster member holds a rank role
    | Posted(lines: seq<ReportLine>)

  /** The member a shift is logged for: the given user, else the caller. */
  function Target(caller: Member, user: Option<Member>): Member {
    if user.Some? then user.value else caller
  }

  /** An absent rating, or one from 0 to 10 inclusive. */
  predicate RatingInRange(rating: Option<int>) {
    rating.None? || 0 <= rating.value <= 10
  }

  /**
   * The decision of /logshift: the checks in their order (proxy permission,
   * rating, both times) and, when all pass, the row to insert.
   */
  function PrepareShift(
    caller: Member, user: Option<Member>, sessionHost: string,
    timeStarted: string, timeEnded: string, rank: nat,
    rating: Option<int>, notes: Option<string>,
    strptime: string -> Option<ClockTime>): (r: Result<ShiftRecord, LogError>)
    ensures r == Failure(NotPermitted) <==> user.Some? && !HasPermissionForOthers(caller.roles)
    ensures r == Failure(RatingOutOfRange) <==>
      (user.None? || HasPermissionForOthers(caller.roles)) && !RatingInRange(rating)
    ensures r == Failure(InvalidTimeFormat) <==>
      (user.None? || HasPermissionForOthers(caller.roles)) && RatingInRange(rating)
      && (ParseClock(timeStarted, strptime).None? || ParseClock(timeEnded, strptime).None?)
    ensures r.Success? ==>
      && r.value.userId == Target(caller, user).id
      && r.value.username == Target(caller, user).name
      && r.value.sessionHost == sessionHost
      && r.value.timeIn == timeStarted && r.value.timeOut == timeEnded
      && r.value.rankRoleId == rank
      && r.value.rating == rating && RatingInRange(r.value.rating)
      && r.value.notes == notes
      && ParseClock(timeStarted, strptime).Some? && ParseClock(timeEnded, strptime).Some?
      && r.value.duration ==
         ShiftDuration(ParseClock(timeStarted, strptime).value, ParseClock(timeEnded, strptime).value)
  {
    if user.Some? && !HasPermissionForOthers(caller.roles) then Failure(NotPermitted)
    else if !RatingInRange(rating) then Failure(RatingOutOfRange)
    else
      var start := ParseClock(timeStarted, strptime);
      var end := ParseClock(timeEnded, strptime);
      if start.None? || end.None? then Failure(InvalidTimeFormat)
      else
        var target := Target(caller, user);
        Success(ShiftRecord(target.id, target.name, sessionHost, timeStarted, timeEnded,
                            rank, ShiftDuration(start.value, end.value), rating, notes))
  }

  /**
   * With no user given the shift is the caller's own and the proxy-permission test never fires.
   * Naming oneself as the user is still a proxy request and still needs that permission.
   */
  lemma SelfLoggingNeedsNoPermission(
    caller: Member, sessionHost: string, timeStarted: string, timeEnded: string, rank: nat,
    rating: Option<int>, notes: Option<string>, strptime: string -> Option<ClockTime>)
    ensures PrepareShift(caller, None, sessionHost, timeStarted, timeEnded, rank, rating, notes, strptime)
      != Failure(NotPermitted)
  {
  }

  /** Naming yourself as the user without proxy permission is refused like any other proxy request. */
  lemma NamingSelfNeedsPermission(
    caller: Member, sessionHost: string, timeStarted: string, timeEnded: string, rank: nat,
    rating: Option<int>, notes: Option<string>, strptime: string -> Option<ClockTime>)
    requires !HasPermissionForOthers(caller.roles)
    ensures PrepareShift(caller, Some(caller), sessionHost, timeStarted, timeEnded, rank, rating, notes, strptime)
      == Failure(NotPermitted)
  {
  }

  /** A start or end time typed without AM or PM makes logging fail. */
  lemma MissingMeridiemRejected(
    caller: Member, user: Option<Member>, sessionHost: string,
    timeStarted: string, timeEnded: string, rank: nat,
    rating: Option<int>, notes: Option<string>, strptime: string -> Option<ClockTime>)
    requires (!Contains(Upper(Strip(timeStarted)), "AM") && !Contains(Upper(Strip(timeStarted)), "PM"))
          || (!Contains(Upper(Strip(timeEnded)), "AM") && !Contains(Upper(Strip(timeEnded)), "PM"))
    ensures PrepareShift(caller, user, sessionHost, timeStarted, timeEnded, rank, rating, notes, strptime).Failure?
  {
    if !Contains(Upper(Strip(timeStarted)), "AM") && !Contains(Upper(Strip(timeStarted)), "PM") {
      ParseClockNeedsMeridiem(timeStarted, strptime);
    } else {
      ParseClockNeedsMeridiem(timeEnded, strptime);
    }
  }

  /** The `shifts` table: the rows in insertion order. */
  class ShiftTable {
    var rows: seq<ShiftRecord>

    /** Opens the table with whatever rows it already holds. */
    constructor (existing: seq<ShiftRecord>)
      ensures rows == existing
    {
      rows := existing;
    }

    /** /logshift: reject without writing, or append exactly one row. */
    method LogShift(
      caller: Member, user: Option<Member>, sessionHost: string,
      timeStarted: string, timeEnded: string, rank: nat,
      rating: Option<int>, notes: Option<string>,
      strptime: string -> Option<ClockTime>) returns (outcome: Result<ShiftRecord, LogError>)
      modifies this
      ensures outcome == PrepareShift(caller, user, sessionHost, timeStarted, timeEnded,
                                      rank, rating, notes, strptime)
      ensures outcome.Failure? ==> rows == old(rows)
      ensures outcome.Success? ==> rows == old(rows) + [outcome.value]
    {
      var target := Target(caller, user);
      if user.Some? && !HasPermissionForOthers(caller.roles) {
        return Failure(NotPermitted);
      }
      if rating.Some? && (rating.value < 0 || rating.value > 10) {
        return Failure(RatingOutOfRange);
      }
      var start := ParseClock(timeStarted, strptime);
      var end := ParseClock(timeEnded, strptime);
      if start.None? || end.None? {
        return Failure(InvalidTimeFormat);
      }
      var duration := ShiftDuration(start.value, end.value);
      var row := ShiftRecord(target.id, target.name, sessionHost, timeStarted, timeEnded,
                             rank, duration, rating, notes);
      rows := rows + [row];
      outcome := Success(row);
    }

    /**
     * /countallquota: supervisors only; builds the report over the roster
     * and clears the table only when the report has at least one line.
     */
    method CountAllQuota(caller: Member, guild: Option<seq<Member>>) returns (outcome: TallyOutcome)
      modifies this
      ensures !CanManageQuota(caller.roles) ==> outcome == TallyDenied
      ensures CanManageQuota(caller.roles) && guild.None? ==> outcome == GuildNotFound
      ensures CanManageQuota(caller.roles) && guild.Some? ==>
        outcome == (if Report(guild.value, old(rows)) == [] then NothingLogged
                    else Posted(Report(guild.value, old(rows))))
      ensures outcome.Posted? <==>
        CanManageQuota(caller.roles) && guild.Some?
        && exists k :: 0 <= k < |guild.value| && HighestRank(guild.value[k].roles).Some?
      ensures rows == if outcome.Posted? then [] else old(rows)
    {
      if !CanManageQuota(caller.roles) {
        return TallyDenied;
      }
      if guild.None? {
        return GuildNotFound;
      }
      ReportEmptyIff(guild.value, rows);
      var lines, userFound := EvaluateRoster(guild.value, rows);
      if !userFound {
        return NothingLogged;
      }
      rows := [];
      outcome := Posted(lines);
    }

    /** /resetquota: supervisors only; clears the whole table. */
    method ResetQuota(caller: Member) returns (cleared: bool)
      modifies this
      ensures cleared == CanManageQuota(caller.roles)
      ensures rows == if cleared then [] else old(rows)
    {
      if !CanManageQuota(caller.roles) {
        return false;
      }
      rows := [];
      cleared := true;
    }
  }

  /** A logged shift is counted in the next tally for its target and for nobody else. */
  lemma LoggedShiftIsCounted(rows: seq<ShiftRecord>, row: ShiftRecord, m: Member)
    requires HighestRank(m.roles).Some?
    ensures LineFor(m, rows + [row]).value.total ==
      LineFor(m, rows).value.total + (if row.userId == m.id then row.duration else 0)
  {
    AppendRowTotal(rows, row, m.id);
  }
}
