# Shift logger and quota tally, modelled in Dafny

This project models the rules of a Discord bot through which members of a
role-play state-police organisation log their patrol shifts and supervisors
tally a two-week activity quota. The Discord and SQLite layers are left out.
What remains is:

- **Rank resolution and authorisation.** A member is the set of role IDs they
  hold. Their rank is the first rank of the ordered rank list whose role they
  hold. The top four ranks may log shifts for others. The top six may tally
  and reset the quota.
- **Shift logging** (`/logshift`). The checks run in this order: proxy
  permission, a rating within 0..10, then both clock times (normalisation,
  then the `%I:%M %p` parse). The duration is end minus start, plus a day if
  that is negative. A rejected call writes nothing. An accepted call appends
  exactly one row, for the given user or else the caller.
- **Quota tally** (`/countallquota`). The tally walks the roster and skips
  members who hold no rank role. For each other member it sums their logged
  minutes and picks a status, first match wins:
  1. leave of absence;
  2. exempt rank;
  3. quota comparison, with the threshold halved under the reduced-quota
     role (ROA) and a separate marker when ROA is met;
  4. otherwise not met.

  It clears the table only when the report has at least one line.
- **Reset** (`/resetquota`). Clears the table once the caller is authorised.

Modules:

- `Wrappers` holds `Option` and `Result`.
- `Config` holds the role-ID table, rank order, quotas and exempt ranks.
- `Ranks` covers rank resolution and authorisation.
- `Clock` covers `normalize_time`, clock times and shift duration.
- `Records` holds members and table rows.
- `Quota` covers classification, per-user totals and the report.
- `Shifts` holds the handlers. The table is the class `ShiftTable`, whose
  `rows: seq<ShiftRecord>` field the handlers append to and clear.

Modelling choices:

- Durations and quotas are whole minutes. The source's 2.0, 1.5 and 1.0 hours
  are 120, 90 and 60 minutes. Every quota is even, so the ROA half is exact.
- A parsed time is a `ClockTime(hour 1..12, minute 0..59, AM/PM)`. Python's
  `datetime.strptime` is foreign code, so it is a parameter
  `strptime: string -> Option<ClockTime>`. The model applies it to the
  normalised text, and `None` stands for its exception.
- The table stores `str(member.id)` as the user ID. The model stores the
  number itself. `str` is injective on integers, so the per-user grouping is
  unchanged.
- The roster (`guild.members`) and the guild lookup are inputs:
  `Option<seq<Member>>`, where `None` means the guild was not found.
- The report is a sequence of `ReportLine(member, rank, minutes, status)`.
  Status is an enumeration. The emoji, mentions and message text are
  presentation only.

Behaviour of main.py worth noting:

- A member counts as "found" when they hold any rank role, even if they
  logged nothing. So the table is cleared whenever some roster member holds a
  rank, even if the table held no rows for them (or none at all).
- "No quota has been logged" is reported only when no roster member holds a
  rank role.
- Ratings run from 0 to 10 inclusive.
- Proxy logging needs one of the top 4 ranks; tally and reset need one of the
  top 6.

`Quota.RankedMemberIsEvaluated` shows that every rank role is either exempt
or has a quota. So the fail-closed "not met" branch of the tally (main.py:292-293)
is never taken for a ranked member.

## Model

| member | source | states |
|---|---|---|
| `Config.RoleIdInjective` | main.py:28-42 | distinct role names have distinct role IDs |
| `Config.EveryRankClassified` | main.py:59-76 | each rank is either exempt or has a quota, never both; ROA and LOA are neither |
| `Config.QuotasHalveExactly` | main.py:59-68 | every quota is an even number of minutes, so the ROA half loses nothing |
| `Ranks.FirstHeld` | main.py:114-120 | the result is an index whose rank the member holds, and no earlier rank is held; None means no rank in the list is held |
| `Ranks.HighestRank` | main.py:114-120 | the returned role is the role ID of the first rank in the rank order that the member holds (so it is a held rank role, and no higher rank is held); None exactly when no rank role is held |
| `Ranks.GetHighestRankRoleId` | main.py:114-120 | the early-return scan over the rank order returns the highest rank (HighestRank), which is one of the rank roles |
| `Ranks.HeldRanks` | main.py:266-267 | the tally's list of held ranks contains only roles the member holds, no more entries than there are ranks |
| `Ranks.HeldRanksStartWithFirstHeld` | main.py:267-271 | the list of held ranks is empty iff no rank is held, and otherwise begins with the first held rank |
| `Ranks.HeldRanksAgreeWithHighest` | main.py:267-271 | the tally's main rank (`member_ranks[0]`) is the rank that get_highest_rank_role_id returns, and a member is skipped exactly when that is None |
| `Ranks.TopRankByHighest` | main.py:122-127 | holding a role among the top n ranks is equivalent to some i < n being held, and to the highest rank's index being below n |
| `Ranks.HasPermissionForOthers` | main.py:122-127 | has_permission_for_others: true iff the member holds the role of one of the first four ranks (its highest-rank form is in PermissionForOthersIff) |
| `Ranks.CanManageQuota` | main.py:230-232 | the tally/reset authorisation test (repeated at main.py:316-318): true iff the member holds the role of one of the first six ranks |
| `Ranks.PermissionForOthersIff` | main.py:122-127 | proxy permission holds iff the member's highest rank is one of the first four of the rank order |
| `Ranks.CanManageQuotaIff` | main.py:230-233 | tally/reset permission holds iff one of the first six ranks is held, i.e. the highest rank is among them |
| `Ranks.ProxyImpliesSupervisor` | main.py:122-127 | whoever may log for others may also tally and reset |
| `Clock.Strip` | main.py:109 | str.strip(): the result is the input with a whitespace prefix and a whitespace suffix removed, and it neither starts nor ends with whitespace |
| `Clock.Contains` | main.py:110 | Python's `in` on strings: true iff the pattern occurs at some position of the string |
| `Clock.Replace` | main.py:109 | str.replace: a pattern that does not occur leaves the string unchanged (ReplaceKeeps gives the other direction used by normalize_time) |
| `Clock.TrimStart` | main.py:109 | the result is a suffix of the input, everything dropped is whitespace, and it does not start with whitespace |
| `Clock.TrimEnd` | main.py:109 | the result is a prefix of the input, everything dropped is whitespace, and it does not end with whitespace |
| `Clock.UpperChar` | main.py:109 | the result is never a lower-case ASCII letter; a lower-case letter becomes the upper-case letter at the same alphabet position; any other character is kept |
| `Clock.Upper` | main.py:109 | same length; no lower-case ASCII letter is left; every character that is not a lower-case letter is kept |
| `Clock.UpperMeridiemAt` | main.py:109 | `.upper()` turns a lower-case "am" or "pm" into an "AM" or "PM" that `in` finds |
| `Clock.LowerCaseMeridiemAccepted` | main.py:108-112 | a time whose trimmed text contains "am" or "pm" in lower case is accepted by normalize_time, which is what the upper-casing is for |
| `Clock.ReplaceKeeps` | main.py:109 | replacing a present pattern by a string containing it keeps the pattern present |
| `Clock.NormalizeTime` | main.py:108-112 | on success the normalised text contains "AM" or "PM" |
| `Clock.NormalizeTimeFailsIff` | main.py:108-112 | normalize_time fails exactly when the stripped, upper-cased input contains neither "AM" nor "PM" |
| `Clock.MinutesOfDay` | main.py:183-185 | a 12-hour time maps into [0, 1440) at hour `hour % 12`, plus 12 for PM (12 AM is hour 0, 12 PM hour 12, 1 PM hour 13); its minute is preserved and AM times fall before noon |
| `Clock.FirstHourAfterMidnight` | main.py:183-188 | 12:mm AM to 1:mm AM lasts 60 minutes, because 12 AM is the start of the day |
| `Clock.MinutesOfDayInjective` | main.py:183-185 | two clock times with the same minute of the day are the same time |
| `Clock.ParseClock` | main.py:182-185 | a time parses only if normalisation succeeds; whenever normalisation succeeds the result is exactly what strptime makes of the normalised text, so it is accepted whenever strptime returns a time |
| `Clock.ParseClockNeedsMeridiem` | main.py:182-191 | a time typed without AM or PM is rejected whatever strptime does |
| `Clock.ShiftDuration` | main.py:186-188 | the duration lies in [0, 24 h) and the start plus the duration reaches the end modulo a day |
| `Clock.DurationZeroIff` | main.py:186-188 | the duration is 0 exactly when start and end are the same time |
| `Clock.DurationIsModular` | main.py:186-188 | the +24 h wrap equals (end - start) modulo 24 hours |
| `Clock.OvernightShift` | main.py:186-188 | 11:30 PM to 1:00 AM lasts 90 minutes |
| `Quota.Classify` | main.py:279-293 | on leave iff the member holds LOA; exempt iff no LOA and the rank is exempt; met (plain or ROA) iff no LOA, not exempt, a quota exists and the minutes reach it, halved under ROA; so every other case, including a missed quota and a rank with no quota, is not met; the plain mark never goes to an ROA holder and the ROA mark only to one |
| `Quota.ClassifyMonotone` | main.py:286-291 | more logged minutes never turn a met status into another |
| `Quota.ReducedQuotaAtHalf` | main.py:286-291 | under ROA exactly half the quota gives the ROA-met marker, and one minute less is not met |
| `Quota.RankedMemberIsEvaluated` | main.py:282-293 | for a ranked member without LOA, the status is exempt iff the rank is exempt, and otherwise the rank has a quota |
| `Quota.TotalMinutes` | main.py:237-244 | the per-user SUM(duration): 0 for a user with no rows (the `.get(uid, (0, ...))` default of main.py:273) and at least each of the user's row durations; AppendRowTotal gives how one appended row changes it |
| `Quota.Required` | main.py:287-289 | the required minutes are the rank's quota, or exactly half of it (twice the result is the quota) under ROA |
| `Quota.AppendRowTotal` | main.py:237-244 | appending a row adds its minutes to its own user's total and to no other |
| `Quota.LineFor` | main.py:265-297 | a member gets a line iff they hold a rank role; the line carries their ID, their highest rank, their total minutes and the classification of those |
| `Quota.LineForByHeldRanks` | main.py:266-291 | the line built from `member_ranks[0]` as the loop does equals LineFor |
| `Quota.Report` | main.py:265-298 | no more lines than roster members; ReportSnoc and ReportCoversRankedMembers give the order and the contents |
| `Quota.ReportSnoc` | main.py:265-298 | the lines for one more roster member are the earlier lines followed by that member's line, if any, so lines follow roster order |
| `Quota.ReportEmptyIff` | main.py:263-302 | the report is non-empty iff some roster member holds a rank role |
| `Quota.ReportCoversRankedMembers` | main.py:265-298 | every ranked member's line is in the report, and every line in it is some ranked member's line |
| `Quota.EvaluateRoster` | main.py:263-298 | the loop over the roster produces exactly the report, and `user_found` is set iff the report is non-empty |
| `Quota.TrooperExample` | main.py:286-291 | a Trooper with 45 + 80 minutes meets the 2 h quota; with 45 minutes alone they do not |
| `Shifts.PrepareShift` | main.py:170-203 | rejected for proxy logging without permission; otherwise for a rating outside 0..10; otherwise for an unparsable time; else a row for the target (the given user, else the caller) with every field as given and the wrapped duration |
| `Shifts.SelfLoggingNeedsNoPermission` | main.py:170-175 | with no `user` given, logging is never refused for lack of proxy permission |
| `Shifts.NamingSelfNeedsPermission` | main.py:173-175 | naming oneself as `user` is still a proxy request: without a top-four rank it is refused |
| `Shifts.MissingMeridiemRejected` | main.py:182-191 | a start or an end time without AM or PM makes logging fail |
| `Shifts.ShiftTable.constructor` | main.py:85-103 | the table opens with the rows it already holds |
| `Shifts.ShiftTable.LogShift` | main.py:160-204 | the handler's outcome is PrepareShift's; a rejection leaves the rows unchanged, and a success appends exactly that one row after the existing ones |
| `Shifts.ShiftTable.CountAllQuota` | main.py:227-308 | an unauthorised caller or a missing guild changes nothing; otherwise the report over the roster is posted and the table emptied iff some roster member holds a rank role, else "nothing logged" with the table unchanged |
| `Shifts.ShiftTable.ResetQuota` | main.py:313-325 | the table is emptied iff the caller holds one of the top six ranks, and is unchanged otherwise |
| `Shifts.LoggedShiftIsCounted` | main.py:237-273 | after a row is appended, a ranked member's tally total grows by its minutes if it is theirs and is unchanged otherwise |

## Left out

- The keep-alive Flask server and its thread (main.py:11-20): web I/O and concurrency.
- The self-ping `background_task` loop (main.py:135-144): network I/O on a timer.
- Environment variables, intents, command registration and `tree.sync` (main.py:22-25, 78-83, 129-133): platform set-up.
- Embeds, confirmation messages and the report text (main.py:206-222, 251-261, 275-277, 295-297, 301, 308): presentation. A status enumeration replaces the emoji.
- SQLite itself: the connection, SQL text, commits and `ROWID` order. The table is a sequence of rows in insertion order. The "latest rank" subquery (main.py:237-244) is not modelled, because classification uses the live roster rank and never reads it.
- Shifts.PrepareShift: stores the exact duration in whole minutes, not `round(duration, 2)` hours. Sums of rounded hours can differ from the minute totals. For example, six 20-minute shifts are 6 × 0.33 = 1.98 h in the source, which is short of a 2.0 h quota, but 120 minutes in the model, which meets it. Float summation error is not modelled either.
- Clock.ParseClock: `datetime.strptime` is a parameter and its parsing rules are not modelled. Only the shape of its result is: an hour 1..12, a minute 0..59 and AM/PM.
- Clock.TrimStart: strips ASCII whitespace only; the other Unicode whitespace that `str.strip()` removes is not modelled.
- Clock.TrimEnd: the same ASCII-only restriction as TrimStart.
- Clock.Upper: upper-cases ASCII letters only; Unicode case mapping (including mappings that change length) is not modelled.
- Shifts.ShiftTable.LogShift: the rank choice is taken as a plain role ID. The Discord dispatcher limits it to the listed ranks, and the handler does not check it.
- Database failures and Discord exceptions are not modelled; the handlers are assumed to run one at a time.
- Shifts.ShiftTable.CountAllQuota: the tally commits `DELETE FROM shifts` (main.py:305-306) before it sends the report (main.py:308). If that send fails, for example because the report exceeds Discord's message-length limit, the table is already cleared and nothing was posted. The model's `Posted` outcome assumes the send succeeds, so this case is not represented.
