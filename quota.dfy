/**
 * The quota tally: per-member status classification, the per-user sum of
 * logged minutes and the report over the whole roster.
 */
module Quota {
  import opened Wrappers
  import opened Config
  import opened Ranks
  import opened Records

  /** The status a report line carries (the emoji of the message). */
  datatype Status = OnLeave | Exempted | QuotaMet | ReducedQuotaMet | QuotaNotMet

  /** The minutes a rank with a quota must log: half of it with the reduced-quota role. */
  function Required(rank: nat, reduced: bool): (r: nat)
    requires rank in Quotas
    ensures reduced ==> 2 * r == Quotas[rank]
    ensures !reduced ==> r == Quotas[rank]
  {
    QuotasHalveExactly();
    if reduced then Quotas[rank] / 2 else Quotas[rank]
  }

  /**
   * First match wins: leave of absence, then exemption, then the quota
   * comparison; a rank with neither an exemption nor a quota fails.
   */
  function Classify(roles: set<nat>, rank: nat, total: nat): (r: Status)
    ensures r == OnLeave <==> RoleId(LOA) in roles
    ensures r == Exempted <==> RoleId(LOA) !in roles && rank in Exempt
    ensures RoleId(LOA) !in roles && rank !in Exempt && rank !in Quotas ==> r == QuotaNotMet
    ensures r == QuotaMet ==> RoleId(ROA) !in roles
    ensures r == ReducedQuotaMet ==> RoleId(ROA) in roles
    ensures r in {QuotaMet, ReducedQuotaMet} <==>
      RoleId(LOA) !in roles && rank !in Exempt && rank in Quotas
      && (if RoleId(ROA) in roles then 2 * total >= Quotas[rank] else total >= Quotas[rank])
  {
    var hasLoa := RoleId(LOA) in roles;
    var hasRoa := RoleId(ROA) in roles;
    if hasLoa then OnLeave
    else if rank in Exempt then Exempted
    else if rank in Quotas then
      var passed := total >= Required(rank, hasRoa);
      if passed && hasRoa then ReducedQuotaMet else if passed then QuotaMet else QuotaNotMet
    else QuotaNotMet
  }

  /** More logged minutes never turn a met quota into a failed one. */
  lemma ClassifyMonotone(roles: set<nat>, rank: nat, total: nat, more: nat)
    requires total <= more
    requires Classify(roles, rank, total) in {QuotaMet, ReducedQuotaMet}
    ensures Classify(roles, rank, more) == Classify(roles, rank, total)
  {
  }

  /** With the reduced-quota role, exactly half the quota is enough, and one minute less is not. */
  lemma ReducedQuotaAtHalf(roles: set<nat>, rank: nat)
    requires RoleId(LOA) !in roles && RoleId(ROA) in roles
    requires rank in Quotas
    ensures Classify(roles, rank, Quotas[rank] / 2) == ReducedQuotaMet
    ensures Classify(roles, rank, Quotas[rank] / 2 - 1) == QuotaNotMet
  {
    QuotasHalveExactly();
  }

  /** A ranked member never falls through to the fail-closed branch. */
  lemma RankedMemberIsEvaluated(roles: set<nat>, rank: nat, total: nat)
    requires RoleId(LOA) !in roles
    requires exists i :: 0 <= i < |RankOrder| && rank == RoleId(RankOrder[i])
    ensures Classify(roles, rank, total) == Exempted <==> rank in Exempt
    ensures Classify(roles, rank, total) != Exempted ==> rank in Quotas
  {
    EveryRankClassified();
  }

  /**
   * Sum of the minutes logged under one user ID: 0 when the user has no
   * rows, and at least the duration of each of their rows.
   */
  function TotalMinutes(rows: seq<ShiftRecord>, uid: nat): (r: nat)
    ensures (forall k :: 0 <= k < |rows| ==> rows[k].userId != uid) ==> r == 0
    ensures forall k :: 0 <= k < |rows| && rows[k].userId == uid ==> r >= rows[k].duration
    decreases |rows|
  {
    if rows == [] then 0
    else
      var last := rows[|rows| - 1];
      TotalMinutes(rows[..|rows| - 1], uid) + (if last.userId == uid then last.duration else 0)
  }

  /** Appending a row adds its minutes to its own user's total and to no other. */
  lemma AppendRowTotal(rows: seq<ShiftRecord>, row: ShiftRecord, uid: nat)
    ensures TotalMinutes(rows + [row], uid) ==
      TotalMinutes(rows, uid) + (if row.userId == uid then row.duration else 0)
  {
    assert (rows + [row])[..|rows|] == rows;
  }

  /** One line of the report: member, main rank, minutes logged and status. */
  datatype ReportLine = ReportLine(member: nat, rank: nat, total: nat, status: Status)

  /** The line for one member, or None when they hold no rank role. */
  function LineFor(m: Member, rows: seq<ShiftRecord>): (r: Option<ReportLine>)
    ensures r.None? <==> HighestRank(m.roles).None?
    ensures r.Some? ==>
      && r.value.member == m.id
      && Some(r.value.rank) == HighestRank(m.roles)
      && r.value.total == TotalMinutes(rows, m.id)
      && r.value.status == Classify(m.roles, r.value.rank, r.value.total)
  {
    match HighestRank(m.roles)
    case None => None
    case Some(main) =>
      var total := TotalMinutes(rows, m.id);
      Some(ReportLine(m.id, main, total, Classify(m.roles, main, total)))
  }

  /** The defined results of `f` over `xs`, in order. */
  function Collect<X, L>(xs: seq<X>, f: X -> Option<L>): (r: seq<L>)
    ensures |r| <= |xs|
    decreases |xs|
  {
    if xs == [] then []
    else Collect(xs[..|xs| - 1], f) + (match f(xs[|xs| - 1]) case None => [] case Some(l) => [l])
  }

  lemma {:induction false} CollectEmptyIff<X, L>(xs: seq<X>, f: X -> Option<L>)
    ensures Collect(xs, f) != [] <==> exists k :: 0 <= k < |xs| && f(xs[k]).Some?
    decreases |xs|
  {
    if xs != [] {
      var init := xs[..|xs| - 1];
      CollectEmptyIff(init, f);
      if exists k :: 0 <= k < |init| && f(init[k]).Some? {
        var k :| 0 <= k < |init| && f(init[k]).Some?;
        assert xs[k] == init[k];
      }
      if exists k :: 0 <= k < |xs| && f(xs[k]).Some? {
        var k :| 0 <= k < |xs| && f(xs[k]).Some?;
        if k < |init| {
          assert init[k] == xs[k];
        }
      }
    }
  }

  lemma {:induction false} CollectMembers<X, L>(xs: seq<X>, f: X -> Option<L>)
    ensures forall k :: 0 <= k < |xs| && f(xs[k]).Some? ==> f(xs[k]).value in Collect(xs, f)
    ensures forall l :: l in Collect(xs, f) ==> exists k :: 0 <= k < |xs| && f(xs[k]) == Some(l)
    decreases |xs|
  {
    if xs != [] {
      var init := xs[..|xs| - 1];
      CollectMembers(init, f);
      forall k | 0 <= k < |xs| && f(xs[k]).Some?
        ensures f(xs[k]).value in Collect(xs, f)
      {
        if k < |init| {
          assert xs[k] == init[k];
        }
      }
      forall l | l in Collect(xs, f)
        ensures exists k :: 0 <= k < |xs| && f(xs[k]) == Some(l)
      {
        if l in Collect(init, f) {
          var k :| 0 <= k < |init| && f(init[k]) == Some(l);
          assert xs[k] == init[k];
        } else {
          assert f(xs[|xs| - 1]) == Some(l);
        }
      }
    }
  }

  /** The line as the tally loop builds it, from the list of held ranks. */
  lemma LineForByHeldRanks(m: Member, rows: seq<ShiftRecord>)
    ensures LineFor(m, rows) ==
      var held := HeldRanks(RankOrder, m.roles);
      if held == [] then None
      else Some(ReportLine(m.id, held[0], TotalMinutes(rows, m.id),
                           Classify(m.roles, held[0], TotalMinutes(rows, m.id))))
  {
    HeldRanksAgreeWithHighest(m.roles);
  }

  /** The report lines for a roster, in roster order. */
  function Report(roster: seq<Member>, rows: seq<ShiftRecord>): (r: seq<ReportLine>)
    ensures |r| <= |roster|
  {
    Collect(roster, m => LineFor(m, rows))
  }

  /** The report is empty iff no roster member holds a rank role. */
  lemma ReportEmptyIff(roster: seq<Member>, rows: seq<ShiftRecord>)
    ensures Report(roster, rows) != [] <==>
      exists k :: 0 <= k < |roster| && HighestRank(roster[k].roles).Some?
  {
    CollectEmptyIff(roster, m => LineFor(m, rows));
  }

  /** Every ranked roster member has their line in the report, and every line belongs to a ranked member. */
  lemma ReportCoversRankedMembers(roster: seq<Member>, rows: seq<ShiftRecord>)
    ensures forall k :: 0 <= k < |roster| && LineFor(roster[k], rows).Some? ==>
      LineFor(roster[k], rows).value in Report(roster, rows)
    ensures forall l :: l in Report(roster, rows) ==>
      exists k :: 0 <= k < |roster| && LineFor(roster[k], rows) == Some(l)
  {
    CollectMembers(roster, m => LineFor(m, rows));
  }

  lemma ReportSnoc(roster: seq<Member>, i: nat, rows: seq<ShiftRecord>)
    requires i < |roster|
    ensures Report(roster[..i + 1], rows) ==
      Report(roster[..i], rows) + (match LineFor(roster[i], rows) case None => [] case Some(l) => [l])
  {
    assert roster[..i + 1][..i] == roster[..i];
  }

  /** The tally loop: walk the roster, skip unranked members and add one line per ranked member. */
  method EvaluateRoster(roster: seq<Member>, rows: seq<ShiftRecord>)
    returns (lines: seq<ReportLine>, userFound: bool)
    ensures lines == Report(roster, rows)
    ensures userFound <==> lines != []
  {
    lines, userFound := [], false;
    for i := 0 to |roster|
      invariant lines == Report(roster[..i], rows)
      invariant userFound <==> lines != []
    {
      ReportSnoc(roster, i, rows);
      var member := roster[i];
      var memberRanks := HeldRanks(RankOrder, member.roles);
      LineForByHeldRanks(member, rows);
      if memberRanks == [] {
        continue;
      }
      var mainRank := memberRanks[0];
      var total := TotalMinutes(rows, member.id);
      var status := Classify(member.roles, mainRank, total);
      lines := lines + [ReportLine(member.id, mainRank, total, status)];
      userFound := true;
    }
    assert roster[..|roster|] == roster;
  }

  /** A Trooper with shifts of 45 and 80 minutes meets the two-hour quota; with 45 alone they do not. */
  lemma TrooperExample(roles: set<nat>)
    requires RoleId(LOA) !in roles && RoleId(ROA) !in roles
    ensures Classify(roles, RoleId(Trooper), 45 + 80) == QuotaMet
    ensures Classify(roles, RoleId(Trooper), 45) == QuotaNotMet
  {
  }
}
