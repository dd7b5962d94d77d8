/**
 * Rank resolution and authorisation. A member is represented by the set of
 * role IDs they hold.
 */
module Ranks {
  import opened Wrappers
  import opened Config

  /**
   * Index of the first rank in `order` whose role the member holds: the
   * result is held and no earlier rank is held; None means no rank is held.
   */
  function FirstHeld(order: seq<RoleName>, roles: set<nat>): (r: Option<nat>)
    ensures r.Some? ==> r.value < |order| && RoleId(order[r.value]) in roles
    ensures forall i :: 0 <= i < |order| && (r.None? || i < r.value) ==> RoleId(order[i]) !in roles
    decreases |order|
  {
    if order == [] then None
    else if RoleId(order[0]) in roles then Some(0)
    else
      match FirstHeld(order[1..], roles)
      case None => None
      case Some(j) => Some(j + 1)
  }

  /** The role ID of the member's highest rank, if they hold any rank role. */
  function HighestRank(roles: set<nat>): (r: Option<nat>)
    ensures r.Some? ==> r.value in roles
    ensures r.None? <==> forall i :: 0 <= i < |RankOrder| ==> RoleId(RankOrder[i]) !in roles
    ensures r.Some? ==>
      (FirstHeld(RankOrder, roles).Some? && r.value == RoleId(RankOrder[FirstHeld(RankOrder, roles).value]))
  {
    match FirstHeld(RankOrder, roles)
    case None => None
    case Some(j) => Some(RoleId(RankOrder[j]))
  }

  /** The search loop: scan the ranks from the top and return the first one held. */
  method GetHighestRankRoleId(roles: set<nat>) returns (r: Option<nat>)
    ensures r == HighestRank(roles)
    ensures r.Some? ==> exists j :: 0 <= j < |RankOrder| && r.value == RoleId(RankOrder[j])
  {
    for i := 0 to |RankOrder|
      invariant forall k :: 0 <= k < i ==> RoleId(RankOrder[k]) !in roles
    {
      var rid := RoleId(RankOrder[i]);
      if rid in roles {
        return Some(rid);
      }
    }
    return None;
  }

  /** The role IDs of the ranks in `order` that the member holds, in rank order. */
  function HeldRanks(order: seq<RoleName>, roles: set<nat>): (r: seq<nat>)
    ensures forall x :: x in r ==> x in roles
    ensures |r| <= |order|
    decreases |order|
  {
    if order == [] then []
    else (if RoleId(order[0]) in roles then [RoleId(order[0])] else []) + HeldRanks(order[1..], roles)
  }

  /** The list of held ranks is empty iff no rank is held, and otherwise starts with the highest rank. */
  lemma {:induction false} HeldRanksStartWithFirstHeld(order: seq<RoleName>, roles: set<nat>)
    ensures HeldRanks(order, roles) == [] <==> FirstHeld(order, roles).None?
    ensures FirstHeld(order, roles).Some? ==>
      HeldRanks(order, roles)[0] == RoleId(order[FirstHeld(order, roles).value])
    decreases |order|
  {
    if order != [] && RoleId(order[0]) !in roles {
      HeldRanksStartWithFirstHeld(order[1..], roles);
    }
  }

  /** The members' ranks as the tally computes them agree with HighestRank. */
  lemma HeldRanksAgreeWithHighest(roles: set<nat>)
    ensures HeldRanks(RankOrder, roles) == [] <==> HighestRank(roles).None?
    ensures HighestRank(roles).Some? ==> HeldRanks(RankOrder, roles)[0] == HighestRank(roles).value
  {
    HeldRanksStartWithFirstHeld(RankOrder, roles);
  }

  /** The role IDs of the top `n` ranks. */
  function TopRankIds(n: nat): set<nat>
    requires n <= |RankOrder|
  {
    set r | r in RankOrder[..n] :: RoleId(r)
  }

  /** Whether the member holds a role of one of the top `n` ranks. */
  predicate HoldsTopRank(roles: set<nat>, n: nat)
    requires n <= |RankOrder|
  {
    roles * TopRankIds(n) != {}
  }

  /** Proxy logging is allowed to the top four ranks (Lieutenant Colonel and above). */
  predicate HasPermissionForOthers(roles: set<nat>)
    ensures HasPermissionForOthers(roles) <==>
      exists i :: 0 <= i < ProxyRanks && RoleId(RankOrder[i]) in roles
  {
    TopRankByHighest(roles, ProxyRanks);
    HoldsTopRank(roles, ProxyRanks)
  }

  /** Tally and reset are allowed to the top six ranks (Captain and above). */
  predicate CanManageQuota(roles: set<nat>)
    ensures CanManageQuota(roles) <==>
      exists i :: 0 <= i < SupervisorRanks && RoleId(RankOrder[i]) in roles
  {
    TopRankByHighest(roles, SupervisorRanks);
    HoldsTopRank(roles, SupervisorRanks)
  }

  /** Holding a top-`n` role is the same as having a highest rank among the top `n`. */
  lemma TopRankByHighest(roles: set<nat>, n: nat)
    requires n <= |RankOrder|
    ensures HoldsTopRank(roles, n) <==> exists i :: 0 <= i < n && RoleId(RankOrder[i]) in roles
    ensures HoldsTopRank(roles, n) <==>
      FirstHeld(RankOrder, roles).Some? && FirstHeld(RankOrder, roles).value < n
  {
    if exists i :: 0 <= i < n && RoleId(RankOrder[i]) in roles {
      var i :| 0 <= i < n && RoleId(RankOrder[i]) in roles;
      assert RankOrder[i] in RankOrder[..n];
      assert RoleId(RankOrder[i]) in roles * TopRankIds(n);
    }
    if HoldsTopRank(roles, n) {
      var rid :| rid in roles * TopRankIds(n);
      var r :| r in RankOrder[..n] && RoleId(r) == rid;
      var i :| 0 <= i < n && RankOrder[..n][i] == r;
      assert RoleId(RankOrder[i]) in roles;
    }
  }

  /** Proxy permission: the member's highest rank is one of the first four. */
  lemma PermissionForOthersIff(roles: set<nat>)
    ensures HasPermissionForOthers(roles) <==>
      exists i :: 0 <= i < ProxyRanks && HighestRank(roles) == Some(RoleId(RankOrder[i]))
  {
    TopRankByHighest(roles, ProxyRanks);
    if HasPermissionForOthers(roles) {
      var j := FirstHeld(RankOrder, roles).value;
      assert HighestRank(roles) == Some(RoleId(RankOrder[j]));
    }
    if exists i :: 0 <= i < ProxyRanks && HighestRank(roles) == Some(RoleId(RankOrder[i])) {
      var i :| 0 <= i < ProxyRanks && HighestRank(roles) == Some(RoleId(RankOrder[i]));
      assert RoleId(RankOrder[i]) in roles;
    }
  }

  /** Supervisor permission: the member holds one of the first six ranks. */
  lemma CanManageQuotaIff(roles: set<nat>)
    ensures CanManageQuota(roles) <==> exists i :: 0 <= i < SupervisorRanks && RoleId(RankOrder[i]) in roles
    ensures CanManageQuota(roles) <==>
      FirstHeld(RankOrder, roles).Some? && FirstHeld(RankOrder, roles).value < SupervisorRanks
  {
    TopRankByHighest(roles, SupervisorRanks);
  }

  /** Anyone who may log for others may also tally and reset. */
  lemma ProxyImpliesSupervisor(roles: set<nat>)
    ensures HasPermissionForOthers(roles) ==> CanManageQuota(roles)
  {
    TopRankByHighest(roles, ProxyRanks);
    TopRankByHighest(roles, SupervisorRanks);
  }
}
