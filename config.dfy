/**
 * Static configuration of the bot: the Discord role IDs of every rank and of
 * the two status roles, the rank order from highest to lowest, the quota per
 * rank (in minutes per evaluation period) and the exempt ranks.
 */
module Config {

  /** The keys of the role-ID table. */
  datatype RoleName =
    | Superintendent
    | DeputySuperintendent
    | Colonel
    | LieutenantColonel
    | Major
    | Captain
    | Lieutenant
    | Sergeant
    | Corporal
    | MasterTrooper
    | Trooper
    | ROA   // reduced quota
    | LOA   // leave of absence

  /** The role-ID table. */
  function RoleId(name: RoleName): nat {
    match name
    case Superintendent => 1393070510040154196
    case DeputySuperintendent => 1393344391522943206
    case Colonel => 1393070827934580786
    case LieutenantColonel => 1393357571892445206
    case Major => 1393071057279258806
    case Captain => 1393070960206413824
    case Lieutenant => 1393071005022425090
    case Sergeant => 1393071092746158110
    case Corporal => 1393071122836095078
    case MasterTrooper => 1393071163617579038
    case Trooper => 1393071210908221543
    case ROA => 1394775443634131074
    case LOA => 1393373147545341992
  }

  /** Ranks from highest to lowest authority. */
  const RankOrder: seq<RoleName> := [
    Superintendent, DeputySuperintendent, Colonel, LieutenantColonel, Major,
    Captain, Lieutenant, Sergeant, Corporal, MasterTrooper, Trooper
  ]

  /** The number of top ranks that may log shifts for other members. */
  const ProxyRanks: nat := 4

  /** The number of top ranks that may tally and reset the quota. */
  const SupervisorRanks: nat := 6

  /** Quota per rank role ID, in minutes (2.0 h, 1.5 h and 1.0 h). */
  const Quotas: map<nat, nat> := map[
    RoleId(Trooper) := 120,
    RoleId(MasterTrooper) := 120,
    RoleId(Corporal) := 120,
    RoleId(Sergeant) := 90,
    RoleId(Lieutenant) := 90,
    RoleId(Captain) := 60,
    RoleId(Major) := 60
  ]

  /** Role IDs of the ranks excused from the quota. */
  const Exempt: set<nat> := {
    RoleId(LieutenantColonel), RoleId(Colonel),
    RoleId(DeputySuperintendent), RoleId(Superintendent)
  }

  /** Distinct names have distinct role IDs. */
  lemma RoleIdInjective(a: RoleName, b: RoleName)
    ensures RoleId(a) == RoleId(b) ==> a == b
  {
  }

  /** Every rank is either exempt or has a quota, never both; the status roles are neither. */
  lemma EveryRankClassified()
    ensures forall i :: 0 <= i < |RankOrder| ==>
      (RoleId(RankOrder[i]) in Exempt <==> RoleId(RankOrder[i]) !in Quotas)
    ensures RoleId(ROA) !in Exempt && RoleId(ROA) !in Quotas
    ensures RoleId(LOA) !in Exempt && RoleId(LOA) !in Quotas
  {
  }

  /** Every quota is an even number of minutes, so halving it is exact. */
  lemma QuotasHalveExactly()
    ensures forall rid :: rid in Quotas ==> Quotas[rid] % 2 == 0
  {
  }
}
