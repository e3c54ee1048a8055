/** One row of the api_keys table, with the columns that scheduling and credit refresh read and write. */
module Keys {
  import opened Prelude

  datatype Status = Active | Cooling | Failed | Disabled | DecryptFailed | Invalid

  datatype ApiKey = ApiKey(
    id: int,
    provider: string,
    isActive: bool,
    status: Status,
    cooldownUntil: Option<real>,
    credits: Option<int>,
    planCredits: Option<int>,
    lastCheck: Option<real>,
    nextRefresh: Option<real>,
    ratePerMin: int,
    maxConcurrent: int)

  /** DISABLED_STATUSES */
  predicate Terminal(s: Status) {
    s.Disabled? || s.DecryptFailed? || s.Invalid?
  }

  /** COOLING_STATUSES */
  predicate CoolingStatus(s: Status) {
    s.Cooling? || s.Failed?
  }

  predicate IsDisabled(k: ApiKey) {
    !k.isActive || Terminal(k.status)
  }

  /** Whole seconds of cooldown left. */
  function CooldownRemaining(k: ApiKey, now: real): int {
    match k.cooldownUntil
    case None => 0
    case Some(until) => Max((until - now).Floor, 0)
  }

  /** What the scan of select does to a key whose cooldown is over. */
  function EndCooldown(k: ApiKey): ApiKey {
    k.(cooldownUntil := None, status := if CoolingStatus(k.status) then Active else k.status)
  }

  /** A terminal status implies inactive. */
  predicate Sane(k: ApiKey) {
    Terminal(k.status) ==> !k.isActive
  }

  /** The rows of a query ordered by the unique id. */
  ghost predicate InIdOrder(rows: seq<ApiKey>) {
    forall i, j :: 0 <= i < j < |rows| ==> rows[i].id < rows[j].id
  }
}
