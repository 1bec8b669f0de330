/**
 * How long a signed download lives: object_storage.rs, signing_config and
 * presign_download, and exports.rs, download_export. Times are nanoseconds since
 * the epoch; each reading of the clock is its own parameter.
 */
module SigningDeadline {

  const SECOND := 1_000_000_000

  /** The row keeps its data for an hour. */
  const RETENTION_SECONDS := 3600

  datatype Signing = Signed(expiresAt: int) | DeadlinePassed | Unsignable

  /** Whole seconds since the epoch, as the signature states its start. */
  function SignatureStart(now: int): int {
    now / SECOND * SECOND
  }

  /** built: the signing library takes the start and the time to live. */
  function SigningConfig(now: int, deadline: int, built: bool): Signing {
    if now < 0 then Unsignable
    else if deadline < SignatureStart(now) then DeadlinePassed
    else
      var ttl := (deadline - SignatureStart(now)) / SECOND;
      if ttl == 0 then DeadlinePassed
      else if !built then Unsignable
      else Signed(SignatureStart(now) + ttl * SECOND)
  }

  /**
   * A signature's expiry is strictly after now, never after the deadline and
   * less than a second before it, whatever fraction of a second now holds.
   */
  lemma SignedWithinTheDeadline(now: int, deadline: int, built: bool)
    requires SigningConfig(now, deadline, built).Signed?
    ensures now < SigningConfig(now, deadline, built).expiresAt <= deadline
    ensures deadline - SigningConfig(now, deadline, built).expiresAt < SECOND
  {
    var start := SignatureStart(now);
    assert start <= now < start + SECOND;
    var ttl := (deadline - start) / SECOND;
    assert ttl * SECOND <= deadline - start < ttl * SECOND + SECOND;
  }

  /** Signing gives up exactly when less than a second is left after the start of the current one. */
  lemma PassedMeansLessThanASecond(now: int, deadline: int)
    requires now >= 0
    ensures SigningConfig(now, deadline, true).DeadlinePassed? <==> deadline < SignatureStart(now) + SECOND
  {
  }

  /** presign_download reads the clock for the deadline and again for the signature. */
  function PresignDownload(first: int, second: int, ttl: nat, built: bool): Signing {
    SigningConfig(second, first + ttl * SECOND, built)
  }

  // ----- downloading an export ---------------------------------------------------------------------

  datatype Download = Capability(expiresAt: int) | ExportExpired | ExportNotReady | SigningFailed(signing: Signing)

  /** chrono's num_seconds rounds toward zero. */
  function WholeSeconds(d: int): int {
    if d >= 0 then d / SECOND else -(-d / SECOND)
  }

  /** What casting to 32 bits leaves of a number of seconds. */
  function Cast32(seconds: nat): nat {
    seconds % 0x1_0000_0000
  }

  function Least(a: nat, b: nat): nat {
    if a <= b then a else b
  }

  /** ready: the job succeeded and the row has its file. The clock is read at t0, t1, t2 and t3. */
  function DownloadExport(expires: int, policy: nat, ready: bool, built: bool, t0: int, t1: int, t2: int, t3: int)
    : Download
  {
    var remaining := WholeSeconds(expires - t0);
    if remaining <= 0 then ExportExpired
    else if !ready then ExportNotReady
    else
      var signing := PresignDownload(t1, t2, Least(policy, Cast32(remaining)), built);
      if !signing.Signed? then SigningFailed(signing)
      else if t3 >= expires || signing.expiresAt > expires then ExportExpired
      else Capability(signing.expiresAt)
  }

  /** A granted download is signed for a time after the signing, and never outlives the export. */
  lemma DownloadNeverOutlivesTheExport(expires: int, policy: nat, ready: bool, built: bool,
                                       t0: int, t1: int, t2: int, t3: int)
    requires t0 <= t1 <= t2 <= t3
    requires DownloadExport(expires, policy, ready, built, t0, t1, t2, t3).Capability?
    ensures var capability := DownloadExport(expires, policy, ready, built, t0, t1, t2, t3);
            && t2 < capability.expiresAt <= expires && t3 < expires
            && capability.expiresAt <= t1 + policy * SECOND
  {
    var ttl := Least(policy, Cast32(WholeSeconds(expires - t0)));
    SignedWithinTheDeadline(t2, t1 + ttl * SECOND, built);
    assert ttl * SECOND <= policy * SECOND;
  }

  /**
   * Only a published export is handed out: one that is not ready is answered with
   * that, or with its expiry once less than a second is left, and nothing is signed.
   */
  lemma OnlyReadyExportsAreHandedOut(expires: int, policy: nat, ready: bool, built: bool,
                                     t0: int, t1: int, t2: int, t3: int)
    ensures var answer := DownloadExport(expires, policy, ready, built, t0, t1, t2, t3);
            && (answer.Capability? ==> ready)
            && (!ready ==> answer == if expires - t0 < SECOND then ExportExpired else ExportNotReady)
            && (answer == ExportNotReady ==> !ready)
  {
    if expires >= t0 {
      assert expires - t0 < SECOND <==> (expires - t0) / SECOND <= 0;
    } else {
      assert (t0 - expires) / SECOND >= 0;
    }
  }

  /**
   * A granted download lasts as long as the policy and the export allow, up to the
   * two seconds that rounding may take.
   */
  lemma DownloadLastsAsLongAsItMay(expires: int, policy: nat, ready: bool, built: bool,
                                   t0: int, t1: int, t2: int, t3: int)
    requires t0 <= t1 <= t2 <= t3 && expires - t0 <= RETENTION_SECONDS * SECOND
    requires DownloadExport(expires, policy, ready, built, t0, t1, t2, t3).Capability?
    ensures var end := DownloadExport(expires, policy, ready, built, t0, t1, t2, t3).expiresAt;
            end > t1 + policy * SECOND - SECOND || end > t1 + (expires - t0) - 2 * SECOND
  {
    var remaining := WholeSeconds(expires - t0);
    assert 1 <= remaining <= RETENTION_SECONDS && expires - t0 < remaining * SECOND + SECOND;
    SignedWithinTheDeadline(t2, t1 + Least(policy, remaining) * SECOND, built);
  }

  /**
   * The final check only ever catches a clock that moved: it refuses neither a
   * signature whose requested time ends within the export, nor anything else.
   */
  lemma FinalCheckPassesInTime(expires: int, policy: nat, built: bool, t0: int, t1: int, t2: int, t3: int)
    requires 0 <= t0 <= t1 <= t2 <= t3 < expires
    requires SECOND <= expires - t0 <= RETENTION_SECONDS * SECOND
    requires t1 + Least(policy, WholeSeconds(expires - t0)) * SECOND <= expires
    ensures DownloadExport(expires, policy, true, built, t0, t1, t2, t3) != ExportExpired
  {
    var remaining := WholeSeconds(expires - t0);
    assert 1 <= remaining <= RETENTION_SECONDS;
    var deadline := t1 + Least(policy, remaining) * SECOND;
    if SigningConfig(t2, deadline, built).Signed? {
      SignedWithinTheDeadline(t2, deadline, built);
    }
  }

  /**
   * If the clock does not move between the readings, the download is granted
   * exactly when at least a second of the export is left.
   */
  lemma StillClockGrants(expires: int, policy: nat, now: int)
    requires 0 <= now && policy > 0 && expires - now <= RETENTION_SECONDS * SECOND
    ensures var answer := DownloadExport(expires, policy, true, true, now, now, now, now);
            && (answer.Capability? <==> expires - now >= SECOND)
            && (answer.ExportExpired? <==> expires - now < SECOND)
  {
    if expires - now >= SECOND {
      var remaining := WholeSeconds(expires - now);
      assert 1 <= remaining <= RETENTION_SECONDS && remaining * SECOND <= expires - now;
      var ttl := Least(policy, remaining);
      assert SECOND <= ttl * SECOND <= remaining * SECOND;
      PassedMeansLessThanASecond(now, now + ttl * SECOND);
      FinalCheckPassesInTime(expires, policy, true, now, now, now, now);
    }
  }
}
