/**
 * The rotation's settings (src/lib/config.js) and the ranges the app refuses to
 * start outside of (src/lib/validate-config.js). Fractional ones are reals.
 */
module Settings {

  datatype Config = Config(
    maxManualPeers: nat,
    minEligibleForJudgement: nat,
    newManualGraceBlocks: nat,
    minSwapMarginPct: real,
    recentScoreWindowBlocks: nat,
    offlineGraceMinHours: real,
    offlineGraceMaxHours: real,
    offlineGraceHoursPerPct: real,
    parkedPeerProbesPerTick: nat,
    parkedPeerMinProbeIntervalMinutes: real,
    parkedPeerMaxProbeIntervalHours: real,
    parkedPeerSlowProbeIntervalHours: real,
    parkedPeerFullSpeedPct: real,
    parkedPeerRetentionDaysPerPct: real,
    parkedPeerMinRetentionDays: real,
    parkedPeerMaxRetentionDays: real)
  {
    predicate Legal() {
      && 1 <= maxManualPeers <= 8
      && 1 <= minEligibleForJudgement <= 100000
      && newManualGraceBlocks <= 100000
      && 0.0 <= minSwapMarginPct <= 100.0
      && minEligibleForJudgement <= recentScoreWindowBlocks <= 1000000
      && 0.0 <= offlineGraceMinHours <= offlineGraceMaxHours <= 8760.0
      && 0.0 <= offlineGraceHoursPerPct <= 8760.0
      && parkedPeerProbesPerTick <= 1000
      && 0.0 <= parkedPeerMinProbeIntervalMinutes <= 525600.0
      && 0.0 <= parkedPeerMaxProbeIntervalHours <= parkedPeerSlowProbeIntervalHours <= 8760.0
      && 0.0 <= parkedPeerFullSpeedPct <= 100.0
      && 0.0 <= parkedPeerRetentionDaysPerPct <= 36500.0
      && 0.0 <= parkedPeerMinRetentionDays <= parkedPeerMaxRetentionDays <= 36500.0
    }
  }
}
