/** The numeric constants of the loan manager that its guarantees depend on. */
module Constants {

  /** Prices carry eight decimals. */
  const PRICE_SCALE := 100_000_000

  /** One hundred percent, in basis points. */
  const BPS := 10_000

  const MAX_PRICE_STALENESS_SECS := 300
  const MAX_FUTURE_SKEW_SECS := 60
  const TWAP_WINDOW_SECS := 1_800
  const TWAP_MIN_SPAN_SECS := 300
  const TWAP_SNAPSHOT_INTERVAL_SECS := 60
  const TWAP_MAX_SNAPSHOTS := 34

  /** The health factor a partial liquidation aims at is 11/10. */
  const TARGET_HF_NUM := 11
  const TARGET_HF_DEN := 10

  /** Largest price an operation other than a liquidation accepts. */
  const MAX_PRICE := PRICE_SCALE * 1_000_000_000
}
