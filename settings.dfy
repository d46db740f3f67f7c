/** The tuning constants of the price cleaner and the deal classifier. */
module Settings {

  /**
   * `minPrice` and `maxPrice` bound a valid price (both inclusive);
   * `dealThreshold` is the number of standard deviations below the mean
   * that makes a deal; `scamThreshold` is the fraction of the mean below
   * which a price looks like a scam.
   */
  datatype Config = Config(minPrice: real, maxPrice: real, dealThreshold: real, scamThreshold: real)

  /** The values the repository ships with. */
  const DefaultConfig: Config := Config(0.1, 1000000.0, 1.5, 0.4)
}
