/** The part of the application configuration the engine reads. It is an
    immutable snapshot: nothing in the engine writes it. */
module Config {

  datatype AppConfig = AppConfig(priceTolerance: real, quantityTolerance: real,
                                 caseInsensitiveSymbols: bool)

  /** The values used when no configuration file is found. */
  const Defaults: AppConfig := AppConfig(0.0001, 0.0, true)
}
