/** The constants of modules/config.py that the modelled logic reads. */
module Config {

  /** UNKNOWN_TIMEOUT: minutes the alert state stays disarmed before it may re-arm. */
  const UnknownTimeout: int := 1

  /** Name of the dataset folder under the project root (DEFAULT_FACES_PATH). */
  const DatasetFolder: string := "dataset"
}
