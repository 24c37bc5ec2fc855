/** The settings the tool reads from config.json. */
module Configuration {

  /**
   * The configuration record. `tokenExpiration` is in the same integer time
   * unit as the clock readings the authentication step is given.
   * `envelopeOptions` is the list of (property name, value) pairs of the
   * envelope-listing options, in whatever order reflection lists them (the
   * order is unspecified), with "" for an unset value.
   */
  datatype Config = Config(
    clientId: string,
    clientSecret: string,
    redirectUri: string,
    oauthBase: string,
    topLevelDirectory: string,
    tokenExpiration: int,
    clearPreviousDownloads: bool,
    downloadMode: string,
    downloadIntervalMilliseconds: int,
    failOnFirstError: bool,
    browser: string,
    usePrivate: bool,
    envelopeOptions: seq<(string, string)>)
}
