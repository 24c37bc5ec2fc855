/** The credential record the login produces and caches in authInfo.json. */
module Credentials {
  import opened Platform

  /** A `null` string read from the cache file is represented by "". */
  datatype AuthInfo = AuthInfo(
    accessToken: string,
    accountId: string,
    baseUri: string,
    userName: string,
    accountName: string,
    userEmail: string)

  /** A default-constructed record: every property is the empty string. */
  function EmptyAuthInfo(): (a: AuthInfo)
    ensures a.accessToken == a.accountId == a.baseUri == ""
    ensures a.userName == a.accountName == a.userEmail == ""
  {
    AuthInfo("", "", "", "", "", "")
  }

  /**
   * Only the access token, base URI and account id are checked; the display
   * fields are for the report. The token itself cannot be decoded, so only its
   * presence is checked.
   */
  predicate AuthInfoIsValid(info: AuthInfo, lib: Library)
  {
    if info.accessToken == "" || !lib.isAbsoluteUri(info.baseUri) || !lib.isGuid(info.accountId) then false
    else true
  }

  /** Validity is the conjunction of the three checks. */
  lemma ValidIffThreeChecks(info: AuthInfo, lib: Library)
    ensures AuthInfoIsValid(info, lib) <==>
      info.accessToken != "" && lib.isAbsoluteUri(info.baseUri) && lib.isGuid(info.accountId)
  {
  }

  /** An empty access token makes a record invalid whatever its other fields hold. */
  lemma EmptyTokenInvalid(info: AuthInfo, lib: Library)
    requires info.accessToken == ""
    ensures !AuthInfoIsValid(info, lib)
  {
  }

  /** The display fields never affect validity. */
  lemma DisplayFieldsIrrelevant(a: AuthInfo, b: AuthInfo, lib: Library)
    requires a.accessToken == b.accessToken && a.baseUri == b.baseUri && a.accountId == b.accountId
    ensures AuthInfoIsValid(a, lib) == AuthInfoIsValid(b, lib)
  {
  }

  /** A default-constructed record is invalid. */
  lemma EmptyAuthInfoInvalid(lib: Library)
    ensures !AuthInfoIsValid(EmptyAuthInfo(), lib)
  {
  }
}
