/**
 * The credential validator: the key presented in the `X-API-Key` header
 * against the secret configured for the process.
 */
module Credentials {
  import opened Wrappers

  /** `starlette.status.HTTP_401_UNAUTHORIZED`. */
  const Unauthorized401: int := 401

  const MissingKeyDetail: string := "API Key required"
  const InvalidKeyDetail: string := "Invalid API Key"

  /** The `HTTPException` the validator raises: a status code and its detail text. */
  datatype HttpError = HttpError(status: int, detail: string)

  /** What the validator does: return the key, or raise an HTTP error. */
  datatype KeyCheck = Accepted(key: string) | Rejected(error: HttpError)

  /**
   * The validator. `apiKey` is the header's value (`None` when it was not
   * sent); `secret` is the configured key, `None` when the environment
   * variable is unset. The comparison is plain, case-sensitive equality.
   */
  function GetApiKey(apiKey: Option<string>, secret: Option<string>): (r: KeyCheck)
    ensures r.Accepted? <==> apiKey.Some? && secret == Some(apiKey.value)
    ensures r.Accepted? ==> r.key == apiKey.value
    ensures apiKey.None? ==> r == Rejected(HttpError(Unauthorized401, MissingKeyDetail))
    ensures apiKey.Some? && secret != apiKey ==> r == Rejected(HttpError(Unauthorized401, InvalidKeyDetail))
  {
    if apiKey.None? then
      Rejected(HttpError(Unauthorized401, MissingKeyDetail))
    else if apiKey != secret then
      Rejected(HttpError(Unauthorized401, InvalidKeyDetail))
    else
      Accepted(apiKey.value)
  }

  /** Every rejection is a 401, with one of the two fixed messages. */
  lemma RejectionsAre401(apiKey: Option<string>, secret: Option<string>)
    ensures GetApiKey(apiKey, secret).Rejected? ==>
      GetApiKey(apiKey, secret).error.status == Unauthorized401 &&
      GetApiKey(apiKey, secret).error.detail in {MissingKeyDetail, InvalidKeyDetail}
  {
  }

  /** With no secret configured, no key is accepted. */
  lemma UnsetSecretRejectsAll(apiKey: Option<string>)
    ensures GetApiKey(apiKey, None).Rejected?
    ensures apiKey.Some? ==> GetApiKey(apiKey, None).error.detail == InvalidKeyDetail
  {
  }

  /** Exactly one key is accepted for a configured secret: the secret itself. */
  lemma OnlyTheSecretIsAccepted(key: string, other: string, secret: string)
    requires GetApiKey(Some(key), Some(secret)).Accepted?
    requires GetApiKey(Some(other), Some(secret)).Accepted?
    ensures key == other == secret
  {
  }

  /** The two error messages are distinct, so a caller can tell the cases apart. */
  lemma DetailsDiffer()
    ensures MissingKeyDetail != InvalidKeyDetail
  {
    assert MissingKeyDetail[0] != InvalidKeyDetail[0];
  }
}
