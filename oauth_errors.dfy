/** The oauth package's error codes and the message table registered for them. */
module OAuthErrors {
  import opened ErrorCodes

  const ErrorEmptyParams: CodeError := MinPkgOAuth
  const ErrorOAuthExchange: CodeError := ErrorEmptyParams + 1

  /** getMessage: the switch of the source with "" as the fall-through. */
  function GetMessage(code: CodeError): (message: string)
    ensures code == ErrorEmptyParams ==> message == "given parameters is empty"
    ensures code == ErrorOAuthExchange ==>
              message == "code seems to be invalid when trying to get token from it"
    ensures code != ErrorEmptyParams && code != ErrorOAuthExchange ==> message == ""
  {
    if code == UnknownError then ""
    else if code == ErrorEmptyParams then "given parameters is empty"
    else if code == ErrorOAuthExchange then "code seems to be invalid when trying to get token from it"
    else ""
  }
}
