/** The ftpclient package's error codes and the message table registered for them. */
module FtpClientErrors {
  import opened ErrorCodes

  const ErrorParamsEmpty: CodeError := MinPkgFTPClient
  const ErrorValidatorError: CodeError := ErrorParamsEmpty + 1
  const ErrorEndpointParser: CodeError := ErrorParamsEmpty + 2
  const ErrorNotInitialized: CodeError := ErrorParamsEmpty + 3
  const ErrorFTPConnection: CodeError := ErrorParamsEmpty + 4
  const ErrorFTPConnectionCheck: CodeError := ErrorParamsEmpty + 5
  const ErrorFTPLogin: CodeError := ErrorParamsEmpty + 6
  const ErrorFTPCommand: CodeError := ErrorParamsEmpty + 7

  /** getMessage: the switch of the source, in its order, with "" as the fall-through. */
  function GetMessage(code: CodeError): (message: string)
    ensures code == ErrorParamsEmpty ==> message == "given parameters is empty"
    ensures code == ErrorValidatorError ==> message == "ftp client : invalid config"
    ensures code == ErrorEndpointParser ==> message == "ftp client : cannot understand given endpoint"
    ensures code == ErrorNotInitialized ==> message == "ftp client : instance seems to not be initialized"
    ensures code == ErrorFTPLogin ==> message == "ftp client : cannot login to server"
    ensures code == ErrorFTPConnectionCheck ==>
              message == "ftp client : check connection (NOOP) to server trigger an error"
    ensures code == ErrorFTPCommand ==> message == "ftp client : command to server trigger an error"
  {
    if code == UnknownError then ""
    else if code == ErrorParamsEmpty then "given parameters is empty"
    else if code == ErrorValidatorError then "ftp client : invalid config"
    else if code == ErrorEndpointParser then "ftp client : cannot understand given endpoint"
    else if code == ErrorNotInitialized then "ftp client : instance seems to not be initialized"
    else if code == ErrorFTPLogin then "ftp client : cannot login to server"
    else if code == ErrorFTPConnectionCheck then "ftp client : check connection (NOOP) to server trigger an error"
    else if code == ErrorFTPCommand then "ftp client : command to server trigger an error"
    else ""
  }

  /** The codes are the eight consecutive values from the package base on. */
  lemma CodesConsecutive()
    ensures [ErrorParamsEmpty, ErrorValidatorError, ErrorEndpointParser, ErrorNotInitialized,
             ErrorFTPConnection, ErrorFTPConnectionCheck, ErrorFTPLogin, ErrorFTPCommand]
            == seq(8, k => 1100 + k)
  {
  }

  /** A code has a message exactly when it is one of the seven codes the table lists;
      ErrorFTPConnection, the unknown code and every foreign code map to "". */
  lemma MessageIffListed(code: CodeError)
    ensures GetMessage(code) != "" <==>
            code in {ErrorParamsEmpty, ErrorValidatorError, ErrorEndpointParser, ErrorNotInitialized,
                     ErrorFTPConnectionCheck, ErrorFTPLogin, ErrorFTPCommand}
    ensures GetMessage(ErrorFTPConnection) == "" && GetMessage(UnknownError) == ""
  {
  }
}
