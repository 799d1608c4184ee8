/** The numbering scheme of the library's coded errors: every package owns a block of
    codes starting at its own base, and code 0 stands for "unknown error". */
module ErrorCodes {

  /** A liberr.CodeError. */
  type CodeError = nat

  /** errors.UNK_ERROR. */
  const UnknownError: CodeError := 0

  /** Package bases (errors/modules.go). */
  const MinPkgFTPClient: CodeError := 1100
  const MinPkgOAuth: CodeError := 2300
}
