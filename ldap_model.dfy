/** The LDAP helper's value types: the TLS mode enumeration and the server configuration. */
module LdapModel {
  import Decimal

  /** TLSMode is a uint8. */
  type TLSMode = x: int | 0 <= x < 256

  /** The unexported "not yet decided" mode; value 1 is skipped by the iota arithmetic. */
  const TlsModeInit: TLSMode := 0
  const TlsModeNone: TLSMode := 2
  const TlsModeTls: TLSMode := 3
  const TlsModeStartTls: TLSMode := 4

  /** TLSMode.String. */
  function ModeName(m: TLSMode): (r: string)
    ensures r == "starttls" <==> m == TlsModeStartTls
    ensures r == "tls" <==> m == TlsModeTls
    ensures r == "none" <==> m == TlsModeNone
    ensures m !in {TlsModeNone, TlsModeTls, TlsModeStartTls} <==> r == "no defined"
  {
    if m == TlsModeStartTls then "starttls"
    else if m == TlsModeTls then "tls"
    else if m == TlsModeNone then "none"
    else "no defined"
  }

  /** The attributes fetched when the caller names none. */
  function GetDefaultAttributes(): (r: seq<string>)
    ensures |r| == 4 && "givenName" in r && "mail" in r && "uid" in r && "dn" in r
  {
    ["givenName", "mail", "uid", "dn"]
  }

  datatype Config = Config(
    uri: string,
    portLdap: int,
    portLdaps: int,
    basedn: string,
    filterGroup: string,
    filterUser: string)

  /** Config.Clone: a new configuration with every field copied. */
  function Clone(cnf: Config): (r: Config)
    ensures r == cnf
  {
    Config(cnf.uri, cnf.portLdap, cnf.portLdaps, cnf.basedn, cnf.filterGroup, cnf.filterUser)
  }

  /** Config.ServerAddr: "uri:port", the port being the ldaps one when TLS is asked for.
      The port text after the colon reads back as the chosen port. */
  function ServerAddr(cnf: Config, withTls: bool): (addr: string)
    ensures var port := if withTls then cnf.portLdaps else cnf.portLdap;
            var n := |cnf.uri|;
            && |addr| >= n + 2 && addr[..n] == cnf.uri && addr[n] == ':'
            && (addr[n + 1] == '-' || Decimal.IsDigit(addr[n + 1]))
            && (forall i | n + 2 <= i < |addr| :: Decimal.IsDigit(addr[i]))
            && Decimal.Parse(addr[n + 1..]) == port
  {
    var port := if withTls then cnf.portLdaps else cnf.portLdap;
    var addr := cnf.uri + ":" + Decimal.Format(port);
    Decimal.FormatParse(port);
    assert addr[|cnf.uri| + 1..] == Decimal.Format(port);
    addr
  }
}
