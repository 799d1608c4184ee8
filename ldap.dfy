/** The LDAP helper: parsing of distinguished-name strings, user-name resolution, the TLS
    mode it is forced into, the decision procedure that picks a connection mode, and the
    case-insensitive group check. Dialling, the TLS handshake and StartTLS are network
    operations; the model receives their outcomes as a `Network` oracle. */
module Ldap {
  import opened Common
  import opened LdapModel

  datatype UidReason = InvalidDN | AttributeNotFound | AttributeEmpty
  datatype ContextCause = MissingContext | ContextDone

  /** The coded errors this part of the helper returns. */
  datatype LdapError =
    | ContextError(cause: ContextCause)
    | ServerConfig
    | ServerTls
    | ServerDial
    | ServerStartTls
    | InvalidUid(reason: UidReason)
    | EmptyParams

  datatype Result<T> = Ok(value: T) | Err(error: LdapError)

  // ---------------------------------------------------------------------------
  // ParseEntries

  /** One comma-separated component, split at its FIRST '=' (strings.SplitN(ent, "=", 2)).
      Components without '=', or whose key or value is empty before trimming, are dropped;
      key and value are trimmed afterwards. */
  function ParseComponent(ent: string): Option<(string, string)>
  {
    if '=' !in ent then None
    else
      var k := IndexOf(ent, '=');
      if k < 1 || |ent| - (k + 1) < 1 then None
      else Some((TrimSpace(ent[..k]), TrimSpace(ent[k + 1..])))
  }

  /** One iteration of ParseEntries' loop: a valid component appends its value to the
      values already listed under its key. */
  function Step(m: map<string, seq<string>>, ent: string): map<string, seq<string>>
  {
    match ParseComponent(ent)
    case None => m
    case Some(kv) => m[kv.0 := (if kv.0 in m then m[kv.0] else []) + [kv.1]]
  }

  /** The map that the loop of ParseEntries has built after the given components. */
  function Collect(comps: seq<string>): map<string, seq<string>>
    decreases |comps|
  {
    if comps == [] then map[] else Step(Collect(comps[..|comps| - 1]), comps[|comps| - 1])
  }

  lemma CollectPrefix(comps: seq<string>, i: nat)
    requires i < |comps|
    ensures Collect(comps[..i + 1]) == Step(Collect(comps[..i]), comps[i])
  {
    assert comps[..i + 1][..i] == comps[..i];
  }

  function Entries(entry: string): map<string, seq<string>>
  {
    Collect(Split(entry, ','))
  }

  /** ParseEntries: key -> values, in input order. */
  method ParseEntries(entry: string) returns (r: map<string, seq<string>>)
    ensures r == Entries(entry)
  {
    var comps := Split(entry, ',');
    r := map[];
    for i := 0 to |comps|
      invariant r == Collect(comps[..i])
    {
      CollectPrefix(comps, i);
      var kv := ParseComponent(comps[i]);
      if kv.Some? {
        var key, value := kv.value.0, kv.value.1;
        var values := if key in r then r[key] else [];
        r := r[key := values + [value]];
      }
    }
    assert comps[..|comps|] == comps;
  }

  /** The parsed (key, value) pairs of the valid components, in input order. */
  function Pairs(comps: seq<string>): seq<(string, string)>
    decreases |comps|
  {
    if comps == [] then []
    else
      var init := Pairs(comps[..|comps| - 1]);
      match ParseComponent(comps[|comps| - 1])
      case None => init
      case Some(kv) => init + [kv]
  }

  /** The values paired with `key`, in order. */
  function ValuesOf(pairs: seq<(string, string)>, key: string): seq<string>
    decreases |pairs|
  {
    if pairs == [] then []
    else
      var init := ValuesOf(pairs[..|pairs| - 1], key);
      if pairs[|pairs| - 1].0 == key then init + [pairs[|pairs| - 1].1] else init
  }

  /** The map lists, for each key, exactly the values of the valid components with that
      key in input order; a key is present iff some valid component carries it; every
      present key has at least one value. */
  lemma {:induction false} CollectIsValuesOf(comps: seq<string>, key: string)
    ensures key in Collect(comps) <==> ValuesOf(Pairs(comps), key) != []
    ensures key in Collect(comps) ==> Collect(comps)[key] == ValuesOf(Pairs(comps), key)
    decreases |comps|
  {
    if comps != [] {
      var init := comps[..|comps| - 1];
      CollectIsValuesOf(init, key);
      var ps := Pairs(comps);
      match ParseComponent(comps[|comps| - 1])
      case None =>
      case Some(kv) =>
        assert ps == Pairs(init) + [kv];
        assert ps[..|ps| - 1] == Pairs(init);
    }
  }

  /** Keys and values of the parsed pairs are trimmed. */
  lemma {:induction false} PairsTrimmed(comps: seq<string>)
    ensures forall i | 0 <= i < |Pairs(comps)| ::
              TrimSpace(Pairs(comps)[i].0) == Pairs(comps)[i].0
              && TrimSpace(Pairs(comps)[i].1) == Pairs(comps)[i].1
    decreases |comps|
  {
    if comps != [] {
      PairsTrimmed(comps[..|comps| - 1]);
      match ParseComponent(comps[|comps| - 1])
      case None =>
      case Some(kv) =>
        var ent := comps[|comps| - 1];
        var k := IndexOf(ent, '=');
        TrimSpaceIdempotent(ent[..k]);
        TrimSpaceIdempotent(ent[k + 1..]);
    }
  }

  /** A component splits at its first '=' only: the value keeps any further '='. */
  lemma SplitsAtFirstEquals(key: string, value: string)
    requires '=' !in key && |key| >= 1 && |value| >= 1
    ensures ParseComponent(key + "=" + value) == Some((TrimSpace(key), TrimSpace(value)))
  {
    var ent := key + "=" + value;
    assert ent[|key|] == '=';
    assert ent[..|key|] == key;
    assert ent[|key| + 1..] == value;
  }

  /** Emptiness is tested before trimming: a blank key (" =x", say) survives as the empty
      key, while a component with nothing before its '=' ("=x") or with no '=' at all is
      dropped. */
  lemma EmptinessBeforeTrim(blank: string, value: string)
    requires '=' !in blank && |blank| >= 1 && TrimSpace(blank) == [] && |value| >= 1
    ensures ParseComponent(blank + "=" + value) == Some(("", TrimSpace(value)))
    ensures ParseComponent("=" + value) == None
    ensures '=' !in value ==> ParseComponent(value) == None
  {
    SplitsAtFirstEquals(blank, value);
    var ent := "=" + value;
    assert ent[0] == '=';
  }

  // ---------------------------------------------------------------------------
  // getUserName

  /** getUserName: the trimmed argument, or else the first uid of the bind DN. */
  function GetUserName(username: string, bindDN: string): (r: Result<string>)
    ensures r.Ok? ==> r.value != [] && TrimSpace(r.value) == r.value
    ensures TrimSpace(username) != [] ==> r == Ok(TrimSpace(username))
    ensures TrimSpace(username) == [] && Entries(bindDN) == map[] ==>
              r == Err(InvalidUid(InvalidDN))
    ensures TrimSpace(username) == [] && Entries(bindDN) != map[] && "uid" !in Entries(bindDN) ==>
              r == Err(InvalidUid(AttributeNotFound))
    ensures TrimSpace(username) == [] && "uid" in Entries(bindDN) && Entries(bindDN)["uid"] != [] ==>
              r == (var uid := TrimSpace(Entries(bindDN)["uid"][0]);
                    if uid == [] then Err(InvalidUid(AttributeEmpty)) else Ok(uid))
  {
    var name := TrimSpace(username);
    if name == [] then
      var usr := Entries(bindDN);
      if |usr| == 0 then Err(InvalidUid(InvalidDN))
      else if "uid" !in usr then Err(InvalidUid(AttributeNotFound))
      else if |usr["uid"]| < 1 then Err(InvalidUid(AttributeEmpty))
      else
        var uid := TrimSpace(usr["uid"][0]);
        TrimSpaceIdempotent(usr["uid"][0]);
        if uid == [] then Err(InvalidUid(AttributeEmpty)) else Ok(uid)
    else
      TrimSpaceIdempotent(username);
      Ok(name)
  }

  /** The "uid present without values" branch of getUserName cannot be taken: every key
      ParseEntries returns carries at least one value. */
  lemma EntriesHaveValues(entry: string, key: string)
    requires key in Entries(entry)
    ensures |Entries(entry)[key]| >= 1
  {
    CollectIsValuesOf(Split(entry, ','), key);
  }

  // ---------------------------------------------------------------------------
  // UserIsInGroup: the matching loop

  /** Some requested group equals some member group, ignoring case. */
  predicate AnyGroupMatches(wanted: seq<string>, member: seq<string>)
  {
    exists i, j | 0 <= i < |wanted| && 0 <= j < |member| :: EqualFold(wanted[i], member[j])
  }

  method GroupsMatch(wanted: seq<string>, member: seq<string>) returns (found: bool)
    ensures found <==> AnyGroupMatches(wanted, member)
  {
    for i := 0 to |wanted|
      invariant forall i', j | 0 <= i' < i && 0 <= j < |member| :: !EqualFold(wanted[i'], member[j])
    {
      for j := 0 to |member|
        invariant forall j' | 0 <= j' < j :: !EqualFold(wanted[i], member[j'])
      {
        if EqualFold(wanted[i], member[j]) {
          return true;
        }
      }
    }
    return false;
  }

  // ---------------------------------------------------------------------------
  // Connection-mode decision

  /** An opaque TLS configuration; `EmptyTlsConfig` is `&tls.Config{}`. */
  datatype TlsConfig = EmptyTlsConfig | TlsConfigNamed(name: string)

  /** What the network answers: which "host:port" addresses accept a TCP connection, and
      whether the TLS handshake and the StartTLS upgrade succeed. */
  datatype Network = Network(reachable: string -> bool, tlsHandshakeOk: bool, startTlsOk: bool)

  function DialTlsOk(cnf: Config, net: Network): bool
  {
    net.reachable(ServerAddr(cnf, true)) && net.tlsHandshakeOk
  }

  /** The address the plain dial uses, as the source writes it: the ldaps address. */
  function PlainDialAddrAsWritten(cnf: Config): string
  {
    ServerAddr(cnf, true)
  }

  /** The address the plain dial is evidently meant to use: the ldap address. */
  function PlainDialAddr(cnf: Config): string
  {
    ServerAddr(cnf, false)
  }

  /** The tryConnect decision over the outcomes of its three network steps. */
  function Decide(portLdaps: int, portLdap: int, tlsDialOk: bool, dialOk: bool, startTlsOk: bool)
    : (r: (TLSMode, Option<LdapError>))
    ensures r.0 == TlsModeTls <==> portLdaps != 0 && tlsDialOk
    ensures r.1.None? <==> r.0 in {TlsModeTls, TlsModeStartTls, TlsModeNone}
    ensures r.1.Some? ==> r.0 == TlsModeInit
    ensures r.1 == Some(ServerConfig) <==> !(portLdaps != 0 && tlsDialOk) && portLdap == 0
    ensures r.1 == Some(ServerDial) <==> !(portLdaps != 0 && tlsDialOk) && portLdap != 0 && !dialOk
    ensures r.0 == TlsModeStartTls <==>
              !(portLdaps != 0 && tlsDialOk) && portLdap != 0 && dialOk && startTlsOk
  {
    if portLdaps != 0 && tlsDialOk then (TlsModeTls, None)
    else if portLdap == 0 then (TlsModeInit, Some(ServerConfig))
    else if !dialOk then (TlsModeInit, Some(ServerDial))
    else if startTlsOk then (TlsModeStartTls, None)
    else (TlsModeNone, None)
  }

  /** tryConnect as the source writes it. */
  function TryConnectAsWritten(cnf: Config, net: Network): (TLSMode, Option<LdapError>)
  {
    Decide(cnf.portLdaps, cnf.portLdap, DialTlsOk(cnf, net),
           net.reachable(PlainDialAddrAsWritten(cnf)), net.startTlsOk)
  }

  /** tryConnect with the plain dial aimed at the ldap port. */
  function TryConnect(cnf: Config, net: Network): (r: (TLSMode, Option<LdapError>))
    ensures cnf.portLdaps == 0 && cnf.portLdap != 0 && net.reachable(ServerAddr(cnf, false)) ==>
              r.1.None? && r.0 == if net.startTlsOk then TlsModeStartTls else TlsModeNone
  {
    Decide(cnf.portLdaps, cnf.portLdap, DialTlsOk(cnf, net),
           net.reachable(PlainDialAddr(cnf)), net.startTlsOk)
  }

  /** With only the plain ldap port open (host "h", ports 389 and 636, say), the source's
      plain dial still knocks on the ldaps port and gives up, where the intended dial
      connects. */
  lemma PlainDialMissesLdapPort(cnf: Config, net: Network)
    requires cnf.portLdaps != 0 && cnf.portLdap != 0 && cnf.portLdaps != cnf.portLdap
    requires forall a :: net.reachable(a) <==> a == ServerAddr(cnf, false)
    ensures TryConnectAsWritten(cnf, net) == (TlsModeInit, Some(ServerDial))
    ensures TryConnect(cnf, net) == (if net.startTlsOk then TlsModeStartTls else TlsModeNone, None)
    ensures OpenError(TlsModeNone, cnf, net, PlainDialAddrAsWritten(cnf)) == Some(ServerDial)
    ensures OpenError(TlsModeNone, cnf, net, PlainDialAddr(cnf)) == None
  {
    var n := |cnf.uri|;
    var tls, plain := ServerAddr(cnf, true), ServerAddr(cnf, false);
    assert Decimal.Parse(tls[n + 1..]) != Decimal.Parse(plain[n + 1..]);
    assert tls != plain;
  }

  datatype ContextState = NoContext | Live | Done

  class HelperLDAP {
    const config: Config
    var tlsConfig: Option<TlsConfig>
    var tlsMode: TLSMode
    var bindDN: string
    var ctx: ContextState
    /** Whether `conn` is set. */
    var connected: bool

    /** The mode is always one of the four defined values. */
    ghost predicate Valid()
      reads this
    {
      tlsMode in {TlsModeInit, TlsModeNone, TlsModeTls, TlsModeStartTls}
    }

    /** NewLDAP for a non-nil configuration; `defaultTls` is what the certificates
        package supplies for the server's URI. */
    constructor (cnf: Config, defaultTls: Option<TlsConfig>, context: ContextState)
      ensures Valid()
      ensures config == Clone(cnf) && tlsConfig == defaultTls && tlsMode == TlsModeInit
      ensures bindDN == "" && ctx == context && !connected
    {
      config := Clone(cnf);
      tlsConfig := defaultTls;
      tlsMode := TlsModeInit;
      bindDN := "";
      ctx := context;
      connected := false;
    }

    /** ForceTLSMode. */
    method ForceTLSMode(mode: TLSMode, cfg: Option<TlsConfig>)
      requires Valid()
      modifies this`tlsMode, this`tlsConfig
      ensures Valid()
      ensures tlsMode == if mode in {TlsModeInit, TlsModeNone, TlsModeTls, TlsModeStartTls}
                         then mode else old(tlsMode)
      ensures tlsConfig == if mode == TlsModeNone then None
                           else if cfg.Some? then cfg else Some(EmptyTlsConfig)
    {
      if cfg.Some? {
        tlsConfig := cfg;
      } else {
        tlsConfig := Some(EmptyTlsConfig);
      }
      if mode == TlsModeTls {
        tlsMode := TlsModeTls;
      } else if mode == TlsModeStartTls {
        tlsMode := TlsModeStartTls;
      } else if mode == TlsModeNone {
        tlsConfig := None;
        tlsMode := TlsModeNone;
      } else if mode == TlsModeInit {
        tlsMode := TlsModeInit;
      }
    }

    /** connect as the source writes it: tryConnect and the kept connection both dial the
        ldaps address for the plain connection. `probe` answers tryConnect's dials, `open`
        the dials of the connection that is kept. */
    method Connect(probe: Network, open: Network) returns (err: Option<LdapError>)
      requires Valid()
      modifies this`tlsMode, this`connected
      ensures Valid()
      ensures ctx == NoContext ==>
                err == Some(ContextError(MissingContext)) && unchanged(this)
      ensures ctx == Done ==> err == Some(ContextError(ContextDone)) && unchanged(this)
      ensures ctx == Live && old(connected) ==> err == None && unchanged(this)
      ensures ctx == Live && !old(connected) && old(tlsMode) == TlsModeInit
              && TryConnectAsWritten(config, probe).1.Some? ==>
                err == TryConnectAsWritten(config, probe).1 && unchanged(this)
      ensures ctx == Live && !old(connected) && !(old(tlsMode) == TlsModeInit
              && TryConnectAsWritten(config, probe).1.Some?) ==>
                && tlsMode == (if old(tlsMode) == TlsModeInit then TryConnectAsWritten(config, probe).0
                               else old(tlsMode))
                && err == OpenError(tlsMode, config, open, PlainDialAddrAsWritten(config))
                && connected == err.None?
    {
      err := Establish(TryConnectAsWritten(config, probe), PlainDialAddrAsWritten(config), open);
    }

    /** connect with the plain dial aimed at the ldap port. */
    method ConnectFixed(probe: Network, open: Network) returns (err: Option<LdapError>)
      requires Valid()
      modifies this`tlsMode, this`connected
      ensures Valid()
      ensures ctx == NoContext ==>
                err == Some(ContextError(MissingContext)) && unchanged(this)
      ensures ctx == Done ==> err == Some(ContextError(ContextDone)) && unchanged(this)
      ensures ctx == Live && old(connected) ==> err == None && unchanged(this)
      ensures ctx == Live && !old(connected) && old(tlsMode) == TlsModeInit
              && TryConnect(config, probe).1.Some? ==>
                err == TryConnect(config, probe).1 && unchanged(this)
      ensures ctx == Live && !old(connected) && !(old(tlsMode) == TlsModeInit
              && TryConnect(config, probe).1.Some?) ==>
                && tlsMode == (if old(tlsMode) == TlsModeInit then TryConnect(config, probe).0
                               else old(tlsMode))
                && err == OpenError(tlsMode, config, open, PlainDialAddr(config))
                && connected == err.None?
    {
      err := Establish(TryConnect(config, probe), PlainDialAddr(config), open);
    }

    /** The body of connect once the dial address is fixed: `decision` is what tryConnect
        answers and `plain` is the address the plain dial goes to. */
    method Establish(decision: (TLSMode, Option<LdapError>), plain: string, open: Network)
      returns (err: Option<LdapError>)
      requires Valid()
      requires decision.1.None? ==> decision.0 in {TlsModeTls, TlsModeStartTls, TlsModeNone}
      modifies this`tlsMode, this`connected
      ensures Valid()
      ensures ctx == NoContext ==>
                err == Some(ContextError(MissingContext)) && unchanged(this)
      ensures ctx == Done ==> err == Some(ContextError(ContextDone)) && unchanged(this)
      ensures ctx == Live && old(connected) ==> err == None && unchanged(this)
      ensures ctx == Live && !old(connected) && old(tlsMode) == TlsModeInit && decision.1.Some? ==>
                err == decision.1 && unchanged(this)
      ensures ctx == Live && !old(connected) && !(old(tlsMode) == TlsModeInit && decision.1.Some?) ==>
                && tlsMode == (if old(tlsMode) == TlsModeInit then decision.0 else old(tlsMode))
                && err == OpenError(tlsMode, config, open, plain)
                && connected == err.None?
    {
      if ctx == NoContext {
        return Some(ContextError(MissingContext));
      }
      if ctx == Done {
        return Some(ContextError(ContextDone));
      }
      if !connected {
        if tlsMode == TlsModeInit {
          if decision.1.Some? {
            return decision.1;
          }
          tlsMode := decision.0;
        }
        if tlsMode == TlsModeTls && !DialTlsOk(config, open) {
          return Some(ServerTls);
        }
        if (tlsMode == TlsModeNone || tlsMode == TlsModeStartTls) && !open.reachable(plain) {
          return Some(ServerDial);
        }
        if tlsMode == TlsModeStartTls && !open.startTlsOk {
          return Some(ServerStartTls);
        }
        connected := true;
      }
      return None;
    }

    /** UserIsInGroup: `memberOf` is what UserMemberOf's search returns. */
    method UserIsInGroup(username: string, groupname: seq<string>, memberOf: Result<seq<string>>)
      returns (isMember: bool, err: Option<LdapError>)
      ensures GetUserName(username, bindDN).Err? ==>
                !isMember && err == Some(GetUserName(username, bindDN).error)
      ensures GetUserName(username, bindDN).Ok? && memberOf.Err? ==>
                !isMember && err == Some(memberOf.error)
      ensures GetUserName(username, bindDN).Ok? && memberOf.Ok? ==>
                err == None && (isMember <==> AnyGroupMatches(groupname, memberOf.value))
    {
      var name := GetUserName(username, bindDN);
      if name.Err? {
        return false, Some(name.error);
      }
      if memberOf.Err? {
        return false, Some(memberOf.error);
      }
      isMember := GroupsMatch(groupname, memberOf.value);
      err := None;
    }
  }

  /** NewLDAP: a nil configuration is refused with ErrorEmptyParams; otherwise a new helper
      over a copy of it. */
  method NewLDAP(cnf: Option<Config>, defaultTls: Option<TlsConfig>, context: ContextState)
    returns (h: HelperLDAP?, err: Option<LdapError>)
    ensures cnf.None? ==> h == null && err == Some(EmptyParams)
    ensures cnf.Some? ==>
              && err.None? && h != null && fresh(h) && h.Valid()
              && h.config == Clone(cnf.value) && h.tlsConfig == defaultTls
              && h.tlsMode == TlsModeInit && h.bindDN == "" && h.ctx == context && !h.connected
  {
    if cnf.None? {
      return null, Some(EmptyParams);
    }
    h := new HelperLDAP(cnf.value, defaultTls, context);
    err := None;
  }

  /** The error of opening the connection in an already decided mode, with the plain dial
      going to `plain`. */
  function OpenError(mode: TLSMode, cnf: Config, net: Network, plain: string): Option<LdapError>
  {
    if mode == TlsModeTls && !DialTlsOk(cnf, net) then Some(ServerTls)
    else if (mode == TlsModeNone || mode == TlsModeStartTls) && !net.reachable(plain)
    then Some(ServerDial)
    else if mode == TlsModeStartTls && !net.startTlsOk then Some(ServerStartTls)
    else None
  }
}
