/** The HTTP request builder: a mutable request holding a method, an optional URL, header
    and query-parameter multimaps (url.Values), and the error of the last send. The HTTP
    client, JSON bodies and URL parsing are collaborators; what is modelled is how the
    setters change the builder's state and the check `Do` makes before building a request. */
module HttpRequest {
  import opened Common
  import Base64

  // ---------------------------------------------------------------------------
  // url.Values

  /** url.Values: each key maps to its list of values; a nil map is the empty map. */
  type Values = map<string, seq<string>>

  /** Values.Get: the first value of the key, or "" when there is none. */
  function ValuesGet(v: Values, key: string): (r: string)
    ensures key !in v || v[key] == [] ==> r == ""
    ensures key in v && v[key] != [] ==> r == v[key][0]
  {
    if key in v && |v[key]| > 0 then v[key][0] else ""
  }

  /** Values.Set: the key's values become exactly [value]; no other key changes. */
  function ValuesSet(v: Values, key: string, value: string): (r: Values)
    ensures key in r && r[key] == [value]
    ensures forall k :: k != key ==> (k in r <==> k in v)
    ensures forall k :: k in v && k != key ==> r[k] == v[k]
  {
    v[key := [value]]
  }

  /** Values.Add: value is appended after the key's existing values; no other key changes. */
  function ValuesAdd(v: Values, key: string, value: string): (r: Values)
    ensures key in r && r[key] == (if key in v then v[key] else []) + [value]
    ensures forall k :: k != key ==> (k in r <==> k in v)
    ensures forall k :: k in v && k != key ==> r[k] == v[k]
  {
    v[key := (if key in v then v[key] else []) + [value]]
  }

  /** Values.Del: the key is gone; no other key changes. */
  function ValuesDel(v: Values, key: string): (r: Values)
    ensures key !in r
    ensures forall k :: k != key ==> (k in r <==> k in v)
    ensures forall k :: k in r ==> r[k] == v[k]
  {
    v - {key}
  }

  /** After Set the key reads back as the value; after Add it reads back as its first value,
      which is the new value only when the key had none; after Del it reads back as "". */
  lemma ValuesReadBack(v: Values, key: string, value: string)
    ensures ValuesGet(ValuesSet(v, key, value), key) == value
    ensures ValuesGet(ValuesAdd(v, key, value), key) == (if key in v && v[key] != [] then v[key][0] else value)
    ensures ValuesGet(ValuesDel(v, key), key) == ""
  {
    var added := ValuesAdd(v, key, value);
    assert added[key][0] == (if key in v && v[key] != [] then v[key][0] else value);
  }

  /** The multimap a clone receives: every key of `v` with its first value only. */
  function FirstValues(v: Values): Values
  {
    FirstValuesOn(v, v.Keys)
  }

  /** FirstValues restricted to the keys in `ks`. */
  function FirstValuesOn(v: Values, ks: set<string>): Values
  {
    map k | k in ks && k in v :: [ValuesGet(v, k)]
  }

  /** A clone has the same keys, one value per key, and every key reads back as before;
      only the values after the first are lost. */
  lemma FirstValuesGet(v: Values, key: string)
    ensures key in FirstValues(v) <==> key in v
    ensures key in v ==> |FirstValues(v)[key]| == 1
    ensures ValuesGet(FirstValues(v), key) == ValuesGet(v, key)
  {
    if key in v {
      assert FirstValues(v)[key] == [ValuesGet(v, key)];
    }
  }

  /** Copying one more key keeps the copy equal to FirstValues on the copied keys. */
  lemma {:induction false} FirstValuesStep(v: Values, done: set<string>, k: string)
    requires k in v
    ensures ValuesSet(FirstValuesOn(v, done), k, ValuesGet(v, k)) == FirstValuesOn(v, done + {k})
  {
    var a := ValuesSet(FirstValuesOn(v, done), k, ValuesGet(v, k));
    var b := FirstValuesOn(v, done + {k});
    assert a.Keys == b.Keys;
    forall key | key in a
      ensures a[key] == b[key]
    {
      if key != k {
        assert a[key] == FirstValuesOn(v, done)[key];
      }
    }
  }

  // ---------------------------------------------------------------------------
  // Method, credentials, path segments

  /** SetMethod's stored value: the upper-cased method, or GET for an empty one. (Each named
      case of the source's switch stores the same string that upper-casing produced.) */
  function NormalMethod(verb: string): (r: string)
    ensures r != ""
    ensures verb != "" ==> r == ToUpper(verb)
    ensures verb == "" ==> r == "GET"
  {
    var up := ToUpper(verb);
    if up == "" then "GET" else up
  }

  /** Normalising a stored method again leaves it unchanged. */
  lemma NormalMethodIdempotent(verb: string)
    ensures NormalMethod(NormalMethod(verb)) == NormalMethod(verb)
  {
    if verb != "" {
      ToUpperIdempotent(verb);
    }
  }

  /** A normalised method has no lower-case ASCII letter. */
  lemma NormalMethodUpper(verb: string)
    ensures forall i | 0 <= i < |NormalMethod(verb)| :: !('a' <= NormalMethod(verb)[i] <= 'z')
  {
    var r := NormalMethod(verb);
    if verb == "" {
      assert r == "GET";
    } else {
      forall i | 0 <= i < |r| ensures !('a' <= r[i] <= 'z') {
        assert r[i] == UpperChar(verb[i]);
      }
    }
  }

  /** The Authorization value of HTTP basic authentication (section 2 of RFC 7617). */
  function BasicAuthorization(user: string, pass: string): string
  {
    "Basic " + Base64.Encode(Utf8(user + ":" + pass))
  }

  /** The basic credentials carry the scheme name, and the text after it decodes to the
      bytes of user ":" pass. */
  lemma BasicAuthorizationDecodes(user: string, pass: string)
    ensures var r := BasicAuthorization(user, pass);
            |r| >= 6 && r[..6] == "Basic " && Base64.Decode(r[6..]) == Utf8(user + ":" + pass)
  {
    var r := BasicAuthorization(user, pass);
    var token := Base64.Encode(Utf8(user + ":" + pass));
    assert r[6..] == token;
    Base64.DecodeEncode(Utf8(user + ":" + pass));
  }

  /** The Authorization value of a bearer token (section 2.1 of RFC 6750). */
  function BearerAuthorization(token: string): string
  {
    "Bearer " + token
  }

  /** The token can be read back after the scheme name, and distinct tokens give distinct
      header values. */
  lemma BearerAuthorizationToken(token: string, other: string)
    ensures var r := BearerAuthorization(token);
            |r| == |token| + 7 && r[..7] == "Bearer " && r[7..] == token
    ensures BearerAuthorization(token) == BearerAuthorization(other) ==> token == other
  {
    var r, q := BearerAuthorization(token), BearerAuthorization(other);
    assert r[7..] == token && q[7..] == other;
  }

  /** TrimPrefix(s, "/") then TrimSuffix(., "/"): at most one slash comes off each end. */
  function TrimSegment(s: string): (r: string)
    ensures |s| - 2 <= |r| <= |s|
  {
    var t := if |s| > 0 && s[0] == '/' then s[1..] else s;
    if |t| > 0 && t[|t| - 1] == '/' then t[..|t| - 1] else t
  }

  /** A segment wrapped in one slash on each side is trimmed back to itself, and a segment
      with no slash at either end is left alone. */
  lemma TrimSegmentInverse(x: string)
    ensures TrimSegment("/" + x + "/") == x
    ensures (x == [] || (x[0] != '/' && x[|x| - 1] != '/')) ==> TrimSegment(x) == x
  {
    var s := "/" + x + "/";
    assert s[1..] == x + "/";
    assert (x + "/")[..|x|] == x;
  }

  /** Every element of a path list trimmed. */
  function TrimAll(path: seq<string>): (r: seq<string>)
    ensures |r| == |path|
    ensures forall i | 0 <= i < |path| :: r[i] == TrimSegment(path[i])
  {
    seq(|path|, i requires 0 <= i < |path| => TrimSegment(path[i]))
  }

  /** The path after joining each segment in turn onto `base` with `join` (filepath.Join). */
  function JoinPath(join: (string, string) -> string, base: string, segs: seq<string>): string
  {
    if segs == [] then base else join(JoinPath(join, base, segs[..|segs| - 1]), segs[|segs| - 1])
  }

  /** Joining a list built by concatenation is joining its halves in turn. */
  lemma {:induction false} JoinPathAppend(join: (string, string) -> string, base: string,
                                          a: seq<string>, b: seq<string>)
    ensures JoinPath(join, base, a + b) == JoinPath(join, JoinPath(join, base, a), b)
    decreases |b|
  {
    if b != [] {
      var init := b[..|b| - 1];
      JoinPathAppend(join, base, a, init);
      assert (a + b)[..|a + b| - 1] == a + init;
    } else {
      assert a + b == a;
    }
  }

  // ---------------------------------------------------------------------------
  // The request

  /** The fields of url.URL that the builder reads or writes. */
  datatype Url = Url(scheme: string, host: string, path: string, rawPath: string,
                     rawQuery: string, fragment: string)

  /** The errors Do reports: invalid parameters, a request that could not be built, and a
      send that failed. */
  datatype DoError = ParamsInvalid | MakeRequest(cause: string) | SendRequest(cause: string)

  /** Do's check before building a request: a method, a URL, and a URL that does not render
      empty (`render` is url.URL.String). */
  predicate CanSend(m: string, u: Option<Url>, render: Url -> string)
  {
    m != "" && u.Some? && render(u.value) != ""
  }

  /** A method stored by SetMethod never fails Do's check; only the URL can. */
  lemma NormalMethodCanSend(verb: string, u: Option<Url>, render: Url -> string)
    ensures CanSend(NormalMethod(verb), u, render) <==> u.Some? && render(u.value) != ""
  {
  }

  /** What cloning a request gives: the copy, or the nil-pointer panic of the source. */
  datatype CloneOutcome = Cloned(request: Request) | NilDereference

  class Request {
    var m: string
    var u: Option<Url>
    var h: Values
    var p: Values
    /** The error kept from the last send (requestError). */
    var e: Option<string>
    /** Whether options were stored with the request (GetOption returns non-nil). */
    const hasOptions: bool

    /** The package constructor is not part of this model: a fresh request here has no
        method, no URL, empty header and parameter maps and no error. */
    constructor (hasOptions: bool)
      ensures m == "" && u.None? && h == map[] && p == map[] && e.None?
      ensures this.hasOptions == hasOptions
    {
      m, u, h, p, e := "", None, map[], map[], None;
      this.hasOptions := hasOptions;
    }

    /** An empty list of accepted codes accepts every status; otherwise the status must be
        listed. */
    method IsValidCode(listValid: seq<int>, statusCode: int) returns (ok: bool)
      ensures ok <==> |listValid| == 0 || statusCode in listValid
    {
      if |listValid| < 1 {
        return true;
      }
      for i := 0 to |listValid|
        invariant statusCode !in listValid[..i]
      {
        if listValid[i] == statusCode {
          return true;
        }
      }
      assert listValid[..|listValid|] == listValid;
      return false;
    }

    method SetMethod(verb: string)
      modifies this`m
      ensures m == NormalMethod(verb)
    {
      m := ToUpper(verb);
      if m == "" {
        m := "GET";
      }
    }

    method SetFullUrl(url: Option<Url>)
      modifies this`u
      ensures u == url
    {
      u := url;
    }

    method CleanHeader()
      modifies this`h
      ensures h == map[]
    {
      h := map[];
    }

    method DelHeader(key: string)
      modifies this`h
      ensures h == ValuesDel(old(h), key)
    {
      h := ValuesDel(h, key);
    }

    method SetHeader(key: string, value: string)
      modifies this`h
      ensures h == ValuesSet(old(h), key, value)
    {
      if |h| < 1 {
        h := map[];
      }
      h := ValuesSet(h, key, value);
    }

    method AddHeader(key: string, value: string)
      modifies this`h
      ensures h == ValuesAdd(old(h), key, value)
    {
      if |h| < 1 {
        h := map[];
      }
      h := ValuesAdd(h, key, value);
    }

    method ContentType(content: string)
      modifies this`h
      ensures h == ValuesSet(old(h), "Content-Type", content)
    {
      SetHeader("Content-Type", content);
    }

    method AuthBearer(token: string)
      modifies this`h
      ensures h == ValuesSet(old(h), "Authorization", BearerAuthorization(token))
    {
      SetHeader("Authorization", "Bearer " + token);
    }

    method AuthBasic(user: string, pass: string)
      modifies this`h
      ensures h == ValuesSet(old(h), "Authorization", BasicAuthorization(user, pass))
    {
      SetHeader("Authorization", "Basic " + Base64.Encode(Utf8(user + ":" + pass)));
    }

    method CleanParams()
      modifies this`p
      ensures p == map[]
    {
      p := map[];
    }

    method DelParams(key: string)
      modifies this`p
      ensures p == ValuesDel(old(p), key)
    {
      p := ValuesDel(p, key);
    }

    method SetParams(key: string, val: string)
      modifies this`p
      ensures p == ValuesSet(old(p), key, val)
    {
      if |p| < 1 {
        p := map[];
      }
      p := ValuesSet(p, key, val);
    }

    /** AddParams as written: it sets the key, exactly like SetParams. */
    method AddParams(key: string, val: string)
      modifies this`p
      ensures p == ValuesSet(old(p), key, val)
    {
      if |p| < 1 {
        p := map[];
      }
      p := ValuesSet(p, key, val);
    }

    /** AddParams as its name and AddHeader intend: the value is appended. */
    method AddParamsFixed(key: string, val: string)
      modifies this`p
      ensures p == ValuesAdd(old(p), key, val)
    {
      if |p| < 1 {
        p := map[];
      }
      p := ValuesAdd(p, key, val);
    }

    /** Trims each segment in the caller's array in place, then joins it onto the URL's
        path (or raw path). Nothing happens without a URL. */
    method AddPath(raw: bool, path: array<string>, join: (string, string) -> string)
      modifies this`u, path
      ensures old(u).None? ==> u == old(u) && path[..] == old(path[..])
      ensures old(u).Some? ==> path[..] == TrimAll(old(path[..]))
      ensures old(u).Some? && raw ==>
                u == Some(old(u).value.(rawPath := JoinPath(join, old(u).value.rawPath, path[..])))
      ensures old(u).Some? && !raw ==>
                u == Some(old(u).value.(path := JoinPath(join, old(u).value.path, path[..])))
    {
      if u.None? {
        return;
      }
      ghost var start := u.value;
      ghost var segs := path[..];
      for i := 0 to path.Length
        invariant u.Some?
        invariant forall k | 0 <= k < i :: path[k] == TrimSegment(segs[k])
        invariant forall k | i <= k < path.Length :: path[k] == segs[k]
        invariant raw ==> u == Some(start.(rawPath := JoinPath(join, start.rawPath, path[..i])))
        invariant !raw ==> u == Some(start.(path := JoinPath(join, start.path, path[..i])))
      {
        path[i] := TrimSegment(path[i]);
        var url := u.value;
        assert path[..i + 1][..i] == path[..i];
        if raw {
          u := Some(url.(rawPath := join(url.rawPath, path[i])));
        } else {
          u := Some(url.(path := join(url.path, path[i])));
        }
      }
      assert path[..path.Length] == path[..];
    }

    /** Do up to the network: the parameter check, then building the request (`makeError`
        is what building answers) and sending it (`sendError` is what the client answers). */
    method Do(render: Url -> string, makeError: Option<string>, sendError: Option<string>)
      returns (err: Option<DoError>)
      modifies this`e
      ensures !CanSend(m, u, render) ==> err == Some(ParamsInvalid) && e == old(e)
      ensures CanSend(m, u, render) && makeError.Some? ==>
                err == Some(MakeRequest(makeError.value)) && e.None?
      ensures CanSend(m, u, render) && makeError.None? ==>
                e == sendError && err == (if sendError.Some? then Some(SendRequest(sendError.value)) else None)
    {
      if m == "" || u.None? || render(u.value) == "" {
        return Some(ParamsInvalid);
      }
      e := None;
      if makeError.Some? {
        return Some(MakeRequest(makeError.value));
      }
      if sendError.Some? {
        e := sendError;
        return Some(SendRequest(sendError.value));
      }
      return None;
    }

    /** Clone as written: New leaves its result nil whenever options are stored, and the
        clone's first call on it dereferences nil. Otherwise the copy has this URL and
        every header and parameter key with its first value only. */
    method Clone() returns (c: CloneOutcome)
      ensures hasOptions ==> c.NilDereference?
      ensures !hasOptions ==>
                && c.Cloned? && fresh(c.request) && !c.request.hasOptions
                && c.request.h == FirstValues(h) && c.request.p == FirstValues(p)
                && c.request.u == u && c.request.m == "" && c.request.e.None?
    {
      if hasOptions {
        return NilDereference;
      }
      var n := new Request(false);
      n.u := u;
      CopyInto(n);
      return Cloned(n);
    }

    /** Clone with New fixed to build the copy from the stored options as well. */
    method CloneFixed() returns (n: Request)
      ensures fresh(n) && n.hasOptions == hasOptions
      ensures n.h == FirstValues(h) && n.p == FirstValues(p)
      ensures n.u == u && n.m == "" && n.e.None?
    {
      n := new Request(hasOptions);
      n.u := u;
      CopyInto(n);
    }

    /** The copying loops of Clone: clean the copy's maps, then set each key to its first
        value. */
    method CopyInto(n: Request)
      requires n != this
      modifies n`h, n`p
      ensures n.h == FirstValues(h) && n.p == FirstValues(p)
    {
      n.CleanHeader();
      var keys := h.Keys;
      while keys != {}
        invariant keys <= h.Keys
        invariant n.h == FirstValuesOn(h, h.Keys - keys)
        decreases keys
      {
        var k :| k in keys;
        FirstValuesStep(h, h.Keys - keys, k);
        n.SetHeader(k, ValuesGet(h, k));
        assert (h.Keys - keys) + {k} == h.Keys - (keys - {k});
        keys := keys - {k};
      }
      assert h.Keys - keys == h.Keys;
      n.CleanParams();
      keys := p.Keys;
      while keys != {}
        invariant keys <= p.Keys
        invariant n.p == FirstValuesOn(p, p.Keys - keys)
        invariant n.h == FirstValues(h)
        decreases keys
      {
        var k :| k in keys;
        FirstValuesStep(p, p.Keys - keys, k);
        n.SetParams(k, ValuesGet(p, k));
        assert (p.Keys - keys) + {k} == p.Keys - (keys - {k});
        keys := keys - {k};
      }
      assert p.Keys - keys == p.Keys;
    }
  }

  /** AddParams as written replaces an existing value where an append was intended: with
      the key already holding a value, the old value is lost. */
  lemma AddParamsReplaces(v: Values, key: string, val: string)
    requires key in v && v[key] != []
    ensures ValuesSet(v, key, val)[key] != ValuesAdd(v, key, val)[key]
    ensures |ValuesAdd(v, key, val)[key]| == |v[key]| + 1
  {
    assert |ValuesAdd(v, key, val)[key]| == |v[key]| + 1;
  }

  /** The fixed AddParams keeps every earlier value of the key, in order, and puts the new
      one last. */
  lemma AddParamsKeeps(v: Values, key: string, val: string)
    ensures var r := ValuesAdd(v, key, val)[key];
            var before := if key in v then v[key] else [];
            |r| == |before| + 1 && r[..|before|] == before && r[|before|] == val
  {
    var before := if key in v then v[key] else [];
    var r := ValuesAdd(v, key, val)[key];
    assert r == before + [val];
    assert r[..|before|] == before;
  }
}
