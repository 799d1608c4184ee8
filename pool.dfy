/** The HTTP server pool: an ordered collection of server handles keyed by their bind
    address. A pool is a slice of handles, modelled as a sequence of `Server` objects; the
    servers themselves are collaborators whose observable state is their addresses, their
    name, whether they run, and the answers their `Merge` and `Listen` give. */
module HttpServerPool {
  import opened Common

  /** FieldType is a uint8 selecting which server field a filter looks at. */
  type FieldType = x: int | 0 <= x < 256

  const FieldName: FieldType := 0
  const FieldBind: FieldType := 1
  const FieldExpose: FieldType := 2

  /** A server handle. `mergeAccepts` is what `Merge` answers for this server and
      `listenError` what its `Listen` returns. */
  class Server {
    const bind: string
    const expose: string
    const name: string
    const mergeAccepts: bool
    const listenError: Option<string>
    var running: bool

    constructor (bind: string, expose: string, name: string, mergeAccepts: bool,
                 listenError: Option<string>)
      ensures this.bind == bind && this.expose == expose && this.name == name
      ensures this.mergeAccepts == mergeAccepts && this.listenError == listenError
      ensures !running
    {
      this.bind := bind;
      this.expose := expose;
      this.name := name;
      this.mergeAccepts := mergeAccepts;
      this.listenError := listenError;
      running := false;
    }

    method Merge(other: Server) returns (ok: bool)
      ensures ok == mergeAccepts
    {
      ok := mergeAccepts;
    }

    method Shutdown()
      modifies this
      ensures !running
    {
      running := false;
    }

    method Listen() returns (err: Option<string>)
      modifies this
      ensures err == listenError && running == listenError.None?
    {
      err := listenError;
      running := listenError.None?;
    }
  }

  // ---------------------------------------------------------------------------
  // Specification functions

  predicate HasBind(p: seq<Server>, b: string)
  {
    exists i | 0 <= i < |p| :: p[i].bind == b
  }

  /** No two members share a bind address. */
  predicate UniqueBinds(p: seq<Server>)
  {
    forall i, j | 0 <= i < j < |p| :: p[i].bind != p[j].bind
  }

  /** The position of the first member bound to `b`. */
  function FirstIndex(p: seq<Server>, b: string): (k: nat)
    requires HasBind(p, b)
    ensures k < |p| && p[k].bind == b
    ensures forall i | 0 <= i < k :: p[i].bind != b
  {
    if p[0].bind == b then 0
    else
      assert HasBind(p[1..], b) by {
        var i :| 0 <= i < |p| && p[i].bind == b;
        assert p[1..][i - 1].bind == b;
      }
      1 + FirstIndex(p[1..], b)
  }

  /** The members not bound to `b`, in pool order (what Del keeps). */
  function Remove(p: seq<Server>, b: string): seq<Server>
    decreases |p|
  {
    if p == [] then []
    else Remove(p[..|p| - 1], b) + (if p[|p| - 1].bind != b then [p[|p| - 1]] else [])
  }

  lemma {:induction false} RemoveMembers(p: seq<Server>, b: string)
    ensures forall x | x in Remove(p, b) :: x in p && x.bind != b
    ensures forall x | x in p && x.bind != b :: x in Remove(p, b)
    decreases |p|
  {
    if p != [] {
      RemoveMembers(p[..|p| - 1], b);
      assert p == p[..|p| - 1] + [p[|p| - 1]];
    }
  }

  /** Removing keeps order: it distributes over concatenation. */
  lemma {:induction false} RemoveConcat(p: seq<Server>, q: seq<Server>, b: string)
    ensures Remove(p + q, b) == Remove(p, b) + Remove(q, b)
    decreases |q|
  {
    if q == [] {
      assert p + q == p;
    } else {
      assert (p + q)[..|p + q| - 1] == p + q[..|q| - 1];
      RemoveConcat(p, q[..|q| - 1], b);
    }
  }

  /** With no member bound to `b`, removing changes nothing. */
  lemma {:induction false} RemoveAbsent(p: seq<Server>, b: string)
    requires !HasBind(p, b)
    ensures Remove(p, b) == p
    decreases |p|
  {
    if p != [] {
      assert forall i | 0 <= i < |p| - 1 :: p[..|p| - 1][i] == p[i];
      RemoveAbsent(p[..|p| - 1], b);
    }
  }

  /** Removing keeps a unique pool unique. */
  lemma {:induction false} RemoveUnique(p: seq<Server>, b: string)
    requires UniqueBinds(p)
    ensures UniqueBinds(Remove(p, b))
    decreases |p|
  {
    if p != [] {
      var init := p[..|p| - 1];
      var last := p[|p| - 1];
      assert UniqueBinds(init);
      RemoveUnique(init, b);
      RemoveMembers(init, b);
      forall x | x in Remove(init, b)
        ensures x.bind != last.bind
      {
        assert x in init;
        var i :| 0 <= i < |init| && init[i] == x;
        assert p[i] == x;
      }
    }
  }

  /** Some member bound to `s.bind` refuses the merge. */
  predicate MergeRefused(r: seq<Server>, s: Server)
  {
    exists i | 0 <= i < |r| :: r[i].bind == s.bind && !r[i].mergeAccepts
  }

  /** One step of Add: an unknown address is appended; a known one is kept if every
      member bound to it accepts the merge, and is otherwise replaced by `s` at the end. */
  function AddOne(r: seq<Server>, s: Server): seq<Server>
  {
    if !HasBind(r, s.bind) then r + [s]
    else if MergeRefused(r, s) then Remove(r, s.bind) + [s]
    else r
  }

  /** The pool Add returns for the servers `srv`, taken in order. */
  function AddAll(p: seq<Server>, srv: seq<Server>): seq<Server>
    decreases |srv|
  {
    if srv == [] then p else AddOne(AddAll(p, srv[..|srv| - 1]), srv[|srv| - 1])
  }

  /** The servers Add shuts down: whenever a merge is refused, the Del it calls stops
      every member of the pool built so far. */
  ghost function Stopped(p: seq<Server>, srv: seq<Server>): set<Server>
    decreases |srv|
  {
    if srv == [] then {}
    else
      var r := AddAll(p, srv[..|srv| - 1]);
      var s := srv[|srv| - 1];
      Stopped(p, srv[..|srv| - 1])
      + (if HasBind(r, s.bind) && MergeRefused(r, s) then set x | x in r else {})
  }

  lemma AddAllPrefix(p: seq<Server>, srv: seq<Server>, k: nat)
    requires k < |srv|
    ensures AddAll(p, srv[..k + 1]) == AddOne(AddAll(p, srv[..k]), srv[k])
    ensures Stopped(p, srv[..k + 1]) ==
              Stopped(p, srv[..k])
              + (if HasBind(AddAll(p, srv[..k]), srv[k].bind) && MergeRefused(AddAll(p, srv[..k]), srv[k])
                 then set x | x in AddAll(p, srv[..k]) else {})
  {
    assert srv[..k + 1][..k] == srv[..k];
  }

  /** Add only ever holds servers of the pool or of its arguments. */
  lemma {:induction false} AddAllWithin(p: seq<Server>, srv: seq<Server>)
    ensures forall x | x in AddAll(p, srv) :: x in p || x in srv
    ensures forall x | x in Stopped(p, srv) :: x in p || x in srv
    decreases |srv|
  {
    if srv != [] {
      var init := srv[..|srv| - 1];
      var r := AddAll(p, init);
      var s := srv[|srv| - 1];
      AddAllWithin(p, init);
      RemoveMembers(r, s.bind);
      assert forall x | x in init :: x in srv;
      assert s in srv;
      forall x | x in AddAll(p, srv) ensures x in p || x in srv {
        if x != s {
          assert x in r;
        }
      }
    }
  }

  /** If the pool starts with unique bind addresses, so does Add's result, even when the
      arguments repeat an address. */
  lemma {:induction false} AddAllUnique(p: seq<Server>, srv: seq<Server>)
    requires UniqueBinds(p)
    ensures UniqueBinds(AddAll(p, srv))
    decreases |srv|
  {
    if srv != [] {
      var r := AddAll(p, srv[..|srv| - 1]);
      var s := srv[|srv| - 1];
      AddAllUnique(p, srv[..|srv| - 1]);
      if !HasBind(r, s.bind) {
      } else if MergeRefused(r, s) {
        RemoveUnique(r, s.bind);
        RemoveMembers(r, s.bind);
        var q := Remove(r, s.bind);
        forall i | 0 <= i < |q| ensures q[i].bind != s.bind {
          assert q[i] in Remove(r, s.bind);
        }
      }
    }
  }

  lemma HasBindAppend(q: seq<Server>, s: Server, b: string)
    ensures HasBind(q + [s], b) <==> HasBind(q, b) || s.bind == b
  {
    if HasBind(q, b) {
      var i :| 0 <= i < |q| && q[i].bind == b;
      assert (q + [s])[i].bind == b;
    }
    if HasBind(q + [s], b) && s.bind != b {
      var i :| 0 <= i < |q + [s]| && (q + [s])[i].bind == b;
      assert i < |q| && (q + [s])[i] == q[i];
    }
    if s.bind == b {
      assert (q + [s])[|q|].bind == b;
    }
  }

  lemma RemoveBinds(r: seq<Server>, a: string, b: string)
    ensures HasBind(Remove(r, a), b) <==> HasBind(r, b) && b != a
  {
    RemoveMembers(r, a);
    var q := Remove(r, a);
    if HasBind(r, b) && b != a {
      var i :| 0 <= i < |r| && r[i].bind == b;
      assert r[i] in q;
      var j :| 0 <= j < |q| && q[j] == r[i];
    }
    if HasBind(q, b) {
      var j :| 0 <= j < |q| && q[j].bind == b;
      assert q[j] in q;
      var i :| 0 <= i < |r| && r[i] == q[j];
    }
  }

  /** One Add step holds the addresses it held before plus the new server's. */
  lemma AddOneBinds(r: seq<Server>, s: Server, b: string)
    ensures HasBind(AddOne(r, s), b) <==> HasBind(r, b) || s.bind == b
  {
    if !HasBind(r, s.bind) {
      HasBindAppend(r, s, b);
    } else if MergeRefused(r, s) {
      RemoveBinds(r, s.bind, b);
      HasBindAppend(Remove(r, s.bind), s, b);
    }
  }

  /** Add's result holds exactly the addresses of the pool and of the arguments. */
  lemma {:induction false} AddAllBinds(p: seq<Server>, srv: seq<Server>, b: string)
    ensures HasBind(AddAll(p, srv), b) <==> HasBind(p, b) || HasBind(srv, b)
    decreases |srv|
  {
    if srv != [] {
      var init := srv[..|srv| - 1];
      AddAllBinds(p, init, b);
      AddOneBinds(AddAll(p, init), srv[|srv| - 1], b);
      assert srv == init + [srv[|srv| - 1]];
      HasBindAppend(init, srv[|srv| - 1], b);
    }
  }


  predicate AnyRunning(p: seq<Server>)
    reads p
  {
    exists i | 0 <= i < |p| :: p[i].running
  }

  predicate AllRunning(p: seq<Server>)
    reads p
  {
    forall i | 0 <= i < |p| :: p[i].running
  }

  /** The field a FieldType selects; unknown values select the name. */
  function Field(s: Server, f: FieldType): string
  {
    if f == FieldBind then s.bind else if f == FieldExpose then s.expose else s.name
  }

  /** The List/Filter condition: the lowercased pattern is non-empty and occurs in the
      lowercased field, or the regular expression is non-empty and matches the name.
      `matches(regex, text)` stands for a successful regexp.MatchString. */
  predicate Selected(s: Server, field: FieldType, pattern: string, regex: string,
                     matches: (string, string) -> bool)
  {
    (ToLower(pattern) != [] && Contains(ToLower(Field(s, field)), ToLower(pattern)))
    || (regex != [] && matches(regex, s.name))
  }

  function Select(p: seq<Server>, field: FieldType, pattern: string, regex: string,
                  matches: (string, string) -> bool): seq<Server>
    decreases |p|
  {
    if p == [] then []
    else
      Select(p[..|p| - 1], field, pattern, regex, matches)
      + (if Selected(p[|p| - 1], field, pattern, regex, matches) then [p[|p| - 1]] else [])
  }

  function Fields(q: seq<Server>, f: FieldType): (r: seq<string>)
    ensures |r| == |q| && forall i | 0 <= i < |q| :: r[i] == Field(q[i], f)
    decreases |q|
  {
    if q == [] then [] else Fields(q[..|q| - 1], f) + [Field(q[|q| - 1], f)]
  }

  lemma SelectPrefix(p: seq<Server>, i: nat, field: FieldType, pattern: string, regex: string,
                     matches: (string, string) -> bool)
    requires i < |p|
    ensures Select(p[..i + 1], field, pattern, regex, matches)
         == Select(p[..i], field, pattern, regex, matches)
            + (if Selected(p[i], field, pattern, regex, matches) then [p[i]] else [])
  {
    assert p[..i + 1][..i] == p[..i];
  }

  lemma FieldsAppend(q: seq<Server>, s: Server, f: FieldType)
    ensures Fields(q + [s], f) == Fields(q, f) + [Field(s, f)]
  {
    assert (q + [s])[..|q|] == q;
  }

  /** A server is selected iff it is a member satisfying the condition. */
  lemma {:induction false} SelectMembers(p: seq<Server>, field: FieldType, pattern: string,
                                         regex: string, matches: (string, string) -> bool)
    ensures forall x | x in Select(p, field, pattern, regex, matches) ::
              x in p && Selected(x, field, pattern, regex, matches)
    ensures forall x | x in p && Selected(x, field, pattern, regex, matches) ::
              x in Select(p, field, pattern, regex, matches)
    decreases |p|
  {
    if p != [] {
      SelectMembers(p[..|p| - 1], field, pattern, regex, matches);
      assert p == p[..|p| - 1] + [p[|p| - 1]];
    }
  }

  /** Selection keeps pool order: it distributes over concatenation. */
  lemma {:induction false} SelectConcat(p: seq<Server>, q: seq<Server>, field: FieldType,
                                        pattern: string, regex: string,
                                        matches: (string, string) -> bool)
    ensures Select(p + q, field, pattern, regex, matches)
         == Select(p, field, pattern, regex, matches) + Select(q, field, pattern, regex, matches)
    decreases |q|
  {
    if q == [] {
      assert p + q == p;
    } else {
      assert (p + q)[..|p + q| - 1] == p + q[..|q| - 1];
      SelectConcat(p, q[..|q| - 1], field, pattern, regex, matches);
    }
  }

  /** An empty pattern with an empty regular expression selects nothing. */
  lemma {:induction false} NothingSelected(p: seq<Server>, field: FieldType,
                                           matches: (string, string) -> bool)
    ensures Select(p, field, "", "", matches) == []
    decreases |p|
  {
    if p != [] {
      NothingSelected(p[..|p| - 1], field, matches);
    }
  }

  /** The errors the members' Listen calls return, in pool order. */
  function ListenErrors(p: seq<Server>): seq<string>
    decreases |p|
  {
    if p == [] then []
    else
      ListenErrors(p[..|p| - 1])
      + (if p[|p| - 1].listenError.Some? then [p[|p| - 1].listenError.value] else [])
  }

  lemma {:induction false} ListenErrorsEmpty(p: seq<Server>)
    ensures ListenErrors(p) == [] <==> forall i | 0 <= i < |p| :: p[i].listenError.None?
    decreases |p|
  {
    if p != [] {
      ListenErrorsEmpty(p[..|p| - 1]);
    }
  }

  // ---------------------------------------------------------------------------
  // Pool operations

  function Len(p: seq<Server>): (n: nat)
    ensures n == |p|
  {
    |p|
  }

  method Has(p: seq<Server>, b: string) returns (found: bool)
    ensures found == HasBind(p, b)
    ensures p == [] ==> !found
  {
    if |p| < 1 {
      return false;
    }
    for i := 0 to |p|
      invariant forall k | 0 <= k < i :: p[k].bind != b
    {
      if p[i].bind == b {
        return true;
      }
    }
    return false;
  }

  method Get(p: seq<Server>, b: string) returns (s: Option<Server>)
    ensures !HasBind(p, b) ==> s == None
    ensures HasBind(p, b) ==> s == Some(p[FirstIndex(p, b)])
  {
    var present := Has(p, b);
    if !present {
      return None;
    }
    for i := 0 to |p|
      invariant forall k | 0 <= k < i :: p[k].bind != b
    {
      if p[i].bind == b {
        return Some(p[i]);
      }
    }
    return None;
  }

  /** Del: for an absent address the pool itself, untouched; otherwise the other members
      in order, after every member that was running has been shut down. */
  method Del(p: seq<Server>, b: string) returns (r: seq<Server>)
    modifies p
    ensures !HasBind(p, b) ==> r == p && forall x | x in p :: x.running == old(x.running)
    ensures HasBind(p, b) ==> r == Remove(p, b) && forall x | x in p :: !x.running
  {
    var present := Has(p, b);
    if !present {
      return p;
    }
    r := [];
    for i := 0 to |p|
      invariant r == Remove(p[..i], b)
      invariant forall k | 0 <= k < i :: !p[k].running
    {
      assert p[..i + 1][..i] == p[..i];
      var s := p[i];
      if s.bind != b {
        r := r + [s];
      }
      if s.running {
        s.Shutdown();
      }
    }
    assert p[..|p|] == p;
  }

  /** One pass of Add's outer loop: append an unknown server; for a known address ask
      each member bound to it to merge, and at the first refusal Del the address (which
      shuts down every running member) and append the new server. */
  method AddServer(r: seq<Server>, s: Server) returns (q: seq<Server>)
    modifies r
    ensures q == AddOne(r, s)
    ensures HasBind(r, s.bind) && MergeRefused(r, s) ==> forall x | x in r :: !x.running
    ensures !(HasBind(r, s.bind) && MergeRefused(r, s)) ==>
              forall x | x in r :: x.running == old(x.running)
  {
    var present := Has(r, s.bind);
    if !present {
      return r + [s];
    }
    for i := 0 to |r|
      invariant forall i' | 0 <= i' < i :: r[i'].bind == s.bind ==> r[i'].mergeAccepts
      invariant forall x | x in r :: x.running == old(x.running)
    {
      var x := r[i];
      if x.bind == s.bind {
        var ok := x.Merge(s);
        if !ok {
          q := Del(r, s.bind);
          return q + [s];
        }
      }
    }
    return r;
  }

  /** Add: the servers taken in order (merge-or-replace); the error is always nil. */
  method Add(p: seq<Server>, srv: seq<Server>) returns (r: seq<Server>)
    modifies p, srv
    ensures r == AddAll(p, srv)
    ensures forall x | x in p || x in srv ::
              x.running == (if x in Stopped(p, srv) then false else old(x.running))
  {
    r := p;
    for k := 0 to |srv|
      invariant r == AddAll(p, srv[..k])
      invariant forall x | x in p || x in srv ::
                  x.running == (if x in Stopped(p, srv[..k]) then false else old(x.running))
    {
      AddAllPrefix(p, srv, k);
      AddAllWithin(p, srv[..k]);
      assert forall x | x in srv[..k] :: x in srv;
      assert forall i | 0 <= i < |r| :: r[i] in p || r[i] in srv;
      r := AddServer(r, srv[k]);
    }
    assert srv[..|srv|] == srv;
  }

  method NewPool(srv: seq<Server>) returns (r: seq<Server>)
    modifies srv
    ensures r == AddAll([], srv)
    ensures UniqueBinds(r)
    ensures forall x | x in srv ::
              x.running == (if x in Stopped([], srv) then false else old(x.running))
  {
    r := Add([], srv);
    AddAllUnique([], srv);
  }

  /** IsRunning: false for an empty pool; otherwise whether some member runs (atLeast)
      or every member does. */
  method IsRunning(p: seq<Server>, atLeast: bool) returns (r: bool)
    ensures r == (p != [] && (if atLeast then AnyRunning(p) else AllRunning(p)))
  {
    if |p| < 1 {
      return false;
    }
    r := false;
    for i := 0 to |p|
      invariant r <==> exists k | 0 <= k < i :: p[k].running
      invariant !atLeast ==> forall k | 0 <= k < i :: p[k].running
    {
      if p[i].running {
        r := true;
        continue;
      }
      if !atLeast {
        return false;
      }
    }
    assert !atLeast ==> p[0].running;
  }

  /** List: the `fieldReturn` field of every selected member, in pool order. */
  method List(p: seq<Server>, fieldFilter: FieldType, fieldReturn: FieldType, pattern: string,
              regex: string, matches: (string, string) -> bool) returns (r: seq<string>)
    ensures r == Fields(Select(p, fieldFilter, pattern, regex, matches), fieldReturn)
  {
    r := [];
    if |p| < 1 {
      return;
    }
    var pat := ToLower(pattern);
    for i := 0 to |p|
      invariant r == Fields(Select(p[..i], fieldFilter, pattern, regex, matches), fieldReturn)
    {
      SelectPrefix(p, i, fieldFilter, pattern, regex, matches);
      FieldsAppend(Select(p[..i], fieldFilter, pattern, regex, matches), p[i], fieldReturn);
      var s := p[i];
      var f := ToLower(Field(s, fieldFilter));
      if pat != "" && Contains(f, pat) {
        r := r + [Field(s, fieldReturn)];
        continue;
      }
      if regex == "" {
        continue;
      }
      if matches(regex, s.name) {
        r := r + [Field(s, fieldReturn)];
      }
    }
    assert p[..|p|] == p;
  }

  /** Filter: nil for an empty pool, otherwise the selected members in pool order. */
  method Filter(p: seq<Server>, field: FieldType, pattern: string, regex: string,
                matches: (string, string) -> bool) returns (r: Option<seq<Server>>)
    ensures p == [] ==> r == None
    ensures p != [] ==> r == Some(Select(p, field, pattern, regex, matches))
  {
    if |p| < 1 {
      return None;
    }
    var q := [];
    var pat := ToLower(pattern);
    for i := 0 to |p|
      invariant q == Select(p[..i], field, pattern, regex, matches)
    {
      SelectPrefix(p, i, field, pattern, regex, matches);
      var s := p[i];
      var f := ToLower(Field(s, field));
      if pat != "" && Contains(f, pat) {
        q := q + [s];
        continue;
      }
      if regex == "" {
        continue;
      }
      if matches(regex, s.name) {
        q := q + [s];
      }
    }
    assert p[..|p|] == p;
    return Some(q);
  }

  /** MapUpd: every slot of the slice is overwritten with `f` of its server. */
  method MapUpd(p: array<Server>, f: Server -> Server)
    modifies p
    ensures forall i | 0 <= i < p.Length :: p[i] == f(old(p[i]))
  {
    for i := 0 to p.Length
      invariant forall k | 0 <= k < i :: p[k] == f(old(p[k]))
      invariant forall k | i <= k < p.Length :: p[k] == old(p[k])
    {
      p[i] := f(p[i]);
    }
  }

  /** Listen: each member's Listen in order; nil when the pool is empty or no member
      fails, otherwise one error whose parents are the members' errors in order. */
  method Listen(p: seq<Server>) returns (err: Option<seq<string>>)
    modifies p
    ensures err == (if ListenErrors(p) == [] then None else Some(ListenErrors(p)))
    ensures forall x | x in p :: x.running == x.listenError.None?
  {
    if |p| < 1 {
      return None;
    }
    var parents := [];
    for i := 0 to |p|
      invariant parents == ListenErrors(p[..i])
      invariant forall k | 0 <= k < i :: p[k].running == p[k].listenError.None?
    {
      assert p[..i + 1][..i] == p[..i];
      var e := p[i].Listen();
      if e.Some? {
        parents := parents + [e.value];
      }
    }
    assert p[..|p|] == p;
    if parents == [] {
      return None;
    }
    return Some(parents);
  }
}
