/** The registry of PTY sessions and its helpers (`pty/handler.go`), and the environment a session is
    started with. */
module PtyRegistry {
  import opened Wrappers
  import opened PtySessions

  function OwnedBy(m: map<SessionId, ConnId>, c: ConnId): set<SessionId> {
    set id | id in m && m[id] == c
  }

  /** The registry holds what the session machine says is registered. */
  ghost predicate Shows(m: map<SessionId, ConnId>, s: State) {
    && m.Keys == s.registry && s.registry <= s.sessions.Keys
    && forall id :: id in m ==> m[id] == s.sessions[id].conn
  }

  /** The registry after a step of the machine: two of its events call a helper that changes it. */
  function After(m: map<SessionId, ConnId>, e: Event): map<SessionId, ConnId> {
    match e
    case Register(c, id) => m[id := c]
    case Unregister(id) => m - {id}
    case _ => m
  }

  lemma ShowsKept(m: map<SessionId, ConnId>, s: State, e: Event)
    requires Shows(m, s) && Enabled(s, e)
    ensures Shows(After(m, e), Step(s, e))
  {
    forall id | id in s.sessions
      ensures id in Step(s, e).sessions && Step(s, e).sessions[id].conn == s.sessions[id].conn
    {
      SubjectSession(s, e, id);
    }
    RegistryStep(s, e);
    hide Enabled, Step;
  }

  lemma RegistryStep(s: State, e: Event)
    requires Enabled(s, e)
    ensures var t := Step(s, e);
            t.registry == match e
                          case Register(_, id) => s.registry + {id}
                          case Unregister(id) => s.registry - {id}
                          case _ => s.registry
    ensures e.Register? ==>
              e.id !in s.sessions && e.id in Step(s, e).sessions && Step(s, e).sessions[e.id].conn == e.conn
  {
  }

  /** The registry a run leaves. */
  function AfterAll(m: map<SessionId, ConnId>, es: seq<Event>): map<SessionId, ConnId>
    decreases |es|
  {
    if es == [] then m else AfterAll(After(m, es[0]), es[1..])
  }

  lemma {:induction false} ShowsAlways(m: map<SessionId, ConnId>, s: State, es: seq<Event>, t: State)
    requires Shows(m, s) && IsRun(s, es, t)
    ensures Shows(AfterAll(m, es), t)
    decreases |es|
  {
    hide Enabled, Step, After, Shows;
    if es != [] {
      ShowsKept(m, s, es[0]);
      ShowsAlways(After(m, es[0]), Step(s, es[0]), es[1..], t);
    }
  }

  /** So in every run the count that guards the cap is the machine's, and it never goes past the cap. */
  lemma CountNeverExceedsCap(es: seq<Event>, t: State, c: ConnId)
    requires IsRun(INIT, es, t)
    ensures OwnedBy(AfterAll(map[], es), c) == Owned(t, c)
    ensures |OwnedBy(AfterAll(map[], es), c)| <= MAX_PTYS_PER_CONN
  {
    ShowsAlways(map[], INIT, es, t);
    assert Reachable(t);
    hide AfterAll, IsRun;
    CapIsNeverExceeded(t, c);
  }

  lemma NoneLeft(m: map<SessionId, ConnId>, c: ConnId)
    ensures OwnedBy(m, c) - m.Keys == {} && OwnedBy(m, c) - {} == OwnedBy(m, c)
  {
  }

  lemma OneFewerLeft(m: map<SessionId, ConnId>, c: ConnId, ids: set<SessionId>, id: SessionId)
    requires id in ids && ids <= m.Keys
    ensures var before, after := OwnedBy(m, c) - ids, OwnedBy(m, c) - (ids - {id});
            if m[id] == c then id !in before && after == before + {id} else after == before
    ensures |OwnedBy(m, c) - (ids - {id})| == |OwnedBy(m, c) - ids| + if m[id] == c then 1 else 0
  {
    assert OwnedBy(m, c) - (ids - {id}) == if m[id] == c then OwnedBy(m, c) - ids + {id} else OwnedBy(m, c) - ids;
  }

  class Registry {
    var sessions: map<SessionId, ConnId>

    constructor ()
      ensures sessions == map[] && Shows(sessions, INIT)
    {
      sessions := map[];
    }

    method Register(id: SessionId, conn: ConnId)
      modifies this
      ensures sessions == After(old(sessions), Event.Register(conn, id))
      ensures forall c :: OwnedBy(sessions, c) == old(OwnedBy(sessions, c)) - {id} + (if c == conn then {id} else {})
    {
      sessions := sessions[id := conn];
    }

    method Unregister(id: SessionId)
      modifies this
      ensures sessions == After(old(sessions), Event.Unregister(id))
      ensures forall c :: OwnedBy(sessions, c) == old(OwnedBy(sessions, c)) - {id}
    {
      sessions := sessions - {id};
    }

    method Lookup(id: SessionId) returns (conn: Option<ConnId>)
      ensures conn.Some? <==> id in sessions
      ensures conn.Some? ==> id in OwnedBy(sessions, conn.value)
    {
      if id in sessions { return Some(sessions[id]); }
      return None;
    }

    method CountByConn(conn: ConnId) returns (n: nat)
      ensures n == |OwnedBy(sessions, conn)|
    {
      n := 0;
      var ids := sessions.Keys;
      NoneLeft(sessions, conn);
      while ids != {}
        invariant ids <= sessions.Keys
        invariant n == |OwnedBy(sessions, conn) - ids|
        decreases ids
      {
        var id :| id in ids;
        OneFewerLeft(sessions, conn, ids, id);
        if sessions[id] == conn { n := n + 1; }
        ids := ids - {id};
      }
    }

    /** The connection's sessions, each once. */
    method SessionsByConn(conn: ConnId) returns (owned: seq<SessionId>)
      ensures forall id :: id in owned <==> id in OwnedBy(sessions, conn)
      ensures |owned| == |OwnedBy(sessions, conn)|
    {
      owned := [];
      var ids := sessions.Keys;
      NoneLeft(sessions, conn);
      while ids != {}
        invariant ids <= sessions.Keys
        invariant forall id :: id in owned <==> id in OwnedBy(sessions, conn) - ids
        invariant |owned| == |OwnedBy(sessions, conn) - ids|
        decreases ids
      {
        var id :| id in ids;
        OneFewerLeft(sessions, conn, ids, id);
        if sessions[id] == conn { owned := owned + [id]; }
        ids := ids - {id};
      }
    }
  }

  // ---- The environment -----------------------------------------------------------------------

  const EQUALS: char := '='

  /** Where the name of an environment entry ends; an entry without '=' has no name. */
  function NameEnd(kv: string): (i: int)
    ensures -1 <= i < |kv|
    ensures i >= 0 ==> kv[i] == EQUALS && EQUALS !in kv[..i]
    ensures i < 0 ==> EQUALS !in kv
  {
    if kv == "" then -1
    else if kv[0] == EQUALS then 0
    else
      var i := NameEnd(kv[1..]);
      if i < 0 then -1 else (assert kv[..i + 1] == [kv[0]] + kv[1..][..i]; i + 1)
  }

  /** A name the environment can carry. */
  predicate IsVariable(name: string) {
    name != "" && EQUALS !in name
  }

  /** The entry defines the variable; one that starts with '=' defines none. */
  predicate Names(kv: string, name: string) {
    NameEnd(kv) > 0 && kv[..NameEnd(kv)] == name
  }

  /** What a process started with these entries sees: the last entry of a name wins. */
  function Getenv(env: seq<string>, name: string): Option<string> {
    if env == [] then None
    else
      var kv := env[|env| - 1];
      if Names(kv, name) then Some(kv[NameEnd(kv) + 1..]) else Getenv(env[..|env| - 1], name)
  }

  function Binding(k: string, v: string): string {
    k + [EQUALS] + v
  }

  lemma BindingNames(k: string, v: string)
    requires IsVariable(k)
    ensures NameEnd(Binding(k, v)) == |k|
    ensures Names(Binding(k, v), k) && Binding(k, v)[|k| + 1..] == v
  {
    var kv, i := Binding(k, v), NameEnd(Binding(k, v));
    assert kv[|k|] == EQUALS && kv[..|k|] == k;
    assert EQUALS in kv;
    assert forall j :: 0 <= j < i ==> kv[..i][j] == kv[j];
  }

  /** The entries of the daemon's own environment that no request variable replaces. */
  function Inherited(base: seq<string>, keys: set<string>): seq<string> {
    if base == [] then []
    else
      var kv := base[|base| - 1];
      var init := Inherited(base[..|base| - 1], keys);
      if NameEnd(kv) >= 0 && kv[..NameEnd(kv)] in keys then init else init + [kv]
  }

  lemma {:induction false} InheritedGetenv(base: seq<string>, keys: set<string>, name: string)
    ensures Getenv(Inherited(base, keys), name) == if name in keys then None else Getenv(base, name)
  {
    if base != [] {
      var init, kv := base[..|base| - 1], base[|base| - 1];
      InheritedGetenv(init, keys, name);
      var r := Inherited(init, keys);
      assert (r + [kv])[..|r|] == r;
    }
  }

  /** What the result of `mergeEnv` means, whatever order Go ranges over the request's variables in. */
  ghost predicate Merged(base: seq<string>, extra: map<string, string>, out: seq<string>) {
    forall name :: Getenv(out, name) == if name in extra then Some(extra[name]) else Getenv(base, name)
  }

  /** ... and halfway through that range. */
  ghost predicate Layered(base: seq<string>, extra: map<string, string>, done: set<string>, out: seq<string>)
    requires done <= extra.Keys
  {
    forall name :: Getenv(out, name)
      == if name in done then Some(extra[name]) else if name in extra then None else Getenv(base, name)
  }

  lemma LayerOne(base: seq<string>, extra: map<string, string>, done: set<string>, out: seq<string>, k: string)
    requires done <= extra.Keys && Layered(base, extra, done, out) && k in extra && IsVariable(k)
    ensures Layered(base, extra, done + {k}, out + [Binding(k, extra[k])])
  {
    var kv := Binding(k, extra[k]);
    BindingNames(k, extra[k]);
    hide NameEnd, Binding;
    assert (out + [kv])[..|out|] == out;
    assert forall name :: Names(kv, name) <==> name == k;
  }

  /** The first loop of `mergeEnv`. */
  method Inherit(base: seq<string>, extra: map<string, string>) returns (out: seq<string>)
    ensures out == Inherited(base, extra.Keys)
  {
    out := [];
    for i := 0 to |base|
      invariant out == Inherited(base[..i], extra.Keys)
    {
      assert base[..i + 1][..i] == base[..i];
      var kv := base[i];
      var j := NameEnd(kv);
      if j < 0 {
        out := out + [kv];
      } else if kv[..j] !in extra {
        out := out + [kv];
      }
    }
    assert base[..|base|] == base;
  }

  /** Layers the request's variables over the daemon's environment: exactly the empty name and
      the names with '=' in them are not honoured. */
  method MergeEnv(base: seq<string>, extra: map<string, string>) returns (out: seq<string>)
    ensures Inherited(base, extra.Keys) <= out && |out| == |Inherited(base, extra.Keys)| + |extra|
    ensures Merged(base, extra, out) <==> forall k :: k in extra ==> IsVariable(k)
  {
    hide Getenv, Binding, Inherited, Layered, Merged;
    NothingReplaced(base);
    StartLayered(base, extra);
    if |extra| == 0 {
      assert extra.Keys == {};
      AllLayered(base, extra, {}, base);
      return base;
    }
    out := Inherit(base, extra);
    ghost var inherited := out;
    var keys := extra.Keys;
    ghost var done: set<string> := {};
    while keys != {}
      invariant done + keys == extra.Keys && done !! keys
      invariant inherited <= out && |out| == |inherited| + |done|
      invariant (forall k :: k in extra ==> IsVariable(k)) ==> Layered(base, extra, done, out)
      decreases keys
    {
      var k :| k in keys;
      if IsVariable(k) && Layered(base, extra, done, out) { LayerOne(base, extra, done, out, k); }
      out := out + [Binding(k, extra[k])];
      keys := keys - {k};
      done := done + {k};
    }
    AllLayered(base, extra, done, out);
  }

  lemma AllLayered(base: seq<string>, extra: map<string, string>, done: set<string>, out: seq<string>)
    requires done == extra.Keys
    ensures Layered(base, extra, done, out) ==> Merged(base, extra, out)
    ensures Merged(base, extra, out) ==> forall k :: k in extra ==> IsVariable(k)
  {
    forall k | k in extra && !IsVariable(k) ensures !Merged(base, extra, out) { NoSuchName(out, k); }
  }

  lemma StartLayered(base: seq<string>, extra: map<string, string>)
    ensures Layered(base, extra, {}, Inherited(base, extra.Keys))
  {
    forall name { InheritedGetenv(base, extra.Keys, name); }
  }

  lemma {:induction false} NothingReplaced(base: seq<string>)
    ensures Inherited(base, {}) == base
  {
    if base != [] {
      NothingReplaced(base[..|base| - 1]);
      assert base == base[..|base| - 1] + [base[|base| - 1]];
    }
  }

  /** No entry ever defines a variable without a name or with '=' in its name. */
  lemma {:induction false} NoSuchName(env: seq<string>, name: string)
    requires !IsVariable(name)
    ensures Getenv(env, name) == None
  {
    if env != [] { NoSuchName(env[..|env| - 1], name); }
  }
}
