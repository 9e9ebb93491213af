/** The fs handler object: its methods are the steps of `WatchModel`, and `HandleFsEvent` says who
    hears of a file system event. */
module WatchHandler {
  import opened Wrappers
  import opened Paths
  import opened WatchModel

  datatype WatchResult = Watching | InvalidPath | LimitReached | WatchFailed

  datatype Op = Create | Write | Remove | Rename | Chmod

  datatype Delivery = Delivery(conn: ConnId, path: string, typ: string, wire: string)

  /** The first of these that the event carries; None means the event is ignored. */
  function EventType(op: set<Op>): Option<string> {
    if Create in op then Some("created")
    else if Write in op then Some("modified")
    else if Remove in op then Some("deleted")
    else if Rename in op then Some("moved")
    else None
  }

  /** Whether a subscription covers an event: component by component below the watched path if it is
      recursive, at the watched path itself if it is not. */
  predicate Concerns(root: string, entry: Entry, event: string)
    requires IsAbs(root) && IsAbs(event)
  {
    var watch, place := Place(Join(root, entry.path)), Place(event);
    if entry.recursive then Under(watch, place) else watch == place
  }

  /** The tests of the event loop, on strings. */
  predicate Passes(root: string, entry: Entry, event: string)
    requires IsAbs(root) && IsAbs(event) && IsAbs(Join(root, entry.path))
  {
    var absWatch := Join(root, entry.path);
    var rel := Rel(absWatch, event);
    && !LeadsOut(rel)
    && (!entry.recursive && rel != "." && !HasPrefix(rel, "./") ==> event == absWatch)
  }

  lemma RelInside(watch: string, event: string)
    requires IsAbs(watch) && IsAbs(event) && Under(Place(watch), Place(event))
    ensures Rel(watch, event) == "." <==> Place(watch) == Place(event)
    ensures !HasPrefix(Rel(watch, event), "./")
  {
    var w, e := Place(watch), Place(event);
    PlaceIsPlace(event);
    StepsFromAbove(w, e);
    if |w| == |e| {
      assert w == e;
    } else {
      var names := e[|w|..];
      assert names[0] == e[|w|] && IsName(names[0]);
      FirstStep(names[0], Trail(names[1..]));
    }
  }

  lemma FirstStep(name: string, tail: string)
    requires IsName(name) && (tail != "" ==> tail[0] == SLASH)
    ensures name + tail != "." && !HasPrefix(name + tail, "./")
  {
    var s := name + tail;
    assert s[0] == name[0];
    if |name| > 1 { assert s[1] == name[1]; } else { assert name == [name[0]]; }
    if |s| > 1 { assert s[..2] == [s[0], s[1]]; }
  }

  /** On canonical paths the tests of the event loop decide exactly who is concerned. */
  lemma PassesExactly(root: string, entry: Entry, event: string)
    requires IsAbs(root) && IsAbs(event) && Clean(event) == event
    ensures IsAbs(Join(root, entry.path))
    ensures Passes(root, entry, event) <==> Concerns(root, entry, event)
  {
    hide Rel, LeadsOut, Place, Join;
    JoinWalks(root, entry.path);
    JoinIsAbs(root, entry.path);
    var absWatch := Join(root, entry.path);
    RelTellsUnder(absWatch, event);
    if Under(Place(absWatch), Place(event)) { RelInside(absWatch, event); }
    SamePathSamePlace(absWatch, event);
  }

  lemma JoinIsAbs(root: string, p: string)
    requires IsAbs(root)
    ensures IsAbs(Join(root, p)) && Clean(Join(root, p)) == Join(root, p)
  {
    if p == "" { CleanIdempotent(root); } else { CleanIdempotent(root + [SLASH] + p); }
  }

  lemma SamePathSamePlace(a: string, b: string)
    requires IsAbs(a) && IsAbs(b) && Clean(b) == b
    ensures Clean(a) == a ==> (a == b <==> Place(a) == Place(b))
  {
  }

  /** So a watch of a directory that is not recursive hears nothing of the entries of the directory. */
  lemma NonRecursiveMissesEntries(root: string, path: string, name: string)
    requires IsAbs(root) && IsName(name)
    ensures var event := Path(Place(Join(root, path)) + [name]);
            IsAbs(event) && IsAbs(Join(root, path)) && !Passes(root, Entry(path, false), event)
  {
    var watch := Place(Join(root, path));
    PlaceIsPlace(Join(root, path));
    PlaceOfPath(watch + [name]);
    PassesExactly(root, Entry(path, false), Path(watch + [name]));
  }

  /** What the client is told of a delivered event resolves to the place of the event. */
  lemma WirePathResolves(root: string, entry: Entry, event: string)
    requires IsAbs(root) && IsAbs(event) && Clean(event) == event && Resolve(root, entry.path).Some?
    requires Concerns(root, entry, event)
    ensures Resolve(root, Rel(root, event)) == Some(event)
  {
    hide Rel, Resolve, Join;
    ResolveExactly(root, entry.path);
    PlaceIsPlace(event);
    RelRoundTrip(root, Place(event));
  }

  predicate CoveredByEntry(root: string, entry: Entry, event: string)
    requires IsAbs(root)
  {
    entry.recursive && TextuallyUnder(Join(root, entry.path), event)
  }

  predicate CoveredBy(root: string, entries: map<string, Entry>, event: string)
    requires IsAbs(root)
  {
    exists r :: r in entries && CoveredByEntry(root, entries[r], event)
  }

  /** A delivery some subscription of the given ones calls for. */
  predicate Due(root: string, entries: map<string, Entry>, d: Delivery, event: string, typ: string)
    requires IsAbs(root) && IsAbs(event)
  {
    d.path in entries && Concerns(root, entries[d.path], event) && d.typ == typ && d.wire == Rel(root, event)
  }

  predicate NoRepeats<T(==)>(s: seq<T>) {
    forall i, j :: 0 <= i < j < |s| ==> s[i] != s[j]
  }

  lemma NoRepeatsSnoc<T>(s: seq<T>, x: T)
    requires NoRepeats(s) && x !in s
    ensures NoRepeats(s + [x])
  {
  }

  lemma StartOfWalks(t: Table, walks: ConnId -> seq<string>)
    ensures AllWalks([], walks) == [] && AddPaths(t, []) == t && NoRepeats<ConnId>([])
  {
  }

  lemma NoRepeatsAppend<T>(a: seq<T>, b: seq<T>)
    requires NoRepeats(a) && NoRepeats(b) && forall x :: x in b ==> x !in a
    ensures NoRepeats(a + b)
  {
    forall i, j | 0 <= i < j < |a + b| ensures (a + b)[i] != (a + b)[j] {
      if i < |a| <= j { assert b[j - |a|] in b && a[i] in a; }
    }
  }

  function AllWalks(conns: seq<ConnId>, walks: ConnId -> seq<string>): seq<string> {
    if conns == [] then [] else AllWalks(conns[..|conns| - 1], walks) + walks(conns[|conns| - 1])
  }

  lemma {:induction false} AddPathsAppend(t: Table, a: seq<string>, b: seq<string>)
    ensures AddPaths(t, a + b) == AddPaths(AddPaths(t, a), b)
  {
    if b == [] {
      assert a + b == a;
    } else {
      AddPathsAppend(t, a, b[..|b| - 1]);
      assert (a + b)[..|a + b| - 1] == a + b[..|b| - 1];
    }
  }

  lemma AutoAddKeepsValid(t: Table, walk: seq<string>)
    requires WellFormed(t) && t.watcher == Live
    ensures WellFormed(AddPaths(t, walk))
  {
    WellFormedKept(t, Step.AutoAdd(walk), AddPaths(t, walk));
  }

  lemma NobodyListens(t: Table)
    requires WellFormed(t) && t.watcher != Live
    ensures forall c :: c in t.watches ==> t.watches[c] == map[]
  {
  }

  // ---- Disconnecting, path by path -----------------------------------------------------------

  function DoneAt(t: Table, done: set<string>, k: string): set<string>
    requires IsAbs(t.root)
  {
    set r | r in done && Key(t, r) == k
  }

  /** The counts after some of a connection's paths have been removed. */
  ghost predicate Removed(t: Table, done: set<string>, t': Table)
    requires IsAbs(t.root)
  {
    && t' == t.(watched := t'.watched, observed := t'.observed, removes := t'.removes)
    && forall k :: RemovedAt(t, |DoneAt(t, done, k)|, t', k)
  }

  lemma RemoveOnce(t: Table, own: nat, t': Table, k: string, removed: string)
    requires CountsFormed(t) && RemovedAt(t, own, t', k)
    ensures RemovedAt(t, if k == removed then own + 1 else own, RemovePath(t', removed), k)
  {
  }

  lemma DoneOneMore(t: Table, done: set<string>, r: string, k: string)
    requires IsAbs(t.root) && r !in done
    ensures |DoneAt(t, done + {r}, k)| == |DoneAt(t, done, k)| + if k == Key(t, r) then 1 else 0
  {
    hide Join;
    assert DoneAt(t, done + {r}, k) == DoneAt(t, done, k) + if k == Key(t, r) then {r} else {};
  }

  lemma RemoveOneMore(t: Table, done: set<string>, r: string, t': Table)
    requires IsAbs(t.root) && CountsFormed(t) && Removed(t, done, t') && r !in done
    ensures Removed(t, done + {r}, RemovePath(t', Key(t, r)))
  {
    hide Join, DoneAt, RemovedAt, CountsFormed;
    forall k ensures RemovedAt(t, |DoneAt(t, done + {r}, k)|, RemovePath(t', Key(t, r)), k) {
      DoneOneMore(t, done, r, k);
      assert RemovedAt(t, |DoneAt(t, done, k)|, t', k);
      RemoveOnce(t, |DoneAt(t, done, k)|, t', k, Key(t, r));
    }
  }

  lemma NothingRemoved(t: Table)
    requires IsAbs(t.root)
    ensures Removed(t, {}, t)
  {
    hide Join;
  }

  lemma AllRemoved(t: Table, c: ConnId, t': Table)
    requires IsAbs(t.root) && t.watcher == Live && Removed(t, EntriesOf(t, c).Keys, t')
    ensures AfterDisconnect(t, c, t'.(watches := t.watches - {c}, dropped := t.dropped + {c}))
  {
    var t2 := t'.(watches := t.watches - {c}, dropped := t.dropped + {c});
    forall k, own: nat ensures RemovedAt(t, own, t', k) ==> RemovedAt(t, own, t2, k) {}
    hide Join, RemovedAt;
    forall k ensures RemovedAt(t, |PathsAt(t, c, k)|, t', k) {
      assert PathsAt(t, c, k) == DoneAt(t, EntriesOf(t, c).Keys, k);
      assert RemovedAt(t, |DoneAt(t, EntriesOf(t, c).Keys, k)|, t', k);
    }
  }

  lemma DroppedAside(t: Table, d: set<ConnId>, k: string)
    ensures RemovePath(t.(dropped := d), k) == RemovePath(t, k).(dropped := d)
  {
  }

  lemma WellFormedKeptByDisconnect(t: Table, c: ConnId)
    requires WellFormed(t)
    ensures forall t' :: AfterDisconnect(t, c, t') ==> WellFormed(t')
  {
    assert IsAbs(t.root);
    hide Join, AfterDisconnect, WellFormed;
    forall t' | AfterDisconnect(t, c, t') ensures WellFormed(t') { WellFormedKept(t, Disconnect(c), t'); }
  }

  /** A connection without entries leaves only its mark. */
  lemma NobodysDisconnect(t: Table, c: ConnId)
    requires IsAbs(t.root) && EntriesOf(t, c) == map[]
    ensures AfterDisconnect(t, c, t.(watches := t.watches - {c}, dropped := t.dropped + {c}))
    ensures c !in t.watches ==> t.watches - {c} == t.watches
  {
    hide Join;
    forall k ensures PathsAt(t, c, k) == {} {}
  }

  function Listed(t: Table, c: ConnId): map<ConnId, map<string, Entry>> {
    if c in t.watches then t.watches else t.watches[c := map[]]
  }

  lemma ListedThenEntered(t: Table, e: Step, u: Table)
    requires IsAbs(t.root) && e.Watch? && u == t.(watches := Listed(t, e.conn), watcher := Live)
    ensures e.conn in u.watches
    ensures u.(watches := u.watches[e.conn := u.watches[e.conn][e.path := Entry(e.path, e.recursive)]])
         == Subscribed(t, e)
  {
    assert u.watches[e.conn] == EntriesOf(t, e.conn);
  }

  /** The answer of `Watch`: the sandbox is asked first, then the cap, then the watcher. */
  function Outcome(t: Table, e: Step): (r: WatchResult)
    requires IsAbs(t.root) && e.Watch?
    ensures r == Watching <==> Accepted(t, e)
  {
    if Resolve(t.root, e.path).None? then InvalidPath
    else if |EntriesOf(t, e.conn)| >= MAX_WATCHES_PER_CONN then LimitReached
    else if Ensured(t.watcher, e.initFails) != Live then WatchFailed
    else Watching
  }

  /** What the four outcomes leave. */
  lemma AfterWatchCases(t: Table, e: Step)
    requires IsAbs(t.root) && e.Watch?
    ensures match Outcome(t, e)
            case InvalidPath => AfterWatch(t, e) == t
            case LimitReached => AfterWatch(t, e) == t.(watches := Listed(t, e.conn))
            case WatchFailed => AfterWatch(t, e) ==
              t.(watches := Listed(t, e.conn), watcher := Ensured(t.watcher, e.initFails))
            case Watching =>
              && AfterWatch(t, e) == AddPaths(Subscribed(t, e), Added(t, e))
              && Resolve(t.root, e.path) == Some(Key(t, e.path))
  {
    hide Resolve, Join, AddPaths;
    ResolveExactly(t.root, e.path);
    AfterWatchSplit(t, e);
    if e.conn in t.watches { assert t.watches[e.conn := EntriesOf(t, e.conn)] == t.watches; }
  }

  class Handler {
    const root: string
    var watches: map<ConnId, map<string, Entry>>
    var watched: map<string, nat>
    var observed: set<string>   // the paths fsnotify watches
    var connDropped: set<ConnId>
    var watcher: Watcher
    ghost var adds: multiset<string>
    ghost var removes: multiset<string>

    ghost function View(): Table
      reads this
    {
      Table(root, watches, watched, observed, connDropped, watcher, adds, removes)
    }

    ghost predicate Valid()
      reads this
    {
      WellFormed(View())
    }

    constructor (root: string)
      requires IsAbs(root)
      ensures Valid() && View() == Init(root)
    {
      this.root := root;
      watches, watched, observed, connDropped, watcher := map[], map[], {}, {}, Absent;
      adds, removes := multiset{}, multiset{};
    }

    method AddPathLocked(abs: string)
      modifies `watched, `observed, `adds
      ensures View() == if old(watcher) == Live then AddPath(old(View()), abs) else old(View())
    {
      if watcher != Live { return; }
      var n := if abs in watched then watched[abs] else 0;
      if n == 0 { observed := observed + {abs}; }
      watched := watched[abs := n + 1];
      adds := adds + multiset{abs};
    }

    /** Adds every directory of a walk. */
    method AddRecursiveLocked(walk: seq<string>)
      modifies `watched, `observed, `adds
      ensures View() == if old(watcher) == Live then AddPaths(old(View()), walk) else old(View())
    {
      for i := 0 to |walk|
        invariant View() == if old(watcher) == Live then AddPaths(old(View()), walk[..i]) else old(View())
      {
        assert walk[..i + 1][..i] == walk[..i];
        ghost var before := View();
        AddPathLocked(walk[i]);
        if old(watcher) == Live { AddPathsCounts(old(View()), walk[..i]); }
      }
      assert walk[..|walk|] == walk;
    }

    method RemovePathLocked(abs: string)
      modifies `watched, `observed, `removes
      ensures View() == if watcher == Live then RemovePath(old(View()), abs) else old(View())
    {
      if watcher != Live { return; }
      var n := if abs in watched then watched[abs] else 0;
      if n <= 1 {
        observed := observed - {abs};
        watched := watched - {abs};
      } else {
        watched := watched[abs := n - 1];
      }
      removes := removes + multiset{abs};
    }

    /** `walk` is what WalkDir visits; `initFails` is the outcome of a first NewWatcher. */
    method Watch(conn: ConnId, path: string, recursive: bool, walk: seq<string>, initFails: bool)
        returns (result: WatchResult)
      requires Valid()
      modifies this
      ensures Valid()
      ensures View() == AfterWatch(old(View()), Step.Watch(conn, path, recursive, walk, initFails))
      ensures result == Outcome(old(View()), Step.Watch(conn, path, recursive, walk, initFails))
    {
      assert IsAbs(root);
      hide Join, Resolve, AfterWatch, AddPaths, AddPath, WellFormed;
      ghost var t, e := View(), Step.Watch(conn, path, recursive, walk, initFails);
      WatchKeepsFormed(t, e);
      AfterWatchCases(t, e);
      var abs := Resolve(root, path);
      if abs.None? { return InvalidPath; }
      if conn !in watches { watches := watches[conn := map[]]; }
      if |watches[conn]| >= MAX_WATCHES_PER_CONN { return LimitReached; }
      if watcher == Absent { watcher := if initFails then Broken else Live; }
      if watcher != Live { return WatchFailed; }
      ghost var before := View();
      ListedThenEntered(t, e, before);
      hide Outcome, Subscribed, EntriesOf, Ensured;
      Register(conn, Entry(path, recursive), abs.value, walk);
      return Watching;
    }

    /** The last part of `Watch`: the entry, then the paths. */
    method Register(conn: ConnId, entry: Entry, abs: string, walk: seq<string>)
      requires conn in watches && watcher == Live
      modifies `watches, `watched, `observed, `adds
      ensures var t := old(View());
              View() == AddPaths(t.(watches := t.watches[conn := t.watches[conn][entry.path := entry]]),
                                 if entry.recursive then walk else [abs])
    {
      hide AddPaths, AddPath;
      watches := watches[conn := watches[conn][entry.path := entry]];
      AddFew(View(), abs, abs);
      AddPathsCounts(View(), if entry.recursive then walk else [abs]);
      if entry.recursive {
        AddRecursiveLocked(walk);
      } else {
        AddPathLocked(abs);
      }
    }

    /** Forgets the connection and takes its paths off the counts, in the order of Go's map iteration. */
    method OnDisconnect(conn: ConnId)
      requires Valid()
      modifies this
      ensures Valid() && AfterDisconnect(old(View()), conn, View())
    {
      ghost var t := View();
      assert IsAbs(t.root) && CountsFormed(t) && (t.watcher != Live ==> EntriesOf(t, conn) == map[]);
      WellFormedKeptByDisconnect(t, conn);
      hide Join, RemovePath, Removed, AfterDisconnect, WellFormed, CountsFormed;
      connDropped := connDropped + {conn};
      if conn !in watches {
        NobodysDisconnect(t, conn);
        return;
      }
      if watcher == Live {
        RemoveAllLocked(t, conn);
        AllRemoved(t, conn, View().(dropped := t.dropped));
      } else {
        NobodysDisconnect(t, conn);
      }
      watches := watches - {conn};
    }

    /** The loop of `OnDisconnect`; `t` is the table it started from. */
    method RemoveAllLocked(ghost t: Table, conn: ConnId)
      requires IsAbs(t.root) && CountsFormed(t) && t.watcher == Live && conn in t.watches
      requires View() == t.(dropped := connDropped)
      modifies `watched, `observed, `removes
      ensures Removed(t, EntriesOf(t, conn).Keys, View().(dropped := t.dropped))
    {
      hide Join, RemovePath, Removed, CountsFormed;
      var paths := watches[conn].Keys;
      ghost var done: set<string> := {};
      NothingRemoved(t);
      while paths != {}
        invariant done + paths == t.watches[conn].Keys && done !! paths
        invariant Removed(t, done, View().(dropped := t.dropped))
        decreases paths
      {
        var r :| r in paths;
        RemoveOneMore(t, done, r, View().(dropped := t.dropped));
        ghost var before := View();
        RemovePathLocked(Join(root, r));
        assert View().(dropped := t.dropped) == RemovePath(before.(dropped := t.dropped), Join(root, r)) by {
          DroppedAside(before, t.dropped, Join(root, r));
        }
        paths := paths - {r};
        done := done + {r};
      }
    }

    /** fsnotify forgets a path that is deleted or renamed, and tells nobody. */
    method Forget(abs: string)
      requires Valid()
      modifies `observed
      ensures Valid() && Next(old(View()), Vanish(abs), View())
    {
      hide Join, Resolve;
      observed := observed - {abs};
    }

    method Stop()
      requires Valid()
      modifies this
      ensures Valid() && Next(old(View()), Step.Stop, View())
    {
      if watcher == Stopped { return; }
      watcher, watches, watched, observed := Stopped, map[], map[], {};
    }

    /** Whether a recursive watch of the connection covers a new directory, by the text of the paths. */
    method Covered(conn: ConnId, event: string) returns (found: bool)
      requires Valid() && conn in watches
      ensures found <==> CoveredBy(root, watches[conn], event)
    {
      hide Join;
      var paths := watches[conn].Keys;
      while paths != {}
        invariant paths <= watches[conn].Keys
        invariant forall r :: r in watches[conn] && r !in paths ==> !CoveredByEntry(root, watches[conn][r], event)
        decreases paths
      {
        var r :| r in paths;
        if CoveredByEntry(root, watches[conn][r], event) { return true; }
        paths := paths - {r};
      }
      return false;
    }

    method AddWalk(ghost t: Table, ghost walked: seq<ConnId>, conn: ConnId, walks: ConnId -> seq<string>)
      requires Valid() && watcher == Live && View() == AddPaths(t, AllWalks(walked, walks))
      modifies `watched, `observed, `adds
      ensures Valid() && View() == AddPaths(t, AllWalks(walked + [conn], walks))
    {
      hide AddPaths, WellFormed;
      AutoAddKeepsValid(View(), walks(conn));
      AddPathsAppend(t, AllWalks(walked, walks), walks(conn));
      assert (walked + [conn])[..|walked|] == walked;
      AddRecursiveLocked(walks(conn));
    }

    /** A directory was created: every connection that covers it adds its directories once. */
    method AutoAdd(event: string, walks: ConnId -> seq<string>) returns (walked: seq<ConnId>)
      requires Valid() && watcher == Live
      modifies `watched, `observed, `adds
      ensures Valid() && View() == AddPaths(old(View()), AllWalks(walked, walks))
      ensures NoRepeats(walked)
      ensures forall c :: c in walked <==> c in watches && CoveredBy(root, watches[c], event)
    {
      assert IsAbs(root);
      hide CoveredBy, AddPaths, WellFormed, NoRepeats, AllWalks;
      ghost var t := View();
      StartOfWalks(t, walks);
      walked := [];
      var conns := watches.Keys;
      while conns != {}
        invariant conns <= watches.Keys && IsAbs(root)
        invariant View() == AddPaths(t, AllWalks(walked, walks))
        invariant NoRepeats(walked)
        invariant forall c :: c in walked <==> c in watches && c !in conns && CoveredBy(root, watches[c], event)
        invariant Valid()
        decreases conns
      {
        var c :| c in conns;
        var found := Covered(c, event);
        if found {
          AddWalk(t, walked, c, walks);
          NoRepeatsSnoc(walked, c);
          walked := walked + [c];
        }
        conns := conns - {c};
      }
    }

    /** The events of one connection. */
    method DeliverTo(conn: ConnId, event: string, typ: string) returns (ds: seq<Delivery>)
      requires Valid() && conn in watches && IsAbs(event) && Clean(event) == event
      ensures NoRepeats(ds)
      ensures forall d :: d in ds <==> d.conn == conn && Due(root, watches[conn], d, event, typ)
    {
      hide Join, Rel, Concerns, Passes, Clean;
      ds := [];
      var wire := Rel(root, event);
      var paths := watches[conn].Keys;
      while paths != {}
        invariant paths <= watches[conn].Keys
        invariant NoRepeats(ds)
        invariant forall d :: d in ds <==> d.path !in paths && d.conn == conn && Due(root, watches[conn], d, event, typ)
        decreases paths
      {
        var r :| r in paths;
        PassesExactly(root, watches[conn][r], event);
        if Passes(root, watches[conn][r], event) {
          ds := ds + [Delivery(conn, r, typ, wire)];
        }
        paths := paths - {r};
      }
    }

    /** Publishes an event exactly once for each subscription it concerns of each connection that has
        not been dropped, and to nobody else. */
    method Deliver(event: string, typ: string) returns (ds: seq<Delivery>)
      requires Valid() && IsAbs(event) && Clean(event) == event
      ensures NoRepeats(ds)
      ensures forall d :: d in ds <==>
                d.conn in watches && d.conn !in connDropped && Due(root, watches[d.conn], d, event, typ)
    {
      assert IsAbs(root);
      hide Due, Clean, WellFormed;
      ds := [];
      var conns := watches.Keys;
      while conns != {}
        invariant conns <= watches.Keys && IsAbs(root)
        invariant NoRepeats(ds)
        invariant forall d :: d in ds <==>
                    d.conn in watches && d.conn !in conns && d.conn !in connDropped
                    && Due(root, watches[d.conn], d, event, typ)
        decreases conns
      {
        var c :| c in conns;
        if c !in connDropped {
          var more := DeliverTo(c, event, typ);
          NoRepeatsAppend(ds, more);
          ds := ds + more;
        }
        conns := conns - {c};
      }
    }

    method HandleFsEvent(op: set<Op>, event: string, isDir: bool, walks: ConnId -> seq<string>)
        returns (ds: seq<Delivery>, walked: seq<ConnId>)
      requires Valid() && IsAbs(event) && Clean(event) == event
      modifies `watched, `observed, `adds
      ensures Valid() && Next(old(View()), Step.AutoAdd(AllWalks(walked, walks)), View())
      ensures NoRepeats(ds)
      ensures forall d :: d in ds <==>
                && EventType(op).Some? && d.conn in watches && d.conn !in connDropped
                && Due(root, watches[d.conn], d, event, EventType(op).value)
      ensures NoRepeats(walked)
      ensures forall c :: c in walked <==>
                Create in op && isDir && c in watches && CoveredBy(root, watches[c], event)
    {
      hide AddPaths, Clean, Concerns, CoveredByEntry, Rel;
      AddFew(View(), "", "");
      ds, walked := [], [];
      if watcher != Live {
        NobodyListens(View());
        return;
      }
      var typ := EventType(op);
      if typ.None? { return; }
      if Create in op && isDir { walked := AutoAdd(event, walks); }
      ds := Deliver(event, typ.value);
    }
  }
}
