/** The bookkeeping of `fs.watch` (`fs/handler.go`): subscriptions per connection, a reference count
    per watched path, and what every run keeps of their agreement. */
module WatchModel {
  import opened Wrappers
  import opened Paths

  type ConnId = string

  datatype Entry = Entry(path: string, recursive: bool)

  const MAX_WATCHES_PER_CONN: nat := 32

  datatype Watcher = Absent | Live | Broken | Stopped

  datatype Table = Table(
    root: string,
    watches: map<ConnId, map<string, Entry>>,
    watched: map<string, nat>,   // reference counts
    observed: set<string>,       // what fsnotify really watches
    dropped: set<ConnId>,        // connDropped
    watcher: Watcher,
    adds: multiset<string>,      // history: calls of addPathLocked ...
    removes: multiset<string>)   // ... and of removePathLocked

  function Init(root: string): Table {
    Table(root, map[], map[], {}, {}, Absent, multiset{}, multiset{})
  }

  function Count(watched: map<string, nat>, k: string): nat {
    if k in watched then watched[k] else 0
  }

  function EntriesOf(t: Table, c: ConnId): map<string, Entry> {
    if c in t.watches then t.watches[c] else map[]
  }

  /** The watched path of a subscription, as `Watch`, `OnDisconnect` and `handleFsEvent` compute it. */
  function Key(t: Table, path: string): string
    requires IsAbs(t.root)
  {
    Join(t.root, path)
  }

  /** A connection's subscriptions to one watched path. */
  function PathsAt(t: Table, c: ConnId, k: string): set<string>
    requires IsAbs(t.root)
  {
    set r | r in EntriesOf(t, c) && Key(t, r) == k
  }

  /** All live subscriptions to one watched path. */
  function LiveAt(t: Table, k: string): set<(ConnId, string)>
    requires IsAbs(t.root)
  {
    set c, r | c in t.watches && r in t.watches[c] && Key(t, r) == k :: (c, r)
  }

  // ---- Steps ---------------------------------------------------------------------------------

  function AddPath(t: Table, k: string): Table {
    t.(watched := t.watched[k := Count(t.watched, k) + 1],
       observed := if Count(t.watched, k) == 0 then t.observed + {k} else t.observed,
       adds := t.adds + multiset{k})
  }

  function AddPaths(t: Table, ks: seq<string>): Table {
    if ks == [] then t else AddPath(AddPaths(t, ks[..|ks| - 1]), ks[|ks| - 1])
  }

  function RemovePath(t: Table, k: string): Table {
    (if Count(t.watched, k) <= 1 then t.(watched := t.watched - {k}, observed := t.observed - {k})
     else t.(watched := t.watched[k := t.watched[k] - 1]))
    .(removes := t.removes + multiset{k})
  }

  datatype Step =
    // `walk` lists the directories WalkDir visits; `initFails` is the outcome of NewWatcher
    | Watch(conn: ConnId, path: string, recursive: bool, walk: seq<string>, initFails: bool)
    | Disconnect(conn: ConnId)
    // directories added because they were created inside recursive watches
    | AutoAdd(walk: seq<string>)
    // fsnotify drops a path that is deleted or renamed; an Add that fails is one dropped at once
    | Vanish(path: string)
    | Stop

  /** The watcher after `ensureWatcherLocked`. */
  function Ensured(w: Watcher, initFails: bool): Watcher {
    if w == Absent then (if initFails then Broken else Live) else w
  }

  /** `Watch` answers with a subscription: the path is inside the sandbox, the connection has room
      and the watcher runs. */
  predicate Accepted(t: Table, e: Step)
    requires IsAbs(t.root) && e.Watch?
  {
    Resolve(t.root, e.path).Some? && |EntriesOf(t, e.conn)| < MAX_WATCHES_PER_CONN
    && Ensured(t.watcher, e.initFails) == Live
  }

  function AfterWatch(t: Table, e: Step): Table
    requires IsAbs(t.root) && e.Watch?
  {
    if Resolve(t.root, e.path).None? then t
    else
      var listed := t.(watches := t.watches[e.conn := EntriesOf(t, e.conn)]);
      if |EntriesOf(t, e.conn)| >= MAX_WATCHES_PER_CONN then listed
      else
        var ensured := listed.(watcher := Ensured(t.watcher, e.initFails));
        if ensured.watcher != Live then ensured
        else
          AddPaths(
            ensured.(watches := t.watches[e.conn := EntriesOf(t, e.conn)[e.path := Entry(e.path, e.recursive)]]),
            if e.recursive then e.walk else [Key(t, e.path)])
  }

  /** One path after `own` removals. */
  ghost predicate RemovedAt(t: Table, own: nat, t': Table, k: string) {
    && (k in t'.watched <==> k in t.watched && (own == 0 || t.watched[k] > own))
    && (k in t'.watched ==> t'.watched[k] == t.watched[k] - own)
    && (k in t'.observed <==> k in t.observed && (own == 0 || Count(t.watched, k) > own))
    && t'.removes[k] == t.removes[k] + own
  }

  /** `OnDisconnect` removes the connection's paths in some order: in the end every count has gone
      down by the number of its subscriptions there, but not below zero. */
  ghost predicate AfterDisconnect(t: Table, c: ConnId, t': Table)
    requires IsAbs(t.root)
  {
    && t' == t.(watches := t.watches - {c}, dropped := t.dropped + {c},
                watched := t'.watched, observed := t'.observed, removes := t'.removes)
    && if t.watcher != Live then t'.watched == t.watched && t'.observed == t.observed && t'.removes == t.removes
       else forall k :: RemovedAt(t, |PathsAt(t, c, k)|, t', k)
  }

  ghost predicate Next(t: Table, e: Step, t': Table)
    requires IsAbs(t.root)
  {
    match e
    case Watch(_, _, _, _, _) => t' == AfterWatch(t, e)
    case Disconnect(c) => AfterDisconnect(t, c, t')
    case AutoAdd(walk) => t' == if t.watcher == Live then AddPaths(t, walk) else t
    case Vanish(k) => t' == t.(observed := t.observed - {k})
    case Stop =>
      t' == if t.watcher == Stopped then t
            else t.(watcher := Stopped, watches := map[], watched := map[], observed := {})
  }

  ghost predicate IsRun(root: string, es: seq<Step>, ts: seq<Table>) {
    && IsAbs(root) && |ts| == |es| + 1 && ts[0] == Init(root)
    && forall i :: 0 <= i < |es| ==> IsAbs(ts[i].root) && Next(ts[i], es[i], ts[i + 1])
  }

  // ---- What every run keeps ------------------------------------------------------------------

  /** The counts are positive, and fsnotify watches nothing that is not counted. */
  ghost predicate CountsFormed(t: Table) {
    && (forall k :: k in t.watched ==> t.watched[k] > 0)
    && t.observed <= t.watched.Keys
    && (t.watcher != Live ==> t.watched == map[])
  }

  /** Subscriptions exist only while the watcher runs, their paths are inside the sandbox, and no
      connection has more than 32. */
  ghost predicate EntriesFormed(t: Table) {
    IsAbs(t.root) && forall c :: c in t.watches ==> FormedFor(t.root, t.watches[c], t.watcher)
  }

  ghost predicate FormedFor(root: string, entries: map<string, Entry>, w: Watcher)
    requires IsAbs(root)
  {
    && |entries| <= MAX_WATCHES_PER_CONN
    && forall r :: r in entries ==> w == Live && entries[r].path == r && Resolve(root, r).Some?
  }

  ghost predicate WellFormed(t: Table) {
    CountsFormed(t) && EntriesFormed(t)
  }

  lemma {:induction false} AddPathsFormed(t: Table, ks: seq<string>)
    requires CountsFormed(t) && t.watcher == Live
    ensures CountsFormed(AddPaths(t, ks))
  {
    if ks != [] {
      AddPathsFormed(t, ks[..|ks| - 1]);
      AddPathsCounts(t, ks[..|ks| - 1]);
    }
  }

  /** Adding only adds: the counts grow by the occurrences of their path. */
  lemma {:induction false} AddPathsCounts(t: Table, ks: seq<string>)
    ensures var t' := AddPaths(t, ks);
            && t' == t.(watched := t'.watched, observed := t'.observed, adds := t.adds + multiset(ks))
            && forall k :: Count(t'.watched, k) == Count(t.watched, k) + multiset(ks)[k]
  {
    if ks != [] {
      var init, k := ks[..|ks| - 1], ks[|ks| - 1];
      AddPathsCounts(t, init);
      assert ks == init + [k];
    }
  }

  /** The subscription table a Watch leaves, and the paths it adds. */
  function Subscribed(t: Table, e: Step): Table
    requires IsAbs(t.root) && e.Watch?
  {
    t.(watcher := Live,
       watches := t.watches[e.conn := EntriesOf(t, e.conn)[e.path := Entry(e.path, e.recursive)]])
  }

  function Added(t: Table, e: Step): seq<string>
    requires IsAbs(t.root) && e.Watch?
  {
    if e.recursive then e.walk else [Key(t, e.path)]
  }

  lemma AfterWatchSplit(t: Table, e: Step)
    requires IsAbs(t.root) && e.Watch?
    ensures if Accepted(t, e) then AfterWatch(t, e) == AddPaths(Subscribed(t, e), Added(t, e))
            else var t' := AfterWatch(t, e);
                 && t' == t.(watches := t'.watches, watcher := t'.watcher)
                 && (t'.watches == t.watches || t'.watches == t.watches[e.conn := EntriesOf(t, e.conn)])
                 && (t'.watcher == t.watcher || t.watcher == Absent)
                 && (t'.watcher == Live <==> t.watcher == Live)
    ensures AfterWatch(t, e).root == t.root
  {
    hide Resolve, Join, AddPaths;
    AddPathsCounts(Subscribed(t, e), Added(t, e));
    if Accepted(t, e) && t.watcher == Live { assert t.(watcher := Live) == t; }
  }

  lemma RefusedKeepsFormed(t: Table, e: Step)
    requires WellFormed(t) && e.Watch? && !Accepted(t, e)
    ensures WellFormed(AfterWatch(t, e))
  {
    AfterWatchSplit(t, e);
    assert FormedFor(t.root, EntriesOf(t, e.conn), t.watcher);
    hide Resolve, Join, AddPaths, AfterWatch, Accepted, FormedFor;
    RefusedFormed(t, AfterWatch(t, e), e.conn);
  }

  lemma RefusedFormed(t: Table, t': Table, c: ConnId)
    requires WellFormed(t) && FormedFor(t.root, EntriesOf(t, c), t.watcher)
    requires t' == t.(watches := t'.watches, watcher := t'.watcher)
    requires t'.watches == t.watches || t'.watches == t.watches[c := EntriesOf(t, c)]
    requires (t'.watcher == t.watcher || t.watcher == Absent) && (t'.watcher == Live <==> t.watcher == Live)
    ensures WellFormed(t')
  {
    hide Resolve;
    forall d | d in t'.watches ensures FormedFor(t'.root, t'.watches[d], t'.watcher) {
      assert d in t.watches ==> FormedFor(t.root, t.watches[d], t.watcher);
    }
  }

  lemma AcceptedEntriesFormed(t: Table, e: Step)
    requires EntriesFormed(t) && e.Watch? && Accepted(t, e)
    ensures EntriesFormed(Subscribed(t, e))
  {
    hide Resolve, Join;
    var entries := EntriesOf(t, e.conn);
    assert FormedFor(t.root, entries, t.watcher);
    assert FormedFor(t.root, entries[e.path := Entry(e.path, e.recursive)], Live);
    var t1 := Subscribed(t, e);
    forall c | c in t1.watches ensures FormedFor(t1.root, t1.watches[c], t1.watcher) {
      if c != e.conn { assert FormedFor(t.root, t.watches[c], t.watcher); }
    }
  }

  lemma WatchKeepsFormed(t: Table, e: Step)
    requires WellFormed(t) && e.Watch?
    ensures WellFormed(AfterWatch(t, e))
  {
    if Accepted(t, e) {
      AfterWatchSplit(t, e);
      AcceptedEntriesFormed(t, e);
      hide Resolve, Join, AddPaths, AfterWatch, FormedFor;
      var t1 := Subscribed(t, e);
      assert CountsFormed(t1);
      AddPathsFormed(t1, Added(t, e));
      AddPathsCounts(t1, Added(t, e));
    } else {
      RefusedKeepsFormed(t, e);
    }
  }

  lemma WellFormedKept(t: Table, e: Step, t': Table)
    requires WellFormed(t) && Next(t, e, t')
    ensures WellFormed(t')
  {
    hide Resolve, Join, AddPaths, AfterWatch;
    match e {
      case Watch(_, _, _, _, _) => WatchKeepsFormed(t, e);
      case Disconnect(c) =>
        forall k ensures (k in t'.observed ==> k in t'.watched) && (k in t'.watched ==> t'.watched[k] > 0) {
          assert t.watcher == Live ==> RemovedAt(t, |PathsAt(t, c, k)|, t', k);
        }
      case AutoAdd(walk) =>
        if t.watcher == Live {
          AddPathsFormed(t, walk);
          AddPathsCounts(t, walk);
        }
      case Vanish(_) =>
      case Stop =>
    }
  }

  // ---- Counts against subscriptions ----------------------------------------------------------

  /** No watched path has fewer counts than live subscriptions. */
  ghost predicate Covers(t: Table) {
    IsAbs(t.root) && forall k :: |LiveAt(t, k)| <= Count(t.watched, k)
  }

  /** Counts are adds minus removes; no remove ever hit a path without counts. */
  ghost predicate Balanced(t: Table) {
    t.watcher != Stopped ==> forall k :: Count(t.watched, k) + t.removes[k] == t.adds[k]
  }

  lemma LiveAtSubscribed(t: Table, e: Step, k: string)
    requires IsAbs(t.root) && e.Watch?
    ensures LiveAt(Subscribed(t, e), k)
         == LiveAt(t, k) + if Key(t, e.path) == k then {(e.conn, e.path)} else {}
  {
    hide Join, Resolve;
    var t1 := Subscribed(t, e);
    forall c, r
      ensures (c, r) in LiveAt(t1, k) <==> (c, r) in LiveAt(t, k) || (Key(t, e.path) == k && c == e.conn && r == e.path)
    {
    }
  }

  lemma {:induction false} PairsCount(c: ConnId, rs: set<string>)
    ensures |set r | r in rs :: (c, r)| == |rs|
  {
    var pairs := set r | r in rs :: (c, r);
    if rs == {} {
      assert pairs == {};
    } else {
      var x :| x in rs;
      PairsCount(c, rs - {x});
      assert pairs == (set r | r in rs - {x} :: (c, r)) + {(c, x)};
    }
  }

  /** A connection's subscriptions and everybody else's make up the live ones. */
  lemma LiveAtWithout(t: Table, c: ConnId, k: string)
    requires IsAbs(t.root)
    ensures var t' := t.(watches := t.watches - {c});
            && |LiveAt(t, k)| == |LiveAt(t', k)| + |PathsAt(t, c, k)|
            && (forall c', r :: (c', r) in LiveAt(t', k) <==> (c', r) in LiveAt(t, k) && c' != c)
  {
    hide Join, Resolve;
    var t' := t.(watches := t.watches - {c});
    var own := set r | r in PathsAt(t, c, k) :: (c, r);
    PairsCount(c, PathsAt(t, c, k));
    assert LiveAt(t, k) == LiveAt(t', k) + own;
    assert LiveAt(t', k) !! own;
  }

  lemma SameWatchesSameLive(t: Table, t': Table, k: string)
    requires IsAbs(t.root) && t'.root == t.root && t'.watches == t.watches
    ensures LiveAt(t', k) == LiveAt(t, k)
  {
  }

  lemma OpenedEmptyLive(t: Table, c: ConnId, k: string)
    requires IsAbs(t.root)
    ensures LiveAt(t.(watches := t.watches[c := EntriesOf(t, c)]), k) == LiveAt(t, k)
  {
    hide Join;
  }

  /** A recursive watch that is answered with a subscription names an existing directory: WalkDir
      then visits it. */
  ghost predicate NamesDirectory(t: Table, e: Step)
    requires IsAbs(t.root)
  {
    e.Watch? && e.recursive && Accepted(t, e) ==> Key(t, e.path) in e.walk
  }

  /** Accepting a subscription keeps the counts sufficient exactly if it adds one for its own path,
      or repeats a subscription, or the path had a count to spare. */
  lemma WatchCoversExactly(t: Table, e: Step)
    requires WellFormed(t) && Covers(t) && e.Watch? && Accepted(t, e)
    ensures var k := Key(t, e.path);
            Covers(AfterWatch(t, e)) <==>
              k in Added(t, e) || (e.conn, e.path) in LiveAt(t, k) || |LiveAt(t, k)| < Count(t.watched, k)
  {
    hide Join, Resolve, AddPaths, AfterWatch, LiveAt, Added, WellFormed;
    var k, t' := Key(t, e.path), AfterWatch(t, e);
    forall j { WatchChanges(t, e, j); }
    assert t'.root == t.root;
    assert k in Added(t, e) <==> multiset(Added(t, e))[k] > 0;
    assert Covers(t') ==> |LiveAt(t', k)| <= Count(t'.watched, k);
    assert |LiveAt(t, k)| <= Count(t.watched, k);
    if k in Added(t, e) || (e.conn, e.path) in LiveAt(t, k) || |LiveAt(t, k)| < Count(t.watched, k) {
      forall j ensures |LiveAt(t', j)| <= Count(t'.watched, j) {
        assert |LiveAt(t, j)| <= Count(t.watched, j);
      }
    }
  }

  /** One accepted Watch, path by path. */
  lemma WatchChanges(t: Table, e: Step, j: string)
    requires IsAbs(t.root) && e.Watch? && Accepted(t, e)
    ensures var t', isNew := AfterWatch(t, e), Key(t, e.path) == j && (e.conn, e.path) !in LiveAt(t, j);
            && t'.root == t.root
            && |LiveAt(t', j)| == |LiveAt(t, j)| + (if isNew then 1 else 0)
            && Count(t'.watched, j) == Count(t.watched, j) + multiset(Added(t, e))[j]
  {
    hide Join, Resolve, AddPaths, AfterWatch;
    AfterWatchSplit(t, e);
    var t1 := Subscribed(t, e);
    AddPathsCounts(t1, Added(t, e));
    LiveAtSubscribed(t, e, j);
    SameWatchesSameLive(t1, AfterWatch(t, e), j);
    if Key(t, e.path) == j && (e.conn, e.path) in LiveAt(t, j) {
      assert LiveAt(t, j) + {(e.conn, e.path)} == LiveAt(t, j);
    }
  }

  lemma CoversKept(t: Table, e: Step, t': Table)
    requires WellFormed(t) && Covers(t) && NamesDirectory(t, e) && Next(t, e, t')
    ensures Covers(t')
  {
    hide Join, Resolve, AddPaths, AfterWatch, LiveAt, PathsAt;
    match e {
      case Watch(c, path, recursive, walk, initFails) =>
        if Accepted(t, e) {
          WatchCoversExactly(t, e);
        } else {
          AfterWatchSplit(t, e);
          forall k ensures |LiveAt(t', k)| <= Count(t'.watched, k) {
            OpenedEmptyLive(t, c, k);
            SameWatchesSameLive(t.(watches := t'.watches), t', k);
          }
        }
      case Disconnect(c) =>
        forall k ensures |LiveAt(t', k)| <= Count(t'.watched, k) {
          LiveAtWithout(t, c, k);
          SameWatchesSameLive(t.(watches := t.watches - {c}), t', k);
        }
      case AutoAdd(walk) =>
        if t.watcher == Live { AddPathsCounts(t, walk); }
        forall k ensures |LiveAt(t', k)| <= Count(t'.watched, k) { SameWatchesSameLive(t, t', k); }
      case Vanish(_) =>
        forall k ensures |LiveAt(t', k)| <= Count(t'.watched, k) { SameWatchesSameLive(t, t', k); }
      case Stop =>
        forall k ensures |LiveAt(t', k)| <= Count(t'.watched, k) { NothingLive(t', k); }
    }
  }

  lemma NothingLive(t: Table, k: string)
    requires IsAbs(t.root) && forall c :: c in t.watches ==> t.watches[c] == map[]
    ensures LiveAt(t, k) == {}
  {
  }

  lemma BalancedKept(t: Table, e: Step, t': Table)
    requires WellFormed(t) && Covers(t) && Balanced(t) && Next(t, e, t')
    ensures Balanced(t')
  {
    hide Join, Resolve, AddPaths, AfterWatch, LiveAt, PathsAt;
    match e {
      case Watch(_, _, _, _, _) =>
        AfterWatchSplit(t, e);
        AddPathsCounts(Subscribed(t, e), Added(t, e));
      case Disconnect(c) =>
        forall k ensures t.watcher == Live ==> Count(t'.watched, k) + t'.removes[k] == t'.adds[k] {
          LiveAtWithout(t, c, k);
          assert |PathsAt(t, c, k)| <= |LiveAt(t, k)| <= Count(t.watched, k);
        }
      case AutoAdd(walk) =>
        AddPathsCounts(t, walk);
      case Vanish(_) =>
      case Stop =>
    }
  }

  ghost predicate Sound(t: Table) {
    WellFormed(t) && Covers(t) && Balanced(t)
  }

  /** In every run whose recursive watches name existing directories, the counts are adds minus
      removes without truncation and cover the live subscriptions, in every state. */
  lemma {:induction false} RunIsSound(root: string, es: seq<Step>, ts: seq<Table>, n: nat)
    requires IsRun(root, es, ts) && n <= |es|
    requires forall i :: 0 <= i < n ==> NamesDirectory(ts[i], es[i])
    ensures Sound(ts[n])
  {
    if n == 0 {
      forall k ensures LiveAt(ts[0], k) == {} { NothingLive(ts[0], k); }
    } else {
      hide Next, WellFormed, Covers, Balanced, NamesDirectory;
      RunIsSound(root, es, ts, n - 1);
      var t, e, t' := ts[n - 1], es[n - 1], ts[n];
      assert NamesDirectory(t, e) && Next(t, e, t');
      OneMoreStep(t, e, t');
    }
  }

  lemma OneMoreStep(t: Table, e: Step, t': Table)
    requires Sound(t) && NamesDirectory(t, e) && Next(t, e, t')
    ensures Sound(t')
  {
    hide Next, Covers, Balanced, NamesDirectory, CountsFormed, EntriesFormed;
    WellFormedKept(t, e, t');
    CoversKept(t, e, t');
    BalancedKept(t, e, t');
  }

  lemma OthersCount(t: Table, c: ConnId, other: ConnId, path: string)
    requires IsAbs(t.root) && other != c && path in EntriesOf(t, other)
    ensures |PathsAt(t, c, Key(t, path))| < |LiveAt(t, Key(t, path))|
  {
    hide Join;
    var k := Key(t, path);
    LiveAtWithout(t, c, k);
    var left := t.(watches := t.watches - {c});
    assert (other, path) in LiveAt(left, k);
    assert LiveAt(left, k) != {};
  }

  /** A path with counts to spare outlives the removals of one connection. */
  lemma CountOutlives(t: Table, c: ConnId, t': Table, k: string)
    requires WellFormed(t) && t.watcher == Live && AfterDisconnect(t, c, t') && |PathsAt(t, c, k)| < Count(t.watched, k)
    ensures k in t'.watched && (k in t'.observed <==> k in t.observed)
  {
    hide Join, Resolve, PathsAt;
    assert RemovedAt(t, |PathsAt(t, c, k)|, t', k);
  }

  /** So a disconnect never un-watches a path somebody else is subscribed to: its count stays, and fsnotify
      watches it if it did before. */
  lemma DisconnectSparesOthers(t: Table, c: ConnId, t': Table, other: ConnId, path: string)
    requires IsAbs(t.root)
    ensures Sound(t) && Next(t, Disconnect(c), t') && other != c && path in EntriesOf(t, other) ==>
              && EntriesOf(t', other) == EntriesOf(t, other) && Key(t, path) in t'.watched
              && (Key(t, path) in t'.observed <==> Key(t, path) in t.observed)
  {
    if Sound(t) && Next(t, Disconnect(c), t') && other != c && path in EntriesOf(t, other) {
      var k := Key(t, path);
      assert t.watcher == Live by { assert FormedFor(t.root, t.watches[other], t.watcher); }
      assert |LiveAt(t, k)| <= Count(t.watched, k);
      assert EntriesOf(t', other) == EntriesOf(t, other) && WellFormed(t) && AfterDisconnect(t, c, t');
      hide *;
      OthersCount(t, c, other, path);
      CountOutlives(t, c, t', k);
    }
  }

  // ---- What fsnotify really watches ----------------------------------------------------------

  lemma {:induction false} AddPathsObserves(t: Table, ks: seq<string>, k: string)
    ensures k in AddPaths(t, ks).observed <==> k in t.observed || (k in ks && Count(t.watched, k) == 0)
  {
    if ks != [] {
      var init := ks[..|ks| - 1];
      AddPathsObserves(t, init, k);
      AddPathsCounts(t, init);
      assert ks == init + [ks[|ks| - 1]];
    }
  }

  /** fsnotify is asked for a path only when its count rises from nothing. */
  lemma ObservedStep(t: Table, e: Step, t': Table, k: string)
    requires WellFormed(t) && Next(t, e, t')
    ensures k in t'.observed <==> k in t'.watched && (k in t.watched ==> k in t.observed) && e != Vanish(k)
  {
    hide Join, Resolve, AddPaths, AfterWatch, LiveAt, PathsAt;
    match e {
      case Watch(_, _, _, _, _) =>
        AfterWatchSplit(t, e);
        AddPathsObserves(Subscribed(t, e), Added(t, e), k);
        AddPathsCounts(Subscribed(t, e), Added(t, e));
        AddedMeansCounted(Subscribed(t, e), Added(t, e), k);
      case Disconnect(c) =>
        assert t.watcher == Live ==> RemovedAt(t, |PathsAt(t, c, k)|, t', k);
      case AutoAdd(walk) =>
        AddPathsObserves(t, walk, k);
        AddPathsCounts(t, walk);
        AddedMeansCounted(t, walk, k);
      case Vanish(_) =>
      case Stop =>
    }
  }

  lemma AddedMeansCounted(t: Table, ks: seq<string>, k: string)
    requires forall j :: j in t.watched ==> t.watched[j] > 0
    ensures k in AddPaths(t, ks).watched <==> k in t.watched || k in ks
  {
    AddPathsPositive(t, ks, k);
    AddPathsCounts(t, ks);
    assert k in ks <==> multiset(ks)[k] > 0;
  }

  lemma {:induction false} AddPathsPositive(t: Table, ks: seq<string>, k: string)
    requires k in t.watched ==> t.watched[k] > 0
    ensures k in AddPaths(t, ks).watched ==> AddPaths(t, ks).watched[k] > 0
  {
    if ks != [] { AddPathsPositive(t, ks[..|ks| - 1], k); }
  }

  /** Its count rose from nothing at step `i`, has not been back there since, and the path has not
      vanished since. */
  ghost predicate WatchedSince(es: seq<Step>, ts: seq<Table>, i: nat, n: nat, k: string)
    requires n <= |es| && |ts| == |es| + 1
  {
    && i < n && k !in ts[i].watched
    && (forall j :: i < j <= n ==> k in ts[j].watched)
    && (forall j :: i < j < n ==> es[j] != Vanish(k))
  }

  lemma {:induction false} RunIsFormed(root: string, es: seq<Step>, ts: seq<Table>, n: nat)
    requires IsRun(root, es, ts) && n <= |es|
    ensures WellFormed(ts[n])
  {
    if n > 0 {
      RunIsFormed(root, es, ts, n - 1);
      assert Next(ts[n - 1], es[n - 1], ts[n]);
      WellFormedKept(ts[n - 1], es[n - 1], ts[n]);
    }
  }

  ghost predicate NotVanished(es: seq<Step>, ts: seq<Table>, n: nat, k: string)
    requires n <= |es| && |ts| == |es| + 1
  {
    exists i: nat :: WatchedSince(es, ts, i, n, k)
  }

  lemma SinceStep(es: seq<Step>, ts: seq<Table>, n: nat, k: string)
    requires 0 < n <= |es| && |ts| == |es| + 1
    requires es[n - 1].Vanish? ==> ts[n].watched == ts[n - 1].watched
    ensures NotVanished(es, ts, n, k) <==>
              k in ts[n].watched && (k in ts[n - 1].watched ==> NotVanished(es, ts, n - 1, k)) && es[n - 1] != Vanish(k)
  {
    if i: nat :| WatchedSince(es, ts, i, n, k) {
      if i < n - 1 { assert WatchedSince(es, ts, i, n - 1, k); }
    }
    if k in ts[n].watched && es[n - 1] != Vanish(k) {
      var m := n - 1;
      if i: nat :| WatchedSince(es, ts, i, m, k) { assert WatchedSince(es, ts, i, n, k); }
      if k !in ts[n - 1].watched { assert WatchedSince(es, ts, n - 1, n, k); }
    }
  }

  lemma ObservedRunStep(root: string, es: seq<Step>, ts: seq<Table>, n: nat, k: string)
    requires IsRun(root, es, ts) && 0 < n <= |es|
    ensures |ts| == |es| + 1
    ensures k in ts[n].observed <==>
              k in ts[n].watched && (k in ts[n - 1].watched ==> k in ts[n - 1].observed) && es[n - 1] != Vanish(k)
    ensures es[n - 1].Vanish? ==> ts[n].watched == ts[n - 1].watched
    ensures k in ts[n - 1].observed ==> k in ts[n - 1].watched
  {
    RunIsFormed(root, es, ts, n - 1);
    assert Next(ts[n - 1], es[n - 1], ts[n]);
    ObservedStep(ts[n - 1], es[n - 1], ts[n], k);
    hide IsRun, EntriesFormed;
  }

  /** In every run fsnotify watches a path exactly if it has not vanished since its count last rose from
      nothing. */
  lemma {:induction false} ObservedExactly(root: string, es: seq<Step>, ts: seq<Table>, n: nat, k: string)
    requires IsRun(root, es, ts) && n <= |es|
    ensures k in ts[n].observed <==> NotVanished(es, ts, n, k)
  {
    if n > 0 {
      ObservedRunStep(root, es, ts, n, k);
      hide IsRun, NotVanished;
      ObservedExactly(root, es, ts, n - 1, k);
      SinceStep(es, ts, n, k);
    }
  }

  /** While a path stays counted, vanishing is all that can happen to its watch. */
  lemma {:induction false} ObservedWhileCounted(root: string, es: seq<Step>, ts: seq<Table>, m: nat, n: nat, k: string)
    requires IsRun(root, es, ts) && m <= n <= |es| && forall i :: m <= i <= n ==> k in ts[i].watched
    ensures k in ts[n].observed <==> k in ts[m].observed && forall i :: m <= i < n ==> es[i] != Vanish(k)
    decreases n - m
  {
    if m < n {
      ObservedRunStep(root, es, ts, n, k);
      hide IsRun;
      ObservedWhileCounted(root, es, ts, m, n - 1, k);
    }
  }

  /** As long as nothing vanishes, it watches exactly what is counted. */
  lemma {:induction false} NothingVanished(root: string, es: seq<Step>, ts: seq<Table>, n: nat)
    requires IsRun(root, es, ts) && n <= |es| && forall i :: 0 <= i < n ==> !es[i].Vanish?
    ensures ts[n].observed == ts[n].watched.Keys
  {
    if n > 0 {
      NothingVanished(root, es, ts, n - 1);
      forall k ensures k in ts[n].observed <==> k in ts[n].watched { ObservedRunStep(root, es, ts, n, k); }
      hide IsRun;
    }
  }

  // ---- What is left when nobody is subscribed ------------------------------------------------

  /** Counts at a path beyond its live subscriptions. */
  function Surplus(t: Table, k: string): int
    requires IsAbs(t.root)
  {
    Count(t.watched, k) - |LiveAt(t, k)|
  }

  /** The counts a step adds at a path beyond those of a subscription that is new to its connection. */
  function Extra(t: Table, e: Step, k: string): int
    requires IsAbs(t.root)
  {
    match e
    case Watch(c, path, _, _, _) =>
      if Accepted(t, e) then multiset(Added(t, e))[k] - One(Key(t, path) == k && path !in EntriesOf(t, c)) else 0
    case AutoAdd(walk) => if t.watcher == Live then multiset(walk)[k] else 0
    case _ => 0
  }

  lemma LiveMeansEntry(t: Table, c: ConnId, path: string, k: string)
    requires IsAbs(t.root)
    ensures (c, path) in LiveAt(t, k) <==> path in EntriesOf(t, c) && Key(t, path) == k
  {
    hide Join;
  }

  /** Subscribing and disconnecting keep the surplus; what a step adds too much stays. */
  lemma SurplusStep(t: Table, e: Step, t': Table, k: string)
    requires WellFormed(t) && Covers(t) && NamesDirectory(t, e) && Next(t, e, t') && !e.Stop?
    ensures t'.root == t.root && Extra(t, e, k) >= 0 && Surplus(t', k) == Surplus(t, k) + Extra(t, e, k)
  {
    hide Join, Resolve, AddPaths, AfterWatch, LiveAt, PathsAt, WellFormed;
    match e {
      case Watch(c, path, recursive, walk, initFails) =>
        AfterWatchSplit(t, e);
        if Accepted(t, e) {
          WatchChanges(t, e, k);
          LiveMeansEntry(t, c, path, k);
        } else {
          OpenedEmptyLive(t, c, k);
          SameWatchesSameLive(t.(watches := t'.watches), t', k);
        }
      case Disconnect(c) =>
        LiveAtWithout(t, c, k);
        SameWatchesSameLive(t.(watches := t.watches - {c}), t', k);
        assert |LiveAt(t, k)| <= Count(t.watched, k);
        DisconnectCounts(t, c, t', k);
      case AutoAdd(walk) =>
        if t.watcher == Live { AddPathsCounts(t, walk); }
        SameWatchesSameLive(t, t', k);
      case Vanish(_) => SameWatchesSameLive(t, t', k);
      case Stop =>
    }
  }

  lemma DisconnectCounts(t: Table, c: ConnId, t': Table, k: string)
    requires WellFormed(t) && AfterDisconnect(t, c, t') && |PathsAt(t, c, k)| <= Count(t.watched, k)
    ensures Count(t'.watched, k) == Count(t.watched, k) - |PathsAt(t, c, k)|
  {
    hide Join, Resolve;
    if t.watcher == Live {
      assert RemovedAt(t, |PathsAt(t, c, k)|, t', k);
    } else {
      assert c in t.watches ==> FormedFor(t.root, t.watches[c], t.watcher);
      assert PathsAt(t, c, k) == {};
    }
  }

  /** A run whose recursive watches name existing directories, without Stop, up to state `n`. */
  ghost predicate Steady(root: string, es: seq<Step>, ts: seq<Table>, n: nat) {
    && IsRun(root, es, ts) && n <= |es|
    && forall i :: 0 <= i < n ==> !es[i].Stop? && NamesDirectory(ts[i], es[i])
  }

  lemma {:induction false} SurplusRun(root: string, es: seq<Step>, ts: seq<Table>, m: nat, n: nat, k: string)
    requires Steady(root, es, ts, n) && m <= n
    ensures IsAbs(ts[m].root) && IsAbs(ts[n].root) && Surplus(ts[m], k) <= Surplus(ts[n], k)
    ensures Surplus(ts[m], k) == Surplus(ts[n], k) <==>
              forall i :: m <= i < n ==> IsAbs(ts[i].root) && Extra(ts[i], es[i], k) == 0
    decreases n - m
  {
    RunIsSound(root, es, ts, n);
    if m < n {
      SurplusRun(root, es, ts, m, n - 1, k);
      RunIsSound(root, es, ts, n - 1);
      var t, e := ts[n - 1], es[n - 1];
      assert NamesDirectory(t, e) && Next(t, e, ts[n]);
      hide Next, Sound, NamesDirectory, Surplus, Extra, IsRun;
      SurplusStep(t, e, ts[n], k);
      SurplusSum(t, e, ts[n], k);
    }
  }

  lemma SurplusSum(t: Table, e: Step, t': Table, k: string)
    requires IsAbs(t.root) && t'.root == t.root && Surplus(t', k) == Surplus(t, k) + Extra(t, e, k)
             && Extra(t, e, k) >= 0
    ensures Surplus(t, k) <= Surplus(t', k) && (Surplus(t, k) == Surplus(t', k) <==> Extra(t, e, k) == 0)
  {
  }

  /** With the first state there is nothing to spare. */
  lemma NoSurplusAtFirst(root: string, k: string)
    requires IsAbs(root)
    ensures Surplus(Init(root), k) == 0
  {
    NothingLive(Init(root), k);
  }

  /** A path nobody is subscribed to stays counted exactly if some step of the run added a count to it
      that was not that of a new subscription. */
  lemma StaysCountedExactly(root: string, es: seq<Step>, ts: seq<Table>, n: nat, k: string)
    requires Steady(root, es, ts, n)
    ensures IsAbs(ts[n].root) && (LiveAt(ts[n], k) == {} ==>
              (k in ts[n].watched <==> exists i :: 0 <= i < n && IsAbs(ts[i].root) && Extra(ts[i], es[i], k) > 0))
  {
    RunIsSound(root, es, ts, n);
    NoSurplusAtFirst(root, k);
    SurplusRun(root, es, ts, 0, n, k);
    forall i | 0 <= i < n ensures IsAbs(ts[i].root) && Extra(ts[i], es[i], k) >= 0
    {
      ExtraIsNatural(root, es, ts, i, n, k);
    }
    assert CountsFormed(ts[n]);
    hide Steady, IsRun, Sound, Extra, LiveAt;
  }

  lemma ExtraIsNatural(root: string, es: seq<Step>, ts: seq<Table>, i: nat, n: nat, k: string)
    requires Steady(root, es, ts, n) && i < n
    ensures IsAbs(ts[i].root) && Extra(ts[i], es[i], k) >= 0
  {
    RunIsSound(root, es, ts, i);
    assert NamesDirectory(ts[i], es[i]) && Next(ts[i], es[i], ts[i + 1]);
    SurplusStep(ts[i], es[i], ts[i + 1], k);
  }

  /** And it stays counted for ever: in every later state, whoever comes and goes, until Stop.  So
      nobody ever asks fsnotify for it again: it is watched as long as it does not vanish. */
  lemma CountedForEver(root: string, es: seq<Step>, ts: seq<Table>, m: nat, n: nat, k: string)
    requires Steady(root, es, ts, n) && m < n && IsAbs(ts[m].root) && Extra(ts[m], es[m], k) > 0
    ensures k in ts[n].watched
    ensures k in ts[n].observed <==> k in ts[m + 1].observed && forall i :: m < i < n ==> es[i] != Vanish(k)
  {
    forall i | m < i <= n ensures k in ts[i].watched { CountedAfter(root, es, ts, m, i, k); }
    ObservedWhileCounted(root, es, ts, m + 1, n, k);
    hide Extra, IsRun;
  }

  lemma CountedAfter(root: string, es: seq<Step>, ts: seq<Table>, m: nat, n: nat, k: string)
    requires Steady(root, es, ts, n) && m < n && IsAbs(ts[m].root) && Extra(ts[m], es[m], k) > 0
    ensures k in ts[n].watched
  {
    RunIsSound(root, es, ts, m);
    RunIsSound(root, es, ts, n);
    assert |LiveAt(ts[m], k)| <= Count(ts[m].watched, k);
    SurplusRun(root, es, ts, m, n, k);
    assert CountsFormed(ts[n]);
    hide Steady, IsRun, Sound, Extra, LiveAt;
  }

  /** That is the fate of every other directory a recursive watch walks ... */
  lemma SubdirectoryStays(root: string, es: seq<Step>, ts: seq<Table>, m: nat, n: nat, sub: string)
    requires Steady(root, es, ts, n) && m < n && IsAbs(ts[m].root)
    requires es[m].Watch? && es[m].recursive && Accepted(ts[m], es[m])
             && sub in es[m].walk && sub != Key(ts[m], es[m].path)
    ensures sub in ts[n].watched
    ensures sub in ts[n].observed <==> sub in ts[m + 1].observed && forall i :: m < i < n ==> es[i] != Vanish(sub)
  {
    assert |ts| == |es| + 1;
    assert Extra(ts[m], es[m], sub) > 0 by { hide Join, Resolve, Steady, IsRun, NamesDirectory; }
    hide *;
    CountedForEver(root, es, ts, m, n, sub);
  }

  /** ... and of every path one connection watches twice. */
  lemma RewatchedStays(root: string, es: seq<Step>, ts: seq<Table>, m: nat, n: nat)
    requires Steady(root, es, ts, n) && m < n && IsAbs(ts[m].root)
    requires es[m].Watch? && Accepted(ts[m], es[m]) && es[m].path in EntriesOf(ts[m], es[m].conn)
    ensures var k := Key(ts[m], es[m].path);
            && k in ts[n].watched
            && (k in ts[n].observed <==> k in ts[m + 1].observed && forall i :: m < i < n ==> es[i] != Vanish(k))
  {
    var k := Key(ts[m], es[m].path);
    assert |ts| == |es| + 1;
    assert NamesDirectory(ts[m], es[m]);
    assert Extra(ts[m], es[m], k) > 0 by { hide Join, Resolve, Steady, IsRun; }
    hide *;
    CountedForEver(root, es, ts, m, n, k);
  }

  /** A directory that was added inside a recursive watch, was deleted and is created again is never
      watched again, whoever is subscribed, until Stop: its old count keeps it from being added. */
  lemma RecreatedNeverWatched(root: string, es: seq<Step>, ts: seq<Table>, i: nat, m: nat, n: nat, k: string)
    requires Steady(root, es, ts, n) && i < m < n && IsAbs(ts[i].root) && Extra(ts[i], es[i], k) > 0
    requires es[m] == Vanish(k)
    ensures k in ts[n].watched && k !in ts[n].observed
  {
    CountedForEver(root, es, ts, i, n, k);
  }

  /** A step that adds no more than it should: one count for a subscription that is new to its
      connection, and no directory on its own account. */
  ghost predicate Tidy(t: Table, e: Step)
    requires IsAbs(t.root)
  {
    match e
    case Watch(c, path, _, _, _) =>
      Accepted(t, e) ==> path !in EntriesOf(t, c) && multiset(Added(t, e)) == multiset{Key(t, path)}
    case AutoAdd(walk) => t.watcher == Live ==> walk == []
    case _ => true
  }

  lemma TidyExactly(t: Table, e: Step)
    requires IsAbs(t.root) && NamesDirectory(t, e)
    ensures Tidy(t, e) <==> forall k :: Extra(t, e, k) == 0
  {
    hide Join, Resolve;
    match e {
      case Watch(c, path, _, _, _) =>
        if Accepted(t, e) {
          var k := Key(t, path);
          assert multiset(Added(t, e))[k] > 0;
          if forall j :: Extra(t, e, j) == 0 {
            assert Extra(t, e, k) == 0;
            forall j ensures multiset(Added(t, e))[j] == multiset{k}[j] { assert Extra(t, e, j) == 0; }
          }
        }
      case AutoAdd(walk) =>
        if t.watcher == Live && walk != [] { assert Extra(t, e, walk[0]) == multiset(walk)[walk[0]] > 0; }
      case Disconnect(_) =>
      case Vanish(_) =>
      case Stop =>
    }
  }

  /** A step keeps the counts equal to the numbers of live subscriptions exactly if it is tidy or Stop. */
  lemma ExactKept(t: Table, e: Step, t': Table)
    requires WellFormed(t) && Exact(t) && NamesDirectory(t, e) && Next(t, e, t')
    ensures Exact(t') <==> e.Stop? || Tidy(t, e)
  {
    ExactMeansNoSurplus(t);
    if e.Stop? {
      forall k ensures |LiveAt(t', k)| == Count(t'.watched, k) { if t'.watches == map[] { NothingLive(t', k); } }
    } else {
      assert IsAbs(t.root) && Covers(t);
      TidyExactly(t, e);
      hide Next, WellFormed, NamesDirectory, Tidy, Exact, Extra, Surplus;
      SurplusStep(t, e, t', "");
      forall k ensures Surplus(t', k) == Surplus(t, k) + Extra(t, e, k) { SurplusStep(t, e, t', k); }
      ExactMeansNoSurplus(t');
    }
  }

  /** A run of recursive watches of existing directories leaves nothing counted when the last
      subscription goes, and its counts are the numbers of live subscriptions, exactly if it was stopped
      or all its steps were tidy.  If nothing vanished, the same goes for what is watched. */
  lemma NothingLeftExactly(root: string, es: seq<Step>, ts: seq<Table>, n: nat)
    requires IsRun(root, es, ts) && n <= |es|
    requires forall i :: 0 <= i < n ==> NamesDirectory(ts[i], es[i])
    ensures WellFormed(ts[n])
    ensures var clean := (exists i :: 0 <= i < n && es[i].Stop?) || (forall i :: 0 <= i < n ==> Tidy(ts[i], es[i]));
            && (Exact(ts[n]) <==> clean)
            && ((forall c :: c in ts[n].watches ==> ts[n].watches[c] == map[]) ==>
                  && (ts[n].watched == map[] <==> clean)
                  && ((forall i :: 0 <= i < n ==> !es[i].Vanish?) ==> (ts[n].observed == {} <==> clean)))
  {
    RunIsSound(root, es, ts, n);
    if i :| 0 <= i < n && es[i].Stop? {
      StoppedIsExact(root, es, ts, i, n);
    } else {
      TidyRun(root, es, ts, n);
    }
    assert WellFormed(ts[n]);
    if forall i :: 0 <= i < n ==> !es[i].Vanish? { NothingVanished(root, es, ts, n); }
    if forall c :: c in ts[n].watches ==> ts[n].watches[c] == map[] { ExactAndEmpty(ts[n]); }
    hide Tidy, NamesDirectory, IsRun, Sound, Exact, WellFormed;
  }

  lemma SurplusFromFirst(root: string, es: seq<Step>, ts: seq<Table>, n: nat, k: string)
    requires Steady(root, es, ts, n)
    ensures IsAbs(ts[n].root) && forall i :: 0 <= i < n ==> IsAbs(ts[i].root)
    ensures Surplus(ts[n], k) == 0 <==> forall i :: 0 <= i < n ==> Extra(ts[i], es[i], k) == 0
  {
    NoSurplusAtFirst(root, k);
    SurplusRun(root, es, ts, 0, n, k);
    hide Surplus, Extra;
  }

  lemma TidyRun(root: string, es: seq<Step>, ts: seq<Table>, n: nat)
    requires Steady(root, es, ts, n)
    ensures Exact(ts[n]) <==> forall i :: 0 <= i < n ==> IsAbs(ts[i].root) && Tidy(ts[i], es[i])
  {
    SurplusFromFirst(root, es, ts, n, "");
    assert |ts| == |es| + 1 && forall i :: 0 <= i < n ==> NamesDirectory(ts[i], es[i]);
    hide Tidy, NamesDirectory, IsRun, Steady, Extra, Surplus, Exact;
    ExactMeansNoSurplus(ts[n]);
    forall i | 0 <= i < n ensures Exact(ts[n]) ==> Tidy(ts[i], es[i]) {
      forall k ensures Exact(ts[n]) ==> Extra(ts[i], es[i], k) == 0 { SurplusFromFirst(root, es, ts, n, k); }
      TidyExactly(ts[i], es[i]);
    }
    if forall i :: 0 <= i < n ==> Tidy(ts[i], es[i]) {
      forall k ensures Surplus(ts[n], k) == 0 {
        forall i | 0 <= i < n ensures Extra(ts[i], es[i], k) == 0 { TidyExactly(ts[i], es[i]); }
        SurplusFromFirst(root, es, ts, n, k);
      }
    }
  }

  lemma ExactMeansNoSurplus(t: Table)
    requires IsAbs(t.root)
    ensures Exact(t) <==> forall k :: Surplus(t, k) == 0
  {
    hide LiveAt, Count;
    if forall k :: Surplus(t, k) == 0 {
      forall k ensures |LiveAt(t, k)| == Count(t.watched, k) { assert Surplus(t, k) == 0; }
    }
  }

  lemma {:induction false} StoppedIsExact(root: string, es: seq<Step>, ts: seq<Table>, i: nat, n: nat)
    requires IsRun(root, es, ts) && n <= |es| && i < n && es[i].Stop? && Sound(ts[n])
    ensures Exact(ts[n])
  {
    StaysStopped(root, es, ts, i, n);
    var t := ts[n];
    forall c | c in t.watches ensures t.watches[c] == map[] { assert FormedFor(t.root, t.watches[c], t.watcher); }
    forall k { NothingLive(t, k); }
  }

  lemma {:induction false} StaysStopped(root: string, es: seq<Step>, ts: seq<Table>, i: nat, n: nat)
    requires IsRun(root, es, ts) && n <= |es| && i < n && es[i].Stop?
    ensures ts[n].watcher == Stopped
    decreases n
  {
    var t, e := ts[n - 1], es[n - 1];
    assert Next(t, e, ts[n]);
    if i < n - 1 {
      StaysStopped(root, es, ts, i, n - 1);
      hide Join, Resolve, AddPaths, AfterWatch, PathsAt, IsRun;
      if e.Watch? { AfterWatchSplit(t, e); }
    }
  }

  ghost predicate Exact(t: Table) {
    IsAbs(t.root) && forall k :: |LiveAt(t, k)| == Count(t.watched, k)
  }

  lemma ExactAndEmpty(t: Table)
    requires Sound(t) && forall c :: c in t.watches ==> t.watches[c] == map[]
    ensures Exact(t) <==> t.watched == map[]
  {
    forall k { NothingLive(t, k); }
    if Exact(t) {
      forall k ensures k !in t.watched { assert |LiveAt(t, k)| == Count(t.watched, k); }
    }
  }

  /** In particular of runs whose subscriptions are all new to their connection and not recursive. */
  ghost predicate Plain(t: Table, e: Step)
    requires IsAbs(t.root)
  {
    && (e.Watch? && Accepted(t, e) ==> !e.recursive && e.path !in EntriesOf(t, e.conn))
    && (e.AutoAdd? ==> e.walk == [])
  }

  lemma PlainRunIsExact(root: string, es: seq<Step>, ts: seq<Table>, n: nat)
    requires IsRun(root, es, ts) && n <= |es|
    requires forall i :: 0 <= i < n ==> Plain(ts[i], es[i])
    ensures WellFormed(ts[n]) && Exact(ts[n])
    ensures (forall c :: c in ts[n].watches ==> ts[n].watches[c] == map[]) ==>
              ts[n].watched == map[] && ts[n].observed == {}
  {
    forall i | 0 <= i < n ensures NamesDirectory(ts[i], es[i]) && Tidy(ts[i], es[i]) {
      assert Plain(ts[i], es[i]);
      hide Join, Resolve, Next;
    }
    NothingLeftExactly(root, es, ts, n);
  }

  // ---- Runs in which the counts go wrong -------------------------------------------------------------

  /** A first Watch, spelled out: the counts of the paths it walks, on top of its one subscription. */
  lemma FirstWatch(t: Table, e: Step)
    requires IsAbs(t.root) && e.Watch? && !e.initFails && Resolve(t.root, e.path).Some?
    requires t == Init(t.root)
    ensures Accepted(t, e)
    ensures AfterWatch(t, e) ==
            AddPaths(t.(watcher := Live, watches := map[e.conn := map[e.path := Entry(e.path, e.recursive)]]),
                     Added(t, e))
  {
    hide Join, Resolve, AddPaths;
    AfterWatchSplit(t, e);
    assert EntriesOf(t, e.conn)[e.path := Entry(e.path, e.recursive)] == map[e.path := Entry(e.path, e.recursive)];
  }

  lemma AddFew(t: Table, a: string, b: string)
    ensures AddPaths(t, []) == t
    ensures AddPaths(t, [a]) == AddPath(t, a)
    ensures AddPaths(t, [a, b]) == AddPath(AddPath(t, a), b)
  {
    assert [a, b][..1] == [a] && [a][..0] == [];
  }

  lemma SinglePathAt(t: Table, c: ConnId, path: string, k: string)
    requires IsAbs(t.root) && EntriesOf(t, c).Keys == {path}
    ensures |PathsAt(t, c, k)| == if k == Key(t, path) then 1 else 0
  {
    hide Join;
    assert PathsAt(t, c, k) == if k == Key(t, path) then {path} else {};
  }

  lemma TwoSteps(t0: Table, e1: Step, t1: Table, e2: Step, t2: Table)
    requires IsAbs(t0.root) && t0 == Init(t0.root) && t1.root == t0.root && Next(t0, e1, t1) && Next(t1, e2, t2)
    ensures IsRun(t0.root, [e1, e2], [t0, t1, t2])
  {
    hide Next, Init;
  }

  lemma ThreeSteps(t0: Table, e1: Step, t1: Table, e2: Step, t2: Table, e3: Step, t3: Table)
    requires IsAbs(t0.root) && t0 == Init(t0.root) && t1.root == t0.root && t2.root == t0.root
    requires Next(t0, e1, t1) && Next(t1, e2, t2) && Next(t2, e3, t3)
    ensures IsRun(t0.root, [e1, e2, e3], [t0, t1, t2, t3])
  {
    hide Next, Init;
  }

  /** After a first recursive watch whose walk visits the given paths. */
  function Listening(root: string, c: ConnId, path: string, recursive: bool): Table {
    Init(root).(watcher := Live, watches := map[c := map[path := Entry(path, recursive)]])
  }

  lemma WatchWithSubdirectory(root: string, path: string, sub: string, c: ConnId)
    requires IsAbs(root) && Resolve(root, path).Some? && sub != Join(root, path)
    ensures AfterWatch(Init(root), Watch(c, path, true, [Join(root, path), sub], false))
         == Listening(root, c, path, true)
            .(watched := map[Join(root, path) := 1, sub := 1], observed := {Join(root, path), sub},
              adds := multiset{Join(root, path), sub})
  {
    hide Join, Resolve, AfterWatch, AddPaths;
    var key := Join(root, path);
    FirstWatch(Init(root), Watch(c, path, true, [key, sub], false));
    AddFew(Listening(root, c, path, true), key, sub);
    assert map[][key := 1][sub := 1] == map[key := 1, sub := 1];
  }

  lemma DropWithSubdirectory(root: string, path: string, sub: string, c: ConnId, t: Table)
    requires IsAbs(root) && sub != Join(root, path)
    requires var key := Join(root, path);
             t == Listening(root, c, path, true)
                  .(watched := map[key := 1, sub := 1], observed := {key, sub}, adds := multiset{key, sub})
    ensures AfterDisconnect(t, c, t.(watches := map[], dropped := {c}, watched := map[sub := 1], observed := {sub},
                                     removes := multiset{Join(root, path)}))
  {
    hide Join, PathsAt;
    forall k { SinglePathAt(t, c, path, k); }
    assert t.watches - {c} == map[];
  }

  /** The shortest such run: a recursive watch of a directory with a subdirectory, and a disconnect. */
  lemma SubdirectoryLeaks(root: string, path: string, sub: string, c: ConnId)
    requires IsAbs(root) && Resolve(root, path).Some? && sub != Join(root, path)
    ensures exists es: seq<Step>, ts: seq<Table> ::
              IsRun(root, es, ts) && |es| == 2 && NamesDirectory(ts[0], es[0])
              && ts[2].watches == map[] && sub in ts[2].observed
  {
    hide Join, Resolve, AfterWatch, AfterDisconnect, IsRun;
    var t0, key, e := Init(root), Join(root, path), Watch(c, path, true, [Join(root, path), sub], false);
    WatchWithSubdirectory(root, path, sub, c);
    var t1 := AfterWatch(t0, e);
    DropWithSubdirectory(root, path, sub, c, t1);
    var t2 := t1.(watches := map[], dropped := {c}, watched := map[sub := 1], observed := {sub},
              removes := multiset{key});
    TwoSteps(t0, e, t1, Disconnect(c), t2);
    assert NamesDirectory([t0, t1, t2][0], [e, Disconnect(c)][0]);
  }

  lemma WatchWithoutDirectory(root: string, path: string, a: ConnId)
    requires IsAbs(root) && Resolve(root, path).Some?
    ensures AfterWatch(Init(root), Watch(a, path, true, [], false)) == Listening(root, a, path, true)
  {
    hide Join, Resolve, AfterWatch, AddPaths;
    FirstWatch(Init(root), Watch(a, path, true, [], false));
    AddFew(Listening(root, a, path, true), "", "");
  }

  lemma SecondWatch(root: string, path: string, a: ConnId, b: ConnId)
    requires IsAbs(root) && Resolve(root, path).Some? && a != b
    ensures AfterWatch(Listening(root, a, path, true), Watch(b, path, false, [], false))
         == Listening(root, a, path, true)
            .(watches := map[a := map[path := Entry(path, true)], b := map[path := Entry(path, false)]],
              watched := map[Join(root, path) := 1], observed := {Join(root, path)}, adds := multiset{Join(root, path)})
  {
    hide Join, Resolve, AfterWatch, AddPaths;
    var t, e := Listening(root, a, path, true), Watch(b, path, false, [], false);
    AfterWatchSplit(t, e);
    assert EntriesOf(t, b)[path := Entry(path, false)] == map[path := Entry(path, false)];
    AddFew(Subscribed(t, e), Key(t, path), "");
    assert map[][Join(root, path) := 1] == map[Join(root, path) := 1];
  }

  lemma DropLosesCount(t: Table, a: ConnId, b: ConnId, path: string)
    requires IsAbs(t.root) && a != b && t.watcher == Live && t.watches.Keys == {a, b} && t.watches[a].Keys == {path}
    requires var key := Join(t.root, path); t.watched == map[key := 1] && t.observed == {key}
    requires t.removes == multiset{} && t.dropped == {}
    ensures AfterDisconnect(t, a, t.(watches := map[b := t.watches[b]], dropped := {a},
                                     watched := map[], observed := {},
                                     removes := multiset{Join(t.root, path)}))
  {
    hide Join, PathsAt;
    forall k { SinglePathAt(t, a, path, k); }
    assert t.watches - {a} == map[b := t.watches[b]];
  }

  /** A recursive watch of something that is no directory adds no count.  When its connection goes, it
      takes the count of another connection's watch of the same path. */
  lemma NonDirectoryLosesWatch(root: string, path: string, a: ConnId, b: ConnId)
    requires IsAbs(root) && Resolve(root, path).Some? && a != b
    ensures exists es: seq<Step>, ts: seq<Table> ::
              IsRun(root, es, ts) && |es| == 3
              && b in ts[3].watches && path in ts[3].watches[b] && Join(root, path) !in ts[3].observed
  {
    hide Join, Resolve, AfterWatch, AfterDisconnect, IsRun;
    var t0, t1 := Init(root), Listening(root, a, path, true);
    var e1, e2 := Watch(a, path, true, [], false), Watch(b, path, false, [], false);
    WatchWithoutDirectory(root, path, a);
    SecondWatch(root, path, a, b);
    var t2 := AfterWatch(t1, e2);
    DropLosesCount(t2, a, b, path);
    var t3 := t2.(watches := map[b := t2.watches[b]], dropped := {a}, watched := map[], observed := {},
                  removes := multiset{Join(root, path)});
    ThreeSteps(t0, e1, t1, e2, t2, Disconnect(a), t3);
    assert [t0, t1, t2, t3][3] == t3;
  }

  // ---- The connDropped flag ------------------------------------------------------------------

  /** When no connection watches after its disconnect, a dropped connection has no entries: the check
      of the flag in the event loop never makes a difference. */
  lemma {:induction false} DroppedHaveNoEntries(root: string, es: seq<Step>, ts: seq<Table>, n: nat)
    requires IsRun(root, es, ts) && n <= |es|
    requires forall i :: 0 <= i < n && es[i].Watch? ==> es[i].conn !in ts[i].dropped
    ensures ts[n].dropped !! ts[n].watches.Keys
  {
    if n > 0 {
      DroppedHaveNoEntries(root, es, ts, n - 1);
      var t, e, t' := ts[n - 1], es[n - 1], ts[n];
      assert Next(t, e, t');
      DroppedStep(t, e, t');
    }
  }

  lemma DroppedStep(t: Table, e: Step, t': Table)
    requires IsAbs(t.root) && Next(t, e, t') && t.dropped !! t.watches.Keys
    requires e.Watch? ==> e.conn !in t.dropped
    ensures t'.dropped !! t'.watches.Keys
  {
    hide Join, Resolve, AddPaths, AfterWatch, PathsAt;
    match e {
      case Watch(_, _, _, _, _) =>
        AfterWatchSplit(t, e);
        AddPathsCounts(Subscribed(t, e), Added(t, e));
      case Disconnect(c) =>
      case AutoAdd(walk) => AddPathsCounts(t, walk);
      case Vanish(_) =>
      case Stop =>
    }
  }
}
