/** The documented rules of Go's `path/filepath` on Unix for rooted paths, and the path sandbox built
    on them (`resolve` in `fs/handler.go`, `resolveCwd` in `pty/handler.go`). */
module Paths {
  import opened Wrappers

  const SLASH: char := '/'

  predicate SlashFree(c: string) {
    forall i :: 0 <= i < |c| ==> c[i] != SLASH
  }

  /** A component that names a directory entry. */
  predicate IsName(c: string) {
    SlashFree(c) && c != "" && c != "." && c != ".."
  }

  /** The position of a directory below "/": the names that lead to it. */
  predicate IsPlace(place: seq<string>) {
    forall i :: 0 <= i < |place| ==> IsName(place[i])
  }

  /** The pieces between slashes. */
  function Split(p: string): (r: seq<string>)
    ensures |r| > 0 && forall i :: 0 <= i < |r| ==> SlashFree(r[i])
  {
    if p == "" then [""] else Grow(p[0], Split(p[1..]))
  }

  /** One more character in front of some pieces. */
  function Grow(c: char, pieces: seq<string>): seq<string>
    requires pieces != []
  {
    if c == SLASH then [""] + pieces else [[c] + pieces[0]] + pieces[1..]
  }

  /** Where one component leads: empty ones and "." stay, ".." goes up and stays at the top. */
  function Move(place: seq<string>, c: string): seq<string> {
    if c == "" || c == "." then place
    else if c == ".." then (if place == [] then [] else place[..|place| - 1])
    else place + [c]
  }

  function Walk(place: seq<string>, cs: seq<string>): seq<string>
    decreases |cs|
  {
    if cs == [] then place else Walk(Move(place, cs[0]), cs[1..])
  }

  function Trail(place: seq<string>): string {
    if place == [] then "" else [SLASH] + place[0] + Trail(place[1..])
  }

  /** The canonical rooted path of a place. */
  function Path(place: seq<string>): string {
    if place == [] then [SLASH] else Trail(place)
  }

  predicate IsAbs(p: string) {
    p != "" && p[0] == SLASH
  }

  function Place(p: string): seq<string> {
    Walk([], Split(p))
  }

  function Clean(p: string): string
    requires IsAbs(p)
  {
    Path(Place(p))
  }

  /** `filepath.Join` ignores empty elements. */
  function Join(root: string, p: string): string
    requires IsAbs(root)
  {
    if p == "" then Clean(root) else Clean(root + [SLASH] + p)
  }

  function Ups(n: nat): seq<string> {
    seq(n, i => "..")
  }

  /** The steps from one place to another. */
  function Steps(base: seq<string>, targ: seq<string>): seq<string> {
    if base != [] && targ != [] && base[0] == targ[0] then Steps(base[1..], targ[1..])
    else Ups(|base|) + targ
  }

  function Slashed(cs: seq<string>): string
    requires cs != []
  {
    cs[0] + Trail(cs[1..])
  }

  /** `filepath.Rel` of two rooted paths; it cannot fail on those. */
  function Rel(base: string, targ: string): string
    requires IsAbs(base) && IsAbs(targ)
  {
    var steps := Steps(Place(base), Place(targ));
    if steps == [] then "." else Slashed(steps)
  }

  /** The test both sandboxes and the event filter apply to a relative path. */
  predicate LeadsOut(rel: string) {
    rel == ".." || HasPrefix(rel, "../")
  }

  /** `resolve`: None stands for its three errors. */
  function Resolve(root: string, p: string): Option<string>
    requires IsAbs(root)
  {
    if p == "" || IsAbs(p) then None
    else
      var clean := Clean(Join(root, p));
      var rootClean := Clean(root);
      if clean == rootClean then Some(clean)
      else if LeadsOut(Rel(rootClean, clean)) then None
      else Some(clean)
  }

  // ---- The algebra of places -----------------------------------------------------------------

  lemma {:induction false} WalkKeepsPlace(place: seq<string>, cs: seq<string>)
    requires IsPlace(place)
    requires forall i :: 0 <= i < |cs| ==> SlashFree(cs[i])
    ensures IsPlace(Walk(place, cs))
    decreases |cs|
  {
    if cs != [] { WalkKeepsPlace(Move(place, cs[0]), cs[1..]); }
  }

  lemma {:induction false} WalkAppend(place: seq<string>, a: seq<string>, b: seq<string>)
    ensures Walk(place, a + b) == Walk(Walk(place, a), b)
    decreases |a|
  {
    if a == [] {
      assert a + b == b;
    } else {
      assert (a + b)[0] == a[0] && (a + b)[1..] == a[1..] + b;
      WalkAppend(Move(place, a[0]), a[1..], b);
    }
  }

  lemma {:induction false} WalkNames(place: seq<string>, names: seq<string>)
    requires IsPlace(names)
    ensures Walk(place, names) == place + names
    decreases |names|
  {
    if names != [] {
      WalkNames(place + [names[0]], names[1..]);
      assert place + [names[0]] + names[1..] == place + names;
    }
  }

  lemma GrowAppend(c: char, a: seq<string>, b: seq<string>)
    requires a != []
    ensures Grow(c, a + b) == Grow(c, a) + b
  {
  }

  lemma SplitStep(c: char, p: string)
    ensures Split([c] + p) == Grow(c, Split(p))
  {
    assert ([c] + p)[1..] == p;
  }

  lemma {:induction false} SplitAtSlash(a: string, b: string)
    ensures Split(a + [SLASH] + b) == Split(a) + Split(b)
  {
    if a == "" {
      assert a + [SLASH] + b == [SLASH] + b;
      SplitStep(SLASH, b);
    } else {
      hide Split, Grow;
      var tail := a[1..] + [SLASH] + b;
      assert a + [SLASH] + b == [a[0]] + tail && [a[0]] + a[1..] == a;
      SplitAtSlash(a[1..], b);
      SplitStep(a[0], tail);
      SplitStep(a[0], a[1..]);
      GrowAppend(a[0], Split(a[1..]), Split(b));
    }
  }

  lemma {:induction false} SplitSlashFree(c: string)
    requires SlashFree(c)
    ensures Split(c) == [c]
  {
    if c != "" {
      SplitSlashFree(c[1..]);
      assert [c[0]] + c[1..] == c;
    }
  }

  lemma {:induction false} SplitTrail(c: string, place: seq<string>)
    requires SlashFree(c) && forall i :: 0 <= i < |place| ==> SlashFree(place[i])
    ensures Split(c + Trail(place)) == [c] + place
    decreases |place|
  {
    hide Split, SlashFree;
    SplitSlashFree(c);
    if place == [] {
      assert c + Trail(place) == c;
    } else {
      var rest := place[0] + Trail(place[1..]);
      SplitTrail(place[0], place[1..]);
      SplitAtSlash(c, rest);
      assert c + ([SLASH] + rest) == c + [SLASH] + rest;
      assert Trail(place) == [SLASH] + rest;
      assert [c] + ([place[0]] + place[1..]) == [c] + place;
    }
  }

  lemma PlaceOfPath(place: seq<string>)
    requires IsPlace(place)
    ensures IsAbs(Path(place)) && Place(Path(place)) == place
  {
    if place == [] {
      assert Split([SLASH]) == ["", ""] by { assert [SLASH][1..] == ""; }
      assert ["", ""][1..] == [""] && [""][1..] == [];
      assert Walk([], ["", ""]) == Walk([], [""]);
    } else {
      SplitTrail("", place);
      assert "" + Trail(place) == Trail(place) && ([""] + place)[1..] == place;
      WalkNames([], place);
    }
  }

  lemma PlaceIsPlace(p: string)
    ensures IsPlace(Place(p))
  {
    WalkKeepsPlace([], Split(p));
  }

  /** Equal canonical paths are equal places. */
  lemma PathInjective(a: seq<string>, b: seq<string>)
    requires IsPlace(a) && IsPlace(b) && Path(a) == Path(b)
    ensures a == b
  {
    PlaceOfPath(a);
    PlaceOfPath(b);
  }

  lemma PlaceOfClean(p: string)
    requires IsAbs(p)
    ensures IsAbs(Clean(p)) && Place(Clean(p)) == Place(p)
  {
    PlaceIsPlace(p);
    PlaceOfPath(Place(p));
  }

  lemma CleanIdempotent(p: string)
    requires IsAbs(p)
    ensures IsAbs(Clean(p)) && Clean(Clean(p)) == Clean(p)
  {
    PlaceOfClean(p);
  }

  /** Joining is walking on from the root. */
  lemma JoinWalks(root: string, p: string)
    requires IsAbs(root)
    ensures IsAbs(Join(root, p)) && Place(Join(root, p)) == Walk(Place(root), Split(p))
    ensures Join(root, p) == Path(Walk(Place(root), Split(p)))
  {
    hide Split, Path;
    if p == "" {
      PlaceOfClean(root);
      SplitSlashFree("");
      assert Walk(Place(root), [""]) == Walk(Place(root), []);
    } else {
      PlaceOfClean(root + [SLASH] + p);
      SplitAtSlash(root, p);
      WalkAppend([], Split(root), Split(p));
    }
  }

  // ---- Rel and the test on its result --------------------------------------------------------

  predicate Under(base: seq<string>, targ: seq<string>) {
    |base| <= |targ| && targ[..|base|] == base
  }

  lemma UnderFirst(a: seq<string>, b: seq<string>)
    requires a != []
    ensures Under(a, b) ==> b != [] && b[0] == a[0]
  {
    if Under(a, b) { assert b[..|a|][0] == b[0]; }
  }

  lemma UnderTail(a: seq<string>, b: seq<string>)
    requires a != [] && b != [] && a[0] == b[0]
    ensures Under(a, b) <==> Under(a[1..], b[1..])
  {
    if |a| <= |b| {
      assert b[..|a|] == [b[0]] + b[1..][..|a| - 1];
      assert a == [a[0]] + a[1..];
      assert b[1..][..|a| - 1] == b[..|a|][1..];
    }
  }

  lemma {:induction false} StepsFromAbove(base: seq<string>, targ: seq<string>)
    requires Under(base, targ)
    ensures Steps(base, targ) == targ[|base|..]
    decreases |base|
  {
    if base != [] {
      assert base[0] == targ[..|base|][0];
      assert targ[1..][..|base| - 1] == targ[..|base|][1..];
      StepsFromAbove(base[1..], targ[1..]);
    }
  }

  lemma {:induction false} StepsFromElsewhere(base: seq<string>, targ: seq<string>)
    requires !Under(base, targ)
    ensures Steps(base, targ) != [] && Steps(base, targ)[0] == ".."
    decreases |base|
  {
    if base != [] && targ != [] && base[0] == targ[0] {
      UnderTail(base, targ);
      StepsFromElsewhere(base[1..], targ[1..]);
    }
  }

  lemma LeadsOutText(s: string)
    ensures LeadsOut(s) <==> |s| >= 2 && s[0] == '.' && s[1] == '.' && (|s| == 2 || s[2] == SLASH)
  {
    if |s| > 2 { assert s[..3] == [s[0], s[1], s[2]]; }
    if |s| == 2 { assert s == [s[0], s[1]]; }
  }

  /** On strings the test asks whether the first component is "..". */
  lemma LeadsOutExactly(cs: seq<string>)
    requires cs != [] && forall i :: 0 <= i < |cs| ==> SlashFree(cs[i])
    ensures LeadsOut(Slashed(cs)) <==> cs[0] == ".."
  {
    var s := Slashed(cs);
    var tail := Trail(cs[1..]);
    assert forall i :: 0 <= i < |cs[0]| ==> s[i] == cs[0][i];
    assert tail != "" ==> tail[0] == SLASH && s[|cs[0]|] == SLASH;
    if cs[0] == ".." {
      if tail != "" { assert s[..3] == "../"; }
    } else {
      LeadsOutText(s);
      assert |cs[0]| == 2 ==> cs[0] == [cs[0][0], cs[0][1]];
    }
  }

  /** The relative path of two places leads out exactly if the target is not below the base. */
  lemma RelTellsUnder(base: string, targ: string)
    requires IsAbs(base) && IsAbs(targ)
    ensures LeadsOut(Rel(base, targ)) <==> !Under(Place(base), Place(targ))
  {
    var b, t := Place(base), Place(targ);
    PlaceIsPlace(base);
    PlaceIsPlace(targ);
    if Under(b, t) {
      StepsFromAbove(b, t);
      if |b| < |t| {
        LeadsOutExactly(t[|b|..]);
        assert t[|b|..][0] == t[|b|];
      }
    } else {
      StepsFromElsewhere(b, t);
      StepsSlashFree(b, t);
      LeadsOutExactly(Steps(b, t));
    }
  }

  lemma {:induction false} StepsSlashFree(base: seq<string>, targ: seq<string>)
    requires forall i :: 0 <= i < |targ| ==> SlashFree(targ[i])
    ensures forall i :: 0 <= i < |Steps(base, targ)| ==> SlashFree(Steps(base, targ)[i])
    decreases |base|
  {
    if base != [] && targ != [] && base[0] == targ[0] { StepsSlashFree(base[1..], targ[1..]); }
  }

  // ---- The sandbox ---------------------------------------------------------------------------

  /** `resolve` accepts exactly the non-empty relative paths whose walk from the root ends at or below
      the root.  What it returns is canonical and is the key `Join(Root, path)` computed again when
      the connection goes and when an event comes. */
  lemma ResolveExactly(root: string, p: string)
    requires IsAbs(root)
    ensures Resolve(root, p).Some? <==> p != "" && !IsAbs(p) && Under(Place(root), Walk(Place(root), Split(p)))
    ensures Resolve(root, p).Some? ==>
              var r := Resolve(root, p).value;
              IsAbs(r) && r == Join(root, p) && Clean(r) == r && Under(Place(root), Place(r))
  {
    hide Split;
    JoinWalks(root, p);
    var joined, rootClean := Join(root, p), Clean(root);
    PlaceOfClean(root);
    PlaceOfClean(joined);
    RelTellsUnder(rootClean, joined);
    PlaceIsPlace(joined);
    PlaceIsPlace(root);
    if joined == rootClean { PathInjective(Place(joined), Place(root)); }
  }

  /** The relative path the daemon reports for a place below the root resolves to that place. */
  lemma RelRoundTrip(root: string, place: seq<string>)
    requires IsAbs(root) && IsPlace(place) && Under(Place(root), place)
    ensures IsAbs(Path(place)) && Resolve(root, Rel(root, Path(place))) == Some(Path(place))
  {
    PlaceOfPath(place);
    PlaceIsPlace(root);
    hide Place, Split, Walk, Path, Steps, Slashed, Resolve, Join;
    var b := Place(root);
    var rel, names := Rel(root, Path(place)), place[|b|..];
    StepsFromAbove(b, place);
    StepsBelow(b, names);
    assert b + names == place;
    ResolveExactly(root, rel);
    JoinWalks(root, rel);
  }

  /** Walking the printed steps takes them. */
  lemma StepsBelow(base: seq<string>, names: seq<string>)
    requires IsPlace(names)
    ensures var rel := if names == [] then "." else Slashed(names);
            rel != "" && !IsAbs(rel) && Walk(base, Split(rel)) == base + names
  {
    if names == [] {
      SplitSlashFree(".");
      assert Walk(base, ["."]) == Walk(base, []);
    } else {
      hide Split, Trail;
      SplitTrail(names[0], names[1..]);
      assert [names[0]] + names[1..] == names;
      WalkNames(base, names);
      assert Slashed(names)[0] == names[0][0];
    }
  }

  /** `resolveCwd` on top of what `os.Stat` says of the result; the root itself is not looked at. */
  function ResolveCwd(root: string, p: string, isDir: string -> bool): Option<string>
    requires IsAbs(root)
  {
    if IsAbs(p) then None
    else
      var clean, rootClean := Clean(Join(root, p)), Clean(root);
      if clean == rootClean then Some(clean)
      else if LeadsOut(Rel(rootClean, clean)) then None
      else if isDir(clean) then Some(clean) else None
  }

  /** The lexical part of `resolveCwd` is `resolve`, except that the empty path means the root. */
  lemma ResolveCwdAgrees(root: string, p: string, isDir: string -> bool)
    requires IsAbs(root)
    ensures ResolveCwd(root, "", isDir) == Some(Clean(root))
    ensures p != "" && (Resolve(root, p).Some? ==>
              Resolve(root, p).value == Clean(root) || isDir(Resolve(root, p).value))
            ==> ResolveCwd(root, p, isDir) == Resolve(root, p)
    ensures ResolveCwd(root, p, isDir).Some? ==>
              var r := ResolveCwd(root, p, isDir).value;
              IsAbs(r) && Under(Place(root), Place(r)) && (isDir(r) || r == Clean(root))
  {
    CleanIdempotent(root);
    if p != "" { ResolveExactly(root, p); } else { PlaceOfClean(root); }
  }

  // ---- The string-prefix test ----------------------------------------------------------------

  lemma {:induction false} TrailPrefix(a: seq<string>, b: seq<string>)
    requires IsPlace(a) && IsPlace(b)
    ensures HasPrefix(Trail(b), Trail(a) + [SLASH]) <==> |a| < |b| && Under(a, b)
    decreases |a|
  {
    if a == [] {
      assert b != [] ==> Trail(b)[..1] == [SLASH];
    } else if b != [] {
      var x, y := Trail(a[1..]) + [SLASH], Trail(b[1..]);
      assert Trail(a) + [SLASH] == [SLASH] + a[0] + x;
      assert x[0] == SLASH && (y != "" ==> y[0] == SLASH);
      if a[0] == b[0] {
        TrailPrefix(a[1..], b[1..]);
        SamePrefix([SLASH] + a[0], x, y);
        assert Under(a, b) <==> Under(a[1..], b[1..]) by { UnderTail(a, b); }
      } else {
        if HasPrefix(Trail(b), Trail(a) + [SLASH]) { FirstNames(a[0], x, b[0], y); }
        UnderFirst(a, b);
      }
    }
  }

  lemma SamePrefix(pre: string, x: string, y: string)
    ensures HasPrefix(pre + y, pre + x) <==> HasPrefix(y, x)
  {
    if |x| <= |y| { assert (pre + y)[..|pre + x|] == pre + y[..|x|]; }
    assert (pre + x)[|pre|..] == x;
    if HasPrefix(pre + y, pre + x) { assert (pre + y[..|x|])[|pre|..] == y[..|x|]; }
  }

  /** Names that end where the next slash stands are told apart by the text. */
  lemma FirstNames(a: string, x: string, b: string, y: string)
    requires SlashFree(a) && SlashFree(b)
    requires x != "" && x[0] == SLASH && (y != "" ==> y[0] == SLASH)
    requires HasPrefix([SLASH] + b + y, [SLASH] + a + x)
    ensures a == b
  {
    var s, t := [SLASH] + b + y, [SLASH] + a + x;
    assert forall i :: 0 <= i < |t| ==> s[..|t|][i] == t[i];
    assert forall i :: 0 <= i < |t| ==> s[i] == t[i];
    assert forall i :: 0 <= i < |a| ==> t[1 + i] == a[i];
    assert forall i :: 0 <= i < |b| ==> s[1 + i] == b[i];
    assert t[1 + |a|] == SLASH;
    assert |s| > 1 + |b| ==> s[1 + |b|] == SLASH;
    assert !(|a| < |b|);
    assert !(|b| < |a|);
  }

  /** The test of the auto-add of new directories. */
  predicate TextuallyUnder(watch: string, event: string) {
    HasPrefix(event, watch + [SLASH]) || event == watch
  }

  lemma TwoSlashes(p: string)
    ensures HasPrefix(p, "//") <==> |p| >= 2 && p[0] == SLASH && p[1] == SLASH
  {
    if |p| >= 2 { assert p[..2] == [p[0], p[1]]; }
  }

  /** It agrees with `Rel` for every watched place but "/", which it finds under nothing but itself. */
  lemma TextuallyUnderExactly(watch: seq<string>, event: seq<string>)
    requires IsPlace(watch) && IsPlace(event)
    ensures TextuallyUnder(Path(watch), Path(event)) <==> Under(watch, event) && (watch != [] || event == [])
  {
    if Path(watch) == Path(event) { PathInjective(watch, event); }
    if watch == [] {
      TwoSlashes(Path(event));
      if event != [] { assert Path(event)[1] == event[0][0]; }
    } else {
      TrailPrefix(watch, event);
      if |watch| == |event| && Under(watch, event) { assert watch == event; }
      if event == [] { assert |Path(watch) + [SLASH]| > 1; }
    }
  }

  // ---- Funnel cards --------------------------------------------------------------------------

  /** `validateName` of `funnel/handler.go`. */
  predicate ValidName(name: string) {
    name != "" && SlashFree(name) && name[0] != '.'
  }

  function Join3(root: string, stage: string, name: string): string
    requires IsAbs(root) && stage != "" && name != ""
  {
    Clean(root + [SLASH] + stage + [SLASH] + name)
  }

  /** A card is two names below the funnel root. */
  lemma CardPlace(root: string, stage: string, name: string)
    requires IsAbs(root) && IsName(stage) && ValidName(name)
    ensures IsAbs(Join3(root, stage, name)) && Place(Join3(root, stage, name)) == Place(root) + [stage, name]
  {
    var tail := stage + [SLASH] + name;
    assert root + [SLASH] + stage + [SLASH] + name == root + [SLASH] + tail;
    assert tail == stage + Trail([name]);
    SplitTrail(stage, [name]);
    JoinWalks(root, tail);
    WalkNames(Place(root), [stage] + [name]);
    assert [stage] + [name] == [stage, name];
  }

  /** Distinct cards have distinct paths, all of them below the funnel root. */
  lemma CardPathsDistinct(root: string, stage: string, name: string, stage': string, name': string)
    requires IsAbs(root) && IsName(stage) && ValidName(name) && IsName(stage') && ValidName(name')
    ensures IsAbs(Join3(root, stage, name)) && Under(Place(root), Place(Join3(root, stage, name)))
    ensures Join3(root, stage, name) == Join3(root, stage', name') ==> stage == stage' && name == name'
  {
    CardPlace(root, stage, name);
    CardPlace(root, stage', name');
    var n := |Place(root)|;
    assert (Place(root) + [stage, name])[n..] == [stage, name];
    assert (Place(root) + [stage', name'])[n..] == [stage', name'];
    assert [stage, name][0] == stage && [stage, name][1] == name;
  }
}
