/** The promotion rules of the funnel (`funnel/handler.go`), their mirror in the browser
    (`frontend/src/lib/funnel.ts`), and what any run of promotions does to the cards. */
module Funnel {
  import opened Wrappers
  import opened Paths

  type Content = string
  type Dirs = map<string, map<string, Content>>

  const ARCHIVE := "archive"
  const STAGES: seq<string> := ["triage", "plans", "next-up", "executing", "completions", ARCHIVE]

  /** Distinct directory names that end in the archive. */
  predicate IsStageList(stages: seq<string>) {
    && stages != [] && stages[|stages| - 1] == ARCHIVE
    && (forall i :: 0 <= i < |stages| ==> IsName(stages[i]))
    && (forall i, j :: 0 <= i < j < |stages| ==> stages[i] != stages[j])
  }

  lemma StagesAreAList()
    ensures IsStageList(STAGES)
  {
  }

  function StageIndex(stages: seq<string>, stage: string): (i: int)
    ensures -1 <= i < |stages|
    ensures i >= 0 ==> stages[i] == stage && stage !in stages[..i]
    ensures i < 0 ==> stage !in stages
  {
    if stages == [] then -1
    else if stages[0] == stage then 0
    else
      var i := StageIndex(stages[1..], stage);
      assert i >= 0 ==> stages[..i + 1] == [stages[0]] + stages[1..][..i];
      if i < 0 then -1 else i + 1
  }

  method FindStage(stages: seq<string>, stage: string) returns (index: int)
    ensures index == StageIndex(stages, stage)
  {
    for i := 0 to |stages|
      invariant stage !in stages[..i]
    {
      if stages[i] == stage {
        return i;
      }
    }
    return -1;
  }

  predicate IsValidTransition(stages: seq<string>, from: string, to: string) {
    var fi, ti := StageIndex(stages, from), StageIndex(stages, to);
    if fi < 0 || ti < 0 then false
    else if to == ARCHIVE && from != ARCHIVE then true
    else ti == fi + 1
  }

  lemma IndexOfStage(stages: seq<string>, i: nat)
    requires IsStageList(stages) && i < |stages|
    ensures StageIndex(stages, stages[i]) == i
  {
    var j := StageIndex(stages, stages[i]);
    assert stages[i] in stages;
    assert forall h :: 0 <= h < j ==> stages[..j][h] == stages[h];
    assert j == i;
  }

  /** Transitions only lead forward, the archive is the end, and it can be reached from everywhere else. */
  lemma TransitionsLeadForward(stages: seq<string>, from: string, to: string)
    requires IsStageList(stages)
    ensures IsValidTransition(stages, from, to) ==> 0 <= StageIndex(stages, from) < StageIndex(stages, to)
    ensures !IsValidTransition(stages, ARCHIVE, to)
    ensures IsValidTransition(stages, from, ARCHIVE) <==> from in stages && from != ARCHIVE
  {
    IndexOfStage(stages, |stages| - 1);
    var fi := StageIndex(stages, from);
    if fi == |stages| - 1 { assert from == ARCHIVE; }
  }

  // ---- The mirror ----------------------------------------------------------------------------

  method ValidNextStages(stages: seq<string>, from: string) returns (out: seq<string>)
    requires IsStageList(stages)
    ensures |out| <= 2 && (|out| == 2 ==> out[0] != out[1])
    ensures (forall to :: to in out <==> IsValidTransition(stages, from, to)) <==> from in stages
    ensures from !in stages ==> out != [] && out[0] == stages[0] && ARCHIVE in out
  {
    var idx := FindStage(stages, from);
    out := [];
    if idx + 1 < |stages| {
      var next := stages[idx + 1];
      if next != "" { out := out + [next]; }
    }
    if from != ARCHIVE && ARCHIVE !in out { out := out + [ARCHIVE]; }
    MirrorExactly(stages, from, out);
  }

  lemma MirrorExactly(stages: seq<string>, from: string, out: seq<string>)
    requires IsStageList(stages)
    requires forall to :: to in out <==>
               || (to == ARCHIVE && from != ARCHIVE)
               || (StageIndex(stages, from) + 1 < |stages| && to == stages[StageIndex(stages, from) + 1])
    ensures (forall to :: to in out <==> IsValidTransition(stages, from, to)) <==> from in stages
  {
    var fi := StageIndex(stages, from);
    IndexOfStage(stages, |stages| - 1);
    if fi >= 0 {
      forall to ensures to in out <==> IsValidTransition(stages, from, to) {
        if fi + 1 < |stages| { IndexOfStage(stages, fi + 1); }
        if StageIndex(stages, to) == fi + 1 { assert to == stages[fi + 1]; }
      }
    } else {
      assert ARCHIVE in stages && from != ARCHIVE;
      assert ARCHIVE in out && !IsValidTransition(stages, from, ARCHIVE);
    }
  }

  // ---- Promotion -----------------------------------------------------------------------------

  datatype Request = Request(name: string, from: string, to: string)

  /** What the file system does: everything succeeds, or one of three calls fails. */
  datatype Io = Fine | MkdirFails | RenameFails | StatFails

  datatype Result = Promoted | InvalidStage | InvalidName | InvalidTransition | NotFound | IoError

  function Cards(dirs: Dirs, stage: string): map<string, Content> {
    if stage in dirs then dirs[stage] else map[]
  }

  function CardAt(dirs: Dirs, stage: string, name: string): Option<Content> {
    if name in Cards(dirs, stage) then Some(Cards(dirs, stage)[name]) else None
  }

  /** `os.Rename` of a card between two stage directories: an entry of that name at the destination is
      replaced. */
  function Renamed(dirs: Dirs, r: Request): Dirs
    requires r.name in Cards(dirs, r.from)
  {
    dirs[r.from := dirs[r.from] - {r.name}][r.to := Cards(dirs, r.to)[r.name := dirs[r.from][r.name]]]
  }

  /** The request reaches the file system: its stages, its name, the transition and the card are in order. */
  predicate Acceptable(stages: seq<string>, dirs: Dirs, r: Request) {
    ValidName(r.name) && IsValidTransition(stages, r.from, r.to) && r.name in Cards(dirs, r.from)
  }

  predicate Moves(stages: seq<string>, dirs: Dirs, r: Request, io: Io) {
    Acceptable(stages, dirs, r) && (io == Fine || io == StatFails)
  }

  /** The directories a request leaves. */
  function After(stages: seq<string>, dirs: Dirs, r: Request, io: Io): Dirs {
    if !Acceptable(stages, dirs, r) || io == MkdirFails then dirs
    else if io == RenameFails then dirs[r.to := Cards(dirs, r.to)]
    else Renamed(dirs, r)
  }

  /** The first complaint wins. */
  function Answer(stages: seq<string>, dirs: Dirs, r: Request, io: Io): (a: Result)
    ensures a == Promoted <==> Acceptable(stages, dirs, r) && io == Fine
    ensures a == IoError <==> Acceptable(stages, dirs, r) && io != Fine
    ensures a == NotFound ==> CardAt(dirs, r.from, r.name) == None
  {
    if StageIndex(stages, r.from) < 0 || StageIndex(stages, r.to) < 0 then InvalidStage
    else if !ValidName(r.name) then InvalidName
    else if !IsValidTransition(stages, r.from, r.to) then InvalidTransition
    else if r.name !in Cards(dirs, r.from) then NotFound
    else if io == Fine then Promoted else IoError
  }

  /** A promotion moves its card forward with its content, replaces a card of the same name at the
      destination, and leaves every other card alone; an error answer leaves all cards alone, unless only
      the final look at the moved card failed. */
  lemma PromotionMoves(stages: seq<string>, dirs: Dirs, r: Request, io: Io, stage: string, name: string)
    requires IsStageList(stages)
    ensures var dirs' := After(stages, dirs, r, io);
            if Moves(stages, dirs, r, io) then
              && StageIndex(stages, r.from) < StageIndex(stages, r.to)
              && CardAt(dirs, r.from, r.name).Some? && CardAt(dirs', r.from, r.name) == None
              && CardAt(dirs', r.to, r.name) == CardAt(dirs, r.from, r.name)
              && (name != r.name || stage !in {r.from, r.to} ==>
                    CardAt(dirs', stage, name) == CardAt(dirs, stage, name))
            else CardAt(dirs', stage, name) == CardAt(dirs, stage, name)
    ensures Answer(stages, dirs, r, io) != Promoted && io != StatFails ==> !Moves(stages, dirs, r, io)
  {
    TransitionsLeadForward(stages, r.from, r.to);
  }

  /** Whatever its stage, a card that is not archived can be archived. */
  lemma ArchiveAlwaysWorks(stages: seq<string>, dirs: Dirs, stage: string, name: string)
    requires IsStageList(stages) && stage in stages && stage != ARCHIVE
    requires ValidName(name) && CardAt(dirs, stage, name).Some?
    ensures Answer(stages, dirs, Request(name, stage, ARCHIVE), Fine) == Promoted
  {
    TransitionsLeadForward(stages, stage, ARCHIVE);
  }

  // ---- Runs ----------------------------------------------------------------------------------

  /** `w`, added `n` times. */
  function Times(n: nat, w: nat): nat {
    if n == 0 then 0 else w + Times(n - 1, w)
  }

  /** The stages its cards still have before them. */
  function Weight(stages: seq<string>, dirs: Dirs, i: nat): nat
    requires i < |stages|
  {
    Times(|Cards(dirs, stages[i])|, |stages| - 1 - i)
  }

  /** How many stages the cards of the first `k` stages still have before them, in all. */
  function Distance(stages: seq<string>, dirs: Dirs, k: nat): nat
    requires k <= |stages|
  {
    if k == 0 then 0 else Distance(stages, dirs, k - 1) + Weight(stages, dirs, k - 1)
  }

  lemma SameWeight(stages: seq<string>, a: Dirs, b: Dirs)
    ensures forall h: nat :: h < |stages| && Cards(a, stages[h]) == Cards(b, stages[h]) ==>
              Weight(stages, a, h) == Weight(stages, b, h)
  {
  }

  /** Only the two stages of a promotion change their weight. */
  lemma {:induction false} DistanceDiffers(stages: seq<string>, a: Dirs, b: Dirs, i: nat, j: nat, k: nat)
    requires i < j < |stages| && k <= |stages|
    requires forall h :: 0 <= h < |stages| && h != i && h != j ==> Cards(a, stages[h]) == Cards(b, stages[h])
    ensures Distance(stages, b, k) - Distance(stages, a, k)
         == (if i < k then Weight(stages, b, i) - Weight(stages, a, i) else 0)
            + (if j < k then Weight(stages, b, j) - Weight(stages, a, j) else 0)
  {
    hide Weight, Times, Cards;
    SameWeight(stages, a, b);
    if k > 0 { DistanceDiffers(stages, a, b, i, j, k - 1); }
  }

  /** The two directories of a move, by size. */
  lemma MoveSizes(dirs: Dirs, r: Request)
    requires r.name in Cards(dirs, r.from) && r.from != r.to
    ensures var dirs' := Renamed(dirs, r);
            && |Cards(dirs', r.from)| == |Cards(dirs, r.from)| - 1
            && |Cards(dirs', r.to)| == |Cards(dirs, r.to)| + (if r.name in Cards(dirs, r.to) then 0 else 1)
            && forall stage :: stage != r.from && stage != r.to ==> Cards(dirs', stage) == Cards(dirs, stage)
  {
    OneFewer(Cards(dirs, r.from), r.name);
    OneMore(Cards(dirs, r.to), r.name, dirs[r.from][r.name]);
  }

  /** A move brings the cards nearer to the end by the stages it skips, and by the whole rest of the way
      of a card it replaces. */
  lemma MoveShortens(stages: seq<string>, dirs: Dirs, r: Request, io: Io)
    requires IsStageList(stages) && Moves(stages, dirs, r, io)
    ensures Distance(stages, After(stages, dirs, r, io), |stages|)
              + (StageIndex(stages, r.to) - StageIndex(stages, r.from))
              + (if CardAt(dirs, r.to, r.name).Some? then |stages| - 1 - StageIndex(stages, r.to) else 0)
            == Distance(stages, dirs, |stages|)
  {
    TransitionsLeadForward(stages, r.from, r.to);
    MoveSizes(dirs, r);
    var i, j, n := StageIndex(stages, r.from), StageIndex(stages, r.to), |stages|;
    var dirs' := After(stages, dirs, r, io);
    assert dirs' == Renamed(dirs, r);
    hide After, Renamed, IsValidTransition, StageIndex;
    forall h | 0 <= h < n && h != i && h != j ensures Cards(dirs', stages[h]) == Cards(dirs, stages[h]) {
      assert stages[h] != stages[i] && stages[h] != stages[j];
    }
    DistanceDiffers(stages, dirs, dirs', i, j, n);
    TimesOneMore(|Cards(dirs', r.from)|, n - 1 - i);
    TimesOneMore(|Cards(dirs, r.to)|, n - 1 - j);
    hide Times, Distance;
  }

  lemma TimesOneMore(n: nat, w: nat)
    ensures Times(n + 1, w) == Times(n, w) + w
  {
  }

  lemma OneFewer(m: map<string, Content>, k: string)
    requires k in m
    ensures |m - {k}| == |m| - 1
  {
    assert (m - {k}).Keys == m.Keys - {k};
    assert |m - {k}| == |(m - {k}).Keys|;
  }

  lemma OneMore(m: map<string, Content>, k: string, v: Content)
    ensures |m[k := v]| == |m| + if k in m then 0 else 1
  {
    assert m[k := v].Keys == m.Keys + {k};
    assert |m[k := v]| == |m[k := v].Keys|;
  }

  function AfterAll(stages: seq<string>, dirs: Dirs, rs: seq<(Request, Io)>): Dirs {
    if rs == [] then dirs
    else After(stages, AfterAll(stages, dirs, rs[..|rs| - 1]), rs[|rs| - 1].0, rs[|rs| - 1].1)
  }

  function MoveCount(stages: seq<string>, dirs: Dirs, rs: seq<(Request, Io)>): nat {
    if rs == [] then 0
    else
      var last, before := rs[|rs| - 1], AfterAll(stages, dirs, rs[..|rs| - 1]);
      MoveCount(stages, dirs, rs[..|rs| - 1]) + if Moves(stages, before, last.0, last.1) then 1 else 0
  }

  /** However many requests arrive, only so many can move a card as the cards had stages before them. */
  lemma {:induction false} RunsEnd(stages: seq<string>, dirs: Dirs, rs: seq<(Request, Io)>)
    requires IsStageList(stages)
    ensures MoveCount(stages, dirs, rs) + Distance(stages, AfterAll(stages, dirs, rs), |stages|)
         <= Distance(stages, dirs, |stages|)
  {
    if rs != [] {
      var init, last := rs[..|rs| - 1], rs[|rs| - 1];
      var before := AfterAll(stages, dirs, init);
      RunsEnd(stages, dirs, init);
      if Moves(stages, before, last.0, last.1) {
        MoveShortens(stages, before, last.0, last.1);
        TransitionsLeadForward(stages, last.0.from, last.0.to);
      } else {
        StandstillKeeps(stages, before, last.0, last.1, |stages|);
      }
    }
  }

  lemma {:induction false} StandstillKeeps(stages: seq<string>, dirs: Dirs, r: Request, io: Io, k: nat)
    requires k <= |stages| && !Moves(stages, dirs, r, io)
    ensures Distance(stages, After(stages, dirs, r, io), k) == Distance(stages, dirs, k)
  {
    if k > 0 {
      StandstillKeeps(stages, dirs, r, io, k - 1);
      assert Cards(After(stages, dirs, r, io), stages[k - 1]) == Cards(dirs, stages[k - 1]);
    }
  }

  /** The paths of two cards are distinct, so the files on disk are the cards of this model. */
  lemma CardFiles(root: string, stages: seq<string>, i: nat, name: string, j: nat, name': string)
    requires IsAbs(root) && IsStageList(stages) && i < |stages| && j < |stages| && ValidName(name) && ValidName(name')
    ensures Join3(root, stages[i], name) == Join3(root, stages[j], name') <==> i == j && name == name'
    ensures Under(Place(root), Place(Join3(root, stages[i], name)))
  {
    CardPathsDistinct(root, stages[i], name, stages[j], name');
    hide Join3;
    if i != j { assert stages[i] != stages[j]; }
  }

  // ---- The handler ---------------------------------------------------------------------------

  class Handler {
    const stages: seq<string>
    var dirs: Dirs

    constructor (stages: seq<string>, dirs: Dirs)
      ensures this.stages == stages && this.dirs == dirs
    {
      this.stages, this.dirs := stages, dirs;
    }

    method Promote(r: Request, io: Io) returns (result: Result)
      modifies this
      ensures result == Answer(stages, old(dirs), r, io)
      ensures dirs == After(stages, old(dirs), r, io)
    {
      var fi := FindStage(stages, r.from);
      if fi < 0 { return InvalidStage; }
      var ti := FindStage(stages, r.to);
      if ti < 0 { return InvalidStage; }
      if !ValidName(r.name) { return InvalidName; }
      if !IsValidTransition(stages, r.from, r.to) { return InvalidTransition; }
      if r.from !in dirs || r.name !in dirs[r.from] { return NotFound; }
      if io == MkdirFails { return IoError; }
      if r.to !in dirs { dirs := dirs[r.to := map[]]; }
      if io == RenameFails {
        assert dirs == old(dirs)[r.to := Cards(old(dirs), r.to)];
        return IoError;
      }
      var content := dirs[r.from][r.name];
      dirs := dirs[r.from := dirs[r.from] - {r.name}];
      dirs := dirs[r.to := dirs[r.to][r.name := content]];
      DestinationDiffers(stages, r);
      assert dirs == Renamed(old(dirs), r);
      if io == StatFails { return IoError; }
      return Promoted;
    }
  }

  /** Even in a list with repetitions no transition leads from a stage to itself. */
  lemma DestinationDiffers(stages: seq<string>, r: Request)
    requires IsValidTransition(stages, r.from, r.to)
    ensures r.from != r.to
  {
  }
}
