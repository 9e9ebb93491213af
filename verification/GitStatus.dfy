/** The parser of `git status --porcelain=v1 -b` (`git/handler.go`): its loops, and the functions they
    compute. */
module GitStatus {
  import opened Wrappers
  import opened Text

  datatype ChangeStatus = Modified | Added | Deleted | Renamed | Copied | Untracked | Ignored | Conflicted

  datatype Change = Change(path: string, oldPath: string, status: ChangeStatus, staged: bool)

  datatype Response = Response(branch: string, ahead: int, behind: int, changes: seq<Change>, clean: bool)

  const ARROW := " -> "
  const DOTS := "..."
  const NEWLINE: set<char> := {'\n'}
  const BRACKETS: set<char> := {'[', ']'}

  // ---- What is computed ----------------------------------------------------------------------

  function StatusOf(x: char, y: char): ChangeStatus {
    if x == 'M' || y == 'M' then Modified
    else if x == 'A' then Added
    else if x == 'D' || y == 'D' then Deleted
    else if x == 'R' then Renamed
    else if x == 'C' then Copied
    else if x == '?' && y == '?' then Untracked
    else if x == '!' && y == '!' then Ignored
    else if x == 'U' || y == 'U' then Conflicted
    else Modified
  }

  predicate StagedOf(x: char, y: char) {
    if x == 'M' || y == 'M' then x == 'M' else x == 'A' || x == 'D'
  }

  /** The old and the new path in what follows the codes. */
  function PathsOf(text: string): (string, string) {
    var parts := SplitOn(text, ARROW);
    if |parts| == 2 then (TrimSpace(parts[0]), TrimSpace(parts[1])) else ("", text)
  }

  function ParseLine(line: string): Option<Change> {
    if |line| < 3 then None
    else
      var (oldPath, path) := PathsOf(TrimSpace(line[3..]));
      Some(Change(path, oldPath, StatusOf(line[0], line[1]), StagedOf(line[0], line[1])))
  }

  function ChangesOf(lines: seq<string>): seq<Change> {
    if lines == [] then []
    else
      var change := ParseLine(lines[|lines| - 1]);
      ChangesOf(lines[..|lines| - 1]) + if change.Some? then [change.value] else []
  }

  function BranchOf(words: seq<string>): string {
    if words == [] then ""
    else
      var i := Index(words[0], DOTS);
      var branch := if i >= 0 then words[0][..i] else words[0];
      if branch == "HEAD" || branch == "(HEAD" then "HEAD" else branch
  }

  /** The last readable count after the given keyword, or 0. */
  function CountOf(parts: seq<string>, keyword: string): int {
    if parts == [] then 0
    else
      var p := TrimSpace(parts[|parts| - 1]);
      if HasPrefix(p, keyword) && Atoi(p[|keyword|..]).Some? then Atoi(p[|keyword|..]).value
      else CountOf(parts[..|parts| - 1], keyword)
  }

  function AheadBehind(token: string): (int, int) {
    var parts := SplitOn(Trim(token, BRACKETS), ",");
    (CountOf(parts, "ahead "), CountOf(parts, "behind "))
  }

  /** The counts of the last word that mentions any. */
  function CountsOf(words: seq<string>): (int, int) {
    if words == [] then (0, 0)
    else
      var p := words[|words| - 1];
      if Contains(p, "ahead") || Contains(p, "behind") then AheadBehind(p) else CountsOf(words[..|words| - 1])
  }

  function LinesOf(raw: string): (lines: seq<string>)
    ensures lines != []
  {
    SplitOn(TrimRight(raw, NEWLINE), "\n")
  }

  function BranchWords(first: string): seq<string> {
    if HasPrefix(first, "## ") then Fields(first[3..]) else []
  }

  function Parsed(raw: string): Response {
    var lines := LinesOf(raw);
    var words := BranchWords(lines[0]);
    var changes := ChangesOf(lines[1..]);
    Response(BranchOf(words), CountsOf(words).0, CountsOf(words).1, changes, changes == [])
  }

  // ---- How it is computed --------------------------------------------------------------------

  /** `Split` never returns an empty list, so the check for one is left out. */
  method ParsePorcelainV1(raw: string) returns (resp: Response)
    ensures resp == Parsed(raw)
  {
    hide ParseLine, AheadBehind, Index, SplitOn, TrimRight, Fields, Contains;
    var lines := SplitOn(TrimRight(raw, NEWLINE), "\n");
    var branch, ahead, behind := "", 0, 0;
    var first := lines[0];
    if HasPrefix(first, "## ") {
      var branchLine := first[3..];
      var parts := Fields(branchLine);
      if |parts| > 0 {
        branch := parts[0];
        var idx := Index(branch, DOTS);
        if idx != -1 { branch := branch[..idx]; }
        if branch == "HEAD" || branch == "(HEAD" { branch := "HEAD"; }
      }
      for i := 0 to |parts|
        invariant (ahead, behind) == CountsOf(parts[..i])
      {
        assert parts[..i + 1][..i] == parts[..i];
        var p := parts[i];
        if Contains(p, "ahead") || Contains(p, "behind") {
          ahead, behind := ParseAheadBehind(p);
        }
      }
      assert parts[..|parts|] == parts;
    }
    var changes := [];
    var rest := lines[1..];
    for i := 0 to |rest|
      invariant changes == ChangesOf(rest[..i])
    {
      assert rest[..i + 1][..i] == rest[..i];
      var line := rest[i];
      var change := None;
      if line != "" { change := ParsePorcelainLine(line); }
      assert line == "" ==> ParseLine(line) == None by { EmptyLine(); }
      if change.Some? { changes := changes + [change.value]; }
    }
    assert rest[..|rest|] == rest;
    resp := Response(branch, ahead, behind, changes, |changes| == 0);
  }

  lemma EmptyLine()
    ensures ParseLine("") == None
  {
  }

  method ParseAheadBehind(token: string) returns (ahead: int, behind: int)
    ensures (ahead, behind) == AheadBehind(token)
  {
    hide Atoi, TrimSpace, SplitOn, Trim;
    ahead, behind := 0, 0;
    var parts := SplitOn(Trim(token, BRACKETS), ",");
    for i := 0 to |parts|
      invariant ahead == CountOf(parts[..i], "ahead ") && behind == CountOf(parts[..i], "behind ")
    {
      assert parts[..i + 1][..i] == parts[..i];
      var p := TrimSpace(parts[i]);
      if HasPrefix(p, "ahead ") {
        var n := Atoi(p[6..]);
        if n.Some? { ahead := n.value; }
      }
      if HasPrefix(p, "behind ") {
        var n := Atoi(p[7..]);
        if n.Some? { behind := n.value; }
      }
    }
    assert parts[..|parts|] == parts;
  }

  method ParsePorcelainLine(line: string) returns (result: Option<Change>)
    ensures result == ParseLine(line)
  {
    hide TrimSpace, SplitOn;
    if |line| < 3 { return None; }
    var x, y := line[0], line[1];
    var pathPart := TrimSpace(line[3..]);
    var change := Change(pathPart, "", Modified, false);
    if Contains(pathPart, ARROW) {
      var parts := SplitOn(pathPart, ARROW);
      if |parts| == 2 {
        change := Change(TrimSpace(parts[1]), TrimSpace(parts[0]), Renamed, false);
      }
    }
    OnePart(pathPart);
    if x == 'M' || y == 'M' {
      change := change.(status := Modified, staged := x == 'M');
    } else if x == 'A' {
      change := change.(status := Added, staged := true);
    } else if x == 'D' || y == 'D' {
      change := change.(status := Deleted, staged := x == 'D');
    } else if x == 'R' {
      change := change.(status := Renamed);
    } else if x == 'C' {
      change := change.(status := Copied);
    } else if x == '?' && y == '?' {
      change := change.(status := Untracked);
    } else if x == '!' && y == '!' {
      change := change.(status := Ignored);
    } else if x == 'U' || y == 'U' {
      change := change.(status := Conflicted);
    } else {
      change := change.(status := Modified);
    }
    return Some(change);
  }

  lemma OnePart(text: string)
    ensures Contains(text, ARROW) <==> |SplitOn(text, ARROW)| > 1
    ensures !Contains(text, ARROW) ==> SplitOn(text, ARROW) == [text]
  {
  }
}
