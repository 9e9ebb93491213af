/** What the git status parser gives back of a printed status, and what it loses. */
module GitLaws {
  import opened Wrappers
  import opened Text
  import opened GitStatus
  import opened GitQuotes

  /** One printed change: its two codes, its path, and the old path of a rename or copy. */
  datatype Entry = Entry(x: char, y: char, path: string, origin: Option<string>)

  function Body(e: Entry): string {
    match e.origin
    case None => Quoted(e.path)
    case Some(o) => Quoted(o) + ARROW + Quoted(e.path)
  }

  function PrintLine(e: Entry): string {
    [e.x, e.y, ' '] + Body(e)
  }

  function PrintLines(es: seq<Entry>): (lines: seq<string>)
    ensures |lines| == |es|
  {
    seq(|es|, i requires 0 <= i < |es| => PrintLine(es[i]))
  }

  /** A header line, then one line for each change; every line ends with a newline. */
  function Print(header: string, es: seq<Entry>): string {
    Joined([header] + PrintLines(es), "\n") + "\n"
  }

  /** What git prints: no path is empty, and no code is a newline. */
  predicate IsEntry(e: Entry) {
    e.x != '\n' && e.y != '\n' && e.path != "" && (e.origin.Some? ==> e.origin.value != "")
  }

  function Original(e: Entry): Change {
    Change(e.path, (match e.origin case None => "" case Some(o) => o), StatusOf(e.x, e.y), StagedOf(e.x, e.y))
  }

  // ---- One line ------------------------------------------------------------------------------

  /** The entries whose paths git prints as they are. */
  predicate Plain(e: Entry) {
    !NeedsQuotes(e.path) && (e.origin.Some? ==> !NeedsQuotes(e.origin.value))
  }

  lemma PartsAreShorter(text: string)
    requires |SplitOn(text, ARROW)| == 2
    ensures var i, parts := Index(text, ARROW), SplitOn(text, ARROW);
            && 0 <= i && i + 4 <= |text| && parts[0] == text[..i] && parts[1] == text[i + 4..]
            && text[i..i + 4] == ARROW
  {
    assert |ARROW| == 4;
  }

  /** A single path comes back exactly if git prints it without quotes. */
  lemma PathExactly(p: string)
    requires p != ""
    ensures PathsOf(TrimSpace(Quoted(p))) == ("", p) <==> !NeedsQuotes(p)
  {
    QuotedShape(p);
    hide Quoted, NeedsQuotes, SPACES, Trim, SplitOn, Index, Trimmed;
    var t := Quoted(p);
    TrimSpaceFacts(t);
    if |SplitOn(t, ARROW)| == 2 { NoEmptyPart(t); }
    if !NeedsQuotes(p) {
      NoArrow(t, "");
      OnePart(t);
    }
  }

  lemma NoArrow(t: string, tail: string)
    requires Free(t, SPACES) && (tail == "" || tail == " ")
    ensures !Contains(t + tail, ARROW) && t + "" == t
  {
    assert ' ' in SPACES;
    hide SPACES;
    ContainsExactly(t + tail, ARROW);
    forall j ensures !Matches(t + tail, ARROW, j) {
      assert |ARROW| == 4 && ARROW[0] == ' ';
      if 0 <= j && j + 4 <= |t + tail| {
        assert (t + tail)[j..j + 4][0] == t[j];
      }
    }
  }

  /** The arrow of a rename line comes first exactly if the old path brings no earlier one. */
  lemma ArrowFirst(o: string, path: string)
    ensures Index(o + ARROW + path, ARROW) == |o| <==> !Contains(o + " ", ARROW)
    ensures 0 <= Index(o + ARROW + path, ARROW) <= |o|
  {
    var s, p := o + ARROW + path, o + " ";
    assert s[|o|..|o| + 4] == ARROW;
    assert Matches(s, ARROW, |o|);
    forall j | 0 <= j < |o| ensures Matches(s, ARROW, j) <==> Matches(p, ARROW, j) { ArrowsAgree(o, path, j); }
    forall j | |o| <= j ensures !Matches(p, ARROW, j) { assert |p| == |o| + 1 && |ARROW| == 4; }
    ContainsExactly(p, ARROW);
    hide Matches;
  }

  lemma ArrowsAgree(o: string, path: string, j: nat)
    requires j < |o|
    ensures Matches(o + ARROW + path, ARROW, j) <==> Matches(o + " ", ARROW, j)
  {
    var s, p := o + ARROW + path, o + " ";
    assert |ARROW| == 4 && ARROW[0] == ' ' && ARROW[1] == '-' && ARROW[2] == '>' && ARROW[3] == ' ';
    assert s[|o|] == ' ' && p[|o|] == ' ';
    if j + 4 <= |p| {
      assert s[j..j + 4] == p[j..j + 4];
    } else {
      assert s[j..j + 4][|o| - j] == s[|o|];
    }
  }

  lemma RenameText(o: string, path: string)
    requires o != "" && path != "" && Trimmed(o, SPACES) && Trimmed(path, SPACES)
    ensures var t := o + ARROW + path;
            && TrimSpace(t) == t && t[..|o|] == o && |t| == |o| + 4 + |path| && t[|o| + 4..] == path
  {
    var t := o + ARROW + path;
    assert t[0] == o[0] && t[|t| - 1] == path[|path| - 1];
    TrimKeeps(t, SPACES);
  }

  lemma SplitFirst(t: string, sep: string)
    requires sep != "" && Contains(t, sep)
    ensures var i := Index(t, sep);
            i + |sep| <= |t| && SplitOn(t, sep) == [t[..i]] + SplitOn(t[i + |sep|..], sep)
  {
    hide Index;
  }

  lemma TrimSpaceFacts(s: string)
    ensures |TrimSpace(s)| <= |s| && (TrimSpace(s) == s <==> Trimmed(s, SPACES))
  {
    TrimTrims(s, SPACES);
  }

  /** A rename without blanks at the ends of its paths and with both paths given. */
  lemma RenameExactly(o: string, path: string)
    requires o != "" && path != "" && Trimmed(o, SPACES) && Trimmed(path, SPACES)
    ensures PathsOf(TrimSpace(o + ARROW + path)) == (o, path)
       <==> !Contains(o + " ", ARROW) && !Contains(path, ARROW)
  {
    hide TrimSpace, SplitOn, Trimmed, Index, Matches, SPACES;
    var t := o + ARROW + path;
    RenameText(o, path);
    ArrowFirst(o, path);
    SplitFirst(t, ARROW);
    var i, parts := Index(t, ARROW), SplitOn(t, ARROW);
    OnePart(t[i + 4..]);
    TrimSpaceFacts(o);
    TrimSpaceFacts(path);
    TrimSpaceFacts(t[..i]);
    if i < |o| { assert |parts| == 2 ==> parts[0] == t[..i]; }
  }

  lemma NoEmptyPart(t: string)
    requires Trimmed(t, SPACES) && |SplitOn(t, ARROW)| == 2
    ensures PathsOf(t).0 != "" && PathsOf(t).1 != ""
  {
    hide Trim, TrimSpace, Index, SplitOn;
    PartsAreShorter(t);
    var i, parts := Index(t, ARROW), SplitOn(t, ARROW);
    assert t[i..i + 4][0] == t[i] && t[i..i + 4][3] == t[i + 3];
    assert ' ' in SPACES;
    NotBlank(parts[0], 0);
    NotBlank(parts[1], |parts[1]| - 1);
  }

  lemma NotBlank(s: string, i: nat)
    requires i < |s| && s[i] !in SPACES
    ensures TrimSpace(s) != ""
  {
    assert TrimLeft(s, SPACES) != "";
  }

  lemma TrimPadded(left: string, core: string, right: string)
    requires (left == "" || left == " ") && (right == "" || right == " ") && core != "" && Trimmed(core, SPACES)
    ensures TrimSpace(left + (core + right)) == core
  {
    hide SPACES, TrimLeft, TrimRight;
    PadLeft(left, core + right);
    PadRight(core, right);
  }

  lemma PadLeft(left: string, s: string)
    requires (left == "" || left == " ") && s != ""
    ensures s[0] !in SPACES ==> TrimLeft(left + s, SPACES) == s
  {
    assert ' ' in SPACES;
    hide SPACES;
    if left == " " {
      assert (left + s)[0] == ' ' && (left + s)[1..] == s;
    } else {
      assert left + s == s;
    }
  }

  lemma PadRight(s: string, right: string)
    requires (right == "" || right == " ") && s != "" && s[|s| - 1] !in SPACES
    ensures TrimRight(s + right, SPACES) == s
  {
    assert ' ' in SPACES;
    hide SPACES;
    if right == " " {
      assert (s + right)[|s|] == ' ' && (s + right)[..|s|] == s;
    } else {
      assert s + right == s;
    }
  }

  /** An arrow inside the quotes of the old path never leaves that path intact. */
  lemma ArrowInOldPath(o: string, text: string, i: nat)
    requires o != "" && i < |Quoted(o)| && Quoted(o)[i] == ' ' && Quoted(o) <= text
    ensures TrimSpace(text[..i]) != o
  {
    QuotedShape(o);
    hide SPACES, Trimmed;
    var q := Quoted(o);
    assert text[..i] == q[..i];
    BlankIsSpace(o, i);
    assert NeedsQuotes(o);
    TrimOfQuoted(q[..i]);
    var n := |TrimSpace(q[..i])|;
    assert i > 0 && q[..i][..n] == q[..n];
    NotItsOwnPrefix(o, i, n);
    hide Quoted, NeedsQuotes;
  }

  lemma BlankIsSpace(s: string, i: nat)
    ensures i < |s| && s[i] == ' ' ==> !Free(s, SPACES)
  {
    assert ' ' in SPACES;
  }

  lemma TrimOfQuoted(s: string)
    requires s == "" || s[0] == '"'
    ensures |TrimSpace(s)| <= |s| && TrimSpace(s) == s[..|TrimSpace(s)|]
  {
    assert '"' !in SPACES;
    assert TrimLeft(s, SPACES) == s;
  }

  /** Two paths come back exactly if git prints both without quotes. */
  lemma PairExactly(o: string, p: string)
    requires o != "" && p != ""
    ensures PathsOf(TrimSpace(Quoted(o) + ARROW + Quoted(p))) == (o, p) <==> !NeedsQuotes(o) && !NeedsQuotes(p)
  {
    QuotedShape(o);
    QuotedShape(p);
    var q, u := Quoted(o), Quoted(p);
    var t := q + ARROW + u;
    RenameText(q, u);
    if !NeedsQuotes(o) && !NeedsQuotes(p) {
      NoArrow(q, " ");
      NoArrow(u, "");
      RenameExactly(q, u);
    } else {
      QuotedPairFails(o, p);
    }
    hide Quoted, NeedsQuotes, SPACES, TrimSpace, Trimmed, Free, Index, SplitOn, Matches;
  }

  lemma QuotedPairFails(o: string, p: string)
    requires o != "" && p != "" && (NeedsQuotes(o) || NeedsQuotes(p))
    ensures PathsOf(Quoted(o) + ARROW + Quoted(p)) != (o, p)
  {
    hide SPACES, TrimSpace, Trimmed, Free, Index, SplitOn, Matches, Escaped;
    QuotedShape(o);
    QuotedShape(p);
    var q, u := Quoted(o), Quoted(p);
    var t := q + ARROW + u;
    assert |ARROW| == 4 && t[..|q|] == q && t[|q| + 4..] == u;
    ArrowFirst(q, u);
    SplitFirst(t, ARROW);
    ArrowStart(t);
    TrimSpaceFacts(q);
    TrimSpaceFacts(u);
    var i, parts := Index(t, ARROW), SplitOn(t, ARROW);
    if i < |q| {
      assert t[i] == q[i];
      ArrowInOldPath(o, t, i);
    } else {
      OnePart(u);
    }
    hide Quoted, NeedsQuotes;
  }

  lemma ArrowStart(t: string)
    requires Contains(t, ARROW)
    ensures Index(t, ARROW) + 4 <= |t| && t[Index(t, ARROW)] == ' '
  {
    assert |ARROW| == 4 && ARROW[0] == ' ';
    var i := Index(t, ARROW);
    assert t[i..i + 4][0] == t[i];
  }

  /** A printed line comes back exactly if git printed its paths without quotes: the parser takes the
      quotes and the escapes for part of the path, and looks for the arrow inside them. */
  lemma LineComesBackExactly(e: Entry)
    requires IsEntry(e)
    ensures ParseLine(PrintLine(e)) == Some(Original(e)) <==> Plain(e)
    ensures ParseLine(PrintLine(e)).Some?
  {
    var line := PrintLine(e);
    assert line[3..] == Body(e) && line[0] == e.x && line[1] == e.y;
    hide StatusOf, StagedOf, TrimSpace, PathsOf, Quoted, NeedsQuotes;
    match e.origin {
      case None => PathExactly(e.path);
      case Some(o) => PairExactly(o, e.path);
    }
  }

  /** What comes back instead: the quoted form, as long as it does not look like a rename ... */
  lemma QuotesStay(e: Entry)
    requires IsEntry(e) && e.origin == None && !Contains(Quoted(e.path), ARROW)
    ensures ParseLine(PrintLine(e)) == Some(Original(e).(path := Quoted(e.path)))
  {
    var line := PrintLine(e);
    assert line[3..] == Body(e) && line[0] == e.x && line[1] == e.y;
    QuotedShape(e.path);
    TrimSpaceFacts(Quoted(e.path));
    OnePart(Quoted(e.path));
    hide StatusOf, StagedOf, TrimSpace, Quoted, NeedsQuotes, Trimmed, SPACES, SplitOn, Index;
  }

  /** ... and if it does, two halves, each with one of the quotes. */
  lemma QuotedArrowSplits(x: char, y: char, a: string, b: string)
    requires a != "" && b != "" && !NeedsQuotes(a) && !NeedsQuotes(b)
    ensures var e := Entry(x, y, a + ARROW + b, None);
            ParseLine(PrintLine(e)) == Some(Change(b + "\"", "\"" + a, StatusOf(x, y), StagedOf(x, y)))
  {
    var e := Entry(x, y, a + ARROW + b, None);
    var o, p := "\"" + a, b + "\"";
    QuotedArrow(a, b);
    var line := PrintLine(e);
    assert line[3..] == Body(e) && line[0] == x && line[1] == y;
    QuoteIsTrimmed(a, b);
    hide StatusOf, StagedOf, TrimSpace, Quoted, NeedsQuotes, Trimmed, SPACES, SplitOn, Index, Free;
    NoArrow(o, " ");
    NoArrow(p, "");
    RenameExactly(o, p);
  }

  lemma PlainAndArrow(a: string, b: string)
    requires !NeedsQuotes(a) && !NeedsQuotes(b)
    ensures var p := a + ARROW + b; NeedsQuotes(p) && forall i :: 0 <= i < |p| ==> IsPlain(p[i]) || p[i] == ' '
  {
    var p := a + ARROW + b;
    assert ARROW[0] == ' ' && IsPlain('-') && IsPlain('>') && !IsPlain(' ');
    assert p[|a|] == ' ';
    hide IsPlain;
    forall i | 0 <= i < |p| ensures IsPlain(p[i]) || p[i] == ' ' {
      assert i < |a| ==> p[i] == a[i];
      assert |a| <= i < |a| + 4 ==> p[i] == ARROW[i - |a|];
      assert i >= |a| + 4 ==> p[i] == b[i - |a| - 4];
    }
  }

  lemma QuotedArrow(a: string, b: string)
    requires !NeedsQuotes(a) && !NeedsQuotes(b)
    ensures Quoted(a + ARROW + b) == ("\"" + a) + ARROW + (b + "\"")
  {
    var p := a + ARROW + b;
    PlainAndArrow(a, b);
    assert Escaped("") == "";
    hide IsPlain, NeedsQuotes, Escaped;
    EscapedPlain(p, "");
    assert p + "" == p;
    assert "\"" + p + "\"" == ("\"" + a) + ARROW + (b + "\"");
  }

  lemma QuoteIsTrimmed(a: string, b: string)
    requires a != "" && b != "" && !NeedsQuotes(a) && !NeedsQuotes(b)
    ensures Free("\"" + a, SPACES) && Free(b + "\"", SPACES)
    ensures Trimmed("\"" + a, SPACES) && Trimmed(b + "\"", SPACES)
  {
    QuotedShape(a);
    QuotedShape(b);
    assert '"' !in SPACES;
    hide SPACES;
  }

  // ---- A whole status ------------------------------------------------------------------------

  function Originals(es: seq<Entry>): seq<Change> {
    seq(|es|, i requires 0 <= i < |es| => Original(es[i]))
  }

  lemma {:induction false} JoinedEnds(parts: seq<string>)
    requires parts != [] && Free(parts[|parts| - 1], NEWLINE)
    requires |parts| == 1 || parts[|parts| - 1] != ""
    ensures var t := Joined(parts, "\n"); t == "" || t[|t| - 1] !in NEWLINE
    decreases |parts|
  {
    if |parts| > 1 {
      JoinedEnds(parts[1..]);
      var rest := Joined(parts[1..], "\n");
      assert rest != "" by { JoinedNonempty(parts[1..]); }
      var t := parts[0] + "\n" + rest;
      assert t[|t| - 1] == rest[|rest| - 1];
    }
  }

  lemma {:induction false} JoinedNonempty(parts: seq<string>)
    requires parts != [] && parts[|parts| - 1] != ""
    ensures Joined(parts, "\n") != ""
    decreases |parts|
  {
    if |parts| > 1 { JoinedNonempty(parts[1..]); }
  }

  /** The lines of a printed status are its header and its entries. */
  lemma LinesOfPrint(header: string, es: seq<Entry>)
    requires Free(header, NEWLINE) && forall e :: e in es ==> IsEntry(e)
    ensures LinesOf(Print(header, es)) == [header] + PrintLines(es)
  {
    hide PrintLine, TrimRight, SplitOn;
    var parts := [header] + PrintLines(es);
    forall p | p in parts ensures Free(p, NEWLINE) {
      var i :| 0 <= i < |parts| && parts[i] == p;
      if i > 0 { PrintsOneLine(es[i - 1]); }
    }
    if es != [] { LineIsLong(es[|es| - 1]); }
    JoinedEnds(parts);
    DropNewline(Joined(parts, "\n"));
    SplitJoined(parts, '\n');
  }

  lemma FreeConcat(a: string, b: string, cut: set<char>)
    requires Free(a, cut) && Free(b, cut)
    ensures Free(a + b, cut)
  {
  }

  /** Even a path with a newline is printed on one line. */
  lemma PrintsOneLine(e: Entry)
    requires IsEntry(e)
    ensures Free(PrintLine(e), NEWLINE)
  {
    QuotedShape(e.path);
    if e.origin.Some? { QuotedShape(e.origin.value); }
    assert Free([e.x, e.y, ' '], NEWLINE) && Free(ARROW, NEWLINE);
    hide Quoted, NeedsQuotes, Free, SPACES;
    if e.origin.Some? {
      FreeConcat(Quoted(e.origin.value), ARROW, NEWLINE);
      FreeConcat(Quoted(e.origin.value) + ARROW, Quoted(e.path), NEWLINE);
    }
    FreeConcat([e.x, e.y, ' '], Body(e), NEWLINE);
  }

  lemma LineIsLong(e: Entry)
    ensures |PrintLine(e)| >= 3
  {
  }

  lemma DropNewline(t: string)
    requires t == "" || t[|t| - 1] !in NEWLINE
    ensures TrimRight(t + "\n", NEWLINE) == t
  {
    assert (t + "\n")[..|t|] == t;
  }

  lemma {:induction false} ChangesOfLines(es: seq<Entry>)
    requires forall e :: e in es ==> IsEntry(e)
    ensures |ChangesOf(PrintLines(es))| == |es|
    ensures forall i :: 0 <= i < |es| ==> Some(ChangesOf(PrintLines(es))[i]) == ParseLine(PrintLine(es[i]))
  {
    hide ParseLine, PrintLine;
    if es != [] {
      var n, lines := |es| - 1, PrintLines(es);
      ChangesOfLines(es[..n]);
      LineComesBackExactly(es[n]);
      assert lines[..n] == PrintLines(es[..n]) && lines[n] == PrintLine(es[n]);
    }
  }

  /** Parsing a printed status gives back all its changes, in order, exactly if none of its paths
      was printed in quotes; it never invents or loses a change, so it calls the tree clean exactly if
      nothing was printed. */
  lemma StatusComesBackExactly(header: string, es: seq<Entry>)
    requires Free(header, NEWLINE) && forall e :: e in es ==> IsEntry(e)
    ensures Parsed(Print(header, es)).changes == Originals(es) <==> forall e :: e in es ==> Plain(e)
    ensures |Parsed(Print(header, es)).changes| == |es|
    ensures Parsed(Print(header, es)).clean <==> es == []
  {
    hide ParseLine, PrintLine, Plain, Original, CountsOf, BranchOf, BranchWords, Print, LinesOf;
    LinesOfPrint(header, es);
    ChangesOfLines(es);
    assert ([header] + PrintLines(es))[1..] == PrintLines(es);
    var changes := ChangesOf(PrintLines(es));
    forall i | 0 <= i < |es| ensures changes[i] == Original(es[i]) <==> Plain(es[i]) { LineComesBackExactly(es[i]); }
    if forall e :: e in es ==> Plain(e) {
      forall i | 0 <= i < |es| ensures changes[i] == Originals(es)[i] { assert es[i] in es; }
    }
    if changes == Originals(es) {
      forall e | e in es ensures Plain(e) {
        var i :| 0 <= i < |es| && es[i] == e;
        assert changes[i] == Originals(es)[i];
      }
    }
  }

  // ---- The codes -----------------------------------------------------------------------------

  /** The codes by which git reports a merge conflict. */
  predicate IsUnmerged(x: char, y: char) {
    (x == 'D' && y == 'D') || (x == 'A' && y == 'A') || x == 'U' || y == 'U'
  }

  /** Each status and its codes.  Of the unmerged ones only U without D, A or M beside it comes out as a
      conflict, and every code the parser does not know, such as the T of a type change, as modified. */
  lemma StatusExactly(x: char, y: char)
    ensures StatusOf(x, y) == Renamed <==> x == 'R' && y != 'M' && y != 'D'
    ensures StatusOf(x, y) == Copied <==> x == 'C' && y != 'M' && y != 'D'
    ensures StatusOf(x, y) == Untracked <==> x == '?' && y == '?'
    ensures StatusOf(x, y) == Ignored <==> x == '!' && y == '!'
    ensures StatusOf(x, y) == Modified <==>
              || x == 'M' || y == 'M'
              || (x !in {'A', 'D', 'R', 'C', 'U'} && y !in {'D', 'U'} && !(x == y == '?') && !(x == y == '!'))
    ensures StatusOf(x, y) == Deleted <==> (x == 'D' && y != 'M') || (y == 'D' && x != 'M' && x != 'A')
    ensures StatusOf(x, y) == Added <==> x == 'A' && y != 'M'
    ensures StatusOf(x, y) == Conflicted <==>
              (x == 'U' && y !in {'M', 'D'}) || (y == 'U' && x !in {'M', 'A', 'D', 'R', 'C'})
  {
  }

  /** The index side of an entry has something to commit. */
  predicate IndexChanged(x: char, y: char) {
    x in {'M', 'A', 'D', 'R', 'C'} && !IsUnmerged(x, y)
  }

  /** The staged flag tells whether the index has changed, except for renames and copies and for what was
      added or deleted in the index and modified afterwards, and for conflicts. */
  lemma StagedExactly(x: char, y: char)
    ensures StagedOf(x, y) == IndexChanged(x, y) <==>
              !(x in {'R', 'C'} && y != 'U') && !(x in {'A', 'D'} && y == 'M')
              && !(IsUnmerged(x, y) && x in {'M', 'A', 'D'})
  {
  }

  // ---- Counts --------------------------------------------------------------------------------

  lemma TrimSpaceFree(s: string)
    requires Free(s, SPACES)
    ensures Free(TrimSpace(s), SPACES)
  {
    TrimTrims(s, SPACES);
    hide SPACES, Trim;
    var t := TrimSpace(s);
    forall i | 0 <= i < |t| ensures t[i] !in SPACES { assert t[i] in s; }
  }

  lemma NoSuchPrefix(s: string, prefix: string)
    requires Free(s, SPACES) && ' ' in prefix
    ensures !HasPrefix(s, prefix)
  {
    assert ' ' in SPACES;
    hide SPACES;
    var i :| 0 <= i < |prefix| && prefix[i] == ' ';
    assert |prefix| <= |s| ==> s[..|prefix|][i] == s[i];
  }

  lemma {:induction false} WordHasNoCount(parts: seq<string>, keyword: string)
    requires forall p :: p in parts ==> Free(p, SPACES)
    requires ' ' in keyword
    ensures CountOf(parts, keyword) == 0
  {
    hide SPACES, TrimSpace, Atoi, HasPrefix, Free;
    if parts != [] {
      var last := parts[|parts| - 1];
      WordHasNoCount(parts[..|parts| - 1], keyword);
      TrimSpaceFree(last);
      NoSuchPrefix(TrimSpace(last), keyword);
    }
  }

  lemma WordCountsNothing(w: string)
    requires Free(w, SPACES)
    ensures AheadBehind(w) == (0, 0)
  {
    hide Trim, SplitOn, SPACES;
    TrimTrims(w, BRACKETS);
    var t := Trim(w, BRACKETS);
    var parts := SplitOn(t, ",");
    forall p | p in parts ensures Free(p, SPACES) {
      forall i | 0 <= i < |p| ensures p[i] !in SPACES {
        PartsFromText(t, ",", p, p[i]);
      }
    }
    WordHasNoCount(parts, "ahead ");
    WordHasNoCount(parts, "behind ");
  }

  lemma {:induction false} WordsCountNothing(words: seq<string>)
    requires forall w :: w in words ==> Free(w, SPACES)
    ensures CountsOf(words) == (0, 0)
  {
    hide AheadBehind, Free, Index;
    if words != [] {
      WordsCountNothing(words[..|words| - 1]);
      WordCountsNothing(words[|words| - 1]);
    }
  }

  /** For every output of git the parser reports 0 commits ahead and 0 behind: it cuts the branch line at
      its blanks, and without the blank in `ahead 3` there is no count to read. */
  lemma CountsAreAlwaysZero(raw: string)
    ensures Parsed(raw).ahead == 0 && Parsed(raw).behind == 0
  {
    hide Fields, LinesOf, ChangesOf, BranchOf, Free;
    var first := LinesOf(raw)[0];
    if HasPrefix(first, "## ") { FieldsAreWords(first[3..]); }
    WordsCountNothing(BranchWords(first));
  }

  function Bracket(ahead: nat, behind: nat): string {
    "[ahead " + Decimal(ahead) + ", behind " + Decimal(behind) + "]"
  }

  function Clipped(n: nat): int {
    if n <= MAX_INT then n else 0
  }

  lemma DigitsArePlain(s: string)
    requires AllDigits(s)
    ensures Free(s, {','}) && Free(s, BRACKETS) && Free(s, SPACES)
  {
  }

  lemma TrimOpening(t: string)
    requires t != "" && t[0] !in BRACKETS
    ensures TrimLeft("[" + t, BRACKETS) == t
  {
    assert ("[" + t)[0] == '[' && ("[" + t)[1..] == t;
  }

  lemma TrimClosing(inner: string)
    requires inner != "" && inner[|inner| - 1] !in BRACKETS
    ensures TrimRight(inner + "]", BRACKETS) == inner
  {
    assert (inner + "]")[|inner|] == ']' && (inner + "]")[..|inner|] == inner;
  }

  lemma TrimBrackets(inner: string)
    requires inner != "" && inner[0] !in BRACKETS && inner[|inner| - 1] !in BRACKETS
    ensures Trim("[" + inner + "]", BRACKETS) == inner
  {
    hide TrimLeft, TrimRight;
    assert "[" + inner + "]" == "[" + (inner + "]") && (inner + "]")[0] == inner[0];
    TrimOpening(inner + "]");
    TrimClosing(inner);
  }

  lemma BracketParts(ahead: nat, behind: nat)
    ensures SplitOn(Trim(Bracket(ahead, behind), BRACKETS), ",")
         == ["ahead " + Decimal(ahead), " behind " + Decimal(behind)]
  {
    hide Decimal, Index, SplitOn, Trim;
    var a, b := "ahead " + Decimal(ahead), " behind " + Decimal(behind);
    DigitsArePlain(Decimal(ahead));
    DigitsArePlain(Decimal(behind));
    var inner := a + "," + b;
    assert Bracket(ahead, behind) == "[" + inner + "]";
    assert inner[0] == 'a' && inner[|inner| - 1] == Decimal(behind)[|Decimal(behind)| - 1];
    TrimBrackets(inner);
    assert Free(a, {','}) && Free(b, {','});
    assert [a, b][1..] == [b];
    assert Joined([a, b], ",") == inner;
    hide Joined;
    SplitJoined([a, b], ',');
  }

  predicate IsKeyword(keyword: string) {
    keyword == "ahead " || keyword == "behind "
  }

  lemma CountText(keyword: string, pad: string, n: nat)
    requires IsKeyword(keyword) && (pad == "" || pad == " ")
    ensures TrimSpace(pad + keyword + Decimal(n)) == keyword + Decimal(n)
  {
    hide Decimal, TrimSpace;
    var core := keyword + Decimal(n);
    DigitsArePlain(Decimal(n));
    assert core[|core| - 1] == Decimal(n)[|Decimal(n)| - 1];
    assert core[0] == 'a' || core[0] == 'b';
    assert Trimmed(core, SPACES);
    assert pad + keyword + Decimal(n) == pad + (core + "");
    TrimPadded(pad, core, "");
  }

  lemma CountReads(parts: seq<string>, keyword: string, pad: string, n: nat)
    requires IsKeyword(keyword) && (pad == "" || pad == " ")
    requires parts != [] && parts[|parts| - 1] == pad + keyword + Decimal(n)
    ensures CountOf(parts, keyword) == if n <= MAX_INT then n else CountOf(parts[..|parts| - 1], keyword)
  {
    hide TrimSpace, Atoi, Decimal, SPACES;
    CountText(keyword, pad, n);
    var core := keyword + Decimal(n);
    assert core[..|keyword|] == keyword && core[|keyword|..] == Decimal(n);
    AtoiDecimal(n);
  }

  lemma NotPrefix(s: string, prefix: string)
    requires s != "" && prefix != "" && s[0] != prefix[0]
    ensures !HasPrefix(s, prefix)
  {
    assert |prefix| <= |s| ==> s[..|prefix|][0] == s[0];
  }

  lemma OtherCount(parts: seq<string>, keyword: string, pad: string, other: string, n: nat)
    requires IsKeyword(keyword) && IsKeyword(other) && keyword != other && (pad == "" || pad == " ")
    requires parts != [] && parts[|parts| - 1] == pad + other + Decimal(n)
    ensures CountOf(parts, keyword) == CountOf(parts[..|parts| - 1], keyword)
  {
    hide TrimSpace, Atoi, Decimal, SPACES, HasPrefix;
    CountText(other, pad, n);
    NotPrefix(other + Decimal(n), keyword);
  }

  lemma TwoCounts(parts: seq<string>, ahead: nat, behind: nat, k: string, l: string)
    requires k == "ahead " && l == "behind "
    requires parts == [k + Decimal(ahead), " " + l + Decimal(behind)]
    ensures CountOf(parts, k) == Clipped(ahead) && CountOf(parts, l) == Clipped(behind)
  {
    hide TrimSpace, Atoi, Decimal, SPACES, HasPrefix;
    var first := parts[..1];
    assert first[0] == "" + k + Decimal(ahead) && first[..0] == [];
    CountReads(parts, l, " ", behind);
    OtherCount(parts, k, " ", l, behind);
    CountReads(first, k, "", ahead);
    OtherCount(first, l, "", k, ahead);
  }

  /** The helper by itself reads both counts of a whole bracket; one that does not fit in 64 bits reads as 0. */
  lemma BracketComesBack(ahead: nat, behind: nat)
    ensures AheadBehind(Bracket(ahead, behind)) == (Clipped(ahead), Clipped(behind))
  {
    BracketParts(ahead, behind);
    var parts := SplitOn(Trim(Bracket(ahead, behind), BRACKETS), ",");
    hide SplitOn, Trim, Bracket, CountOf, Decimal;
    assert " " + "behind " == " behind ";
    TwoCounts(parts, ahead, behind, "ahead ", "behind ");
  }

  // ---- The branch ----------------------------------------------------------------------------

  /** What git prints after the branch: its upstream and the counts. */
  function Header(branch: string, upstream: Option<string>, counts: string): string {
    "## " + (branch + (match upstream case None => "" case Some(u) => DOTS + u)
            + (if counts == "" then "" else " " + counts))
  }

  /** The rules for branch names that matter here. */
  predicate IsBranchName(b: string) {
    b != "" && Free(b, SPACES) && !Contains(b + "..", DOTS)
  }

  /** The branch comes back with or without an upstream, whatever follows; a detached head is `HEAD`. */
  lemma BranchComesBack(branch: string, upstream: Option<string>, counts: string, es: seq<Entry>)
    requires IsBranchName(branch) && (upstream.Some? ==> Free(upstream.value, SPACES))
    requires Free(Header(branch, upstream, counts), NEWLINE) && forall e :: e in es ==> IsEntry(e)
    ensures Parsed(Print(Header(branch, upstream, counts), es)).branch
         == if branch == "HEAD" || branch == "(HEAD" then "HEAD" else branch
  {
    hide Print, LinesOf, ChangesOf, CountsOf, Index, Fields, SPACES, IsEntry;
    var word := branch + match upstream case None => "" case Some(u) => DOTS + u;
    var rest := if counts == "" then "" else " " + counts;
    var header := Header(branch, upstream, counts);
    LinesOfPrint(header, es);
    assert header == "## " + (word + rest);
    assert HasPrefix(header, "## ") && header[3..] == word + rest;
    assert Free(word, SPACES) && (rest == "" || rest[0] in SPACES) by { DotIsNoSpace(); }
    FirstField(word, rest);
    WordBranch(branch, upstream);
  }

  lemma DotIsNoSpace()
    ensures '.' !in SPACES && ' ' in SPACES
  {
  }

  lemma WordBranch(branch: string, upstream: Option<string>)
    requires IsBranchName(branch)
    ensures var word := branch + match upstream case None => "" case Some(u) => DOTS + u;
            var i := Index(word, DOTS);
            branch == if i >= 0 then word[..i] else word
  {
    ContainsExactly(branch + "..", DOTS);
    var word := branch + match upstream case None => "" case Some(u) => DOTS + u;
    assert |DOTS| == 3;
    forall j | 0 <= j < |branch| ensures !Matches(word, DOTS, j) {
      assert !Matches(branch + "..", DOTS, j);
      if j + 3 <= |word| {
        assert word[j..j + 3] == (branch + "..")[j..j + 3];
      }
    }
    match upstream {
      case None =>
        ContainsExactly(word, DOTS);
        assert word == branch;
      case Some(u) =>
        assert word[|branch|..|branch| + 3] == DOTS;
        assert Matches(word, DOTS, |branch|);
        assert word[..|branch|] == branch;
    }
    hide Index;
  }

  lemma NoIsAName()
    ensures IsBranchName("No")
  {
    ContainsExactly("No" + "..", DOTS);
    assert "No" + ".." == "No..";
    forall j ensures !Matches("No..", DOTS, j) {
      if 0 <= j && j + 3 <= 4 { assert "No.."[j..j + 3][0] == "No.."[j]; }
    }
    hide Index;
  }

  /** In a repository without commits git says so before it names the branch, and the parser reports a
      branch called `No`. */
  lemma NoCommitsYet(branch: string, es: seq<Entry>)
    requires Free(branch, NEWLINE) && forall e :: e in es ==> IsEntry(e)
    ensures Parsed(Print("## No commits yet on " + branch, es)).branch == "No"
  {
    hide Print, LinesOf, ChangesOf, CountsOf, Index, Fields, IsEntry;
    var header := Header("No", None, "commits yet on " + branch);
    assert header == "## No commits yet on " + branch;
    NoIsAName();
    hide Header, IsBranchName;
    BranchComesBack("No", None, "commits yet on " + branch, es);
  }
}
