/** The functions of Go's packages `strings` and `strconv` that the git parser uses, on texts taken as
    sequences of characters. */
module Text {
  import opened Wrappers

  /** `unicode.IsSpace`. */
  const SPACES: set<char> := {
    '\t', '\n', '\U{000B}', '\U{000C}', '\r', ' ', '\U{0085}', '\U{00A0}', '\U{1680}',
    '\U{2000}', '\U{2001}', '\U{2002}', '\U{2003}', '\U{2004}', '\U{2005}', '\U{2006}', '\U{2007}', '\U{2008}',
    '\U{2009}', '\U{200A}', '\U{2028}', '\U{2029}', '\U{202F}', '\U{205F}', '\U{3000}'}

  predicate Free(s: string, cut: set<char>) {
    forall i :: 0 <= i < |s| ==> s[i] !in cut
  }

  predicate HasSuffix(s: string, suffix: string) {
    |suffix| <= |s| && s[|s| - |suffix|..] == suffix
  }

  // ---- Trimming ------------------------------------------------------------------------------

  function TrimLeft(s: string, cut: set<char>): (r: string)
    ensures r == "" || r[0] !in cut
    ensures |r| <= |s| && r == s[|s| - |r|..] && forall i :: 0 <= i < |s| - |r| ==> s[i] in cut
  {
    if s != "" && s[0] in cut then TrimLeft(s[1..], cut) else s
  }

  function TrimRight(s: string, cut: set<char>): (r: string)
    ensures r == "" || r[|r| - 1] !in cut
    ensures |r| <= |s| && r == s[..|r|] && forall i :: |r| <= i < |s| ==> s[i] in cut
  {
    if s != "" && s[|s| - 1] in cut then TrimRight(s[..|s| - 1], cut) else s
  }

  function Trim(s: string, cut: set<char>): string {
    TrimRight(TrimLeft(s, cut), cut)
  }

  function TrimSpace(s: string): string {
    Trim(s, SPACES)
  }

  /** Nothing to trim at either end. */
  predicate Trimmed(s: string, cut: set<char>) {
    s == "" || (s[0] !in cut && s[|s| - 1] !in cut)
  }

  lemma TrimKeeps(s: string, cut: set<char>)
    requires Trimmed(s, cut)
    ensures Trim(s, cut) == s
  {
  }

  lemma TrimTrims(s: string, cut: set<char>)
    ensures Trimmed(Trim(s, cut), cut)
    ensures |Trim(s, cut)| <= |s|
    ensures Trim(s, cut) == s <==> Trimmed(s, cut)
    ensures forall c :: c in Trim(s, cut) ==> c in s
  {
    var l := TrimLeft(s, cut);
    var r := TrimRight(l, cut);
    forall c | c in r ensures c in s {
      var i :| 0 <= i < |r| && r[i] == c;
      assert l[i] == c && s[|s| - |l| + i] == c;
    }
    if r != "" { assert r[0] == l[0]; }
  }

  // ---- Searching and splitting ---------------------------------------------------------------

  predicate Matches(s: string, sub: string, i: int) {
    0 <= i && i + |sub| <= |s| && s[i..i + |sub|] == sub
  }

  lemma MatchesShift(s: string, sub: string)
    requires s != ""
    ensures forall j :: j > 0 ==> (Matches(s, sub, j) <==> Matches(s[1..], sub, j - 1))
  {
    forall j | j > 0 ensures Matches(s, sub, j) <==> Matches(s[1..], sub, j - 1) {
      if j + |sub| <= |s| { assert s[1..][j - 1..j - 1 + |sub|] == s[j..j + |sub|]; }
    }
  }

  /** The first occurrence, or -1. */
  function Index(s: string, sub: string): (i: int)
    ensures -1 <= i
    ensures i >= 0 ==> Matches(s, sub, i)
    ensures forall j :: 0 <= j && (j < i || i < 0) ==> !Matches(s, sub, j)
  {
    if |s| < |sub| then -1
    else if s[..|sub|] == sub then 0
    else if s == "" then -1
    else
      var i := Index(s[1..], sub);
      MatchesShift(s, sub);
      if i < 0 then -1 else i + 1
  }

  predicate Contains(s: string, sub: string) {
    Index(s, sub) >= 0
  }

  lemma ContainsExactly(s: string, sub: string)
    ensures Contains(s, sub) <==> exists i :: Matches(s, sub, i)
  {
    if Contains(s, sub) { assert Matches(s, sub, Index(s, sub)); }
  }

  function SplitOn(s: string, sep: string): (parts: seq<string>)
    requires sep != ""
    ensures parts != []
    decreases |s|
  {
    var i := Index(s, sep);
    if i < 0 then [s] else [s[..i]] + SplitOn(s[i + |sep|..], sep)
  }

  lemma {:induction false} PartsFromText(s: string, sep: string, p: string, c: char)
    requires sep != "" && p in SplitOn(s, sep) && c in p
    ensures c in s
    decreases |s|
  {
    var i := Index(s, sep);
    if i >= 0 && p != s[..i] {
      var rest := s[i + |sep|..];
      assert p in SplitOn(rest, sep);
      PartsFromText(rest, sep, p, c);
      assert c in rest;
    }
  }

  function Joined(parts: seq<string>, sep: string): string
    requires parts != []
  {
    if |parts| == 1 then parts[0] else parts[0] + sep + Joined(parts[1..], sep)
  }

  lemma FirstOccurrence(a: string, c: char, b: string)
    requires Free(a, {c})
    ensures Index(a + [c] + b, [c]) == |a|
  {
    var s := a + [c] + b;
    assert s[|a|..|a| + 1] == [c];
    assert Matches(s, [c], |a|);
    forall j | 0 <= j < |a| ensures !Matches(s, [c], j) {
      assert s[j] == a[j];
      assert s[j..j + 1] == [s[j]];
    }
  }

  lemma NoOccurrence(a: string, c: char)
    requires Free(a, {c})
    ensures Index(a, [c]) == -1
  {
    forall j | 0 <= j < |a| ensures !Matches(a, [c], j) { assert a[j..j + 1] == [a[j]]; }
  }

  /** Splitting at a character undoes joining with it. */
  lemma {:induction false} SplitJoined(parts: seq<string>, c: char)
    requires parts != [] && forall p :: p in parts ==> Free(p, {c})
    ensures SplitOn(Joined(parts, [c]), [c]) == parts
    decreases |parts|
  {
    hide Index;
    if |parts| == 1 {
      NoOccurrence(parts[0], c);
    } else {
      var rest := Joined(parts[1..], [c]);
      FirstOccurrence(parts[0], c, rest);
      SplitJoined(parts[1..], c);
      var s := parts[0] + [c] + rest;
      assert s[..|parts[0]|] == parts[0] && s[|parts[0]| + 1..] == rest;
    }
  }

  /** The length of the first word. */
  function WordEnd(s: string): (n: nat)
    ensures n <= |s| && Free(s[..n], SPACES) && (n == |s| || s[n] in SPACES)
  {
    if s == "" || s[0] in SPACES then 0
    else
      var n := 1 + WordEnd(s[1..]);
      assert s[..n] == [s[0]] + s[1..][..n - 1];
      n
  }

  /** `strings.Fields`: the words between blanks. */
  function Fields(s: string): seq<string>
    decreases |s|
  {
    var t := TrimLeft(s, SPACES);
    if t == "" then [] else (assert WordEnd(t) > 0; [t[..WordEnd(t)]] + Fields(t[WordEnd(t)..]))
  }

  lemma {:induction false} FieldsAreWords(s: string)
    ensures forall w :: w in Fields(s) ==> w != "" && Free(w, SPACES)
    decreases |s|
  {
    hide TrimLeft, WordEnd, Free;
    var t := TrimLeft(s, SPACES);
    if t != "" { FieldsAreWords(t[WordEnd(t)..]); }
  }

  /** A word at the start, followed by nothing or a blank, is the first field. */
  lemma FirstField(w: string, rest: string)
    requires w != "" && Free(w, SPACES) && (rest == "" || rest[0] in SPACES)
    ensures Fields(w + rest) != [] && Fields(w + rest)[0] == w
  {
    var s := w + rest;
    assert s[0] == w[0];
    var n := WordEnd(s);
    assert forall i :: 0 <= i < |w| ==> s[i] == w[i];
    assert forall i :: 0 <= i < n ==> s[..n][i] == s[i];
    assert |w| < |s| ==> s[|w|] == rest[0];
    assert n == |w|;
    assert s[..|w|] == w;
  }

  // ---- Numbers -------------------------------------------------------------------------------

  const MAX_INT: int := 0x7fff_ffff_ffff_ffff

  predicate IsDigit(c: char) {
    '0' <= c <= '9'
  }

  function DigitValue(c: char): int
    requires IsDigit(c)
  {
    c as int - '0' as int
  }

  predicate AllDigits(s: string) {
    forall i :: 0 <= i < |s| ==> IsDigit(s[i])
  }

  function DigitsValue(s: string): (n: nat)
    requires AllDigits(s)
  {
    if s == "" then 0 else 10 * DigitsValue(s[..|s| - 1]) + DigitValue(s[|s| - 1])
  }

  /** `strconv.Atoi` with a 64-bit int: an optional sign, digits, and no overflow. */
  function Atoi(s: string): Option<int> {
    var negative := s != "" && s[0] == '-';
    var digits := if s != "" && (s[0] == '-' || s[0] == '+') then s[1..] else s;
    if digits == "" || !AllDigits(digits) then None
    else
      var v: int := DigitsValue(digits);
      var n := if negative then -v else v;
      if -MAX_INT - 1 <= n <= MAX_INT then Some(n) else None
  }

  function Decimal(n: nat): (s: string)
    ensures s != "" && AllDigits(s)
  {
    if n < 10 then [n as char + '0'] else Decimal(n / 10) + [(n % 10) as char + '0']
  }

  lemma {:induction false} DecimalValue(n: nat)
    ensures DigitsValue(Decimal(n)) == n
  {
    var s := Decimal(n);
    if n < 10 {
      assert s[..|s| - 1] == "" && s[|s| - 1] == n as char + '0';
    } else {
      DecimalValue(n / 10);
      assert s[..|s| - 1] == Decimal(n / 10) && s[|s| - 1] == (n % 10) as char + '0';
    }
  }

  /** A printed number is read back exactly if it fits in 64 bits; otherwise `Atoi` fails. */
  lemma AtoiDecimal(n: nat)
    ensures Atoi(Decimal(n)) == if n <= MAX_INT then Some(n) else None
  {
    DecimalValue(n);
    assert IsDigit(Decimal(n)[0]);
  }
}
