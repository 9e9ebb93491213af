/** How git prints the paths of a short status (git-status, "Short Format", with the default
    `core.quotePath`): a path with blanks, quotes, backslashes, control characters or bytes beyond ASCII
    stands in quotes, with the escapes of C. */
module GitQuotes {
  import opened Text

  /** A character that needs no quotes.  A path is a non-empty sequence of bytes, each taken as the
      character of its number. */
  predicate IsPlain(c: char) {
    '!' <= c <= '~' && c != '"' && c != '\\'
  }

  predicate NeedsQuotes(p: string) {
    exists i :: 0 <= i < |p| && !IsPlain(p[i])
  }

  function OctalDigit(n: nat): char {
    '0' + (n % 8) as char
  }

  /** What one byte becomes inside quotes. */
  function Escape(c: char): (s: string)
    ensures s != "" && forall i :: 0 <= i < |s| ==> ' ' <= s[i] <= '~' && (s[i] == ' ' <==> c == ' ')
  {
    if c == '"' then "\\\""
    else if c == '\\' then "\\\\"
    else if c == 7 as char then "\\a"
    else if c == 8 as char then "\\b"
    else if c == '\t' then "\\t"
    else if c == '\n' then "\\n"
    else if c == 11 as char then "\\v"
    else if c == 12 as char then "\\f"
    else if c == '\r' then "\\r"
    else if c < ' ' || c > '~' then
      ['\\', OctalDigit(c as int / 64), OctalDigit(c as int / 8), OctalDigit(c as int)]
    else [c]
  }

  function Escaped(p: string): string {
    if p == "" then "" else Escape(p[0]) + Escaped(p[1..])
  }

  function Quoted(p: string): string {
    if NeedsQuotes(p) then "\"" + Escaped(p) + "\"" else p
  }

  lemma {:induction false} EscapedChars(p: string)
    ensures |Escaped(p)| >= |p|
    ensures forall i :: 0 <= i < |Escaped(p)| ==> ' ' <= Escaped(p)[i] <= '~'
  {
    hide Escape;
    if p != "" { EscapedChars(p[1..]); }
  }

  /** A blank inside the quotes comes from one that stands no later in the path. */
  lemma {:induction false} EscapedBlank(p: string, m: nat) returns (j: nat)
    requires m < |Escaped(p)| && Escaped(p)[m] == ' '
    ensures j <= m && j < |p| && p[j] == ' '
  {
    hide Escape;
    var n := |Escape(p[0])|;
    if m < n {
      assert Escape(p[0])[m] == ' ';
      j := 0;
    } else {
      var i := EscapedBlank(p[1..], m - n);
      j := i + 1;
    }
  }

  lemma EscapePlain(c: char)
    ensures IsPlain(c) || c == ' ' ==> Escape(c) == [c]
  {
  }

  lemma {:induction false} EscapedPlain(p: string, q: string)
    requires forall i :: 0 <= i < |p| ==> IsPlain(p[i]) || p[i] == ' '
    ensures Escaped(p + q) == p + Escaped(q)
  {
    hide Escape, IsPlain;
    if p == "" {
      assert p + q == q;
    } else {
      var rest := p[1..];
      EscapePlain(p[0]);
      EscapedPlain(rest, q);
      assert (p + q)[0] == p[0] && (p + q)[1..] == rest + q;
      assert [p[0]] + (rest + Escaped(q)) == p + Escaped(q);
    }
  }

  lemma PlainHasNoBlank(c: char)
    ensures IsPlain(c) ==> c !in SPACES
    ensures ' ' <= c <= '~' && c != ' ' ==> c !in SPACES
  {
  }

  /** Quoted or not, a printed path has no blank at its ends, no newline, and gets longer by its quotes. */
  lemma QuotedShape(p: string)
    requires p != ""
    ensures Quoted(p) != "" && Trimmed(Quoted(p), SPACES) && Free(Quoted(p), {'\n'})
    ensures NeedsQuotes(p) ==> |Quoted(p)| >= |p| + 2 && Quoted(p)[0] == '"'
    ensures !NeedsQuotes(p) ==> Quoted(p) == p && Free(p, SPACES)
  {
    hide Escape, Escaped, SPACES;
    EscapedChars(p);
    forall c ensures (IsPlain(c) ==> c !in SPACES) && (' ' <= c <= '~' && c != ' ' ==> c !in SPACES)
    {
      PlainHasNoBlank(c);
    }
    var q := Quoted(p);
    forall i | 0 <= i < |q| ensures ' ' <= q[i] <= '~' {
      assert NeedsQuotes(p) && 0 < i < |q| - 1 ==> q[i] == Escaped(p)[i - 1];
    }
  }

  /** A path that starts like its own quoted form has no blank: each would come from an earlier one. */
  lemma {:induction false} NoBlankInside(p: string, n: nat, k: nat)
    requires NeedsQuotes(p) && n <= |Quoted(p)| && p == Quoted(p)[..n] && k < |p|
    ensures p[k] != ' '
    decreases k
  {
    hide Escape, Escaped;
    if p[k] == ' ' {
      assert Quoted(p)[k] == p[k] && k > 0 && Escaped(p)[k - 1] == ' ';
      var h := EscapedBlank(p, k - 1);
      NoBlankInside(p, n, h);
    }
  }

  /** So no path is its own quoted form up to a blank. */
  lemma NotItsOwnPrefix(p: string, i: nat, n: nat)
    requires NeedsQuotes(p) && i < |Quoted(p)| && Quoted(p)[i] == ' ' && n <= i
    ensures p != Quoted(p)[..n]
  {
    hide Escape, Escaped;
    assert 0 < i < |Quoted(p)| - 1 && Escaped(p)[i - 1] == ' ';
    var j := EscapedBlank(p, i - 1);
    if p == Quoted(p)[..n] { NoBlankInside(p, n, j); }
  }
}
