/** Subsequences: what a lossy channel that keeps order makes of a stream. */
module Subsequences {

  /** Some elements of `b`, in their order. */
  ghost predicate Subsequence<T>(a: seq<T>, b: seq<T>)
    decreases |b|
  {
    if b == [] then a == []
    else
      || Subsequence(a, b[..|b| - 1])
      || (a != [] && a[|a| - 1] == b[|b| - 1] && Subsequence(a[..|a| - 1], b[..|b| - 1]))
  }

  /** Strictly increasing positions below `n`. */
  predicate Increasing(at: seq<nat>, n: nat) {
    && (forall i :: 0 <= i < |at| ==> at[i] < n)
    && (forall i, j :: 0 <= i < j < |at| ==> at[i] < at[j])
  }

  function Select<T>(b: seq<T>, at: seq<nat>): seq<T>
    requires forall k :: k in at ==> k < |b|
  {
    seq(|at|, i requires 0 <= i < |at| => assert at[i] in at; b[at[i]])
  }

  lemma {:induction false} EmptySubsequence<T>(b: seq<T>)
    ensures Subsequence([], b)
  {
    if b != [] { EmptySubsequence(b[..|b| - 1]); }
  }

  lemma {:induction false} SelectIsSubsequence<T>(b: seq<T>, at: seq<nat>)
    requires Increasing(at, |b|)
    ensures Subsequence(Select(b, at), b)
    decreases |b|
  {
    var a := Select(b, at);
    if at == [] {
      EmptySubsequence(b);
      assert a == [];
    } else {
      var n := |b| - 1;
      if at[|at| - 1] == n {
        SelectIsSubsequence(b[..n], at[..|at| - 1]);
        assert a[..|a| - 1] == Select(b[..n], at[..|at| - 1]);
      } else {
        SelectIsSubsequence(b[..n], at);
        assert a == Select(b[..n], at);
      }
    }
  }

  lemma IncreasingNeedsRoom(at: seq<nat>, n: nat)
    requires Increasing(at, n)
    ensures at == [] || n > 0
  {
    if at != [] { assert at[0] < n; }
  }

  /** Increasing positions that leave nothing out are all the positions. */
  lemma {:induction false} CompleteSelection(at: seq<nat>, n: nat)
    requires Increasing(at, n)
    requires forall i :: 0 <= i < n ==> i in at
    ensures at == seq(n, i => i)
  {
    if n == 0 {
      IncreasingNeedsRoom(at, n);
    } else {
      var k := |at| - 1;
      assert n - 1 in at;
      var last :| 0 <= last < |at| && at[last] == n - 1;
      assert at[k] == n - 1;
      forall i | 0 <= i < n - 1 ensures i in at[..k] {
        assert i in at;
        var j :| 0 <= j < |at| && at[j] == i;
        assert at[..k][j] == i;
      }
      CompleteSelection(at[..k], n - 1);
      assert at == at[..k] + [n - 1];
    }
  }

  /** As many increasing positions as there are leave nothing out. */
  lemma {:induction false} FullSelection(at: seq<nat>, n: nat)
    requires Increasing(at, n) && |at| == n
    ensures forall i: nat :: i < n ==> i in at
  {
    if n > 0 {
      var init := at[..n - 1];
      assert forall i :: 0 <= i < n - 1 ==> init[i] < at[n - 1] <= n - 1;
      FullSelection(init, n - 1);
      assert at[n - 1] !in init;
      forall i: nat | i < n ensures i in at {
        if i < n - 1 {
          assert i in init;
        } else {
          assert at[n - 1] == n - 1;
        }
      }
    }
  }

  function Concat<T>(chunks: seq<seq<T>>): seq<T> {
    if chunks == [] then [] else Concat(chunks[..|chunks| - 1]) + chunks[|chunks| - 1]
  }

  /** Leaving out a non-empty chunk shortens the stream. */
  lemma {:induction false} SubsequenceConcat<T>(a: seq<seq<T>>, b: seq<seq<T>>)
    requires Subsequence(a, b)
    requires forall i :: 0 <= i < |b| ==> b[i] != []
    ensures |Concat(a)| <= |Concat(b)|
    ensures |Concat(a)| == |Concat(b)| ==> a == b
    decreases |b|
  {
    if b != [] {
      var n := |b| - 1;
      if Subsequence(a, b[..n]) {
        SubsequenceConcat(a, b[..n]);
      } else {
        SubsequenceConcat(a[..|a| - 1], b[..n]);
        assert a == a[..|a| - 1] + [b[n]] && b == b[..n] + [b[n]];
      }
    }
  }
}
