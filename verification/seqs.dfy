/** Slicing and regrouping of concatenated sequences: the facts about
    `+` and `[i..j]` the byte layouts and text formats are proved with. */
module Seqs {
  /** The two parts of a concatenation, sliced back out. */
  lemma Parts2<T>(a: seq<T>, b: seq<T>)
    ensures var y, i := a + b, |a|;
      y[0..i] == a && y[i..i + |b|] == b
  {
  }

  /** The three parts of a concatenation, sliced back out. */
  lemma Parts3<T>(a: seq<T>, b: seq<T>, c: seq<T>)
    ensures var y, i, j := a + b + c, |a|, |a| + |b|;
      y[0..i] == a && y[i..j] == b && y[j..] == c
  {
  }

  /** The four parts of a concatenation, sliced back out. */
  lemma Parts4<T>(a: seq<T>, b: seq<T>, c: seq<T>, d: seq<T>)
    ensures var y, i, j, k := a + b + c + d, |a|, |a| + |b|, |a| + |b| + |c|;
      y[0..i] == a && y[i..j] == b && y[j..k] == c && y[k..] == d
  {
  }

  /** A sequence is the concatenation of its slices at `i` and `j`. */
  lemma Joined3<T>(y: seq<T>, i: nat, j: nat)
    requires i <= j <= |y|
    ensures y == y[0..i] + y[i..j] + y[j..]
  {
  }

  /** A sequence is the concatenation of its slices at `i`, `j` and `k`. */
  lemma Joined4<T>(y: seq<T>, i: nat, j: nat, k: nat)
    requires i <= j <= k <= |y|
    ensures y == y[0..i] + y[i..j] + y[j..k] + y[k..]
  {
  }

  /** Appending four parts one by one appends their concatenation. */
  lemma Append4<T>(p: seq<T>, a: seq<T>, b: seq<T>, c: seq<T>, d: seq<T>)
    ensures p + a + b + c + d == p + (a + b + c + d)
  {
  }

  /** Concatenation is associative, for the grouping of five parts used here. */
  lemma Regroup5<T>(a: seq<T>, b: seq<T>, c: seq<T>, d: seq<T>, e: seq<T>)
    ensures a + (b + c) + d + e == a + b + c + d + e
  {
  }

  /** Slices of a concatenation of six parts. */
  lemma Slices6<T>(a: seq<T>, b: seq<T>, c: seq<T>, d: seq<T>, e: seq<T>, f: seq<T>)
    ensures var y, i, j := a + b + c + d + e + f, |a| + |b| + |c|, |a| + |b| + |c| + |d|;
      && y[..|a|] == a && y[|a|..|a| + |b|] == b
      && y[i..j] == d && y[j..] == e + f
  {
    var y, i, j := a + b + c + d + e + f, |a| + |b| + |c|, |a| + |b| + |c| + |d|;
    assert y == (a + b) + (c + d) + (e + f);
  }
}
