/**
  Python's `<=` on tuples of integers, which `_rank_simplify` applies to
  shapes: the first position where the tuples differ decides, and a proper
  prefix is smaller than the tuple it starts.
 */
module LexOrder {

  predicate LexLe(x: seq<nat>, y: seq<nat>) {
    if x == [] then true
    else if y == [] then false
    else if x[0] != y[0] then x[0] < y[0]
    else LexLe(x[1..], y[1..])
  }

  /** `x` is a proper prefix of `y`, or the two first differ at a position where `x` is smaller. */
  ghost predicate FirstDifferenceLe(x: seq<nat>, y: seq<nat>) {
    || (|x| <= |y| && x == y[..|x|])
    || exists k :: 0 <= k < |x| && k < |y| && x[..k] == y[..k] && x[k] < y[k]
  }

  /** `LexLe` agrees with the textbook definition of lexicographic order. */
  lemma {:induction false} LexLeIsFirstDifference(x: seq<nat>, y: seq<nat>)
    ensures LexLe(x, y) <==> FirstDifferenceLe(x, y)
  {
    if x == [] {
      assert x == y[..0];
    } else if y == [] {
    } else if x[0] != y[0] {
      if x[0] < y[0] {
        assert x[..0] == y[..0];
      } else {
        if |x| <= |y| { assert y[..|x|][0] == y[0]; }
        forall k | 0 < k <= |x| && k <= |y| ensures x[..k] != y[..k] {
          assert x[..k][0] == x[0] && y[..k][0] == y[0];
        }
      }
    } else {
      LexLeIsFirstDifference(x[1..], y[1..]);
      FirstDifferenceTail(x, y);
    }
  }

  /** Past an equal first position, a first difference is one of the tails. */
  lemma FirstDifferenceTail(x: seq<nat>, y: seq<nat>)
    requires x != [] && y != [] && x[0] == y[0]
    ensures FirstDifferenceLe(x, y) <==> FirstDifferenceLe(x[1..], y[1..])
  {
    PrefixTail(x, y);
    var x', y' := x[1..], y[1..];
    if exists k :: 0 <= k < |x'| && k < |y'| && x'[..k] == y'[..k] && x'[k] < y'[k] {
      var k :| 0 <= k < |x'| && k < |y'| && x'[..k] == y'[..k] && x'[k] < y'[k];
      DifferenceTail(x, y, k + 1);
    }
    if exists k :: 0 <= k < |x| && k < |y| && x[..k] == y[..k] && x[k] < y[k] {
      var k :| 0 <= k < |x| && k < |y| && x[..k] == y[..k] && x[k] < y[k];
      assert k > 0;
      DifferenceTail(x, y, k);
    }
  }

  /** Past an equal first position, `x` is a prefix of `y` exactly when its tail is one of the tail of `y`. */
  lemma PrefixTail(x: seq<nat>, y: seq<nat>)
    requires x != [] && y != [] && x[0] == y[0]
    ensures (|x| <= |y| && x == y[..|x|]) <==> (|x[1..]| <= |y[1..]| && x[1..] == y[1..][..|x[1..]|])
  {
    if |x| <= |y| {
      assert x == [x[0]] + x[1..] && y[..|x|] == [y[0]] + y[1..][..|x[1..]|];
    }
  }

  /** Past an equal first position, the sequences first differ at `k` exactly when their tails first differ at `k - 1`. */
  lemma DifferenceTail(x: seq<nat>, y: seq<nat>, k: nat)
    requires x != [] && y != [] && x[0] == y[0] && 0 < k < |x| && k < |y|
    ensures x[..k] == y[..k] <==> x[1..][..k - 1] == y[1..][..k - 1]
    ensures x[k] == x[1..][k - 1] && y[k] == y[1..][k - 1]
  {
    assert x[..k] == [x[0]] + x[1..][..k - 1] && y[..k] == [y[0]] + y[1..][..k - 1];
  }

  lemma {:induction false} LexLeReflexive(x: seq<nat>)
    ensures LexLe(x, x)
  {
    if x != [] { LexLeReflexive(x[1..]); }
  }

  lemma {:induction false} LexLeTotal(x: seq<nat>, y: seq<nat>)
    ensures LexLe(x, y) || LexLe(y, x)
  {
    if x != [] && y != [] && x[0] == y[0] { LexLeTotal(x[1..], y[1..]); }
  }

  lemma {:induction false} LexLeAntisymmetric(x: seq<nat>, y: seq<nat>)
    requires LexLe(x, y) && LexLe(y, x)
    ensures x == y
  {
    if x != [] && y != [] {
      LexLeAntisymmetric(x[1..], y[1..]);
      assert x == [x[0]] + x[1..] && y == [y[0]] + y[1..];
    }
  }

  lemma {:induction false} LexLeTransitive(x: seq<nat>, y: seq<nat>, z: seq<nat>)
    requires LexLe(x, y) && LexLe(y, z)
    ensures LexLe(x, z)
  {
    if x != [] && y != [] && z != [] && x[0] == y[0] == z[0] {
      LexLeTransitive(x[1..], y[1..], z[1..]);
    }
  }

  /** A proper extension is never below what it extends: the order is not one on lengths. */
  lemma {:induction false} LexLeExtension(x: seq<nat>, t: seq<nat>)
    requires t != []
    ensures LexLe(x, x + t) && !LexLe(x + t, x)
  {
    if x != [] {
      assert (x + t)[1..] == x[1..] + t;
      LexLeExtension(x[1..], t);
    }
  }

  /** The sequence of `n` copies of `d`. */
  function Repeat(d: nat, n: nat): (s: seq<nat>)
    ensures |s| == n && forall k :: 0 <= k < n ==> s[k] == d
  {
    if n == 0 then [] else [d] + Repeat(d, n - 1)
  }

  /** On sequences of one repeated value the order compares lengths. */
  lemma {:induction false} LexLeRepeat(d: nat, m: nat, n: nat)
    ensures LexLe(Repeat(d, m), Repeat(d, n)) <==> m <= n
  {
    if m > 0 && n > 0 {
      LexLeRepeat(d, m - 1, n - 1);
    }
  }
}
