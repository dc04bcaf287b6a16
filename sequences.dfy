/** Order-keeping relations between sequences, shared by the string and graph filters. */
module Sequences {

  /** `a` is `b` with some elements left out, the rest in their order. */
  predicate IsSubsequence<T(==)>(a: seq<T>, b: seq<T>)
    decreases |b|
  {
    if a == [] then true
    else if b == [] then false
    else if a[0] == b[0] then IsSubsequence(a[1..], b[1..])
    else IsSubsequence(a, b[1..])
  }

  /** Keeping the first element of `b` in front of a subsequence of its tail gives a subsequence of `b`. */
  lemma SubsequenceKeep<T>(a: seq<T>, b: seq<T>)
    requires b != [] && IsSubsequence(a, b[1..])
    ensures IsSubsequence([b[0]] + a, b)
  {
    assert ([b[0]] + a)[1..] == a;
  }

  /** Leaving out the first element of `b` keeps a subsequence of its tail one of `b`. */
  lemma SubsequenceSkip<T>(a: seq<T>, b: seq<T>)
    requires b != [] && b[0] !in a && IsSubsequence(a, b[1..])
    ensures IsSubsequence(a, b)
  {
    if a != [] {
      assert a[0] in a;
    }
  }

  /** Every sequence is a subsequence of itself. */
  lemma {:induction false} SubsequenceRefl<T>(a: seq<T>)
    ensures IsSubsequence(a, a)
    decreases |a|
  {
    if a != [] {
      SubsequenceRefl(a[1..]);
    }
  }

  /** Appending is associative. */
  lemma AppendAssoc<T>(a: seq<T>, b: seq<T>, c: seq<T>)
    ensures a + b + c == a + (b + c)
  {
  }

  /** A slice of the second half of `p + q` is the same slice of `q`. */
  lemma SliceAfter<T>(p: seq<T>, q: seq<T>, k: nat, l: nat)
    requires k <= l <= |q|
    ensures (p + q)[|p| + k..|p| + l] == q[k..l]
  {
  }

  /** Where `x`, `y` and `z` sit in `p + x + q + y + z + e`. */
  lemma ThreeSlices<T>(p: seq<T>, x: seq<T>, q: seq<T>, y: seq<T>, z: seq<T>, e: seq<T>)
    ensures var r := p + x + q + y + z + e;
      var at := |p| + |x| + |q|;
      r[|p|..|p| + |x|] == x && r[at..at + |y|] == y && r[at + |y|..at + |y| + |z|] == z
  {
    var r := p + x + q + y + z + e;
    assert r == p + x + (q + y + z + e);
    assert r == (p + x + q) + y + (z + e);
    assert r == (p + x + q + y) + z + e;
  }

  /** `f` applied to each element of `xs`, in order. */
  function Map<A, B>(f: A --> B, xs: seq<A>): (r: seq<B>)
    requires forall x :: x in xs ==> f.requires(x)
    ensures |r| == |xs|
  {
    if xs == [] then [] else [f(xs[0])] + Map(f, xs[1..])
  }

  /** Element `i` of the map is `f` of element `i`. */
  lemma {:induction false} MapAt<A, B>(f: A --> B, xs: seq<A>, i: nat)
    requires (forall x :: x in xs ==> f.requires(x)) && i < |xs|
    ensures Map(f, xs)[i] == f(xs[i])
  {
    if i > 0 {
      MapAt(f, xs[1..], i - 1);
    }
  }

  /** Two functions that agree on every element of `xs` map it alike. */
  lemma {:induction false} MapAgree<A, B>(f: A --> B, g: A --> B, xs: seq<A>)
    requires forall x :: x in xs ==> f.requires(x) && g.requires(x) && f(x) == g(x)
    ensures Map(f, xs) == Map(g, xs)
  {
    if xs != [] {
      MapAgree(f, g, xs[1..]);
    }
  }

  /** The sum of the lengths of `parts`. */
  function TotalLength<T>(parts: seq<seq<T>>): nat
    decreases |parts|
  {
    if parts == [] then 0 else TotalLength(parts[..|parts| - 1]) + |parts[|parts| - 1]|
  }

  /** The total length counts the first part, then the rest. */
  lemma {:induction false} TotalLengthCons<T>(parts: seq<seq<T>>)
    requires parts != []
    ensures TotalLength(parts) == |parts[0]| + TotalLength(parts[1..])
    decreases |parts|
  {
    if |parts| > 1 {
      var n := |parts| - 1;
      assert parts[..n][0] == parts[0];
      assert parts[..n][1..] == parts[1..][..n - 1];
      TotalLengthCons(parts[..n]);
      assert parts[1..][n - 1] == parts[n];
    } else {
      assert parts[1..] == [];
      assert parts[..0] == [];
    }
  }

  /** The lists of `parts` joined end to end, in order; as long as all of them together. */
  function Concat<T>(parts: seq<seq<T>>): (r: seq<T>)
    ensures |r| == TotalLength(parts)
    decreases |parts|
  {
    if parts == [] then [] else Concat(parts[..|parts| - 1]) + parts[|parts| - 1]
  }

  /** The parts before the second one are just the first. */
  lemma TotalLengthFirst<T>(parts: seq<seq<T>>)
    requires parts != []
    ensures TotalLength(parts[..1]) == |parts[0]|
  {
    assert parts[..1][..0] == [];
  }

  /** Joining two lists of parts joins their joins. */
  lemma {:induction false} ConcatAppend<T>(a: seq<seq<T>>, b: seq<seq<T>>)
    ensures Concat(a + b) == Concat(a) + Concat(b)
    decreases |b|
  {
    if b == [] {
      assert a + b == a;
    } else {
      var n := |b| - 1;
      assert (a + b)[..|a + b| - 1] == a + b[..n];
      assert (a + b)[|a + b| - 1] == b[n];
      ConcatAppend(a, b[..n]);
      AppendAssoc(Concat(a), Concat(b[..n]), b[n]);
    }
  }

  /** Part `i` sits in the join right after the parts before it. */
  lemma ConcatPart<T>(parts: seq<seq<T>>, i: nat)
    requires i < |parts|
    ensures TotalLength(parts[..i]) + |parts[i]| <= |Concat(parts)|
    ensures Concat(parts)[TotalLength(parts[..i])..TotalLength(parts[..i]) + |parts[i]|] == parts[i]
  {
    var pre, rest := parts[..i], parts[i + 1..];
    assert parts == pre + [parts[i]] + rest;
    ConcatAppend(pre + [parts[i]], rest);
    ConcatAppend(pre, [parts[i]]);
    assert [parts[i]][..0] == [];
    assert Concat([parts[i]]) == parts[i];
    var c := Concat(pre);
    assert Concat(parts) == c + parts[i] + Concat(rest);
  }

  /** `part` occurs in `xs` starting at index `at`. */
  predicate PartAt<T(==)>(xs: seq<T>, at: nat, part: seq<T>) {
    at + |part| <= |xs| && xs[at..at + |part|] == part
  }

  /** Part `i` of `parts` sits in their join right after the parts before it. */
  lemma ConcatPartAt<T>(parts: seq<seq<T>>, i: nat, part: seq<T>)
    requires i < |parts| && parts[i] == part
    ensures PartAt(Concat(parts), TotalLength(parts[..i]), part)
    ensures part != [] ==> Concat(parts)[TotalLength(parts[..i])] == part[0]
  {
    ConcatPart(parts, i);
    var at := TotalLength(parts[..i]);
    assert part != [] ==> Concat(parts)[at] == Concat(parts)[at..at + |part|][0];
  }

  /** Joining one more part appends it. */
  lemma ConcatSnoc<T>(parts: seq<seq<T>>, i: nat)
    requires 0 < i <= |parts|
    ensures Concat(parts[..i]) == Concat(parts[..i - 1]) + parts[i - 1]
  {
    assert parts[..i][..i - 1] == parts[..i - 1];
  }

  /** When every part but the one at `j` is empty, joining the parts gives that one (or nothing, past the end). */
  lemma {:induction false} ConcatOne<T>(parts: seq<seq<T>>, j: nat)
    requires forall a :: 0 <= a < |parts| && a != j ==> parts[a] == []
    ensures Concat(parts) == if j < |parts| then parts[j] else []
    decreases |parts|
  {
    if parts != [] {
      var n := |parts| - 1;
      var init := parts[..n];
      assert forall a :: 0 <= a < |init| && a != j ==> init[a] == [] by {
        forall a | 0 <= a < |init| && a != j ensures init[a] == [] {
          assert init[a] == parts[a];
        }
      }
      ConcatOne(init, j);
      if n != j {
        assert parts[n] == [];
        assert Concat(init) + [] == Concat(init);
      } else {
        assert [] + parts[j] == parts[j];
      }
    }
  }
}
