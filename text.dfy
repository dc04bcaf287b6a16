/** The few Python string operations the story engine relies on. */
module Text {
  import opened Sequences

  /** Python's `str.isspace` for one character: the Unicode whitespace set. */
  predicate IsSpace(c: char) {
    c == ' ' || ('\t' <= c <= '\r') || ('\U{1C}' <= c <= '\U{1F}')
    || c == '\U{85}' || c == '\U{A0}' || c == '\U{1680}'
    || ('\U{2000}' <= c <= '\U{200A}') || c == '\U{2028}' || c == '\U{2029}'
    || c == '\U{202F}' || c == '\U{205F}' || c == '\U{3000}'
  }

  /** Every character of `s` is whitespace (true of the empty string). */
  predicate AllSpace(s: string) {
    forall k :: 0 <= k < |s| ==> IsSpace(s[k])
  }

  /** `s` neither starts nor ends with whitespace. */
  predicate Trimmed(s: string) {
    s == [] || (!IsSpace(s[0]) && !IsSpace(s[|s| - 1]))
  }

  /** Python's `str.strip()`: `s` with the whitespace at both ends removed. */
  function Strip(s: string): (r: string)
    ensures Trimmed(r)
    ensures r == [] <==> AllSpace(s)
    ensures |r| <= |s|
  {
    if |s| > 0 && IsSpace(s[0]) then
      assert AllSpace(s) <==> AllSpace(s[1..]) by {
        if AllSpace(s[1..]) {
          forall k | 0 <= k < |s| ensures IsSpace(s[k]) {
            if k > 0 { assert s[k] == s[1..][k - 1]; }
          }
        }
      }
      Strip(s[1..])
    else if |s| > 0 && IsSpace(s[|s| - 1]) then
      assert AllSpace(s) <==> AllSpace(s[..|s| - 1]) by {
        if AllSpace(s[..|s| - 1]) {
          forall k | 0 <= k < |s| ensures IsSpace(s[k]) {
            if k < |s| - 1 { assert s[k] == s[..|s| - 1][k]; }
          }
        }
      }
      Strip(s[..|s| - 1])
    else
      s
  }

  /**
   * What `Strip` removes is whitespace at the two ends: the result is the slice `s[i..j]`
   * between a whitespace-only head `s[..i]` and a whitespace-only tail `s[j..]`.
   */
  lemma {:induction false} StripSlice(s: string) returns (i: nat, j: nat)
    ensures i <= j <= |s| && Strip(s) == s[i..j]
    ensures AllSpace(s[..i]) && AllSpace(s[j..])
  {
    if |s| > 0 && IsSpace(s[0]) {
      var i', j' := StripSlice(s[1..]);
      ShiftSlice(s, i', j');
      i, j := i' + 1, j' + 1;
    } else if |s| > 0 && IsSpace(s[|s| - 1]) {
      i, j := StripSlice(s[..|s| - 1]);
      ExtendSlice(s, i, j);
    } else {
      i, j := 0, |s|;
    }
  }

  /** Putting a whitespace character back in front of `s[1..]` moves its slices by one. */
  lemma ShiftSlice(s: string, i: nat, j: nat)
    requires |s| > 0 && IsSpace(s[0]) && i <= j <= |s| - 1
    requires AllSpace(s[1..][..i]) && AllSpace(s[1..][j..])
    ensures s[1..][i..j] == s[i + 1..j + 1]
    ensures AllSpace(s[..i + 1]) && AllSpace(s[j + 1..])
  {
    assert s[1..][j..] == s[j + 1..];
    assert s[..i + 1] == [s[0]] + s[1..][..i];
  }

  /** Putting a whitespace character back after `s[..|s| - 1]` keeps its slices. */
  lemma ExtendSlice(s: string, i: nat, j: nat)
    requires |s| > 0 && IsSpace(s[|s| - 1]) && i <= j <= |s| - 1
    requires AllSpace(s[..|s| - 1][..i]) && AllSpace(s[..|s| - 1][j..])
    ensures s[..|s| - 1][i..j] == s[i..j]
    ensures AllSpace(s[..i]) && AllSpace(s[j..])
  {
    assert s[..|s| - 1][..i] == s[..i];
    assert s[j..] == s[..|s| - 1][j..] + [s[|s| - 1]];
  }

  /** Stripping a string that was already stripped changes nothing. */
  lemma StripIdempotent(s: string)
    ensures Strip(Strip(s)) == Strip(s)
  {
    TrimmedIsFixed(Strip(s));
  }

  /** A trimmed string is a fixed point of `Strip`. */
  lemma TrimmedIsFixed(s: string)
    requires Trimmed(s)
    ensures Strip(s) == s
  {
  }

  /** Python's `s[:n]`: the first `n` characters, or all of `s` when it is shorter. */
  function Prefix(s: string, n: nat): (r: string)
    ensures |r| == if |s| < n then |s| else n
    ensures r <= s
  {
    if |s| <= n then s else s[..n]
  }

  /**
   * Python's `sep.join(parts)`: every part, in order, with `sep` between neighbours
   * (`JoinLength`, `JoinAt`).
   */
  function Join(parts: seq<string>, sep: string): (r: string)
    ensures |parts| == 0 ==> r == ""
    ensures |parts| == 1 ==> r == parts[0]
    ensures |parts| >= 2 ==> parts[0] + sep <= r
    ensures |parts| > 0 ==> parts[0] <= r
  {
    if |parts| == 0 then ""
    else if |parts| == 1 then parts[0]
    else parts[0] + sep + Join(parts[1..], sep)
  }

  /** A join is as long as its parts together and one separator fewer than parts. */
  lemma {:induction false} JoinLength(parts: seq<string>, sep: string)
    requires parts != []
    ensures |Join(parts, sep)| == TotalLength(parts) + (|parts| - 1) * |sep|
    decreases |parts|
  {
    TotalLengthCons(parts);
    if |parts| == 1 {
      assert parts[1..] == [];
      assert parts[..0] == [];
    } else {
      JoinLength(parts[1..], sep);
      assert (|parts| - 2) * |sep| + |sep| == (|parts| - 1) * |sep|;
    }
  }

  /** Joining two non-empty lists of parts puts one separator between their joins. */
  lemma {:induction false} JoinAppend(a: seq<string>, b: seq<string>, sep: string)
    requires a != [] && b != []
    ensures Join(a + b, sep) == Join(a, sep) + sep + Join(b, sep)
    decreases |a|
  {
    assert (a + b)[0] == a[0];
    if |a| == 1 {
      assert (a + b)[1..] == b;
    } else {
      assert (a + b)[1..] == a[1..] + b;
      JoinAppend(a[1..], b, sep);
    }
  }

  /** Joining one more part appends the separator and that part. */
  lemma JoinSnoc(ps: seq<string>, x: string, sep: string)
    requires ps != []
    ensures Join(ps + [x], sep) == Join(ps, sep) + sep + x
  {
    JoinAppend(ps, [x], sep);
  }

  /** Joining one more part when it is present: the separator is added only after a part. */
  lemma JoinMaybe(ps: seq<string>, present: bool, x: string, sep: string)
    ensures Join(ps + (if present then [x] else []), sep)
      == Join(ps, sep) + (if present && ps != [] then sep else "") + (if present then x else "")
  {
    if !present {
      assert ps + [] == ps;
    } else if ps != [] {
      JoinSnoc(ps, x, sep);
    } else {
      assert ps + [x] == [x];
    }
  }

  /** The parts before part `i` and their separators, followed by one more separator. */
  lemma JoinBefore(parts: seq<string>, sep: string, i: nat) returns (p: string)
    requires i < |parts|
    ensures |p| == TotalLength(parts[..i]) + i * |sep|
    ensures Join(parts, sep) == p + Join(parts[i..], sep)
  {
    if i == 0 {
      assert parts[..0] == [] && parts[i..] == parts;
      p := [];
    } else {
      var a := parts[..i];
      assert parts == a + parts[i..];
      JoinAppend(a, parts[i..], sep);
      JoinLength(a, sep);
      p := Join(a, sep) + sep;
      assert (i - 1) * |sep| + |sep| == i * |sep|;
    }
  }

  /** What opens `q` sits right after `p` in `p + q`. */
  lemma PlacedAfter(p: string, q: string, x: string, y: string)
    requires x + y <= q
    ensures (p + q)[|p|..|p| + |x|] == x
    ensures (p + q)[|p| + |x|..|p| + |x| + |y|] == y
  {
    SliceAfter(p, q, 0, |x|);
    SliceAfter(p, q, |x|, |x| + |y|);
  }

  /**
   * Where each part sits in the joined string: part `i` starts at `at`, after the parts
   * before it and one separator per part before it, and a separator follows it unless it
   * is last.
   */
  lemma JoinAt(parts: seq<string>, sep: string, i: nat, at: nat)
    requires i < |parts| && at == TotalLength(parts[..i]) + i * |sep|
    ensures PartAt(Join(parts, sep), at, parts[i])
    ensures i + 1 < |parts| ==> PartAt(Join(parts, sep), at + |parts[i]|, sep)
  {
    var b := parts[i..];
    assert b[0] == parts[i];
    var p := JoinBefore(parts, sep, i);
    if i + 1 < |parts| {
      assert |b| >= 2;
      PlacedAfter(p, Join(b, sep), parts[i], sep);
    } else {
      PlacedAfter(p, Join(b, sep), parts[i], []);
    }
  }

  /**
   * In lines joined by newlines, line `i` starts after the lines before it and one newline
   * per line before it, and a newline follows it unless it is the last.
   */
  lemma JoinLinesAt(lines: seq<string>, r: string, i: nat)
    requires i < |lines| && r == Join(lines, "\n")
    ensures PartAt(r, TotalLength(lines[..i]) + i, lines[i])
    ensures i + 1 < |lines| ==> PartAt(r, TotalLength(lines[..i]) + i + |lines[i]|, "\n")
  {
    assert i * |"\n"| == i;
    JoinAt(lines, "\n", i, TotalLength(lines[..i]) + i);
  }

  /** Python's `[s.strip() for s in xs]`. */
  function StripEach(xs: seq<string>): (r: seq<string>)
    ensures |r| == |xs| && forall i :: 0 <= i < |xs| ==> r[i] == Strip(xs[i])
  {
    seq(|xs|, i requires 0 <= i < |xs| => Strip(xs[i]))
  }

  /**
   * Python's `[x for x in xs if x]`: the non-empty strings of `xs`, each as often as in
   * `xs` and in their order.
   */
  function NonEmpty(xs: seq<string>): (r: seq<string>)
    ensures forall x :: x in r <==> x in xs && x != ""
    ensures forall x :: x != "" ==> multiset(r)[x] == multiset(xs)[x]
    ensures IsSubsequence(r, xs)
    ensures |r| <= |xs|
  {
    if xs == [] then []
    else
      var rest := NonEmpty(xs[1..]);
      assert xs == [xs[0]] + xs[1..];
      if xs[0] == "" then
        SubsequenceSkip(rest, xs);
        rest
      else
        SubsequenceKeep(rest, xs);
        [xs[0]] + rest
  }
}
