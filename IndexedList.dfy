/**
 * Indexed lists: a PETSc section over a chart of points, holding a count per
 * point, with offsets that are the prefix sums of the counts (what
 * PetscSectionSetUp computes), and the flat arrays such a section indexes.
 * Every two-pass builder of the patch preconditioner produces one section
 * and one flat array; `Flatten` of the per-point lists is that array.
 */
module IndexedList {

  /** The set of the values in a list: a patch's cells, the global BC nodes. */
  function Elems(s: seq<int>): set<int>
  {
    set x | x in s
  }

  /** Sum of counts, accumulated from the left. */
  function Sum(s: seq<nat>): nat
  {
    if s == [] then 0 else Sum(s[..|s| - 1]) + s[|s| - 1]
  }

  lemma SumSnoc(s: seq<nat>, i: nat)
    requires i < |s|
    ensures Sum(s[..i + 1]) == Sum(s[..i]) + s[i]
  {
    assert s[..i + 1][..i] == s[..i];
  }

  lemma {:induction false} SumPrefixBound(s: seq<nat>, i: nat)
    requires i <= |s|
    ensures Sum(s[..i]) <= Sum(s)
    decreases |s| - i
  {
    if i < |s| {
      SumSnoc(s, i);
      SumPrefixBound(s, i + 1);
    } else {
      assert s[..i] == s;
    }
  }

  /**
   * A section: `counts[p - pStart]` entries at point p of the chart
   * [pStart, pStart + |counts|). Counts are never negative.
   */
  datatype Section = Section(pStart: int, counts: seq<nat>)
  {
    function PEnd(): int { pStart + |counts| }

    predicate InChart(p: int) { pStart <= p < PEnd() }

    /** PetscSectionGetDof */
    function Dof(p: int): nat
      requires InChart(p)
    {
      counts[p - pStart]
    }

    /** PetscSectionGetOffset after PetscSectionSetUp: the prefix sum. */
    function Offset(p: int): nat
      requires InChart(p)
    {
      Sum(counts[..p - pStart])
    }

    /** PetscSectionGetStorageSize */
    function StorageSize(): nat { Sum(counts) }
  }

  /**
   * The indexed-list invariant: each point's run ends inside the storage,
   * and the next point's run starts where this one ends.
   */
  lemma OffsetStep(s: Section, p: int)
    requires s.InChart(p)
    ensures s.Offset(p) + s.Dof(p) <= s.StorageSize()
    ensures s.InChart(p + 1) ==> s.Offset(p + 1) == s.Offset(p) + s.Dof(p)
  {
    SumSnoc(s.counts, p - s.pStart);
    SumPrefixBound(s.counts, p - s.pStart + 1);
  }

  /** The run of `xs` that section `s` assigns to point p. */
  function PatchSlice(s: Section, xs: seq<int>, p: int): (r: seq<int>)
    requires s.StorageSize() == |xs| && s.InChart(p)
    ensures |r| == s.Dof(p)
  {
    OffsetStep(s, p);
    xs[s.Offset(p) .. s.Offset(p) + s.Dof(p)]
  }

  /** Concatenation of per-point lists, in point order. */
  function Flatten(xs: seq<seq<int>>): seq<int>
  {
    if xs == [] then [] else Flatten(xs[..|xs| - 1]) + xs[|xs| - 1]
  }

  function Lengths(xs: seq<seq<int>>): seq<nat>
  {
    seq(|xs|, i requires 0 <= i < |xs| => |xs[i]|)
  }

  /** The section a counting pass builds for the lists `xs` over a chart starting at pStart. */
  function SectionOf(pStart: int, xs: seq<seq<int>>): Section
  {
    Section(pStart, Lengths(xs))
  }

  lemma FlattenSnoc(xs: seq<seq<int>>, k: nat)
    requires k < |xs|
    ensures Flatten(xs[..k + 1]) == Flatten(xs[..k]) + xs[k]
  {
    assert xs[..k + 1][..k] == xs[..k];
  }

  /** Storing x just past a filled prefix of an array extends that prefix by x. */
  lemma PrefixStore(before: seq<int>, after: seq<int>, n: nat, x: int)
    requires n < |before| && after == before[n := x]
    ensures after[..n + 1] == before[..n] + [x]
  {
  }

  /** PetscRealloc: a new array of length `len` that keeps the first `keep` entries. */
  method Realloc(a: array<int>, keep: nat, len: nat) returns (b: array<int>)
    requires keep <= a.Length && keep <= len
    ensures fresh(b) && b.Length == len
    ensures b[..keep] == a[..keep]
  {
    b := new int[len];
    forall i | 0 <= i < keep {
      b[i] := a[i];
    }
  }

  lemma AppendAssoc(a: seq<int>, b: seq<int>, c: seq<int>)
    ensures a + b + c == a + (b + c)
  {
  }

  lemma {:induction false} FlattenLength(xs: seq<seq<int>>)
    ensures |Flatten(xs)| == Sum(Lengths(xs))
  {
    if xs != [] {
      FlattenLength(xs[..|xs| - 1]);
      assert Lengths(xs[..|xs| - 1]) == Lengths(xs)[..|xs| - 1];
    }
  }

  lemma {:induction false} FlattenPrefix(xs: seq<seq<int>>, i: nat)
    requires i <= |xs|
    ensures |Flatten(xs[..i])| <= |Flatten(xs)|
    ensures Flatten(xs)[..|Flatten(xs[..i])|] == Flatten(xs[..i])
    decreases |xs|
  {
    if i == |xs| {
      assert xs[..i] == xs;
    } else {
      var init := xs[..|xs| - 1];
      assert init[..i] == xs[..i];
      FlattenPrefix(init, i);
    }
  }

  /** The run a section built from `xs` assigns to point p holds exactly the list of p. */
  lemma SliceOfFlatten(pStart: int, xs: seq<seq<int>>, p: int)
    requires SectionOf(pStart, xs).InChart(p)
    ensures SectionOf(pStart, xs).StorageSize() == |Flatten(xs)|
    ensures PatchSlice(SectionOf(pStart, xs), Flatten(xs), p) == xs[p - pStart]
  {
    var s := SectionOf(pStart, xs);
    var k := p - pStart;
    FlattenLength(xs);
    FlattenLength(xs[..k]);
    assert Lengths(xs[..k]) == Lengths(xs)[..k];
    FlattenSnoc(xs, k);
    FlattenPrefix(xs, k + 1);
    var f := Flatten(xs);
    var pre := Flatten(xs[..k + 1]);
    assert f[..|pre|] == pre;
    assert pre[s.Offset(p) .. s.Offset(p) + s.Dof(p)] == xs[k];
  }

  /** Element-wise form of SliceOfFlatten. */
  lemma FlattenAt(pStart: int, xs: seq<seq<int>>, p: int, a: nat)
    requires SectionOf(pStart, xs).InChart(p) && a < |xs[p - pStart]|
    ensures SectionOf(pStart, xs).Offset(p) + a < |Flatten(xs)|
    ensures Flatten(xs)[SectionOf(pStart, xs).Offset(p) + a] == xs[p - pStart][a]
  {
    SliceOfFlatten(pStart, xs, p);
    var s := SectionOf(pStart, xs);
    OffsetStep(s, p);
    assert PatchSlice(s, Flatten(xs), p)[a] == xs[p - pStart][a];
  }

  /** Every entry of the flat array comes from the list of some point, and conversely. */
  lemma {:induction false} FlattenMembers(xs: seq<seq<int>>, x: int)
    ensures x in Flatten(xs) <==> exists k :: 0 <= k < |xs| && x in xs[k]
  {
    if xs != [] {
      var n := |xs| - 1;
      FlattenMembers(xs[..n], x);
      if x in Flatten(xs[..n]) {
        var k :| 0 <= k < n && x in xs[..n][k];
        assert x in xs[k];
      }
      if exists k :: 0 <= k < |xs| && x in xs[k] {
        var k :| 0 <= k < |xs| && x in xs[k];
        if k < n {
          assert x in xs[..n][k];
        }
      }
    }
  }
}
