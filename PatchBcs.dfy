/**
 * PCPatchCreateCellPatchBCs: for every patch, the ascending list of the
 * local dof numbers that carry a boundary condition -- the patch dofs whose
 * global dof is a global BC node, and the patch dofs named by the dofSection
 * dofs of each boundary facet of the patch. The lists are appended through a
 * running index into an array that grows when full and is trimmed at the end.
 */
module PatchBcs {
  import opened IndexedList
  import opened Topology
  import opened PatchErrors
  import DofMap

  // ---- The hash tables of one patch ---------------------------------------

  /**
   * The table patchDofs of a patch whose gtol block is `block`: every global
   * dof of the block maps to the last local number it sits at (a repeated
   * key keeps the value stored last).
   */
  function PatchDofMap(block: seq<int>): map<int, int>
  {
    if block == [] then map[] else
    var n := |block| - 1;
    PatchDofMap(block[..n])[block[n] := n]
  }

  /**
   * The keys of the table are the dofs of the block; each maps to a position
   * holding it, and no later position holds it.
   */
  lemma {:induction false} PatchDofMapMeaning(block: seq<int>)
    ensures forall g :: g in PatchDofMap(block) <==> g in block
    ensures forall g :: g in PatchDofMap(block) ==>
      0 <= PatchDofMap(block)[g] < |block| && block[PatchDofMap(block)[g]] == g
    ensures forall g, l :: g in PatchDofMap(block) && PatchDofMap(block)[g] < l < |block| ==> block[l] != g
  {
    if block != [] {
      var n := |block| - 1;
      PatchDofMapMeaning(block[..n]);
      assert block == block[..n] + [block[n]];
    }
  }

  /** The local numbers of the patch dofs whose global dof is a global BC node. */
  function GlobalBcLocals(block: seq<int>, bcSet: set<int>): set<int>
  {
    set l | 0 <= l < |block| && block[l] in bcSet
  }

  /** Union into an accumulated set, passing an error through. */
  function AddTo(acc: set<int>, r: Result<set<int>>): (r': Result<set<int>>)
    ensures r'.Err? <==> r.Err?
    ensures r'.Err? ==> r'.error == r.error
    ensures r'.Ok? ==> r'.value == acc + r.value
  {
    match r
    case Err(e) => Err(e)
    case Ok(s) => Ok(acc + s)
  }

  /**
   * The local numbers of the global dofs lo .. lo + n - 1, visited in
   * ascending order; the first that is not a patch dof is an error.
   */
  function DofRunLocals(pd: map<int, int>, lo: int, n: nat): Result<set<int>>
  {
    if n == 0 then Ok({}) else
    match DofRunLocals(pd, lo, n - 1)
    case Err(e) => Err(e)
    case Ok(s) => if lo + n - 1 in pd then Ok(s + {pd[lo + n - 1]}) else Err(FacetDofNotInPatch)
  }

  /**
   * The contribution of boundary facet f: the dofSection dofs of f itself
   * (the loop over f's closure queries the section at f on every pass, so
   * the closure points' own dofs are never marked). Querying the section
   * outside its chart is an error.
   */
  function FacetLocals(dofSection: Section, pd: map<int, int>, f: int): Result<set<int>>
  {
    if !dofSection.InChart(f) then Err(PatchIndexOutOfRange)
    else DofRunLocals(pd, dofSection.Offset(f), dofSection.Dof(f))
  }

  /**
   * The contributions of the facets `fs`, in their order; the first failing
   * facet decides the error. A facet with an empty closure is never queried.
   */
  function FacetBcs(m: Mesh, dofSection: Section, pd: map<int, int>, fs: seq<int>): Result<set<int>>
  {
    if fs == [] then Ok({}) else
    var f := fs[|fs| - 1];
    match FacetBcs(m, dofSection, pd, fs[..|fs| - 1])
    case Err(e) => Err(e)
    case Ok(s) => if |m.closure(f)| == 0 then Ok(s) else AddTo(s, FacetLocals(dofSection, pd, f))
  }

  /** The BC set of a patch with gtol block `block` and boundary facets `fs`. */
  function PatchBcSet(m: Mesh, bcSet: set<int>, dofSection: Section, block: seq<int>, fs: seq<int>): Result<set<int>>
  {
    AddTo(GlobalBcLocals(block, bcSet), FacetBcs(m, dofSection, PatchDofMap(block), fs))
  }

  // ---- Ascending order ------------------------------------------------------

  predicate Increasing(s: seq<int>)
  {
    forall i, j :: 0 <= i < j < |s| ==> s[i] < s[j]
  }

  predicate IsMin(x: int, s: set<int>)
  {
    x in s && forall y :: y in s ==> x <= y
  }

  lemma HasMember(s: set<int>)
    requires s != {}
    ensures exists x :: x in s
  {
    if forall x :: x !in s {
      assert false;
    }
  }

  lemma {:induction false} MinExists(s: set<int>)
    requires s != {}
    ensures exists x :: IsMin(x, s)
    decreases |s|
  {
    HasMember(s);
    var z :| z in s;
    if s != {z} {
      MinExists(s - {z});
      var x :| IsMin(x, s - {z});
      var least := if z < x then z else x;
      forall y | y in s
        ensures least <= y
      {
        if y != z {
          assert y in s - {z};
        }
      }
      assert IsMin(least, s);
    } else {
      assert IsMin(z, s);
    }
  }

  /** The elements of s in ascending order: what sorting the keys of a hash set yields. */
  ghost function SortedList(s: set<int>): (r: seq<int>)
    ensures |r| == |s|
    decreases |s|
  {
    if s == {} then [] else
    MinExists(s);
    var x :| IsMin(x, s);
    [x] + SortedList(s - {x})
  }

  /** The list holds exactly the elements of the set. */
  lemma {:induction false} SortedListMembers(s: set<int>)
    ensures forall x :: x in SortedList(s) <==> x in s
    decreases |s|
  {
    if s != {} {
      MinExists(s);
      var x :| IsMin(x, s);
      SortedHead(s, x);
      SortedListMembers(s - {x});
    }
  }

  /** The list is strictly ascending. */
  lemma {:induction false} SortedListIncreasing(s: set<int>)
    ensures Increasing(SortedList(s))
    decreases |s|
  {
    if s != {} {
      MinExists(s);
      var x :| IsMin(x, s);
      SortedHead(s, x);
      SortedListIncreasing(s - {x});
      SortedListMembers(s - {x});
      var r := SortedList(s);
      forall i, j | 0 <= i < j < |r|
        ensures r[i] < r[j]
      {
        if i == 0 {
          assert r[j] in s - {x};
        }
      }
    }
  }

  /** The ascending list starts with the least element. */
  lemma SortedHead(s: set<int>, x: int)
    requires IsMin(x, s)
    ensures SortedList(s) == [x] + SortedList(s - {x})
  {
  }

  // ---- What the result means -------------------------------------------------

  /** Facet f is queried (its closure is not empty) and one of its dofSection dofs has local number l. */
  ghost predicate FacetMarks(m: Mesh, dofSection: Section, pd: map<int, int>, f: int, l: int)
  {
    && |m.closure(f)| > 0 && dofSection.InChart(f)
    && exists j :: dofSection.Offset(f) <= j < dofSection.Offset(f) + dofSection.Dof(f) && j in pd && pd[j] == l
  }

  /** Facet f is not queried, or it lies in the chart and all of its dofSection dofs are patch dofs. */
  ghost predicate FacetCovered(m: Mesh, dofSection: Section, pd: map<int, int>, f: int)
  {
    |m.closure(f)| > 0 ==>
      && dofSection.InChart(f)
      && forall j :: dofSection.Offset(f) <= j < dofSection.Offset(f) + dofSection.Dof(f) ==> j in pd
  }

  /** A run of dofs succeeds exactly when every dof of it is a patch dof, and then yields their local numbers. */
  lemma {:induction false} DofRunMeaning(pd: map<int, int>, lo: int, n: nat)
    ensures DofRunLocals(pd, lo, n).Ok? <==> forall j :: lo <= j < lo + n ==> j in pd
    ensures DofRunLocals(pd, lo, n).Err? ==> DofRunLocals(pd, lo, n).error == FacetDofNotInPatch
    ensures DofRunLocals(pd, lo, n).Ok? ==>
      forall l :: l in DofRunLocals(pd, lo, n).value <==> exists j :: lo <= j < lo + n && j in pd && pd[j] == l
  {
    if n > 0 {
      DofRunMeaning(pd, lo, n - 1);
      if DofRunLocals(pd, lo, n).Ok? {
        var s := DofRunLocals(pd, lo, n).value;
        forall l
          ensures l in s <==> exists j :: lo <= j < lo + n && j in pd && pd[j] == l
        {
          if l in s && l != pd[lo + n - 1] {
            var j :| lo <= j < lo + n - 1 && j in pd && pd[j] == l;
          }
        }
      }
    }
  }

  /**
   * The facet loop of a patch succeeds exactly when every facet is covered,
   * and fails only with the two errors it can raise.
   */
  lemma {:induction false} FacetBcsOk(m: Mesh, dofSection: Section, pd: map<int, int>, fs: seq<int>)
    ensures FacetBcs(m, dofSection, pd, fs).Ok? <==> forall i :: 0 <= i < |fs| ==> FacetCovered(m, dofSection, pd, fs[i])
    ensures FacetBcs(m, dofSection, pd, fs).Err? ==>
      FacetBcs(m, dofSection, pd, fs).error in {PatchIndexOutOfRange, FacetDofNotInPatch}
  {
    if fs != [] {
      var n := |fs| - 1;
      var f := fs[n];
      FacetBcsOk(m, dofSection, pd, fs[..n]);
      if dofSection.InChart(f) {
        DofRunMeaning(pd, dofSection.Offset(f), dofSection.Dof(f));
      }
      assert forall i :: 0 <= i < n ==> fs[..n][i] == fs[i];
    }
  }

  /** A facet marks l in the list exactly when it does so in the list without its last facet, or is that facet. */
  lemma FacetMarksSnoc(m: Mesh, dofSection: Section, pd: map<int, int>, fs: seq<int>, init: seq<int>, l: int)
    requires fs != [] && init == fs[..|fs| - 1]
    ensures (exists i :: 0 <= i < |fs| && FacetMarks(m, dofSection, pd, fs[i], l)) <==>
      (exists i :: 0 <= i < |init| && FacetMarks(m, dofSection, pd, init[i], l))
      || FacetMarks(m, dofSection, pd, fs[|fs| - 1], l)
  {
    if exists i :: 0 <= i < |fs| && FacetMarks(m, dofSection, pd, fs[i], l) {
      var i :| 0 <= i < |fs| && FacetMarks(m, dofSection, pd, fs[i], l);
      if i < |init| {
        assert FacetMarks(m, dofSection, pd, init[i], l);
      }
    }
    if exists i :: 0 <= i < |init| && FacetMarks(m, dofSection, pd, init[i], l) {
      var i :| 0 <= i < |init| && FacetMarks(m, dofSection, pd, init[i], l);
      assert FacetMarks(m, dofSection, pd, fs[i], l);
    }
  }

  /** On success the facet loop marks exactly the local numbers some queried facet's dofs have. */
  lemma {:induction false} FacetBcsMembers(m: Mesh, dofSection: Section, pd: map<int, int>, fs: seq<int>, l: int)
    requires FacetBcs(m, dofSection, pd, fs).Ok?
    ensures l in FacetBcs(m, dofSection, pd, fs).value <==> exists i :: 0 <= i < |fs| && FacetMarks(m, dofSection, pd, fs[i], l)
  {
    if fs != [] {
      var n := |fs| - 1;
      var f := fs[n];
      FacetBcsMembers(m, dofSection, pd, fs[..n], l);
      if |m.closure(f)| > 0 {
        DofRunMeaning(pd, dofSection.Offset(f), dofSection.Dof(f));
      }
      FacetMarksSnoc(m, dofSection, pd, fs, fs[..n], l);
    }
  }

  /** With a duplicate-free gtol block the table inverts the block: each global dof maps back to its position. */
  lemma DistinctBlockInverse(block: seq<int>, l: int)
    requires DofMap.NoDup(block) && 0 <= l < |block|
    ensures block[l] in PatchDofMap(block) && PatchDofMap(block)[block[l]] == l
  {
    PatchDofMapMeaning(block);
  }

  // ---- Facts the loops need ----------------------------------------------------

  lemma PatchDofMapSnoc(block: seq<int>, k: nat)
    requires k < |block|
    ensures PatchDofMap(block[..k + 1]) == PatchDofMap(block[..k])[block[k] := k]
  {
    assert block[..k + 1][..k] == block[..k];
  }

  lemma GlobalBcSnoc(block: seq<int>, bcSet: set<int>, k: nat)
    requires k < |block|
    ensures GlobalBcLocals(block[..k + 1], bcSet)
      == GlobalBcLocals(block[..k], bcSet) + (if block[k] in bcSet then {k} else {})
  {
  }

  /** Once a dof run has failed, the longer runs fail the same way. */
  lemma {:induction false} DofRunErrStays(pd: map<int, int>, lo: int, k: nat, n: nat)
    requires k <= n && DofRunLocals(pd, lo, k).Err?
    ensures DofRunLocals(pd, lo, n) == DofRunLocals(pd, lo, k)
    decreases n
  {
    if n > k {
      DofRunErrStays(pd, lo, k, n - 1);
    }
  }

  lemma FacetBcsSnoc(m: Mesh, dofSection: Section, pd: map<int, int>, fs: seq<int>, i: nat)
    requires i < |fs|
    ensures FacetBcs(m, dofSection, pd, fs[..i + 1]) ==
      match FacetBcs(m, dofSection, pd, fs[..i])
      case Err(e) => Err(e)
      case Ok(s) => if |m.closure(fs[i])| == 0 then Ok(s) else AddTo(s, FacetLocals(dofSection, pd, fs[i]))
  {
    assert fs[..i + 1][..i] == fs[..i];
  }

  /** Once a facet has failed, the facet loop fails with its error. */
  lemma {:induction false} FacetBcsErrStays(m: Mesh, dofSection: Section, pd: map<int, int>, fs: seq<int>, k: nat)
    requires k <= |fs| && FacetBcs(m, dofSection, pd, fs[..k]).Err?
    ensures FacetBcs(m, dofSection, pd, fs) == FacetBcs(m, dofSection, pd, fs[..k])
    decreases |fs|
  {
    if k < |fs| {
      var n := |fs| - 1;
      assert fs[..n][..k] == fs[..k];
      FacetBcsErrStays(m, dofSection, pd, fs[..n], k);
    } else {
      assert fs[..k] == fs;
    }
  }

  // ---- One patch ---------------------------------------------------------------

  /** The table globalBcs: the set of the global BC nodes. */
  method CreateGlobalBcs(bcNodes: seq<int>) returns (globalBcs: set<int>)
    ensures forall g :: g in globalBcs <==> g in bcNodes
  {
    globalBcs := {};
    for i := 0 to |bcNodes|
      invariant forall g :: g in globalBcs <==> g in bcNodes[..i]
    {
      assert bcNodes[..i + 1] == bcNodes[..i] + [bcNodes[i]];
      globalBcs := globalBcs + {bcNodes[i]};
    }
    assert bcNodes[..|bcNodes|] == bcNodes;
  }

  /**
   * The pass over a patch's gtol block: fills patchDofs with global dof to
   * local number, and marks in localBcs the local numbers of global BC nodes.
   */
  method PatchDofTable(block: seq<int>, globalBcs: set<int>) returns (patchDofs: map<int, int>, localBcs: set<int>)
    ensures patchDofs == PatchDofMap(block)
    ensures localBcs == GlobalBcLocals(block, globalBcs)
  {
    patchDofs, localBcs := map[], {};
    for i := 0 to |block|
      invariant patchDofs == PatchDofMap(block[..i])
      invariant localBcs == GlobalBcLocals(block[..i], globalBcs)
    {
      PatchDofMapSnoc(block, i);
      GlobalBcSnoc(block, globalBcs, i);
      var globalDof := block[i];
      var localDof := i;
      patchDofs := patchDofs[globalDof := localDof];
      if globalDof in globalBcs {
        localBcs := localBcs + {localDof};
      }
    }
    assert block[..|block|] == block;
  }

  /**
   * Marks the local numbers of the global dofs loff .. loff + ldof - 1; a dof
   * the table does not hold (the lookup yields -1) is an error.
   */
  method MarkFacetDofs(patchDofs: map<int, int>, loff: int, ldof: nat, localBcs: set<int>) returns (r: Result<set<int>>)
    requires forall g :: g in patchDofs ==> patchDofs[g] >= 0
    ensures r == AddTo(localBcs, DofRunLocals(patchDofs, loff, ldof))
  {
    var acc := localBcs;
    for j := loff to loff + ldof
      invariant DofRunLocals(patchDofs, loff, j - loff).Ok?
      invariant acc == localBcs + DofRunLocals(patchDofs, loff, j - loff).value
    {
      var localDof := if j in patchDofs then patchDofs[j] else -1;
      if localDof == -1 {
        DofRunErrStays(patchDofs, loff, j - loff + 1, ldof);
        return Err(FacetDofNotInPatch);
      }
      acc := acc + {localDof};
    }
    r := Ok(acc);
  }

  /**
   * One boundary facet: the pass over its closure runs once per closure
   * point, each pass marking the dofs of f itself; the passes after the
   * first change nothing, so the result is f's contribution or nothing.
   */
  method MarkFacet(m: Mesh, dofSection: Section, patchDofs: map<int, int>, f: int, localBcs: set<int>)
    returns (r: Result<set<int>>)
    requires forall g :: g in patchDofs ==> patchDofs[g] >= 0
    ensures r == if |m.closure(f)| == 0 then Ok(localBcs) else AddTo(localBcs, FacetLocals(dofSection, patchDofs, f))
  {
    var closure := m.closure(f);
    var acc := localBcs;
    for ci := 0 to |closure|
      invariant ci == 0 ==> acc == localBcs
      invariant ci > 0 ==> FacetLocals(dofSection, patchDofs, f).Ok?
      invariant ci > 0 ==> acc == localBcs + FacetLocals(dofSection, patchDofs, f).value
    {
      if !dofSection.InChart(f) {
        return Err(PatchIndexOutOfRange);
      }
      var ldof := dofSection.Dof(f);
      var loff := dofSection.Offset(f);
      if ldof > 0 {
        var res := MarkFacetDofs(patchDofs, loff, ldof, acc);
        if res.Err? {
          return res;
        }
        acc := res.value;
      }
    }
    r := Ok(acc);
  }

  /** The boundary facets of a patch, in order; the first failure ends the patch. */
  method MarkFacets(m: Mesh, dofSection: Section, patchDofs: map<int, int>, fs: seq<int>, localBcs: set<int>)
    returns (r: Result<set<int>>)
    requires forall g :: g in patchDofs ==> patchDofs[g] >= 0
    ensures r == AddTo(localBcs, FacetBcs(m, dofSection, patchDofs, fs))
  {
    var acc := localBcs;
    assert fs[..0] == [];
    for i := 0 to |fs|
      invariant FacetBcs(m, dofSection, patchDofs, fs[..i]).Ok?
      invariant acc == localBcs + FacetBcs(m, dofSection, patchDofs, fs[..i]).value
    {
      FacetBcsSnoc(m, dofSection, patchDofs, fs, i);
      var res := MarkFacet(m, dofSection, patchDofs, fs[i], acc);
      if res.Err? {
        FacetBcsErrStays(m, dofSection, patchDofs, fs, i + 1);
        return res;
      }
      acc := res.value;
    }
    assert fs[..|fs|] == fs;
    r := Ok(acc);
  }

  /** The BC set of one patch: its gtol block is `block`, its boundary facets `fs`. */
  method PatchBcsOfVertex(m: Mesh, globalBcs: set<int>, dofSection: Section, block: seq<int>, fs: seq<int>)
    returns (r: Result<set<int>>)
    ensures r == PatchBcSet(m, globalBcs, dofSection, block, fs)
  {
    var patchDofs, localBcs := PatchDofTable(block, globalBcs);
    PatchDofMapMeaning(block);
    r := MarkFacets(m, dofSection, patchDofs, fs, localBcs);
  }

  // ---- All patches -------------------------------------------------------------

  /**
   * The arguments of PCPatchCreateCellPatchBCs: the mesh, the global BC
   * nodes, the facet and gtol indexed lists of the patches, and the dof
   * section of the discretisation.
   */
  datatype BcInputs = BcInputs(
    m: Mesh,
    bcNodes: seq<int>,
    facetCounts: Section, facets: seq<int>,
    gtolCounts: Section, gtol: seq<int>,
    dofSection: Section)
  {
    /** Each index set has the length its section gives. */
    predicate Valid()
    {
      facetCounts.StorageSize() == |facets| && gtolCounts.StorageSize() == |gtol|
    }

    /** The number of patches: the points of the facet chart. */
    function NumPatches(): nat { |facetCounts.counts| }
  }

  /** The output: the section bcCounts and the index set bcs. */
  datatype BcOutput = BcOutput(bcCounts: Section, bcs: seq<int>)

  /**
   * The BC set of the patch of the k-th vertex of the facet chart; the gtol
   * section is queried at that vertex first, which fails outside its chart.
   */
  function VertexBcs(inp: BcInputs, k: nat): Result<set<int>>
    requires inp.Valid() && k < inp.NumPatches()
  {
    var v := inp.facetCounts.pStart + k;
    if !inp.gtolCounts.InChart(v) then Err(PatchIndexOutOfRange)
    else PatchBcSet(inp.m, Elems(inp.bcNodes), inp.dofSection,
                    PatchSlice(inp.gtolCounts, inp.gtol, v), PatchSlice(inp.facetCounts, inp.facets, v))
  }

  /** The results of the patches, in vertex order. */
  function VertexResults(inp: BcInputs): (rs: seq<Result<set<int>>>)
    requires inp.Valid()
    ensures |rs| == inp.NumPatches()
  {
    seq(inp.NumPatches(), k requires 0 <= k < inp.NumPatches() => VertexBcs(inp, k))
  }

  /** A pass that stops at the first error: the error, or all the values in order. */
  function Collect(rs: seq<Result<set<int>>>): (r: Result<seq<set<int>>>)
    ensures r.Ok? ==> |r.value| == |rs|
  {
    if rs == [] then Ok([]) else
    match Collect(rs[..|rs| - 1])
    case Err(e) => Err(e)
    case Ok(ss) =>
      match rs[|rs| - 1]
      case Err(e) => Err(e)
      case Ok(bcSet) => Ok(ss + [bcSet])
  }

  ghost function SortedLists(ss: seq<set<int>>): (r: seq<seq<int>>)
    ensures |r| == |ss|
  {
    seq(|ss|, i requires 0 <= i < |ss| => SortedList(ss[i]))
  }

  /** The ascending BC lists of all patches, or the error of the first patch that fails. */
  ghost function AllPatchBcs(inp: BcInputs): Result<seq<seq<int>>>
    requires inp.Valid()
  {
    match Collect(VertexResults(inp))
    case Err(e) => Err(e)
    case Ok(ss) => Ok(SortedLists(ss))
  }

  /** The section and flat array of per-vertex lists, or the error that ended the pass. */
  function IndexedResult(pStart: int, r: Result<seq<seq<int>>>): Result<BcOutput>
  {
    match r
    case Err(e) => Err(e)
    case Ok(ls) => Ok(BcOutput(SectionOf(pStart, ls), Flatten(ls)))
  }

  /**
   * The capacity after the BC array is found too small: (1 + numBcs +
   * bcIndex) * 2, which holds the next numBcs entries.
   */
  function GrownBcCapacity(numBcs: nat, bcIndex: nat): (r: nat)
    ensures r > numBcs + bcIndex
  {
    (1 + numBcs + bcIndex) * 2
  }

  // ---- Facts the pass needs ------------------------------------------------------

  lemma CollectSnoc(rs: seq<Result<set<int>>>, k: nat)
    requires k < |rs| && Collect(rs[..k]).Ok?
    ensures Collect(rs[..k + 1]) ==
      match rs[k]
      case Err(e) => Err(e)
      case Ok(bcSet) => Ok(Collect(rs[..k]).value + [bcSet])
  {
    assert rs[..k + 1][..k] == rs[..k];
  }

  /** Once a prefix has failed, the whole pass fails with its error. */
  lemma {:induction false} CollectErrStays(rs: seq<Result<set<int>>>, k: nat)
    requires k <= |rs| && Collect(rs[..k]).Err?
    ensures Collect(rs) == Collect(rs[..k])
    decreases |rs|
  {
    if k < |rs| {
      var n := |rs| - 1;
      assert rs[..n][..k] == rs[..k];
      CollectErrStays(rs[..n], k);
    } else {
      assert rs[..k] == rs;
    }
  }

  /** The results the pass sees, each known only through the patch it belongs to. */
  lemma PassResults(inp: BcInputs) returns (rs: seq<Result<set<int>>>)
    requires inp.Valid()
    ensures |rs| == inp.NumPatches()
    ensures forall k {:trigger VertexBcs(inp, k)} :: 0 <= k < inp.NumPatches() ==> rs[k] == VertexBcs(inp, k)
  {
    rs := VertexResults(inp);
  }

  lemma SortedListsSnoc(ss: seq<set<int>>, b: set<int>)
    ensures SortedLists(ss + [b]) == SortedLists(ss) + [SortedList(b)]
  {
  }

  /** A patch that succeeds appends its ascending list to the flat array. */
  lemma FlatSortedSnoc(ss: seq<set<int>>, b: set<int>)
    ensures Flatten(SortedLists(ss + [b])) == Flatten(SortedLists(ss)) + SortedList(b)
  {
    SortedListsSnoc(ss, b);
    var ls := SortedLists(ss);
    FlattenSnoc(ls + [SortedList(b)], |ss|);
    assert (ls + [SortedList(b)])[..|ss|] == ls;
    assert (ls + [SortedList(b)])[..|ss| + 1] == ls + [SortedList(b)];
  }

  /** The results of the pass decide the result of PCPatchCreateCellPatchBCs. */
  lemma PassDone(inp: BcInputs, rs: seq<Result<set<int>>>, r: Result<seq<set<int>>>)
    requires inp.Valid() && |rs| == inp.NumPatches() && Collect(rs) == r
    requires forall k {:trigger VertexBcs(inp, k)} :: 0 <= k < inp.NumPatches() ==> rs[k] == VertexBcs(inp, k)
    ensures AllPatchBcs(inp) == match r case Err(e) => Err(e) case Ok(ss) => Ok(SortedLists(ss))
  {
    assert forall k :: 0 <= k < |rs| ==> rs[k] == VertexResults(inp)[k];
    assert rs == VertexResults(inp);
  }

  /** After the last patch: the counts written are the lengths of the ascending lists. */
  lemma CountsDone(pStart: int, ss: seq<set<int>>, counts: seq<nat>)
    requires |counts| == |ss| && forall i :: 0 <= i < |ss| ==> counts[i] == |ss[i]|
    ensures Section(pStart, counts) == SectionOf(pStart, SortedLists(ss))
  {
    assert counts == Lengths(SortedLists(ss));
  }

  // ---- Writing the lists ---------------------------------------------------------

  lemma SortedStep(pre: seq<int>, x: int, rest: set<int>)
    requires IsMin(x, rest)
    ensures pre + [x] + SortedList(rest - {x}) == pre + SortedList(rest)
  {
    SortedHead(rest, x);
  }

  /**
   * Writes the keys of a patch's localBcs table at the write index, in
   * ascending order (the key dump followed by the sort of what it wrote).
   */
  method WriteSortedKeys(arr: array<int>, index: nat, keys: set<int>, ghost done: seq<int>) returns (index': nat)
    requires index + |keys| <= arr.Length && arr[..index] == done
    modifies arr
    ensures index' == index + |keys|
    ensures arr[..index'] == done + SortedList(keys)
  {
    var rest := keys;
    index' := index;
    while rest != {}
      invariant index' + |rest| == index + |keys|
      invariant arr[..index'] + SortedList(rest) == done + SortedList(keys)
      decreases |rest|
    {
      MinExists(rest);
      var x :| IsMin(x, rest);
      SortedStep(arr[..index'], x, rest);
      ghost var before := arr[..];
      arr[index'] := x;
      PrefixStore(before, arr[..], index', x);
      rest := rest - {x};
      index' := index' + 1;
    }
  }

  /** Appends a patch's BC list, growing the array first when the list would reach its end. */
  method AppendPatchBcs(bcsArray: array<int>, bcIndex: nat, keys: set<int>, ghost done: seq<int>)
    returns (arr: array<int>, index: nat)
    requires bcIndex <= bcsArray.Length && bcsArray[..bcIndex] == done
    modifies bcsArray
    ensures index == bcIndex + |keys| <= arr.Length && (arr == bcsArray || fresh(arr))
    ensures arr[..index] == done + SortedList(keys)
  {
    arr := bcsArray;
    var numBcs := |keys|;
    if numBcs + bcIndex >= arr.Length {
      var total := GrownBcCapacity(numBcs, bcIndex);
      arr := Realloc(arr, bcIndex, total);
    }
    index := WriteSortedKeys(arr, bcIndex, keys, done);
  }

  // ---- The pass ------------------------------------------------------------------

  /** The BC step of one patch, with the global BC set and the patch's own runs as the loop holds them. */
  lemma VertexBcsIs(inp: BcInputs, k: nat, v: int, globalBcs: set<int>)
    requires inp.Valid() && k < inp.NumPatches() && v == inp.facetCounts.pStart + k && inp.gtolCounts.InChart(v)
    requires forall g :: g in globalBcs <==> g in inp.bcNodes
    ensures inp.facetCounts.InChart(v)
    ensures VertexBcs(inp, k) == PatchBcSet(inp.m, globalBcs, inp.dofSection,
                                            PatchSlice(inp.gtolCounts, inp.gtol, v), PatchSlice(inp.facetCounts, inp.facets, v))
  {
    assert forall g :: g in globalBcs <==> g in Elems(inp.bcNodes);
    assert globalBcs == Elems(inp.bcNodes);
  }

  /** The patch of the k-th vertex: its gtol run, then its BC set. */
  method VertexBcsOf(inp: BcInputs, k: nat, globalBcs: set<int>) returns (r: Result<set<int>>)
    requires inp.Valid() && k < inp.NumPatches()
    requires forall g :: g in globalBcs <==> g in inp.bcNodes
    ensures r == VertexBcs(inp, k)
  {
    var v := inp.facetCounts.pStart + k;
    if !inp.gtolCounts.InChart(v) {
      return Err(PatchIndexOutOfRange);
    }
    VertexBcsIs(inp, k, v, globalBcs);
    var block := PatchSlice(inp.gtolCounts, inp.gtol, v);
    var fs := PatchSlice(inp.facetCounts, inp.facets, v);
    r := PatchBcsOfVertex(inp.m, globalBcs, inp.dofSection, block, fs);
  }

  /**
   * The body of the vertex loop: the BC set of the patch of the k-th
   * vertex, counted and appended in ascending order to the BC array.
   */
  method PatchBcsStep(inp: BcInputs, k: nat, globalBcs: set<int>, counts: seq<nat>,
                      bcsArray: array<int>, bcIndex: nat,
                      ghost rs: seq<Result<set<int>>>, ghost ss: seq<set<int>>)
    returns (res: Result<set<int>>, counts': seq<nat>, arr: array<int>, index: nat)
    requires inp.Valid() && k < inp.NumPatches() == |rs|
    requires forall i {:trigger VertexBcs(inp, i)} :: 0 <= i < inp.NumPatches() ==> rs[i] == VertexBcs(inp, i)
    requires Collect(rs[..k]) == Ok(ss)
    requires forall g :: g in globalBcs <==> g in inp.bcNodes
    requires bcIndex <= bcsArray.Length && bcsArray[..bcIndex] == Flatten(SortedLists(ss))
    modifies bcsArray
    ensures res.Err? ==> Collect(rs) == Err(res.error)
    ensures res.Ok? ==> Collect(rs[..k + 1]) == Ok(ss + [res.value])
    ensures res.Ok? ==> counts' == counts + [|res.value|]
    ensures index <= arr.Length && (arr == bcsArray || fresh(arr))
    ensures res.Ok? ==> arr[..index] == Flatten(SortedLists(ss + [res.value]))
  {
    counts', arr, index := counts, bcsArray, bcIndex;
    res := VertexBcsOf(inp, k, globalBcs);
    CollectSnoc(rs, k);
    if res.Err? {
      CollectErrStays(rs, k + 1);
      return;
    }
    var localBcs := res.value;
    FlatSortedSnoc(ss, localBcs);
    counts' := counts + [|localBcs|];
    arr, index := AppendPatchBcs(bcsArray, bcIndex, localBcs, Flatten(SortedLists(ss)));
  }

  /**
   * PCPatchCreateCellPatchBCs: the per-vertex BC lists as an indexed list
   * over the facet chart, or the error of the first patch that fails.
   */
  method CreateCellPatchBCs(inp: BcInputs) returns (r: Result<BcOutput>)
    requires inp.Valid()
    ensures r == IndexedResult(inp.facetCounts.pStart, AllPatchBcs(inp))
  {
    var globalBcs := CreateGlobalBcs(inp.bcNodes);
    var pStart := inp.facetCounts.pStart;
    var n := inp.NumPatches();
    var counts: seq<nat> := [];
    // Guess at the number of BCs: the number of patch facets.
    var bcsArray := new int[inp.facetCounts.StorageSize()];
    var bcIndex: nat := 0;
    ghost var rs := PassResults(inp);
    ghost var ss: seq<set<int>> := [];
    assert rs[..0] == [];
    for k := 0 to n
      invariant Collect(rs[..k]) == Ok(ss)
      invariant |counts| == |ss| == k
      invariant forall i :: 0 <= i < k ==> counts[i] == |ss[i]|
      invariant bcIndex <= bcsArray.Length && fresh(bcsArray)
      invariant bcsArray[..bcIndex] == Flatten(SortedLists(ss))
    {
      var res;
      res, counts, bcsArray, bcIndex := PatchBcsStep(inp, k, globalBcs, counts, bcsArray, bcIndex, rs, ss);
      if res.Err? {
        PassDone(inp, rs, Collect(rs));
        return Err(res.error);
      }
      ss := ss + [res.value];
    }
    assert rs[..n] == rs;
    PassDone(inp, rs, Collect(rs));
    CountsDone(pStart, ss, counts);
    r := Ok(BcOutput(Section(pStart, counts), bcsArray[..bcIndex]));
  }

  // ---- What the output means -------------------------------------------------------

  /** The pass succeeds exactly when every patch does, and then holds each patch's set at its position. */
  lemma {:induction false} CollectOk(rs: seq<Result<set<int>>>)
    ensures Collect(rs).Ok? <==> forall k :: 0 <= k < |rs| ==> rs[k].Ok?
    ensures Collect(rs).Ok? ==> forall k :: 0 <= k < |rs| ==> Collect(rs).value[k] == rs[k].value
  {
    if rs != [] {
      var n := |rs| - 1;
      CollectOk(rs[..n]);
      assert forall k :: 0 <= k < n ==> rs[..n][k] == rs[k];
    }
  }

  /** A failed pass reports the error of its first failing patch. */
  lemma {:induction false} CollectErr(rs: seq<Result<set<int>>>)
    requires Collect(rs).Err?
    ensures exists k :: 0 <= k < |rs| && rs[k] == Err(Collect(rs).error) && forall i :: 0 <= i < k ==> rs[i].Ok?
  {
    var n := |rs| - 1;
    if Collect(rs[..n]).Err? {
      CollectErr(rs[..n]);
      var k :| 0 <= k < n && rs[..n][k] == Err(Collect(rs[..n]).error) && forall i :: 0 <= i < k ==> rs[..n][i].Ok?;
      assert rs[k] == Err(Collect(rs).error);
      assert forall i :: 0 <= i < k ==> rs[i].Ok? by {
        assert forall i :: 0 <= i < k ==> rs[..n][i] == rs[i];
      }
    } else {
      CollectOk(rs[..n]);
      assert forall i :: 0 <= i < n ==> rs[..n][i] == rs[i];
    }
  }

  /**
   * A patch's BC set holds the local numbers of the block entries that are
   * global BC nodes, and the local numbers the queried facets' dofs have.
   */
  lemma PatchBcSetMembers(m: Mesh, bcSet: set<int>, dofSection: Section, block: seq<int>, fs: seq<int>, l: int)
    requires PatchBcSet(m, bcSet, dofSection, block, fs).Ok?
    ensures l in PatchBcSet(m, bcSet, dofSection, block, fs).value <==>
      (0 <= l < |block| && block[l] in bcSet)
      || exists i :: 0 <= i < |fs| && FacetMarks(m, dofSection, PatchDofMap(block), fs[i], l)
  {
    FacetBcsMembers(m, dofSection, PatchDofMap(block), fs, l);
  }

  /** Every entry of a patch's BC set is a local number of the patch. */
  lemma PatchBcSetBounds(m: Mesh, bcSet: set<int>, dofSection: Section, block: seq<int>, fs: seq<int>, l: int)
    requires PatchBcSet(m, bcSet, dofSection, block, fs).Ok?
    requires l in PatchBcSet(m, bcSet, dofSection, block, fs).value
    ensures 0 <= l < |block|
  {
    var pd := PatchDofMap(block);
    PatchBcSetMembers(m, bcSet, dofSection, block, fs, l);
    if !(0 <= l < |block| && block[l] in bcSet) {
      var i :| 0 <= i < |fs| && FacetMarks(m, dofSection, pd, fs[i], l);
      var f := fs[i];
      var j :| dofSection.Offset(f) <= j < dofSection.Offset(f) + dofSection.Dof(f) && j in pd && pd[j] == l;
      PatchDofMapMeaning(block);
    }
  }

  /** A patch succeeds exactly when each of its queried facets lies in the dof chart with all dofs in the patch. */
  lemma PatchBcSetOk(m: Mesh, bcSet: set<int>, dofSection: Section, block: seq<int>, fs: seq<int>)
    ensures PatchBcSet(m, bcSet, dofSection, block, fs).Ok? <==>
      forall i :: 0 <= i < |fs| ==> FacetCovered(m, dofSection, PatchDofMap(block), fs[i])
    ensures PatchBcSet(m, bcSet, dofSection, block, fs).Err? ==>
      PatchBcSet(m, bcSet, dofSection, block, fs).error in {PatchIndexOutOfRange, FacetDofNotInPatch}
  {
    FacetBcsOk(m, dofSection, PatchDofMap(block), fs);
  }

  /** The patch of vertex v can be built: v has a gtol run and every queried facet is covered. */
  ghost predicate PatchCovered(inp: BcInputs, v: int)
    requires inp.Valid() && inp.facetCounts.InChart(v)
  {
    && inp.gtolCounts.InChart(v)
    && var fs := PatchSlice(inp.facetCounts, inp.facets, v);
       forall i :: 0 <= i < |fs| ==>
         FacetCovered(inp.m, inp.dofSection, PatchDofMap(PatchSlice(inp.gtolCounts, inp.gtol, v)), fs[i])
  }

  lemma VertexBcsOk(inp: BcInputs, v: int)
    requires inp.Valid() && inp.facetCounts.InChart(v)
    ensures VertexBcs(inp, v - inp.facetCounts.pStart).Ok? <==> PatchCovered(inp, v)
    ensures VertexBcs(inp, v - inp.facetCounts.pStart).Err? ==>
      VertexBcs(inp, v - inp.facetCounts.pStart).error in {PatchIndexOutOfRange, FacetDofNotInPatch}
  {
    if inp.gtolCounts.InChart(v) {
      PatchBcSetOk(inp.m, Elems(inp.bcNodes), inp.dofSection,
                   PatchSlice(inp.gtolCounts, inp.gtol, v), PatchSlice(inp.facetCounts, inp.facets, v));
    }
  }

  /**
   * PCPatchCreateCellPatchBCs succeeds exactly when the patch of every
   * vertex of the facet chart can be built.
   */
  lemma BcPassOk(inp: BcInputs)
    requires inp.Valid()
    ensures AllPatchBcs(inp).Ok? <==> forall v :: inp.facetCounts.InChart(v) ==> PatchCovered(inp, v)
  {
    var rs := VertexResults(inp);
    var pStart := inp.facetCounts.pStart;
    CollectOk(rs);
    forall v | inp.facetCounts.InChart(v)
      ensures rs[v - pStart].Ok? <==> PatchCovered(inp, v)
    {
      VertexBcsOk(inp, v);
    }
    if !AllPatchBcs(inp).Ok? {
      var k :| 0 <= k < |rs| && !rs[k].Ok?;
      assert !PatchCovered(inp, pStart + k);
    }
  }

  /** A failed pass reports one of the two errors a patch can raise. */
  lemma BcPassErr(inp: BcInputs)
    requires inp.Valid() && AllPatchBcs(inp).Err?
    ensures AllPatchBcs(inp).error in {PatchIndexOutOfRange, FacetDofNotInPatch}
  {
    var rs := VertexResults(inp);
    assert Collect(rs).Err? && AllPatchBcs(inp).error == Collect(rs).error;
    CollectErr(rs);
    var k :| 0 <= k < |rs| && rs[k] == Err(Collect(rs).error);
    var v := inp.facetCounts.pStart + k;
    assert v - inp.facetCounts.pStart == k && rs[k] == VertexBcs(inp, k);
    VertexBcsOk(inp, v);
  }

  /** The run the output assigns to vertex v is the ascending BC set of v's patch. */
  lemma BcRunAt(inp: BcInputs, out: BcOutput, v: int)
    requires inp.Valid() && IndexedResult(inp.facetCounts.pStart, AllPatchBcs(inp)) == Ok(out)
    requires inp.facetCounts.InChart(v)
    ensures out.bcCounts.InChart(v) && out.bcCounts.StorageSize() == |out.bcs|
    ensures VertexBcs(inp, v - inp.facetCounts.pStart).Ok?
    ensures PatchSlice(out.bcCounts, out.bcs, v) == SortedList(VertexBcs(inp, v - inp.facetCounts.pStart).value)
  {
    var pStart := inp.facetCounts.pStart;
    var rs := VertexResults(inp);
    CollectOk(rs);
    var ss := Collect(rs).value;
    var k := v - pStart;
    assert rs[k] == VertexBcs(inp, k);
    SliceOfFlatten(pStart, SortedLists(ss), v);
  }

  /** The ascending list of a successful patch is strictly ascending and holds local numbers of the patch only. */
  lemma VertexRunSorted(inp: BcInputs, v: int, run: seq<int>)
    requires inp.Valid() && inp.facetCounts.InChart(v)
    requires VertexBcs(inp, v - inp.facetCounts.pStart).Ok?
    requires run == SortedList(VertexBcs(inp, v - inp.facetCounts.pStart).value)
    ensures inp.gtolCounts.InChart(v)
    ensures Increasing(run) && forall l :: l in run ==> 0 <= l < inp.gtolCounts.Dof(v)
  {
    var b := VertexBcs(inp, v - inp.facetCounts.pStart).value;
    var block := PatchSlice(inp.gtolCounts, inp.gtol, v);
    var fs := PatchSlice(inp.facetCounts, inp.facets, v);
    assert b == PatchBcSet(inp.m, Elems(inp.bcNodes), inp.dofSection, block, fs).value;
    PatchBcSetAllBounds(inp.m, Elems(inp.bcNodes), inp.dofSection, block, fs);
    SortedListIncreasing(b);
    SortedListMembers(b);
  }

  /** Every member of a successful patch's BC set is a local number of the patch. */
  lemma PatchBcSetAllBounds(m: Mesh, bcSet: set<int>, dofSection: Section, block: seq<int>, fs: seq<int>)
    requires PatchBcSet(m, bcSet, dofSection, block, fs).Ok?
    ensures forall l :: l in PatchBcSet(m, bcSet, dofSection, block, fs).value ==> 0 <= l < |block|
  {
    forall l | l in PatchBcSet(m, bcSet, dofSection, block, fs).value
      ensures 0 <= l < |block|
    {
      PatchBcSetBounds(m, bcSet, dofSection, block, fs, l);
    }
  }

  /** Membership in the ascending list of a successful patch. */
  lemma VertexRunMembers(inp: BcInputs, v: int, run: seq<int>, l: int)
    requires inp.Valid() && inp.facetCounts.InChart(v)
    requires VertexBcs(inp, v - inp.facetCounts.pStart).Ok?
    requires run == SortedList(VertexBcs(inp, v - inp.facetCounts.pStart).value)
    ensures inp.gtolCounts.InChart(v)
    ensures var block := PatchSlice(inp.gtolCounts, inp.gtol, v);
            var fs := PatchSlice(inp.facetCounts, inp.facets, v);
      l in run <==>
        (0 <= l < |block| && block[l] in inp.bcNodes)
        || exists i :: 0 <= i < |fs| && FacetMarks(inp.m, inp.dofSection, PatchDofMap(block), fs[i], l)
  {
    var b := VertexBcs(inp, v - inp.facetCounts.pStart).value;
    SortedListMembers(b);
    var block := PatchSlice(inp.gtolCounts, inp.gtol, v);
    var fs := PatchSlice(inp.facetCounts, inp.facets, v);
    assert b == PatchBcSet(inp.m, Elems(inp.bcNodes), inp.dofSection, block, fs).value;
    PatchBcSetMembers(inp.m, Elems(inp.bcNodes), inp.dofSection, block, fs, l);
  }

  /**
   * The run of vertex v is strictly ascending and holds local numbers of
   * v's patch only.
   */
  lemma BcRunSorted(inp: BcInputs, out: BcOutput, v: int)
    requires inp.Valid() && IndexedResult(inp.facetCounts.pStart, AllPatchBcs(inp)) == Ok(out)
    requires inp.facetCounts.InChart(v)
    ensures out.bcCounts.InChart(v) && out.bcCounts.StorageSize() == |out.bcs| && inp.gtolCounts.InChart(v)
    ensures Increasing(PatchSlice(out.bcCounts, out.bcs, v))
    ensures forall l :: l in PatchSlice(out.bcCounts, out.bcs, v) ==> 0 <= l < inp.gtolCounts.Dof(v)
  {
    BcRunAt(inp, out, v);
    VertexRunSorted(inp, v, PatchSlice(out.bcCounts, out.bcs, v));
  }

  /**
   * Local number l is in the run of vertex v exactly when the patch dof l
   * is a global BC node, or some queried boundary facet of v's patch has a
   * dof numbered l in the patch.
   */
  lemma BcRunMembers(inp: BcInputs, out: BcOutput, v: int, l: int)
    requires inp.Valid() && IndexedResult(inp.facetCounts.pStart, AllPatchBcs(inp)) == Ok(out)
    requires inp.facetCounts.InChart(v)
    ensures out.bcCounts.InChart(v) && out.bcCounts.StorageSize() == |out.bcs| && inp.gtolCounts.InChart(v)
    ensures var block := PatchSlice(inp.gtolCounts, inp.gtol, v);
            var fs := PatchSlice(inp.facetCounts, inp.facets, v);
      l in PatchSlice(out.bcCounts, out.bcs, v) <==>
        (0 <= l < |block| && block[l] in inp.bcNodes)
        || exists i :: 0 <= i < |fs| && FacetMarks(inp.m, inp.dofSection, PatchDofMap(block), fs[i], l)
  {
    BcRunAt(inp, out, v);
    VertexRunMembers(inp, v, PatchSlice(out.bcCounts, out.bcs, v), l);
  }
}
