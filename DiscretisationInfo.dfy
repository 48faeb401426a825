/**
 * PCPatchCreateCellPatchDiscretisationInfo as a whole: pass 1 numbers the
 * local dofs of every patch (DofMap.NumberAllPatches), the counts of local
 * dofs become the section gtolCounts, and pass 2 rebuilds each patch's
 * global-to-local table from the stored local numbers and scatters it into
 * gtol, the local-to-global array of all patches.
 */
module DiscretisationInfo {
  import opened IndexedList
  import opened PatchErrors
  import opened DofMap

  /** The first `upto` slots of gtol agree with `expected` wherever its global dof is not negative. */
  ghost predicate GtolFilled(a: seq<int>, expected: seq<int>, upto: nat)
  {
    upto <= |a| == |expected| && forall n :: 0 <= n < upto && expected[n] >= 0 ==> a[n] == expected[n]
  }

  /** A window [off, off + |f|) written with the non-negative entries of f, everything else unchanged. */
  lemma WindowStep(before: seq<int>, after: seq<int>, expected: seq<int>, off: nat, f: seq<int>)
    requires GtolFilled(before, expected, off) && |after| == |before|
    requires off + |f| <= |expected| && expected[off .. off + |f|] == f
    requires forall n :: 0 <= n < off ==> after[n] == before[n]
    requires forall l :: 0 <= l < |f| && f[l] >= 0 ==> after[off + l] == f[l]
    ensures GtolFilled(after, expected, off + |f|)
  {
    forall n | 0 <= n < off + |f| && expected[n] >= 0
      ensures after[n] == expected[n]
    {
      if off <= n {
        assert expected[n] == f[n - off];
      }
    }
  }

  /** The expected gtol run of patch v, whose cells are cs, is its first-seen list of global dofs. */
  lemma GtolRunOfVertex(disc: Discretisation, cellCounts: Section, cells: seq<int>, v: int,
                        gtolCounts: Section, expected: seq<int>, cs: seq<int>)
    requires disc.Fits() && AllNumbered(disc.cellNumbering, cells) && cellCounts.StorageSize() == |cells|
    requires cellCounts.InChart(v) && cs == PatchSlice(cellCounts, cells, v)
    requires gtolCounts == SectionOf(cellCounts.pStart, GtolLists(disc, cellCounts, cells))
    requires expected == Flatten(GtolLists(disc, cellCounts, cells))
    ensures AllNumbered(disc.cellNumbering, cs)
    ensures gtolCounts.InChart(v) && gtolCounts.StorageSize() == |expected|
    ensures gtolCounts.Offset(v) + |FirstSeen(PatchStream(disc, cs))| <= |expected|
    ensures gtolCounts.Dof(v) == |FirstSeen(PatchStream(disc, cs))|
    ensures expected[gtolCounts.Offset(v) .. gtolCounts.Offset(v) + gtolCounts.Dof(v)] == FirstSeen(PatchStream(disc, cs))
  {
    var gl := GtolLists(disc, cellCounts, cells);
    SliceNumbered(disc.cellNumbering, cellCounts, cells, v);
    SliceOfFlatten(cellCounts.pStart, gl, v);
    OffsetStep(gtolCounts, v);
  }

  /** The run of the flat dof array that pass 2 reads for patch v, from start = Offset(v) * dofsPerCell: its local numbers. */
  lemma DofRunOfVertex(disc: Discretisation, cellCounts: Section, cells: seq<int>, v: int, dofs: seq<int>,
                       cs: seq<int>, start: int)
    requires disc.Fits() && AllNumbered(disc.cellNumbering, cells) && cellCounts.StorageSize() == |cells|
    requires cellCounts.InChart(v) && dofs == Flatten(DofLists(disc, cellCounts, cells))
    requires cs == PatchSlice(cellCounts, cells, v) && start == cellCounts.Offset(v) * disc.dofsPerCell
    ensures AllNumbered(disc.cellNumbering, cs)
    ensures 0 <= start && start + |PatchStream(disc, cs)| <= |dofs|
    ensures dofs[start .. start + |PatchStream(disc, cs)|] == LocalNumbers(PatchStream(disc, cs))
  {
    var sd := SectionOf(cellCounts.pStart, DofLists(disc, cellCounts, cells));
    DofsOfPatch(disc, cellCounts, cells, v);
    DofSectionScaled(disc, cellCounts, cells, v);
    OffsetStep(sd, v);
  }

  /**
   * Pass 2 for one patch, whose cells cs start at position lo of the cell
   * array and whose gtol run starts at gOff: rebuild the patch's table from
   * the cells and the stored local numbers, then scatter it into gtol.
   */
  method ScatterPatch(disc: Discretisation, cs: seq<int>, lo: nat, gOff: nat, dofs: seq<int>,
                      gtolArray: array<int>, ghost start: nat, ghost expected: seq<int>)
    requires disc.Fits() && AllNumbered(disc.cellNumbering, cs) && start == lo * disc.dofsPerCell
    requires start + |PatchStream(disc, cs)| <= |dofs|
    requires dofs[start .. start + |PatchStream(disc, cs)|] == LocalNumbers(PatchStream(disc, cs))
    requires gOff + |FirstSeen(PatchStream(disc, cs))| <= |expected|
    requires expected[gOff .. gOff + |FirstSeen(PatchStream(disc, cs))|] == FirstSeen(PatchStream(disc, cs))
    requires GtolFilled(gtolArray[..], expected, gOff)
    modifies gtolArray
    ensures GtolFilled(gtolArray[..], expected, gOff + |FirstSeen(PatchStream(disc, cs))|)
  {
    ghost var s := PatchStream(disc, cs);
    var ht := RebuildPatch(disc, cs, lo, dofs, s, start);
    ghost var before := gtolArray[..];
    ScatterTable(ht, s, gtolArray, gOff);
    WindowStep(before, gtolArray[..], expected, gOff, FirstSeen(s));
  }

  /** Pass 2 over all patches: gtol ends up agreeing with the first-seen lists of all patches, end to end. */
  method ScatterAllPatches(disc: Discretisation, cellCounts: Section, cells: seq<int>, gtolCounts: Section,
                           dofs: seq<int>, gtolArray: array<int>)
    requires disc.Fits() && AllNumbered(disc.cellNumbering, cells) && cellCounts.StorageSize() == |cells|
    requires dofs == Flatten(DofLists(disc, cellCounts, cells))
    requires gtolCounts == SectionOf(cellCounts.pStart, GtolLists(disc, cellCounts, cells))
    requires gtolArray.Length == gtolCounts.StorageSize()
    modifies gtolArray
    ensures GtolAgrees(gtolArray[..], Flatten(GtolLists(disc, cellCounts, cells)))
  {
    ghost var gl := GtolLists(disc, cellCounts, cells);
    ghost var expected := Flatten(gl);
    ghost var counts := gtolCounts.counts;
    var d := disc.dofsPerCell;
    FlattenLength(gl);
    for v := cellCounts.pStart to cellCounts.PEnd()
      invariant GtolFilled(gtolArray[..], expected, Sum(counts[..v - cellCounts.pStart]))
    {
      var dof := cellCounts.Dof(v);
      var off := cellCounts.Offset(v);
      OffsetStep(cellCounts, v);
      var cs := cells[off .. off + dof];
      var gOff := gtolCounts.Offset(v);
      ghost var start: int := off * d;
      PatchRuns(disc, cellCounts, cells, v, gtolCounts, dofs, expected, cs, start);
      ScatterPatch(disc, cs, off, gOff, dofs, gtolArray, start, expected);
    }
    assert counts[..|counts|] == counts;
  }

  /** What pass 2 reads and writes for vertex v, whose cells are cs. */
  lemma PatchRuns(disc: Discretisation, cellCounts: Section, cells: seq<int>, v: int, gtolCounts: Section,
                  dofs: seq<int>, expected: seq<int>, cs: seq<int>, start: int)
    requires disc.Fits() && AllNumbered(disc.cellNumbering, cells) && cellCounts.StorageSize() == |cells|
    requires cellCounts.InChart(v) && cellCounts.Offset(v) + cellCounts.Dof(v) <= |cells|
    requires cs == cells[cellCounts.Offset(v) .. cellCounts.Offset(v) + cellCounts.Dof(v)]
    requires start == cellCounts.Offset(v) * disc.dofsPerCell
    requires dofs == Flatten(DofLists(disc, cellCounts, cells))
    requires gtolCounts == SectionOf(cellCounts.pStart, GtolLists(disc, cellCounts, cells))
    requires expected == Flatten(GtolLists(disc, cellCounts, cells))
    ensures AllNumbered(disc.cellNumbering, cs)
    ensures 0 <= start && start + |PatchStream(disc, cs)| <= |dofs|
    ensures dofs[start .. start + |PatchStream(disc, cs)|] == LocalNumbers(PatchStream(disc, cs))
    ensures gtolCounts.InChart(v) && gtolCounts.Offset(v) == Sum(gtolCounts.counts[..v - cellCounts.pStart])
    ensures gtolCounts.Offset(v) + |FirstSeen(PatchStream(disc, cs))| <= |expected|
    ensures expected[gtolCounts.Offset(v) .. gtolCounts.Offset(v) + |FirstSeen(PatchStream(disc, cs))|] == FirstSeen(PatchStream(disc, cs))
    ensures Sum(gtolCounts.counts[..v + 1 - cellCounts.pStart]) == gtolCounts.Offset(v) + |FirstSeen(PatchStream(disc, cs))|
  {
    DofRunOfVertex(disc, cellCounts, cells, v, dofs, cs, start);
    GtolRunOfVertex(disc, cellCounts, cells, v, gtolCounts, expected, cs);
    SumSnoc(gtolCounts.counts, v - cellCounts.pStart);
  }

  /**
   * The whole construction. On success: the patch cells renamed to their
   * compact numbers, the local number of every (cell, slot) entry, the
   * section of local-dof counts, and gtol. It fails exactly when some patch
   * cell is not in the cell numbering.
   */
  method CreateCellPatchDiscretisationInfo(disc: Discretisation, cellCounts: Section, cells: seq<int>)
    returns (r: Result<DofInfo>)
    requires disc.Fits() && cellCounts.StorageSize() == |cells|
    ensures r.Err? <==> !AllNumbered(disc.cellNumbering, cells)
    ensures r.Err? ==> FirstUnnumbered(disc.cellNumbering, cells, r.error)
    ensures r.Ok? ==>
      && AllNumbered(disc.cellNumbering, cells)
      && r.value.cells == NewCells(disc.cellNumbering, cells)
      && r.value.dofs == Flatten(DofLists(disc, cellCounts, cells))
      && r.value.gtolCounts == SectionOf(cellCounts.pStart, GtolLists(disc, cellCounts, cells))
      && GtolAgrees(r.value.gtol, Flatten(GtolLists(disc, cellCounts, cells)))
  {
    var numCells := cellCounts.StorageSize();
    var numDofs := numCells * disc.dofsPerCell;
    var dofsArray := new int[numDofs];
    var newCellsArray := new int[numCells];
    var res := NumberAllPatches(disc, cellCounts, cells, newCellsArray, dofsArray);
    if res.Err? {
      return Err(res.error);
    }
    var gtolCounts := Section(cellCounts.pStart, res.value);
    var numGlobalDofs := gtolCounts.StorageSize();
    var gtolArray := new int[numGlobalDofs];
    ScatterAllPatches(disc, cellCounts, cells, gtolCounts, dofsArray[..], gtolArray);
    r := Ok(DofInfo(newCellsArray[..], dofsArray[..], gtolCounts, gtolArray[..]));
  }

  // ---- What the construction promises ------------------------------------

  /** The result of a successful construction, as CreateCellPatchDiscretisationInfo states it. */
  ghost predicate IsInfo(disc: Discretisation, cellCounts: Section, cells: seq<int>, info: DofInfo)
    requires disc.Fits() && cellCounts.StorageSize() == |cells|
  {
    && AllNumbered(disc.cellNumbering, cells)
    && info.cells == NewCells(disc.cellNumbering, cells)
    && info.dofs == Flatten(DofLists(disc, cellCounts, cells))
    && info.gtolCounts == SectionOf(cellCounts.pStart, GtolLists(disc, cellCounts, cells))
    && GtolAgrees(info.gtol, Flatten(GtolLists(disc, cellCounts, cells)))
  }

  /**
   * Entry j of cell i of patch p sits at position a = i * d + j of the
   * patch's stream, and is read from cellNodeMap through the cell's compact
   * number in newCells.
   */
  lemma StreamEntry(disc: Discretisation, cellCounts: Section, cells: seq<int>, newCells: seq<int>, p: int,
                    cs: seq<int>, i: nat, j: nat, a: int)
    requires disc.Fits() && AllNumbered(disc.cellNumbering, cells) && cellCounts.StorageSize() == |cells|
    requires newCells == NewCells(disc.cellNumbering, cells)
    requires cellCounts.InChart(p) && cs == PatchSlice(cellCounts, cells, p) && AllNumbered(disc.cellNumbering, cs)
    requires i < |cs| && j < disc.dofsPerCell && a == i * disc.dofsPerCell + j
    ensures cellCounts.Offset(p) + i < |newCells|
    ensures 0 <= a < |PatchStream(disc, cs)|
    ensures 0 <= newCells[cellCounts.Offset(p) + i] * disc.dofsPerCell + j < |disc.cellNodeMap|
    ensures PatchStream(disc, cs)[a] == disc.cellNodeMap[newCells[cellCounts.Offset(p) + i] * disc.dofsPerCell + j]
  {
    var d := disc.dofsPerCell;
    var nums := NewCells(disc.cellNumbering, cs);
    OffsetStep(cellCounts, p);
    NewCellsFit(disc, cs);
    DofStreamAt(disc.cellNodeMap, d, nums, i, j);
    assert cs[i] == cells[cellCounts.Offset(p) + i];
    assert CellFits(disc.cellNodeMap, d, nums[i]);
    MulMono(0, nums[i], d);
  }

  /** Position (off + i) * d + j of the flat dof array is position i * d + j of the run starting at off * d. */
  lemma RunIndex(off: nat, i: nat, j: nat, d: nat, start: int, a: int)
    requires start == off * d && a == i * d + j
    ensures 0 <= a && (off + i) * d + j == start + a
  {
    MulMono(0, i, d);
    Distrib(off, i, d);
  }

  /** Position a of patch p's stream, in the flat dof array: its local number. */
  lemma DofEntry(disc: Discretisation, cellCounts: Section, cells: seq<int>, dofs: seq<int>, p: int,
                 cs: seq<int>, a: nat, idx: int)
    requires disc.Fits() && AllNumbered(disc.cellNumbering, cells) && cellCounts.StorageSize() == |cells|
    requires cellCounts.InChart(p) && dofs == Flatten(DofLists(disc, cellCounts, cells))
    requires cs == PatchSlice(cellCounts, cells, p) && AllNumbered(disc.cellNumbering, cs)
    requires a < |PatchStream(disc, cs)| && idx == cellCounts.Offset(p) * disc.dofsPerCell + a
    ensures 0 <= idx < |dofs| && 0 <= dofs[idx] < |FirstSeen(PatchStream(disc, cs))|
    ensures FirstSeen(PatchStream(disc, cs))[dofs[idx]] == PatchStream(disc, cs)[a]
  {
    var start: int := cellCounts.Offset(p) * disc.dofsPerCell;
    DofRunOfVertex(disc, cellCounts, cells, p, dofs, cs, start);
    var s := PatchStream(disc, cs);
    LocalRoundTrip(s, a);
    assert dofs[idx] == dofs[start .. start + |s|][a];
  }

  /** Slot l of patch p's block of gtol: the l-th distinct global dof of the patch, unless it is negative. */
  lemma GtolEntry(disc: Discretisation, cellCounts: Section, cells: seq<int>, gtolCounts: Section, gtol: seq<int>,
                  p: int, cs: seq<int>, l: int)
    requires disc.Fits() && AllNumbered(disc.cellNumbering, cells) && cellCounts.StorageSize() == |cells|
    requires cellCounts.InChart(p) && cs == PatchSlice(cellCounts, cells, p) && AllNumbered(disc.cellNumbering, cs)
    requires gtolCounts == SectionOf(cellCounts.pStart, GtolLists(disc, cellCounts, cells))
    requires GtolAgrees(gtol, Flatten(GtolLists(disc, cellCounts, cells)))
    requires 0 <= l < |FirstSeen(PatchStream(disc, cs))|
    ensures gtolCounts.InChart(p) && gtolCounts.Dof(p) == |FirstSeen(PatchStream(disc, cs))|
    ensures gtolCounts.Offset(p) + l < |gtol|
    ensures FirstSeen(PatchStream(disc, cs))[l] >= 0 ==> gtol[gtolCounts.Offset(p) + l] == FirstSeen(PatchStream(disc, cs))[l]
  {
    var expected := Flatten(GtolLists(disc, cellCounts, cells));
    GtolRunOfVertex(disc, cellCounts, cells, p, gtolCounts, expected, cs);
    var f := FirstSeen(PatchStream(disc, cs));
    var gOff := gtolCounts.Offset(p);
    assert expected[gOff + l] == expected[gOff .. gOff + |f|][l];
  }

  /**
   * The round trip of the dof map: for entry j of cell i of patch p, the
   * local number stored in dofs is in range for the patch, and gtol at the
   * patch's offset plus that local number gives back the global dof that
   * cellNodeMap holds for the cell's compact number, unless that global
   * dof is negative (such slots of gtol are never written).
   */
  lemma GtolRoundTrip(disc: Discretisation, cellCounts: Section, cells: seq<int>, info: DofInfo, p: int, i: nat, j: nat)
    requires disc.Fits() && cellCounts.StorageSize() == |cells| && IsInfo(disc, cellCounts, cells, info)
    requires cellCounts.InChart(p) && i < cellCounts.Dof(p) && j < disc.dofsPerCell
    ensures var d := disc.dofsPerCell;
      var k := cellCounts.Offset(p) + i;
      && k < |info.cells| && 0 <= k * d + j < |info.dofs|
      && 0 <= info.cells[k] * d + j < |disc.cellNodeMap|
      && info.gtolCounts.InChart(p) && 0 <= info.dofs[k * d + j] < info.gtolCounts.Dof(p)
      && info.gtolCounts.Offset(p) + info.dofs[k * d + j] < |info.gtol|
      && (disc.cellNodeMap[info.cells[k] * d + j] >= 0 ==>
            info.gtol[info.gtolCounts.Offset(p) + info.dofs[k * d + j]] == disc.cellNodeMap[info.cells[k] * d + j])
  {
    var cs := PatchSlice(cellCounts, cells, p);
    SliceNumbered(disc.cellNumbering, cellCounts, cells, p);
    var a: int := i * disc.dofsPerCell + j;
    StreamEntry(disc, cellCounts, cells, info.cells, p, cs, i, j, a);
    RunIndex(cellCounts.Offset(p), i, j, disc.dofsPerCell, cellCounts.Offset(p) * disc.dofsPerCell, a);
    DofEntry(disc, cellCounts, cells, info.dofs, p, cs, a, (cellCounts.Offset(p) + i) * disc.dofsPerCell + j);
    GtolEntry(disc, cellCounts, cells, info.gtolCounts, info.gtol, p, cs,
              info.dofs[(cellCounts.Offset(p) + i) * disc.dofsPerCell + j]);
  }

  /**
   * The local numbers in a patch's run of dofs are exactly 0 .. n - 1,
   * where n is the number of distinct global dofs of the patch's stream.
   */
  lemma RunDense(dofs: seq<int>, s: seq<int>, lo: int, hi: int, n: nat, run: seq<int>)
    requires 0 <= lo && hi == lo + |s| <= |dofs| && dofs[lo .. lo + |s|] == LocalNumbers(s) && run == dofs[lo .. hi]
    requires n == |FirstSeen(s)|
    ensures forall a :: 0 <= a < |run| ==> 0 <= run[a] < n
    ensures forall l :: 0 <= l < n ==> l in run
  {
    forall a | 0 <= a < |run|
      ensures 0 <= run[a] < |FirstSeen(s)|
    {
      LocalRoundTrip(s, a);
    }
    forall l | 0 <= l < |FirstSeen(s)|
      ensures l in run
    {
      LocalDense(s, l);
      var a :| 0 <= a < |s| && LocalNumbers(s)[a] == l;
      assert run[a] == l;
    }
  }

  /**
   * Each patch's block of gtol lists distinct global dofs, one per local
   * dof, and their number is the number of distinct global dofs the patch
   * touches.
   */
  lemma PatchBlockDistinct(disc: Discretisation, cellCounts: Section, cells: seq<int>, info: DofInfo, p: int)
    requires disc.Fits() && cellCounts.StorageSize() == |cells| && IsInfo(disc, cellCounts, cells, info)
    requires cellCounts.InChart(p)
    ensures AllNumbered(disc.cellNumbering, PatchSlice(cellCounts, cells, p))
    ensures info.gtolCounts.InChart(p) && info.gtolCounts.Offset(p) + info.gtolCounts.Dof(p) <= |info.gtol|
    ensures info.gtolCounts.Dof(p) == |Elems(PatchStream(disc, PatchSlice(cellCounts, cells, p)))|
    ensures NoDup(Flatten(GtolLists(disc, cellCounts, cells))[info.gtolCounts.Offset(p) .. info.gtolCounts.Offset(p) + info.gtolCounts.Dof(p)])
  {
    var cs := PatchSlice(cellCounts, cells, p);
    var expected := Flatten(GtolLists(disc, cellCounts, cells));
    GtolRunOfVertex(disc, cellCounts, cells, p, info.gtolCounts, expected, cs);
    var s := PatchStream(disc, cs);
    FirstSeenCount(s);
    FirstSeenNoDup(s);
  }

  /**
   * The local numbers stored in patch p's run of dofs, positions
   * Offset(p) * d .. (Offset(p) + Dof(p)) * d, are exactly 0 .. Dof - 1 of
   * the patch's gtol block: none is out of range and none is unused.
   */
  lemma PatchNumberingDense(disc: Discretisation, cellCounts: Section, cells: seq<int>, info: DofInfo, p: int)
    requires disc.Fits() && cellCounts.StorageSize() == |cells| && IsInfo(disc, cellCounts, cells, info)
    requires cellCounts.InChart(p)
    ensures info.gtolCounts.InChart(p)
    ensures 0 <= cellCounts.Offset(p) * disc.dofsPerCell
              <= (cellCounts.Offset(p) + cellCounts.Dof(p)) * disc.dofsPerCell <= |info.dofs|
    ensures var run := info.dofs[cellCounts.Offset(p) * disc.dofsPerCell .. (cellCounts.Offset(p) + cellCounts.Dof(p)) * disc.dofsPerCell];
      && (forall a :: 0 <= a < |run| ==> 0 <= run[a] < info.gtolCounts.Dof(p))
      && (forall l :: 0 <= l < info.gtolCounts.Dof(p) ==> l in run)
  {
    var cs := PatchSlice(cellCounts, cells, p);
    var expected := Flatten(GtolLists(disc, cellCounts, cells));
    var lo: int := cellCounts.Offset(p) * disc.dofsPerCell;
    var hi: int := (cellCounts.Offset(p) + cellCounts.Dof(p)) * disc.dofsPerCell;
    DofRunOfVertex(disc, cellCounts, cells, p, info.dofs, cs, lo);
    GtolRunOfVertex(disc, cellCounts, cells, p, info.gtolCounts, expected, cs);
    Distrib(cellCounts.Offset(p), cellCounts.Dof(p), disc.dofsPerCell);
    RunDense(info.dofs, PatchStream(disc, cs), lo, hi, info.gtolCounts.Dof(p),
             info.dofs[cellCounts.Offset(p) * disc.dofsPerCell .. (cellCounts.Offset(p) + cellCounts.Dof(p)) * disc.dofsPerCell]);
  }
}
