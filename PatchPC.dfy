/**
 * The PC_PATCH object: the options its setters store, the patch data that
 * PCSetUp_PATCH builds from them, the arguments PCPatchComputeOperator
 * hands to the user callback, and the windows of the local work vectors
 * that PCApply_PATCH places each patch's vectors on.
 */
module PatchPC {
  import opened IndexedList
  import opened Topology
  import opened PatchErrors
  import opened DofMap
  import opened DiscretisationInfo
  import CellPatches
  import PatchFacets
  import PatchBcs

  // ---- The global-to-local star forest -------------------------------------------

  /** A leaf of a star forest: the rank and the index of its root. */
  datatype SFNode = SFNode(rank: int, index: int)

  /**
   * The leaves PCPatchCreateGlobalToLocalSF gives the local star forest:
   * one per slot of gtol, rooted on rank 0 at the global dof the slot holds.
   */
  method GlobalToLocalLeaves(gtolCounts: Section, gtol: seq<int>) returns (leaves: seq<SFNode>)
    requires gtolCounts.StorageSize() == |gtol|
    ensures |leaves| == gtolCounts.StorageSize()
    ensures forall i :: 0 <= i < |leaves| ==> leaves[i] == SFNode(0, gtol[i])
  {
    var nleaves := gtolCounts.StorageSize();
    var iremote := new SFNode[nleaves];
    for i := 0 to nleaves
      invariant forall j :: 0 <= j < i ==> iremote[j] == SFNode(0, gtol[j])
    {
      iremote[i] := SFNode(0, gtol[i]);
    }
    leaves := iremote[..];
  }

  /**
   * The leaf of local dof dofs[k * d + j] of patch p, for slot j of the
   * patch's i-th cell, is rooted on rank 0 at the global dof cellNodeMap
   * holds for that slot, unless that dof is negative.
   */
  lemma LeafRoundTrip(disc: Discretisation, cellCounts: Section, cells: seq<int>, info: DofInfo,
                      leaves: seq<SFNode>, p: int, i: nat, j: nat)
    requires disc.Fits() && cellCounts.StorageSize() == |cells| && IsInfo(disc, cellCounts, cells, info)
    requires |leaves| == |info.gtol| && forall n :: 0 <= n < |leaves| ==> leaves[n] == SFNode(0, info.gtol[n])
    requires cellCounts.InChart(p) && i < cellCounts.Dof(p) && j < disc.dofsPerCell
    ensures var d := disc.dofsPerCell;
      var k := cellCounts.Offset(p) + i;
      && k < |info.cells| && 0 <= k * d + j < |info.dofs|
      && 0 <= info.cells[k] * d + j < |disc.cellNodeMap|
      && info.gtolCounts.InChart(p)
      && 0 <= info.gtolCounts.Offset(p) + info.dofs[k * d + j] < |leaves|
      && leaves[info.gtolCounts.Offset(p) + info.dofs[k * d + j]].rank == 0
      && (disc.cellNodeMap[info.cells[k] * d + j] >= 0 ==>
            leaves[info.gtolCounts.Offset(p) + info.dofs[k * d + j]].index == disc.cellNodeMap[info.cells[k] * d + j])
  {
    GtolRoundTrip(disc, cellCounts, cells, info, p, i, j);
  }

  // ---- Facts about one patch of the set-up data --------------------------------------

  /** The cell and dof windows of patch p lie inside the cell and dof arrays. */
  lemma WindowFits(disc: Discretisation, cellCounts: Section, cells: seq<int>, info: DofInfo, p: int)
    requires disc.Fits() && cellCounts.StorageSize() == |cells| && IsInfo(disc, cellCounts, cells, info)
    requires cellCounts.InChart(p)
    ensures cellCounts.Offset(p) + cellCounts.Dof(p) <= |info.cells|
    ensures cellCounts.Offset(p) * disc.dofsPerCell + cellCounts.Dof(p) * disc.dofsPerCell <= |info.dofs|
  {
    OffsetStep(cellCounts, p);
    PatchNumberingDense(disc, cellCounts, cells, info, p);
    Distrib(cellCounts.Offset(p), cellCounts.Dof(p), disc.dofsPerCell);
  }

  /** Renaming to compact numbers commutes with taking a run of the cell array. */
  lemma NewCellsSlice(numbering: Section, cells: seq<int>, lo: nat, hi: nat)
    requires lo <= hi <= |cells| && AllNumbered(numbering, cells)
    ensures AllNumbered(numbering, cells[lo .. hi])
    ensures NewCells(numbering, cells)[lo .. hi] == NewCells(numbering, cells[lo .. hi])
  {
    assert forall i :: 0 <= i < hi - lo ==> cells[lo .. hi][i] == cells[lo + i];
  }

  /** A product of naturals is positive exactly when both factors are. */
  lemma PositiveProduct(a: nat, b: nat)
    ensures a * b > 0 <==> a > 0 && b > 0
  {
    if a > 0 && b > 0 {
      assert a * b >= b;
    }
  }

  /** A sequence has distinct entries exactly when it is not empty. */
  lemma FirstSeenEmpty(s: seq<int>)
    ensures |FirstSeen(s)| > 0 <==> |s| > 0
  {
    FirstSeenCount(s);
    if |s| > 0 {
      assert s[0] in Elems(s);
    }
  }

  // ---- The set-up data, as values ------------------------------------------------------

  /** The arguments PCPatchComputeOperator passes to the user callback. */
  datatype OperatorCall = OperatorCall(ncell: nat, cells: seq<int>, ndof: nat, dofs: seq<int>)

  /** The window [start, start + len) of the local work vectors a patch's vectors are placed on. */
  datatype Window = Window(start: nat, len: nat)

  /**
   * Everything PCSetUp_PATCH builds on its first call: the number of
   * patches, the cell patches (as mesh points and renumbered), their dofs,
   * their boundary facets, their BC lists, the global-to-local map, the
   * leaves of its star forest and the size of the local work vectors.
   */
  datatype PatchData = PatchData(npatch: int, cellCounts: Section, plexCells: seq<int>, cells: seq<int>, dofs: seq<int>,
                                 facetCounts: Section, facets: seq<int>, bcCounts: Section, bcs: seq<int>,
                                 gtolCounts: Section, gtol: seq<int>, leaves: seq<SFNode>, localSize: int)

  /**
   * The shape the operator and apply windows rely on: one patch per point
   * of the chart, cell and dof windows inside their arrays, and gtolCounts
   * over the same chart.
   */
  ghost predicate ShapeOk(disc: Discretisation, bs: nat, d: PatchData)
  {
    && d.npatch == |d.cellCounts.counts|
    && |d.cells| == d.cellCounts.StorageSize()
    && (forall p :: d.cellCounts.InChart(p) ==>
          d.cellCounts.Offset(p) * disc.dofsPerCell + d.cellCounts.Dof(p) * disc.dofsPerCell <= |d.dofs|)
    && d.gtolCounts.pStart == d.cellCounts.pStart && |d.gtolCounts.counts| == d.npatch
    && d.localSize == d.gtolCounts.StorageSize() * bs
  }

  /** cellCounts and the cells as mesh points are what PCPatchCreateCellPatches builds. */
  ghost predicate CellsOk(m: Mesh, disc: Discretisation, d: PatchData)
  {
    && m.WellFormed() && disc.Fits()
    && d.cellCounts == SectionOf(m.vStart, CellPatches.AllPatchCells(m))
    && d.plexCells == Flatten(CellPatches.AllPatchCells(m))
    && d.cellCounts.StorageSize() == |d.plexCells|
  }

  /**
   * The renumbered cells, dofs, gtolCounts and gtol are what
   * PCPatchCreateCellPatchDiscretisationInfo builds, and the star forest
   * has one leaf per slot of gtol.
   */
  ghost predicate InfoOk(disc: Discretisation, d: PatchData)
  {
    && disc.Fits() && d.cellCounts.StorageSize() == |d.plexCells|
    && IsInfo(disc, d.cellCounts, d.plexCells, DofInfo(d.cells, d.dofs, d.gtolCounts, d.gtol))
    && |d.leaves| == |d.gtol| && (forall n :: 0 <= n < |d.gtol| ==> d.leaves[n] == SFNode(0, d.gtol[n]))
  }

  /** The inputs of the BC pass. */
  function BcInputsOf(m: Mesh, bcNodes: seq<int>, dofSection: Section, d: PatchData): PatchBcs.BcInputs
  {
    PatchBcs.BcInputs(m, bcNodes, d.facetCounts, d.facets, d.gtolCounts, d.gtol, dofSection)
  }

  /** The BC section and lists are what PCPatchCreateCellPatchBCs builds from the boundary facets of the patches. */
  ghost predicate BcsOk(m: Mesh, bcNodes: seq<int>, dofSection: Section, d: PatchData)
  {
    && d.cellCounts.StorageSize() == |d.plexCells|
    && d.facetCounts == SectionOf(d.cellCounts.pStart, PatchFacets.AllPatchFacets(m, d.cellCounts, d.plexCells))
    && d.facets == Flatten(PatchFacets.AllPatchFacets(m, d.cellCounts, d.plexCells))
    && BcInputsOf(m, bcNodes, dofSection, d).Valid()
    && PatchBcs.IndexedResult(d.cellCounts.pStart, PatchBcs.AllPatchBcs(BcInputsOf(m, bcNodes, dofSection, d)))
       == Ok(PatchBcs.BcOutput(d.bcCounts, d.bcs))
  }

  /** d is what the first setup builds from the mesh, the discretisation and the BC options. */
  ghost predicate SetupOk(m: Mesh, disc: Discretisation, bs: nat, bcNodes: seq<int>, dofSection: Section, d: PatchData)
  {
    CellsOk(m, disc, d) && InfoOk(disc, d) && BcsOk(m, bcNodes, dofSection, d) && ShapeOk(disc, bs, d)
  }

  /**
   * The callback arguments for the patch at point p: its cells renamed to
   * compact numbers, and for each of them the local numbers of its dofs.
   */
  lemma OperatorWindow(disc: Discretisation, cellCounts: Section, plexCells: seq<int>, info: DofInfo, p: int)
    requires disc.Fits() && cellCounts.StorageSize() == |plexCells| && IsInfo(disc, cellCounts, plexCells, info)
    requires cellCounts.InChart(p)
    ensures var off := cellCounts.Offset(p);
      var n := cellCounts.Dof(p);
      var d := disc.dofsPerCell;
      var cs := PatchSlice(cellCounts, plexCells, p);
      && off + n <= |info.cells| && off * d + n * d <= |info.dofs|
      && AllNumbered(disc.cellNumbering, cs)
      && info.cells[off .. off + n] == NewCells(disc.cellNumbering, cs)
      && info.dofs[off * d .. off * d + n * d] == LocalNumbers(PatchStream(disc, cs))
  {
    OperatorCellsWindow(disc.cellNumbering, cellCounts, plexCells, info.cells, p);
    OperatorDofsWindow(disc, cellCounts, plexCells, info.dofs, p);
  }

  /** The cell half of OperatorWindow. */
  lemma OperatorCellsWindow(numbering: Section, cellCounts: Section, plexCells: seq<int>, nc: seq<int>, p: int)
    requires cellCounts.StorageSize() == |plexCells| && cellCounts.InChart(p)
    requires AllNumbered(numbering, plexCells) && nc == NewCells(numbering, plexCells)
    ensures var off := cellCounts.Offset(p);
      var n := cellCounts.Dof(p);
      var cs := PatchSlice(cellCounts, plexCells, p);
      && off + n <= |nc| && AllNumbered(numbering, cs) && nc[off .. off + n] == NewCells(numbering, cs)
  {
    OffsetStep(cellCounts, p);
    NewCellsSlice(numbering, plexCells, cellCounts.Offset(p), cellCounts.Offset(p) + cellCounts.Dof(p));
  }

  /** The dof half of OperatorWindow. */
  lemma OperatorDofsWindow(disc: Discretisation, cellCounts: Section, plexCells: seq<int>, dofs: seq<int>, p: int)
    requires disc.Fits() && cellCounts.StorageSize() == |plexCells| && cellCounts.InChart(p)
    requires AllNumbered(disc.cellNumbering, plexCells) && dofs == Flatten(DofLists(disc, cellCounts, plexCells))
    ensures var off := cellCounts.Offset(p);
      var n := cellCounts.Dof(p);
      var d := disc.dofsPerCell;
      var cs := PatchSlice(cellCounts, plexCells, p);
      && off * d + n * d <= |dofs| && AllNumbered(disc.cellNumbering, cs)
      && dofs[off * d .. off * d + n * d] == LocalNumbers(PatchStream(disc, cs))
  {
    var lo := cellCounts.Offset(p);
    var n := cellCounts.Dof(p);
    OffsetStep(cellCounts, p);
    Distrib(lo, n, disc.dofsPerCell);
    DofRunOfVertex(disc, cellCounts, plexCells, p, dofs, PatchSlice(cellCounts, plexCells, p), lo * disc.dofsPerCell);
  }

  /** An operator call made from the windows of the patch at p, stated through the patch's slice of cells. */
  lemma {:induction false} OperatorCallWindow(disc: Discretisation, cellCounts: Section, plexCells: seq<int>, info: DofInfo,
                                              p: int, call: OperatorCall)
    requires disc.Fits() && cellCounts.StorageSize() == |plexCells| && IsInfo(disc, cellCounts, plexCells, info)
    requires cellCounts.InChart(p)
    requires var off := cellCounts.Offset(p);
      var n := cellCounts.Dof(p);
      var w := disc.dofsPerCell;
      && off + n <= |info.cells| && off * w + n * w <= |info.dofs|
      && call == OperatorCall(n, info.cells[off .. off + n], n * w, info.dofs[off * w .. off * w + n * w])
    ensures AllNumbered(disc.cellNumbering, PatchSlice(cellCounts, plexCells, p))
    ensures call.ncell == cellCounts.Dof(p)
    ensures call.cells == NewCells(disc.cellNumbering, PatchSlice(cellCounts, plexCells, p))
    ensures call.dofs == LocalNumbers(PatchStream(disc, PatchSlice(cellCounts, plexCells, p)))
  {
    OperatorWindow(disc, cellCounts, plexCells, info, p);
  }

  /** A patch has global-to-local entries exactly when it has a cell and a cell has dofs. */
  lemma GtolCountOfPatch(disc: Discretisation, cellCounts: Section, plexCells: seq<int>, info: DofInfo, p: int)
    requires disc.Fits() && cellCounts.StorageSize() == |plexCells| && IsInfo(disc, cellCounts, plexCells, info)
    requires cellCounts.InChart(p)
    ensures info.gtolCounts.InChart(p)
    ensures info.gtolCounts.Dof(p) > 0 <==> |PatchSlice(cellCounts, plexCells, p)| > 0 && disc.dofsPerCell > 0
  {
    var cs := PatchSlice(cellCounts, plexCells, p);
    GtolRunOfVertex(disc, cellCounts, plexCells, p, info.gtolCounts, Flatten(GtolLists(disc, cellCounts, plexCells)), cs);
    FirstSeenEmpty(PatchStream(disc, cs));
    PositiveProduct(|cs|, disc.dofsPerCell);
  }

  /** The pieces setup builds, from the mesh and the options, have the properties above. */
  lemma BuiltPieces(m: Mesh, disc: Discretisation, bs: nat, d: PatchData)
    requires CellsOk(m, disc, d) && IsInfo(disc, d.cellCounts, d.plexCells, DofInfo(d.cells, d.dofs, d.gtolCounts, d.gtol))
    requires d.npatch == |d.cellCounts.counts|
    requires |d.leaves| == |d.gtol| && forall n :: 0 <= n < |d.gtol| ==> d.leaves[n] == SFNode(0, d.gtol[n])
    requires d.localSize == d.gtolCounts.StorageSize() * bs
    ensures InfoOk(disc, d) && ShapeOk(disc, bs, d)
  {
    forall p | d.cellCounts.InChart(p)
      ensures d.cellCounts.Offset(p) * disc.dofsPerCell + d.cellCounts.Dof(p) * disc.dofsPerCell <= |d.dofs|
    {
      WindowFits(disc, d.cellCounts, d.plexCells, DofInfo(d.cells, d.dofs, d.gtolCounts, d.gtol), p);
    }
  }

  // ---- When the builders succeed ------------------------------------------------------

  /** A result of the dof-map builder for the cell patches of m. */
  ghost predicate InfoOfMesh(m: Mesh, disc: Discretisation, info: DofInfo)
    requires m.WellFormed() && disc.Fits()
  {
    FlattenLength(CellPatches.AllPatchCells(m));
    IsInfo(disc, SectionOf(m.vStart, CellPatches.AllPatchCells(m)), Flatten(CellPatches.AllPatchCells(m)), info)
  }

  /** The inputs of the BC builder: the boundary facets of the cell patches of m and the gtol of info. */
  function BcInputsFrom(m: Mesh, bcNodes: seq<int>, dofSection: Section, info: DofInfo): PatchBcs.BcInputs
    requires m.WellFormed()
  {
    var cc := SectionOf(m.vStart, CellPatches.AllPatchCells(m));
    var cs := Flatten(CellPatches.AllPatchCells(m));
    FlattenLength(CellPatches.AllPatchCells(m));
    var facets := PatchFacets.AllPatchFacets(m, cc, cs);
    PatchBcs.BcInputs(m, bcNodes, SectionOf(cc.pStart, facets), Flatten(facets), info.gtolCounts, info.gtol, dofSection)
  }

  /** The BC builder can fail with e: it does for some result of the dof map. */
  ghost predicate BcPassCanFail(m: Mesh, disc: Discretisation, bcNodes: seq<int>, dofSection: Section, e: Error)
    requires m.WellFormed() && disc.Fits()
  {
    exists info :: InfoOfMesh(m, disc, info) && BcInputsFrom(m, bcNodes, dofSection, info).Valid()
      && PatchBcs.AllPatchBcs(BcInputsFrom(m, bcNodes, dofSection, info)) == Err(e)
  }

  /** The BC builder succeeds whatever the dof map's unwritten gtol slots hold. */
  ghost predicate BcPassAlwaysOk(m: Mesh, disc: Discretisation, bcNodes: seq<int>, dofSection: Section)
    requires m.WellFormed() && disc.Fits()
  {
    forall info :: InfoOfMesh(m, disc, info) ==>
      BcInputsFrom(m, bcNodes, dofSection, info).Valid() && PatchBcs.AllPatchBcs(BcInputsFrom(m, bcNodes, dofSection, info)).Ok?
  }

  /** Every vertex of the chart is owned and has a cell in its star: every patch has cells. */
  ghost predicate EveryVertexHasCells(m: Mesh)
  {
    forall v :: m.vStart <= v < m.vEnd ==> m.Owned(v) && |CellPatches.CellsAmong(m, m.star(v))| > 0
  }

  /** The BC inputs BuildData assembles from a dof-map result are BcInputsFrom that result. */
  lemma BcInputsOfInfo(m: Mesh, disc: Discretisation, bcNodes: seq<int>, dofSection: Section, info: DofInfo,
                       inputs: PatchBcs.BcInputs)
    requires m.WellFormed() && disc.Fits()
    requires InfoOfMesh(m, disc, info)
    requires inputs == BcInputsFrom(m, bcNodes, dofSection, info)
    ensures inputs.Valid()
    ensures BcPassAlwaysOk(m, disc, bcNodes, dofSection) ==> PatchBcs.AllPatchBcs(inputs).Ok?
  {
    var cc := SectionOf(m.vStart, CellPatches.AllPatchCells(m));
    var cs := Flatten(CellPatches.AllPatchCells(m));
    FlattenLength(CellPatches.AllPatchCells(m));
    FlattenLength(PatchFacets.AllPatchFacets(m, cc, cs));
    FlattenLength(GtolLists(disc, cc, cs));
  }

  /** A failure of the BC builder on a dof-map result is one it can have. */
  lemma BcFailure(m: Mesh, disc: Discretisation, bcNodes: seq<int>, dofSection: Section, info: DofInfo, e: Error)
    requires m.WellFormed() && disc.Fits() && InfoOfMesh(m, disc, info) && BcInputsFrom(m, bcNodes, dofSection, info).Valid()
    requires PatchBcs.AllPatchBcs(BcInputsFrom(m, bcNodes, dofSection, info)) == Err(e)
    ensures BcPassCanFail(m, disc, bcNodes, dofSection, e)
  {
  }

  /** The errors the builders can give: an unnumbered cell, a patch index out of range, a facet dof outside its patch. */
  predicate BuilderError(e: Error)
  {
    e == CellNotNumbered || e == PatchIndexOutOfRange || e == FacetDofNotInPatch
  }

  /**
   * The building part of PCSetUp_PATCH: the cell patches, their boundary
   * facets, the dof map and the BC lists, the leaves of the
   * global-to-local star forest and the size of the work vectors.
   */
  method BuildData(m: Mesh, disc: Discretisation, bs: nat, bcNodes: seq<int>, dofSection: Section)
    returns (r: Result<PatchData>)
    requires m.WellFormed() && disc.Fits()
    ensures r.Ok? ==> SetupOk(m, disc, bs, bcNodes, dofSection, r.value)
    ensures !AllNumbered(disc.cellNumbering, Flatten(CellPatches.AllPatchCells(m))) ==> r.Err?
    ensures r.Err? && !AllNumbered(disc.cellNumbering, Flatten(CellPatches.AllPatchCells(m))) ==>
      FirstUnnumbered(disc.cellNumbering, Flatten(CellPatches.AllPatchCells(m)), r.error)
    ensures r.Err? && AllNumbered(disc.cellNumbering, Flatten(CellPatches.AllPatchCells(m))) ==>
      BcPassCanFail(m, disc, bcNodes, dofSection, r.error)
    ensures AllNumbered(disc.cellNumbering, Flatten(CellPatches.AllPatchCells(m))) && BcPassAlwaysOk(m, disc, bcNodes, dofSection) ==>
      r.Ok?
    ensures r.Err? ==> BuilderError(r.error)
  {
    var cc, cs := CellPatches.CreateCellPatches(m);
    FlattenLength(CellPatches.AllPatchCells(m));
    // pEnd - pStart: every vertex of the chart, owned or not.
    var npatch := |cc.counts|;
    var fc, fs := PatchFacets.CreateCellPatchFacets(m, cc, cs);
    FlattenLength(PatchFacets.AllPatchFacets(m, cc, cs));
    var res := CreateCellPatchDiscretisationInfo(disc, cc, cs);
    if res.Err? {
      return Err(res.error);
    }
    var info := res.value;
    FlattenLength(GtolLists(disc, cc, cs));
    var inputs := PatchBcs.BcInputs(m, bcNodes, fc, fs, info.gtolCounts, info.gtol, dofSection);
    BcInputsOfInfo(m, disc, bcNodes, dofSection, info, inputs);
    var bc := PatchBcs.CreateCellPatchBCs(inputs);
    if bc.Err? {
      PatchBcs.BcPassErr(inputs);
      BcFailure(m, disc, bcNodes, dofSection, info, bc.error);
      return Err(bc.error);
    }
    var leaves := GlobalToLocalLeaves(info.gtolCounts, info.gtol);
    var size := info.gtolCounts.StorageSize() * bs;
    var d := PatchData(npatch, cc, cs, info.cells, info.dofs, fc, fs, bc.value.bcCounts, bc.value.bcs,
                       info.gtolCounts, info.gtol, leaves, size);
    assert BcInputsOf(m, bcNodes, dofSection, d) == inputs;
    BuiltPieces(m, disc, bs, d);
    return Ok(d);
  }

  // ---- The preconditioner object -----------------------------------------------------

  class PatchPC {
    // Options, stored by the PCPatchSet* setters before setup.
    var m: Mesh                    // patch->dm
    var disc: Discretisation       // cellNumbering, nodesPerCell and cellNodeMap
    var bs: nat                    // the block size of a dof
    var bcNodes: seq<int>          // the global BC nodes
    var dofSection: Section
    var hasComputeOp: bool         // a user callback was set
    var saveOperators: bool        // -pc_patch_save_operators
    var setupCalled: bool          // pc->setupcalled, kept by the generic PC layer

    var data: PatchData            // what setup builds: the sections, index sets and sizes of the patches
    var operators: seq<OperatorCall>  // what each saved patch matrix was assembled from

    /** The shape of the set-up data that the windows rely on. */
    ghost predicate Valid()
      reads `disc, `bs, `data
    {
      ShapeOk(disc, bs, data)
    }

    /** The cell patches of the set-up data are those of the mesh. */
    ghost predicate CellsBuilt()
      reads `m, `disc, `data
    {
      CellsOk(m, disc, data)
    }

    /** The renumbered cells, dofs and global-to-local map are those of the cell patches. */
    ghost predicate InfoBuilt()
      reads `disc, `data
    {
      InfoOk(disc, data)
    }

    /** Everything setup builds is in place. */
    ghost predicate Built()
      reads `m, `disc, `bs, `bcNodes, `dofSection, `data
    {
      SetupOk(m, disc, bs, bcNodes, dofSection, data)
    }

    /**
     * PCPatchComputeOperator: the cells and cell-wise local dofs of patch
     * `which` (counted from the start of the chart), or the error it
     * raises first.
     */
    function ComputeOperator(which: int): (r: Result<OperatorCall>)
      reads `disc, `bs, `data, `hasComputeOp
      requires Valid()
      ensures r.Ok? ==> |r.value.cells| == r.value.ncell > 0
      ensures r.Ok? ==> |r.value.dofs| == r.value.ndof == r.value.ncell * disc.dofsPerCell
    {
      if !hasComputeOp then Err(NoComputeOperator) else
      var p := which + data.cellCounts.pStart;
      if p >= data.cellCounts.PEnd() then Err(PatchIndexOutOfRange)
      // PetscSectionGetDof rejects a point below the chart.
      else if !data.cellCounts.InChart(p) then Err(PatchIndexOutOfRange) else
      var ncell := data.cellCounts.Dof(p);
      if ncell <= 0 then Err(EmptyPatch) else
      var offset := data.cellCounts.Offset(p);
      var d := disc.dofsPerCell;
      OffsetStep(data.cellCounts, p);
      Ok(OperatorCall(ncell, data.cells[offset .. offset + ncell], ncell * d, data.dofs[offset * d .. offset * d + ncell * d]))
    }

    /**
     * The operator of patch `which` can be computed exactly when a callback
     * is set, `which` is a vertex of the chart, and that vertex is owned
     * with at least one cell in its star.
     */
    lemma OperatorOk(which: int)
      requires Valid() && CellsBuilt()
      ensures ComputeOperator(which).Ok? <==>
        && hasComputeOp && 0 <= which < data.npatch
        && m.Owned(m.vStart + which) && |CellPatches.CellsAmong(m, m.star(m.vStart + which))| > 0
      ensures !hasComputeOp ==> ComputeOperator(which) == Err(NoComputeOperator)
      ensures hasComputeOp && !(0 <= which < data.npatch) ==> ComputeOperator(which) == Err(PatchIndexOutOfRange)
      ensures hasComputeOp && 0 <= which < data.npatch && ComputeOperator(which).Err? ==> ComputeOperator(which) == Err(EmptyPatch)
    {
      if 0 <= which < data.npatch {
        CellPatches.CellPatchOfVertex(m, m.vStart + which);
      }
    }

    /** A computed operator is the cell and dof window of its patch. */
    lemma OperatorValue(which: int)
      requires Valid() && ComputeOperator(which).Ok?
      ensures data.cellCounts.InChart(which + data.cellCounts.pStart)
      ensures var p := which + data.cellCounts.pStart;
        var off := data.cellCounts.Offset(p);
        var n := data.cellCounts.Dof(p);
        var d := disc.dofsPerCell;
        && off + n <= |data.cells| && off * d + n * d <= |data.dofs|
        && ComputeOperator(which) == Ok(OperatorCall(n, data.cells[off .. off + n], n * d, data.dofs[off * d .. off * d + n * d]))
    {
      OffsetStep(data.cellCounts, which + data.cellCounts.pStart);
    }

    /**
     * Patch i (counted from the start of the chart) is the patch around
     * vertex vStart + i: its slice of the cells is the cells in that
     * vertex's star, none when the vertex is not owned.
     */
    lemma PatchOfVertex(i: int)
      requires Valid() && CellsBuilt() && 0 <= i < data.npatch
      ensures data.cellCounts.pStart == m.vStart && m.vStart + i < m.vEnd
      ensures PatchSlice(data.cellCounts, data.plexCells, i + data.cellCounts.pStart) == CellPatches.PatchCells(m, m.vStart + i)
    {
      CellPatches.CellPatchOfVertex(m, m.vStart + i);
    }

    /**
     * On success the callback receives the patch's cells renamed to their
     * compact numbers, and for each of them the local numbers of its dofs
     * in the patch.
     */
    lemma OperatorArgs(which: int)
      requires Valid() && InfoBuilt() && ComputeOperator(which).Ok?
      ensures data.cellCounts.InChart(which + data.cellCounts.pStart)
      ensures AllNumbered(disc.cellNumbering, PatchSlice(data.cellCounts, data.plexCells, which + data.cellCounts.pStart))
      ensures ComputeOperator(which).value.ncell == |PatchSlice(data.cellCounts, data.plexCells, which + data.cellCounts.pStart)|
      ensures ComputeOperator(which).value.cells ==
        NewCells(disc.cellNumbering, PatchSlice(data.cellCounts, data.plexCells, which + data.cellCounts.pStart))
      ensures ComputeOperator(which).value.dofs ==
        LocalNumbers(PatchStream(disc, PatchSlice(data.cellCounts, data.plexCells, which + data.cellCounts.pStart)))
    {
      OperatorValue(which);
      OperatorCallWindow(disc, data.cellCounts, data.plexCells, DofInfo(data.cells, data.dofs, data.gtolCounts, data.gtol),
                         which + data.cellCounts.pStart, ComputeOperator(which).value);
    }

    /** The window of patch i in the apply loop, or the error PCApply_PATCH raises there. */
    function PatchApply(i: int): (r: Result<Window>)
      reads `disc, `bs, `data, `hasComputeOp, `saveOperators
      requires Valid() && 0 <= i < data.npatch
    {
      var p := i + data.gtolCounts.pStart;
      var len := data.gtolCounts.Dof(p);
      if len <= 0 then Err(BadPatchLength)
      else if !saveOperators && ComputeOperator(i).Err? then Err(ComputeOperator(i).error)
      else Ok(Window(data.gtolCounts.Offset(p) * bs, len * bs))
    }

    /**
     * PCApply_PATCH, as far as the patch windows go: for each patch in
     * turn, the window its vectors are placed on, or the first error.
     */
    method Apply() returns (r: Result<seq<Window>>)
      requires Valid()
      ensures r.Ok? <==> forall i :: 0 <= i < data.npatch ==> PatchApply(i).Ok?
      ensures r.Ok? ==> |r.value| == data.npatch && forall i :: 0 <= i < data.npatch ==> r.value[i] == PatchApply(i).value
      ensures r.Err? ==>
        exists i :: 0 <= i < data.npatch && PatchApply(i) == Err(r.error) && forall j :: 0 <= j < i ==> PatchApply(j).Ok?
    {
      var pStart := data.gtolCounts.pStart;
      var windows: seq<Window> := [];
      for i := 0 to data.npatch
        invariant |windows| == i
        invariant forall j :: 0 <= j < i ==> PatchApply(j).Ok? && windows[j] == PatchApply(j).value
      {
        var len := data.gtolCounts.Dof(i + pStart);
        var start := data.gtolCounts.Offset(i + pStart);
        if len <= 0 {
          assert PatchApply(i) == Err(BadPatchLength);
          return Err(BadPatchLength);
        }
        start := start * bs;
        if !saveOperators {
          var op := ComputeOperator(i);
          if op.Err? {
            assert PatchApply(i) == Err(op.error);
            return Err(op.error);
          }
        }
        windows := windows + [Window(start, len * bs)];
      }
      return Ok(windows);
    }

    /**
     * The patch windows tile the local work vectors: the first starts at 0,
     * each ends where the next begins, and none passes localSize.
     */
    lemma WindowsTile(i: int)
      requires Valid() && 0 <= i < data.npatch && PatchApply(i).Ok?
      ensures i == 0 ==> PatchApply(i).value.start == 0
      ensures PatchApply(i).value.start + PatchApply(i).value.len <= data.localSize
      ensures i + 1 < data.npatch && PatchApply(i + 1).Ok? ==>
        PatchApply(i).value.start + PatchApply(i).value.len == PatchApply(i + 1).value.start
    {
      var p := i + data.gtolCounts.pStart;
      var s := data.gtolCounts;
      OffsetStep(s, p);
      Distrib(s.Offset(p), s.Dof(p), bs);
      assert s.Offset(p) + s.Dof(p) <= s.StorageSize();
      assert (s.Offset(p) + s.Dof(p)) * bs <= s.StorageSize() * bs by {
        MulMono(s.Offset(p) + s.Dof(p), s.StorageSize(), bs);
      }
    }

    /** The window of patch i holds bs entries per distinct global dof of the patch's cells. */
    lemma WindowLength(i: int)
      requires Valid() && InfoBuilt() && 0 <= i < data.npatch && PatchApply(i).Ok?
      ensures data.cellCounts.InChart(i + data.cellCounts.pStart)
      ensures AllNumbered(disc.cellNumbering, PatchSlice(data.cellCounts, data.plexCells, i + data.cellCounts.pStart))
      ensures PatchApply(i).value.len ==
        |Elems(PatchStream(disc, PatchSlice(data.cellCounts, data.plexCells, i + data.cellCounts.pStart)))| * bs
    {
      PatchBlockDistinct(disc, data.cellCounts, data.plexCells, DofInfo(data.cells, data.dofs, data.gtolCounts, data.gtol),
                         i + data.cellCounts.pStart);
    }

    /**
     * Patch i passes the length check of the apply loop exactly when its
     * vertex is owned, has a cell in its star and a cell has dofs. Because
     * npatch counts every vertex of the chart, one unowned vertex makes
     * the whole apply fail.
     */
    lemma ApplyLength(i: int)
      requires Valid() && CellsBuilt() && InfoBuilt() && 0 <= i < data.npatch
      ensures PatchApply(i) == Err(BadPatchLength) <==>
        !(m.Owned(m.vStart + i) && |CellPatches.CellsAmong(m, m.star(m.vStart + i))| > 0 && disc.dofsPerCell > 0)
    {
      PatchOfVertex(i);
      GtolCountOfPatch(disc, data.cellCounts, data.plexCells, DofInfo(data.cells, data.dofs, data.gtolCounts, data.gtol),
                       i + data.cellCounts.pStart);
    }

    /**
     * The first part of PCSetUp_PATCH: builds the patch data and stores it
     * in the object.
     */
    method Build() returns (r: Result<()>)
      requires m.WellFormed() && disc.Fits()
      modifies `data
      ensures r.Ok? ==> Valid() && Built() && CellsBuilt()
      ensures !AllNumbered(disc.cellNumbering, Flatten(CellPatches.AllPatchCells(m))) ==> r.Err?
      ensures r.Err? ==> BuildFails(r.error)
      ensures BuildSucceeds() ==> r.Ok?
      ensures r.Err? ==> data == old(data)
      ensures r.Err? ==> BuilderError(r.error)
    {
      var res := BuildData(m, disc, bs, bcNodes, dofSection);
      if res.Err? {
        return Err(res.error);
      }
      data := res.value;
      return Ok(());
    }

    /** The builders fail with e: at the first unnumbered cell, or in the BC pass. */
    ghost predicate BuildFails(e: Error)
      requires m.WellFormed() && disc.Fits()
      reads `m, `disc, `bcNodes, `dofSection
    {
      var cells := Flatten(CellPatches.AllPatchCells(m));
      (!AllNumbered(disc.cellNumbering, cells) && FirstUnnumbered(disc.cellNumbering, cells, e)) ||
      (AllNumbered(disc.cellNumbering, cells) && BcPassCanFail(m, disc, bcNodes, dofSection, e))
    }

    /** The builders succeed: every patch cell is numbered and the BC pass succeeds. */
    ghost predicate BuildSucceeds()
      requires m.WellFormed() && disc.Fits()
      reads `m, `disc, `bcNodes, `dofSection
    {
      AllNumbered(disc.cellNumbering, Flatten(CellPatches.AllPatchCells(m))) && BcPassAlwaysOk(m, disc, bcNodes, dofSection)
    }

    /** Every patch has cells and, if there is any, a callback is set. */
    ghost predicate PatchesComputable()
      reads `m, `hasComputeOp
    {
      (m.vStart < m.vEnd ==> hasComputeOp) && EveryVertexHasCells(m)
    }

    /** e is the error of the first patch whose operator cannot be computed. */
    ghost predicate FirstOperatorError(e: Error)
      requires Valid()
      reads `disc, `bs, `data, `hasComputeOp
    {
      exists i :: 0 <= i < data.npatch && ComputeOperator(i) == Err(e) && forall j :: 0 <= j < i ==> ComputeOperator(j).Ok?
    }

    /** Every patch operator can be computed exactly when each vertex's patch has cells and a callback is set. */
    lemma AllOperatorsOk()
      requires m.WellFormed() && Valid() && CellsBuilt()
      ensures (forall i :: 0 <= i < data.npatch ==> ComputeOperator(i).Ok?) <==> PatchesComputable()
    {
      assert data.npatch == m.vEnd - m.vStart;
      if forall i :: 0 <= i < data.npatch ==> ComputeOperator(i).Ok? {
        forall v | m.vStart <= v < m.vEnd
          ensures hasComputeOp && m.Owned(v) && |CellPatches.CellsAmong(m, m.star(v))| > 0
        {
          var i := v - m.vStart;
          assert ComputeOperator(i).Ok?;
          OperatorOk(i);
        }
        if m.vStart < m.vEnd {
          assert m.Owned(m.vStart);
        }
      } else {
        var i :| 0 <= i < data.npatch && !ComputeOperator(i).Ok?;
        OperatorOk(i);
      }
    }

    /**
     * The operator loop of PCSetUp_PATCH with saved operators: patch by
     * patch, the operator of each, or the first error.
     */
    method ComputeAllOperators() returns (r: Result<seq<OperatorCall>>)
      requires Valid()
      ensures r.Ok? <==> forall i :: 0 <= i < data.npatch ==> ComputeOperator(i).Ok?
      ensures r.Ok? ==> |r.value| == data.npatch && forall i :: 0 <= i < data.npatch ==> ComputeOperator(i) == Ok(r.value[i])
      ensures r.Err? ==>
        exists i :: 0 <= i < data.npatch && ComputeOperator(i) == Err(r.error) && forall j :: 0 <= j < i ==> ComputeOperator(j).Ok?
    {
      var ops: seq<OperatorCall> := [];
      for i := 0 to data.npatch
        invariant |ops| == i && forall j :: 0 <= j < i ==> ComputeOperator(j) == Ok(ops[j])
      {
        var op := ComputeOperator(i);
        if op.Err? {
          return Err(op.error);
        }
        ops := ops + [op.value];
      }
      return Ok(ops);
    }

    /**
     * PCSetUp_PATCH: on the first call, Build and, with saved operators, the
     * matrix of each patch; then, with saved operators, each patch's
     * operator in turn.
     */
    method SetUp() returns (r: Result<()>)
      requires m.WellFormed() && disc.Fits()
      requires setupCalled ==> Valid()
      modifies `data, `operators
      ensures r.Ok? && !setupCalled ==> Built()
      ensures r.Ok? ==> Valid()
      ensures setupCalled ==> data == old(data)
      ensures r.Ok? && saveOperators ==>
        |operators| == data.npatch && forall i :: 0 <= i < data.npatch ==> ComputeOperator(i) == Ok(operators[i])
      ensures r.Ok? && !saveOperators ==> operators == old(operators)
      // An error leaves the operators alone, and the data too unless the build finished.
      ensures r.Err? ==> operators == old(operators)
      ensures r.Err? ==> data == old(data) || (!old(setupCalled) && saveOperators && Valid() && Built())
      ensures !old(setupCalled) && !AllNumbered(disc.cellNumbering, Flatten(CellPatches.AllPatchCells(m))) ==> r.Err?
      ensures r.Err? && !old(setupCalled) ==>
        BuilderError(r.error) ||
        (saveOperators && r.error == PatchVectorNotCreated) ||
        (saveOperators && Valid() && exists i :: 0 <= i < data.npatch && ComputeOperator(i) == Err(r.error))
      // Which error: the builders' own, a missing patch vector, or the first patch operator's.
      ensures r.Err? && !old(setupCalled) ==>
        || BuildFails(r.error)
        || (saveOperators && Valid() && !VectorsCreated() && r.error == PatchVectorNotCreated)
        || (saveOperators && Valid() && VectorsCreated() && FirstOperatorError(r.error))
      ensures r.Err? && old(setupCalled) ==> saveOperators && Valid() && FirstOperatorError(r.error)
      // When it succeeds.
      ensures !old(setupCalled) && BuildSucceeds() && (saveOperators ==> PatchesComputable() && PatchesHaveDofs()) ==> r.Ok?
      ensures !old(setupCalled) && r.Ok? && saveOperators ==> PatchesComputable() && PatchesHaveDofs()
      ensures old(setupCalled) ==> (r.Ok? <==> (saveOperators ==> forall i :: 0 <= i < data.npatch ==> ComputeOperator(i).Ok?))
    {
      if !setupCalled {
        r := FirstSetUp();
      } else {
        r := SaveOperators();
      }
    }

    /** PCSetUp_PATCH on the first call: Build, then with saved operators the patch matrices and each patch's operator. */
    method FirstSetUp() returns (r: Result<()>)
      requires m.WellFormed() && disc.Fits()
      modifies `data, `operators
      ensures r.Ok? ==> Valid() && Built()
      ensures r.Ok? && saveOperators ==>
        |operators| == data.npatch && forall i :: 0 <= i < data.npatch ==> ComputeOperator(i) == Ok(operators[i])
      ensures r.Ok? && !saveOperators ==> operators == old(operators)
      ensures r.Err? ==> operators == old(operators)
      ensures r.Err? ==> data == old(data) || (saveOperators && Valid() && Built())
      ensures !AllNumbered(disc.cellNumbering, Flatten(CellPatches.AllPatchCells(m))) ==> r.Err?
      ensures r.Err? ==>
        BuilderError(r.error) ||
        (saveOperators && r.error == PatchVectorNotCreated) ||
        (saveOperators && Valid() && exists i :: 0 <= i < data.npatch && ComputeOperator(i) == Err(r.error))
      ensures r.Err? ==>
        || BuildFails(r.error)
        || (saveOperators && Valid() && !VectorsCreated() && r.error == PatchVectorNotCreated)
        || (saveOperators && Valid() && VectorsCreated() && FirstOperatorError(r.error))
      ensures BuildSucceeds() && (saveOperators ==> PatchesComputable() && PatchesHaveDofs()) ==> r.Ok?
      ensures r.Ok? && saveOperators ==> PatchesComputable() && PatchesHaveDofs()
    {
      r := BuildAndCreateMatrices();
      if r.Err? {
        return;
      }
      r := SaveOperators();
    }

    /** The block of PCSetUp_PATCH under `!pc->setupcalled`: Build, then with saved operators the patch matrices. */
    method BuildAndCreateMatrices() returns (r: Result<()>)
      requires m.WellFormed() && disc.Fits()
      modifies `data
      ensures r.Ok? ==> Valid() && Built() && CellsBuilt()
      ensures r.Err? ==> data == old(data) || (saveOperators && Valid() && Built())
      ensures !AllNumbered(disc.cellNumbering, Flatten(CellPatches.AllPatchCells(m))) ==> r.Err?
      ensures r.Err? ==>
        BuilderError(r.error) ||
        (saveOperators && r.error == PatchVectorNotCreated)
      ensures r.Err? ==> BuildFails(r.error) || (saveOperators && Valid() && !VectorsCreated() && r.error == PatchVectorNotCreated)
      ensures r.Ok? && saveOperators ==> VectorsCreated() && PatchesHaveDofs()
      ensures BuildSucceeds() && (saveOperators ==> PatchesHaveDofs()) ==> r.Ok?
    {
      r := Build();
      if r.Err? || !saveOperators {
        return;
      }
      r := CreateMatrices();
      AllVectorsCreated();
    }

    /** Patch i's work vectors patchX[i] and patchY[i] were created: its gtol count is positive. */
    predicate PatchVectorCreated(i: int)
      reads `disc, `bs, `data
      requires Valid() && 0 <= i < data.npatch
    {
      data.gtolCounts.Dof(i + data.gtolCounts.pStart) > 0
    }

    /** The work vectors of every patch were created. */
    ghost predicate VectorsCreated()
      reads `disc, `bs, `data
      requires Valid()
    {
      forall i :: 0 <= i < data.npatch ==> PatchVectorCreated(i)
    }

    /** Every patch has cells and, if there is any vertex, cells have dofs. */
    ghost predicate PatchesHaveDofs()
      reads `m, `disc
    {
      (m.vStart < m.vEnd ==> disc.dofsPerCell > 0) && EveryVertexHasCells(m)
    }

    /**
     * The matrix loop of the first PCSetUp_PATCH with saved operators:
     * PCPatchCreateMatrix reads the work vectors of each patch in turn, and
     * those of a patch with no local dofs were never created.
     */
    method CreateMatrices() returns (r: Result<()>)
      requires Valid()
      ensures r.Ok? <==> VectorsCreated()
      ensures r.Err? ==> r.error == PatchVectorNotCreated
    {
      for i := 0 to data.npatch
        invariant forall j :: 0 <= j < i ==> PatchVectorCreated(j)
      {
        if !PatchVectorCreated(i) {
          return Err(PatchVectorNotCreated);
        }
      }
      return Ok(());
    }

    /** The work vectors of patch i exist exactly when its vertex is owned, has cells, and cells have dofs. */
    lemma VectorCreatedAt(i: int)
      requires Valid() && CellsBuilt() && InfoBuilt() && 0 <= i < data.npatch
      ensures PatchVectorCreated(i) <==>
        m.Owned(m.vStart + i) && |CellPatches.CellsAmong(m, m.star(m.vStart + i))| > 0 && disc.dofsPerCell > 0
    {
      PatchOfVertex(i);
      GtolCountOfPatch(disc, data.cellCounts, data.plexCells, DofInfo(data.cells, data.dofs, data.gtolCounts, data.gtol),
                       i + data.cellCounts.pStart);
    }

    /** The work vectors of every patch exist exactly when every patch has cells and cells have dofs. */
    lemma AllVectorsCreated()
      requires m.WellFormed() && Valid() && CellsBuilt() && InfoBuilt()
      ensures VectorsCreated() <==> PatchesHaveDofs()
    {
      assert data.npatch == m.vEnd - m.vStart;
      if VectorsCreated() {
        forall v | m.vStart <= v < m.vEnd
          ensures disc.dofsPerCell > 0 && m.Owned(v) && |CellPatches.CellsAmong(m, m.star(v))| > 0
        {
          var i := v - m.vStart;
          assert PatchVectorCreated(i);
          VectorCreatedAt(i);
        }
        if m.vStart < m.vEnd {
          assert m.Owned(m.vStart);
        }
      } else {
        var i :| 0 <= i < data.npatch && !PatchVectorCreated(i);
        VectorCreatedAt(i);
      }
    }

    /** The operator part of PCSetUp_PATCH: with saved operators, each patch's operator in turn. */
    method SaveOperators() returns (r: Result<()>)
      requires Valid()
      modifies `operators
      ensures r.Ok? <==> (saveOperators ==> forall i :: 0 <= i < data.npatch ==> ComputeOperator(i).Ok?)
      ensures r.Err? ==> saveOperators && FirstOperatorError(r.error)
      ensures r.Err? ==> exists i :: 0 <= i < data.npatch && ComputeOperator(i) == Err(r.error)
      ensures r.Err? ==> operators == old(operators)
      ensures r.Ok? && saveOperators ==>
        |operators| == data.npatch && forall i :: 0 <= i < data.npatch ==> ComputeOperator(i) == Ok(operators[i])
      ensures r.Ok? && !saveOperators ==> operators == old(operators)
      // Over built cell patches: it succeeds exactly when the patches are computable.
      ensures m.WellFormed() && CellsBuilt() && saveOperators ==> (r.Ok? <==> PatchesComputable())
    {
      r := Ok(());
      if saveOperators {
        var ops := ComputeAllOperators();
        if ops.Err? {
          r := Err(ops.error);
        } else {
          operators := ops.value;
        }
      }
      if m.WellFormed() && CellsBuilt() {
        AllOperatorsOk();
      }
    }
  }
}
