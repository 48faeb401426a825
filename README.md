# Vertex-patch preconditioner: the set-up bookkeeping

This project models the integer bookkeeping of the PETSc `PC_PATCH`
preconditioner in `libssc.c`, a vertex-patch additive Schwarz
preconditioner. At set-up the preconditioner builds a patch of cells
around every vertex of its chart and derives several indexed lists from
those patches. At each apply it places every patch's work vectors on a
window of the local work vectors.

Every indexed list is a `PetscSection` paired with an index set. The
model writes a section as a chart start plus a sequence of counts, with
each offset the prefix sum of the counts before it (`IndexedList`). An
index set is a sequence. The mesh is an input value (`Topology.Mesh`):
- the vertex and cell strata;
- the `op2_core`, `op2_non_core` and `exterior_facets` labels, as sets;
- star, closure, cone and support, as functions of a point.

The modules follow the source's functions:

- `CellPatches`: `PCPatchCreateCellPatches`. A counting pass and a fill
  pass over the vertices. Cells are written into an array at the offsets
  of the count section.
- `PatchFacets`: `PCPatchCreateCellPatchFacets`. The facets of the patch
  cells that lie on the patch boundary, appended into an array that
  grows by the factor 1.2.
- `DofMap` and `DiscretisationInfo`: `PCPatchCreateCellPatchDiscretisationInfo`.
  - Pass 1 renumbers the cells. It gives the global dofs of each patch
    dense local numbers in first-seen order, through a hash table that is
    cleared for each patch.
  - Pass 2 rebuilds each table from the stored local numbers and
    scatters it into the global-to-local map `gtol`.
- `PatchBcs`: `PCPatchCreateCellPatchBCs`. Per patch, the local
  numbers of the global BC nodes and of the dofs of the boundary facets.
  They are written in ascending order into an array that grows by the
  factor 2.
- `PatchPC`:
  - the leaves of the global-to-local star forest;
  - the `PC_PATCH` object as a class, holding the set-up data and the
    saved operator calls;
  - `PCPatchComputeOperator`;
  - `PCSetUp_PATCH`;
  - the window arithmetic and length check of `PCApply_PATCH`.

Errors raised with `SETERRQ`, and section queries outside a chart, are
the `Err` values of `PatchErrors.Result`.

Three points of the code that the model follows as written:

- **Cells of a patch.** A patch takes its cells from
  `DMPlexGetTransitiveClosure(v, PETSC_FALSE)` (`libssc.c:197`, `libssc.c:221`).
  That is the vertex's star, in the support direction, not the closure in
  the cone direction. `Mesh.star` models it.
- **Number of patches.** The comment at `libssc.c:178-179` says patches
  are created only around the vertices this process owns. Yet `npatch` is
  `pEnd - pStart` of the cell-count chart (`libssc.c:821`), so it counts
  every vertex, owned or not. An unowned vertex gets a patch with no cells:
  - its gtol count is 0, so its work vectors `patchX[i]` and `patchY[i]`
    are never created (`libssc.c:846-855`). With saved operators the
    first set-up still passes them to `PCPatchCreateMatrix`
    (`libssc.c:869-871`), which reads an uninitialised pointer. The model
    makes that step the error `PatchVectorNotCreated`
    (`PatchPC.PatchPC.CreateMatrices`, `PatchPC.PatchPC.AllVectorsCreated`);
  - `PCPatchComputeOperator` rejects that patch too;
  - so does the length check of the apply loop
    (`PatchPC.PatchPC.OperatorOk`, `PatchPC.PatchPC.ApplyLength`).
- **Boundary facet dofs.** The loop walks the closure of each boundary
  facet, but queries `dofSection` at the facet `f` itself, not at the
  closure point (`libssc.c:574-575`). So only the facet's own dofs are
  marked, once per closure point, and none when the closure is empty
  (`PatchBcs.FacetLocals`).

## Model

| member | source | states |
|---|---|---|
| IndexedList.Realloc | libssc.c:350-353 | `PetscRealloc`: the new array has the requested length and keeps the entries written so far |
| CellPatches.CountPass | libssc.c:186-208 | the count section over [vStart, vEnd): each owned vertex counts the cell-stratum points of its star, and an unowned vertex counts 0 |
| CellPatches.FillStar | libssc.c:221-229 | the fill loop of one vertex writes the cell-stratum points of its star, in star order, right after the runs already filled |
| CellPatches.FillVertex | libssc.c:214-230 | after vertex v the array holds the runs of all vertices up to v, each at its section offset |
| CellPatches.FillPass | libssc.c:209-233 | the fill pass produces the concatenation of all per-vertex cell runs, whose length is the storage size |
| CellPatches.CreateCellPatches | libssc.c:159-236 | the cell section and the cell index set are the per-vertex patch cell lists, flattened |
| CellPatches.CellsAmongCounts | libssc.c:198-203 | a point appears in a vertex's cell run as often as it appears in the star if it is a cell, and otherwise never |
| CellPatches.CellPatchOfVertex | libssc.c:190-230 | a vertex's run is its patch's cells. A nonzero count implies the vertex is owned. An owned vertex's count is the number of cells in its star. Every entry is in [cStart, cEnd) |
| PatchFacets.GrownFacetCapacity | libssc.c:350-353 | the grown capacity (1 + cap) * 1.2 exceeds the old capacity, so the write that follows is in bounds |
| PatchFacets.SupportLeavesPatch | libssc.c:338-346 | the support search finds a cell exactly when some supporting cell is not in the patch |
| PatchFacets.AppendFacet | libssc.c:349-354 | one append, growing the array when it is full: the written prefix gains exactly f |
| PatchFacets.AppendConeFacets | libssc.c:320-355 | the selected facets of one cell's cone are appended in cone order, and the count grows once per append |
| PatchFacets.AppendPatchFacets | libssc.c:311-356 | the boundary facets of one patch are appended cell by cell, and the count is their number |
| PatchFacets.CreateCellPatchFacets | libssc.c:256-367 | the facet section and the trimmed facet index set are the per-vertex boundary facet lists, flattened |
| PatchFacets.SelectMembers | libssc.c:322-348 | a facet is selected from a cone exactly when it is in the cone and passes the boundary test |
| PatchFacets.PatchFacetMembers | libssc.c:316-355 | a facet is in a patch's list exactly when it is in the cone of some patch cell, is not exterior, and has support size 1 or a supporting cell outside the patch |
| PatchFacets.FacetsOfVertex | libssc.c:303-357 | the run of vertex v in the facet index set is its patch's boundary facets, with the membership condition above. A vertex with no cells gets no facets |
| DofMap.NumberSlot | libssc.c:444-456 | one slot of pass 1: a new global dof gets the next local number, a seen one reuses its number, and the number is stored at the running index |
| DofMap.NumberCell | libssc.c:442-457 | the slots of one cell's row are numbered in order and the running index advances by dofsPerCell |
| DofMap.NumberPatchCell | libssc.c:431-458 | a cell that is not numbered (dof <= 0, or outside the chart) is an error: "not in the cell numbering" inside the numbering's chart, and an out-of-range query outside it. Otherwise its compact number is its offset and its row is numbered |
| DofMap.NumberPatch | libssc.c:425-462 | pass 1 for one patch fails exactly when some cell is not numbered, with the error of the first such cell. Otherwise it stores the compact cells and the first-seen local numbers, and the table size it returns is the number of distinct global dofs |
| DofMap.NumberAllPatches | libssc.c:415-462 | pass 1 over all vertices fails exactly when some patch cell is not numbered, with the error of the first such cell in the cell index set. Otherwise dofs is the local-number list of every patch end to end, and the gtol counts are the numbers of distinct dofs |
| DofMap.RebuildCell | libssc.c:480-484 | pass 2 over one cell re-enters its row of global dofs with the stored local numbers |
| DofMap.RebuildPatchCell | libssc.c:477-484 | the row of cell i of the patch sits at i * dofsPerCell of the patch's stream |
| DofMap.RebuildPatch | libssc.c:469-485 | the rebuilt table maps each distinct global dof of the patch to its first-seen position (the last write wins but agrees) |
| DofMap.ScatterTable | libssc.c:487-496 | each entry with a non-negative global dof is written at gtol offset + local number, in any order, and nothing outside the patch's run changes |
| DofMap.LocalRoundTrip | libssc.c:446-456 | the local number of stream slot k indexes the first-seen list at the global dof of slot k |
| DofMap.LocalDense | libssc.c:446-450 | every local number below the patch's distinct-dof count is given to some slot |
| DofMap.LocalSharing | libssc.c:446-450 | two slots share a local number exactly when they hold the same global dof |
| DofMap.FirstSeenNoDup | libssc.c:446-450 | the first-seen list has no repeats |
| DofMap.FirstSeenMembers | libssc.c:446-450 | the first-seen list holds exactly the global dofs of the patch |
| DofMap.DofSectionScaled | libssc.c:414-416 | the dof run of a patch starts at offset * dofsPerCell and has count * dofsPerCell entries |
| DofMap.DofsOfPatch | libssc.c:425-458 | the patch's run of dofs is the local-number list of its stream |
| DiscretisationInfo.ScatterPatch | libssc.c:469-496 | pass 2 for one patch fills the patch's gtol run with its first-seen list, at the non-negative entries |
| DiscretisationInfo.ScatterAllPatches | libssc.c:463-497 | after pass 2, gtol agrees with the first-seen lists of all patches, end to end, wherever the global dof is non-negative |
| DiscretisationInfo.CreateCellPatchDiscretisationInfo | libssc.c:389-505 | fails exactly when some patch cell is not numbered, with the error of the first such cell. Otherwise it yields the compact cells, the dofs, the gtol section and a gtol agreeing with the first-seen lists |
| DiscretisationInfo.GtolRunOfVertex | libssc.c:459-465 | a vertex's gtol count is the number of distinct dofs of its patch, and its gtol run is the patch's first-seen list |
| DiscretisationInfo.DofRunOfVertex | libssc.c:425-458 | a vertex's run of dofs is the local-number list of its patch's stream |
| DiscretisationInfo.GtolRoundTrip | libssc.c:441-496 | for each cell slot of a patch the local number is below the gtol count, and gtol at offset + local number is cellNodeMap at that slot, unless that global dof is negative |
| DiscretisationInfo.PatchBlockDistinct | libssc.c:459-496 | the gtol count of a patch is the number of its distinct global dofs, and its first-seen run has no repeats |
| DiscretisationInfo.PatchNumberingDense | libssc.c:446-461 | a patch's local numbers are exactly 0 .. gtol count - 1: all are below it, and each one occurs |
| PatchBcs.CreateGlobalBcs | libssc.c:534-537 | the global BC table holds exactly the BC nodes |
| PatchBcs.PatchDofTable | libssc.c:553-566 | the patch table maps each global dof of the gtol run to a local number, and localBcs holds the local numbers whose global dof is a BC node |
| PatchBcs.PatchDofMapMeaning | libssc.c:557-561 | the patch table holds exactly the run's global dofs, and maps each one to its last position in the run (the last write wins) |
| PatchBcs.MarkFacetDofs | libssc.c:576-586 | marks the local numbers of the dofs [loff, loff + ldof), or fails on the first one missing from the table |
| PatchBcs.DofRunMeaning | libssc.c:576-586 | a facet's dof run succeeds exactly when every dof in it is in the patch, and then yields exactly their local numbers. Otherwise the error is "facet dof not in patch" |
| PatchBcs.MarkFacet | libssc.c:570-587 | the facet's own dofSection run is marked, once per closure point, and nothing when the closure is empty |
| PatchBcs.MarkFacets | libssc.c:569-588 | the boundary facets of a patch are marked in order, stopping at the first error |
| PatchBcs.FacetBcsMembers | libssc.c:569-588 | a local number is marked by the facets exactly when some facet's dof run maps to it |
| PatchBcs.PatchBcsOfVertex | libssc.c:553-588 | one patch's BC set: the global-BC marks, then the facet marks |
| PatchBcs.PatchBcSetMembers | libssc.c:557-588 | a local number is in a patch's BC set exactly when its global dof is a BC node or some boundary facet marks it |
| PatchBcs.PatchBcSetBounds | libssc.c:557-588 | every BC of a patch is a valid local number, below the patch's gtol count |
| PatchBcs.PatchBcSetOk | libssc.c:569-588 | a patch's BC set fails exactly when some queried boundary facet lies outside the dof section's chart or has a dof that is not a patch dof. The error is one of those two |
| PatchBcs.GrownBcCapacity | libssc.c:593-596 | the grown capacity (1 + numBcs + bcIndex) * 2 exceeds numBcs + bcIndex, so the key dump fits |
| PatchBcs.WriteSortedKeys | libssc.c:597-598 | the key dump followed by the sort writes the patch's BC set in ascending order at the write index |
| PatchBcs.AppendPatchBcs | libssc.c:593-598 | one patch's BC list is appended in ascending order, growing the array when needed |
| PatchBcs.VertexBcsOf | libssc.c:551-588 | the BC set of the patch of the k-th vertex, or the error of its gtol query or its facets |
| PatchBcs.PatchBcsStep | libssc.c:551-598 | one iteration of the vertex loop either stops the pass with the patch's error, or appends the patch's count and its sorted list |
| PatchBcs.CreateCellPatchBCs | libssc.c:509-612 | the BC section and trimmed index set are the sorted BC lists of all patches, or the first patch's error |
| PatchBcs.CollectOk | libssc.c:551-599 | the vertex loop succeeds exactly when every patch does, and then keeps every patch's set in order |
| PatchBcs.CollectErr | libssc.c:551-599 | a failing vertex loop reports the error of the first failing patch, all earlier patches having succeeded |
| PatchBcs.SortedListMembers | libssc.c:597-598 | the sorted list of a key set holds exactly its keys |
| PatchBcs.SortedListIncreasing | libssc.c:597-598 | the sorted list of a key set is strictly increasing, hence free of duplicates |
| PatchBcs.VertexBcsOk | libssc.c:551-588 | a patch's BC set succeeds exactly when its vertex is in the gtol chart and every facet dof is found, and the error is one of the two possible |
| PatchBcs.BcPassOk | libssc.c:551-599 | the BC pass succeeds exactly when every patch's BC set does |
| PatchBcs.BcPassErr | libssc.c:551-599 | the BC pass fails only with an out-of-range query or "facet dof not in patch" |
| PatchBcs.BcRunAt | libssc.c:589-598 | the run of vertex v in bcs is the sorted list of its patch's BC set, and bcCounts holds its size |
| PatchBcs.BcRunSorted | libssc.c:589-598 | each patch's BC run is strictly increasing, and every entry is a local number below the patch's gtol count |
| PatchBcs.BcRunMembers | libssc.c:557-598 | l is in a patch's BC run exactly when l's global dof is a BC node or a boundary facet's dof run maps to l |
| PatchPC.GlobalToLocalLeaves | libssc.c:628-636 | one leaf per slot of gtol, rooted on rank 0 at the global dof the slot holds |
| PatchPC.LeafRoundTrip | libssc.c:632-636 | the leaf of a cell slot's local dof is rooted at that slot's global dof in cellNodeMap (when non-negative) |
| PatchPC.OperatorWindow | libssc.c:781-783 | the cell and dof windows of a patch are its compact cells and the local numbers of its dofs |
| PatchPC.OperatorCallWindow | libssc.c:781-783 | the arguments the callback receives are ncell = the patch's count, its compact cells and its cell-wise local dofs |
| PatchPC.GtolCountOfPatch | libssc.c:459-461 | a patch's gtol count is positive exactly when it has a cell and a cell has dofs |
| PatchPC.BuildData | libssc.c:819-838 | set-up builds cells, facets, dof map, BCs, leaves and localSize = gtol storage * bs. It fails with the first unnumbered patch cell's error when there is one. Otherwise it fails only with an error the BC pass gives for some dof map the builders may produce, and it succeeds whenever the BC pass succeeds for every dof map the builders may produce |
| PatchPC.PatchPC.ComputeOperator | libssc.c:765-783 | a computed operator has ncell > 0 cells and ncell * dofsPerCell dofs |
| PatchPC.PatchPC.OperatorOk | libssc.c:765-780 | the operator of `which` is computed exactly when a callback is set, `which` is in [0, npatch), and its vertex is owned with a cell in its star. Otherwise the errors come in the source's order |
| PatchPC.PatchPC.PatchOfVertex | libssc.c:819-821 | patch i is the patch of vertex vStart + i: its cells are that vertex's star cells, none if unowned |
| PatchPC.PatchPC.OperatorArgs | libssc.c:777-783 | the callback receives the patch's cells in compact numbers and the local numbers of their dofs |
| PatchPC.PatchPC.Apply | libssc.c:908-926 | the apply loop succeeds exactly when every patch does, with the window of each. Otherwise it reports the first failing patch's error |
| PatchPC.PatchPC.WindowsTile | libssc.c:838-839 | the windows start at 0, each ends where the next starts, and none passes localSize |
| PatchPC.PatchPC.WindowLength | libssc.c:910-917 | a patch's window holds bs entries per distinct global dof of its cells |
| PatchPC.PatchPC.ApplyLength | libssc.c:908-914 | the length check fails for patch i exactly when vertex vStart + i is unowned, has no cells, or cells have no dofs, so one unowned vertex makes apply fail |
| PatchPC.PatchPC.Build | libssc.c:802-861 | the first set-up stores the built data. It fails with the first unnumbered cell's error or an error of the BC pass, leaving the data unchanged, and succeeds whenever every cell is numbered and the BC pass cannot fail |
| PatchPC.PatchPC.ComputeAllOperators | libssc.c:874-879 | the saved-operator loop computes every patch's operator in order, or stops at the first error |
| PatchPC.PatchPC.AllOperatorsOk | libssc.c:765-780 | every patch operator can be computed exactly when every vertex of the chart is owned and has a cell in its star, and a callback is set if there is any vertex |
| PatchPC.PatchPC.SaveOperators | libssc.c:874-879 | with saved operators, succeeds exactly when every operator can be computed and then stores each patch's call; otherwise it fails with the first failing patch's error and leaves the stored operators unchanged. Without, it changes nothing. Over built cell patches, with saved operators, it succeeds exactly when every vertex is owned with a cell in its star and a callback is set (when there are vertices) |
| PatchPC.PatchPC.CreateMatrices | libssc.c:846-872 | with saved operators, the matrix loop gets through every patch exactly when every patch's work vectors were created (its gtol count is positive), and otherwise fails with `PatchVectorNotCreated` |
| PatchPC.PatchPC.VectorCreatedAt | libssc.c:846-855 | patch i's work vectors are created exactly when vertex vStart + i is owned, has a cell in its star, and cells have dofs |
| PatchPC.PatchPC.AllVectorsCreated | libssc.c:846-855 | every patch's work vectors are created exactly when every vertex is owned with a cell in its star and, when there are vertices, cells have dofs |
| PatchPC.PatchPC.BuildAndCreateMatrices | libssc.c:802-872 | the block under `!pc->setupcalled`: it fails with the builders' error (data unchanged) or, with saved operators over built data, with `PatchVectorNotCreated` when some patch has no work vectors. It succeeds whenever the builders do and, with saved operators, every patch has dofs; a success with saved operators implies that |
| PatchPC.PatchPC.FirstSetUp | libssc.c:802-879 | the first set-up: on error, either the builders' error, `PatchVectorNotCreated` when some patch has no work vectors, or, when all have them, the error of the first patch whose operator fails. Operators stay unchanged on error. It succeeds when the builders do and, with saved operators, every vertex is owned with a cell in its star, cells have dofs and a callback is set; a success with saved operators implies that condition |
| PatchPC.PatchPC.SetUp | libssc.c:794-881 | builds and, with saved operators, creates the patch matrices only on the first call; then with saved operators computes one operator per patch. On error it returns the builders' error, `PatchVectorNotCreated`, or that of the first patch whose operator fails, all earlier ones succeeding, and leaves the operators unchanged; the data changes only when the build finished. A first call succeeds when the builders do and, with saved operators, every vertex is owned with a cell in its star, cells have dofs and a callback is set (when there are vertices); a success with saved operators implies that condition. A later call leaves the data alone and succeeds exactly when every operator can be computed |

## Left out

- DMPlex topology: star, closure, cone, support, strata and labels are inputs of the model, not computed.
- The MPI datatype for the block size (`libssc.c:807-818`) is not modelled. Nor are `PetscSFCompose`, `PetscSFBcast` and `PetscSFReduce`: of the star forest, only the leaf list is modelled.
- KSP, Mat and Vec objects are not modelled: `PCPatchCreateMatrix`, `KSPCreate`, `KSPSetOperators`, `VecCreateSeqWithArray`, `VecPlaceArray` and their options prefixes. The saved operators are the argument lists the callback receives (`OperatorCall`), not matrices.
- The scalar work of apply is floating point and is not modelled: the copy from patchX to patchY, zeroing y, and the additive reduction.
- The user callback is not called. `ComputeOperator` returns its arguments.
- `PCView_PATCH`, `PCSetFromOptions_PATCH`, the setters, `PCReset_PATCH`, `PCDestroy_PATCH` and `PCSetUpOnBlocks_PATCH` are plumbing and are not modelled. The options are plain fields of `PatchPC.PatchPC`. `setupCalled` is set by the generic PC layer, not by the model.
- The index sets are sequences. The in-place replacement of the cell index set by compact numbers (`libssc.c:501`) keeps both lists: `plexCells` and `cells`.
- Partial state after an error (objects already created, arrays not freed) is not modelled. A builder error leaves the object's data unchanged, and any error leaves the saved operators unchanged. An error after the build, in the matrix or operator loop of a first set-up, keeps the built data.
- `PatchFacets.GrownFacetCapacity` is exact: it is (1 + cap) * 6 / 5 in integer arithmetic. The source's double-precision product could round down by one.
- PetscInt is unbounded in the model. Overflow of counts, offsets and `ncell * nodesPerCell` is not modelled.
- Hash-table iteration order is not modelled. The pass-2 scatter is proved for any order, and the BC key dump is modelled together with the sort that follows it.
- The slots of `gtol` whose global dof is negative are never written in the source (uninitialised memory). The model leaves them unconstrained.
- `DofMap.Discretisation.Fits`: every caller must supply a `cellNodeMap` with a row for each compact cell number. The source reads it unchecked.
- `PatchBcs.CreateCellPatchBCs`: it requires the facet and gtol index sets to have their sections' storage sizes, which the earlier builders guarantee.
- The facet parameters that `PCPatchCreateCellPatchDiscretisationInfo` takes are unused and are not passed.
- `PatchPC.PatchPC.ComputeOperator` names the "expecting positive number of patch cells" error `EmptyPatch`. The source raises it with the same code as an out-of-range index. A query below the chart is `PatchIndexOutOfRange`, like the section's own check.
- `PatchPC.PatchPC.CreateMatrices`: `PCPatchCreateMatrix` itself is PETSc's and is not modelled. Passing it the never-created work vector of a patch with no local dofs reads an uninitialised pointer, which has no defined result in the source; the model makes it the error `PatchVectorNotCreated`.
- `PatchPC.PatchPC.SetUp` requires the set-up data to have the window shape on a repeated call (`Valid`). It does not require everything the first call established. It states the full build (`Built`) only for the first call.
- `PatchPC.PatchPC.SetUp`, `PatchPC.PatchPC.Build`: all set-up data is one record field, assigned once. The source's struct fields are modelled by this record, not assigned one by one.
- `PatchPC.BuildData`, `PatchPC.PatchPC.Build`: success is stated as a sufficient condition, over every dof map the builders may produce. The gtol slots whose global dof is negative are uninitialised in the source and the BC pass reads them, so the model cannot say which result the BC pass gives.
