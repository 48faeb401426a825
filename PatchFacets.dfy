/**
 * PCPatchCreateCellPatchFacets: for every patch, the facets of its cells
 * that lie on the patch boundary but not on the domain boundary. Facets are
 * appended through a running index into an array that grows geometrically
 * and is trimmed to the number of entries written.
 */
module PatchFacets {
  import opened IndexedList
  import opened Topology

  /**
   * The selection test for a facet of a patch cell: not labelled
   * "exterior_facets", and either supported by a single cell (a process
   * boundary) or supported by some cell outside the patch.
   */
  predicate OnPatchBoundary(m: Mesh, patch: set<int>, f: int)
  {
    && f !in m.exteriorFacets
    && (|m.support(f)| == 1 || exists k :: 0 <= k < |m.support(f)| && m.support(f)[k] !in patch)
  }

  /** The selected facets among `fs`, in their order. */
  function SelectFacets(m: Mesh, patch: set<int>, fs: seq<int>): seq<int>
  {
    if fs == [] then [] else
    var last := fs[|fs| - 1];
    SelectFacets(m, patch, fs[..|fs| - 1]) + (if OnPatchBoundary(m, patch, last) then [last] else [])
  }

  /** The selected facets of the cones of `cs`, cell by cell. */
  function BoundaryFacets(m: Mesh, patch: set<int>, cs: seq<int>): seq<int>
  {
    if cs == [] then []
    else BoundaryFacets(m, patch, cs[..|cs| - 1]) + SelectFacets(m, patch, m.cone(cs[|cs| - 1]))
  }

  /** The boundary facets of the patch whose cells are `cs`. */
  function PatchFacetList(m: Mesh, cs: seq<int>): seq<int>
  {
    BoundaryFacets(m, Elems(cs), cs)
  }

  /** The per-vertex facet lists, given the cell section and cell array of the patches. */
  function AllPatchFacets(m: Mesh, cellCounts: Section, cells: seq<int>): seq<seq<int>>
    requires cellCounts.StorageSize() == |cells|
  {
    seq(|cellCounts.counts|, k requires 0 <= k < |cellCounts.counts| =>
      PatchFacetList(m, PatchSlice(cellCounts, cells, cellCounts.pStart + k)))
  }

  /**
   * The capacity after a full facet array grows: (int)((1 + cap) * 1.2),
   * always past the write index, so the append after the growth is in bounds.
   */
  function GrownFacetCapacity(cap: nat): (r: nat)
    ensures r > cap
  {
    (1 + cap) * 6 / 5
  }

  /** The search over the facet's support for a cell outside the patch. */
  method SupportLeavesPatch(support: seq<int>, ht: set<int>) returns (found: bool)
    ensures found <==> exists k :: 0 <= k < |support| && support[k] !in ht
  {
    found := false;
    for k := 0 to |support|
      invariant !found
      invariant forall k' :: 0 <= k' < k ==> support[k'] in ht
    {
      if support[k] !in ht {
        // Facet's cell is not in the patch, so it is on the patch boundary.
        found := true;
        return;
      }
    }
  }

  lemma SelectSnoc(m: Mesh, patch: set<int>, fs: seq<int>, j: nat)
    requires j < |fs|
    ensures SelectFacets(m, patch, fs[..j + 1])
      == SelectFacets(m, patch, fs[..j]) + (if OnPatchBoundary(m, patch, fs[j]) then [fs[j]] else [])
  {
    assert fs[..j + 1][..j] == fs[..j];
  }

  lemma BoundarySnoc(m: Mesh, patch: set<int>, cs: seq<int>, i: nat)
    requires i < |cs|
    ensures BoundaryFacets(m, patch, cs[..i + 1])
      == BoundaryFacets(m, patch, cs[..i]) + SelectFacets(m, patch, m.cone(cs[i]))
  {
    assert cs[..i + 1][..i] == cs[..i];
  }

  /** Store f at the write index, growing the array first when it is full. */
  method AppendFacet(arr: array<int>, index: nat, f: int, ghost done: seq<int>)
    returns (arr': array<int>, index': nat)
    requires index <= arr.Length && arr[..index] == done
    modifies arr
    ensures index' == index + 1 <= arr'.Length && (arr' == arr || fresh(arr'))
    ensures arr'[..index'] == done + [f]
  {
    arr' := arr;
    if index >= arr.Length {
      var total := GrownFacetCapacity(arr.Length);
      arr' := Realloc(arr, index, total);
    }
    ghost var before := arr'[..];
    arr'[index] := f;
    PrefixStore(before, arr'[..], index, f);
    index' := index + 1;
  }

  /**
   * The facets of one cell's cone, appended to facetsArray[..facetIndex];
   * `added` counts the appends (PetscSectionAddDof once per appended facet).
   */
  method AppendConeFacets(m: Mesh, ht: set<int>, cone: seq<int>,
                          facetsArray: array<int>, facetIndex: nat, added: nat, ghost done: seq<int>)
    returns (arr: array<int>, index: nat, added': nat)
    requires facetIndex <= facetsArray.Length && facetsArray[..facetIndex] == done
    modifies facetsArray
    ensures index <= arr.Length && (arr == facetsArray || fresh(arr))
    ensures arr[..index] == done + SelectFacets(m, ht, cone)
    ensures added' == added + |SelectFacets(m, ht, cone)|
  {
    arr, index, added' := facetsArray, facetIndex, added;
    assert cone[..0] == [];
    for j := 0 to |cone|
      invariant index <= arr.Length && (arr == facetsArray || fresh(arr))
      invariant arr[..index] == done + SelectFacets(m, ht, cone[..j])
      invariant added' == added + |SelectFacets(m, ht, cone[..j])|
    {
      SelectSnoc(m, ht, cone, j);
      var f := cone[j];
      if f in m.exteriorFacets {
        // Facet is on the domain boundary: not selected.
        continue;
      }
      var support := m.support(f);
      var add := false;
      if |support| == 1 {
        // A process boundary, therefore also a patch boundary.
        add := true;
      } else {
        add := SupportLeavesPatch(support, ht);
      }
      if add {
        added' := added' + 1;
        AppendAssoc(done, SelectFacets(m, ht, cone[..j]), [f]);
        arr, index := AppendFacet(arr, index, f, done + SelectFacets(m, ht, cone[..j]));
      }
    }
    assert cone[..|cone|] == cone;
  }

  /** The facets of one patch, whose cells are `cs`, appended after facetsArray[..facetIndex]. */
  method AppendPatchFacets(m: Mesh, cs: seq<int>, facetsArray: array<int>, facetIndex: nat, ghost done: seq<int>)
    returns (arr: array<int>, index: nat, added: nat)
    requires facetIndex <= facetsArray.Length && facetsArray[..facetIndex] == done
    modifies facetsArray
    ensures index <= arr.Length && (arr == facetsArray || fresh(arr))
    ensures arr[..index] == done + PatchFacetList(m, cs)
    ensures added == |PatchFacetList(m, cs)|
  {
    // The hash set of the patch's cells, cleared and refilled.
    var ht: set<int> := {};
    for ci := 0 to |cs|
      invariant ht == Elems(cs[..ci])
    {
      assert cs[..ci + 1] == cs[..ci] + [cs[ci]];
      ht := ht + {cs[ci]};
    }
    assert cs[..|cs|] == cs;
    arr, index, added := facetsArray, facetIndex, 0;
    assert cs[..0] == [];
    for ci := 0 to |cs|
      invariant index <= arr.Length && (arr == facetsArray || fresh(arr))
      invariant arr[..index] == done + BoundaryFacets(m, ht, cs[..ci])
      invariant added == |BoundaryFacets(m, ht, cs[..ci])|
    {
      BoundarySnoc(m, ht, cs, ci);
      AppendAssoc(done, BoundaryFacets(m, ht, cs[..ci]), SelectFacets(m, ht, m.cone(cs[ci])));
      arr, index, added := AppendConeFacets(m, ht, m.cone(cs[ci]), arr, index, added,
                                            done + BoundaryFacets(m, ht, cs[..ci]));
    }
  }

  method CreateCellPatchFacets(m: Mesh, cellCounts: Section, cells: seq<int>)
    returns (facetCounts: Section, facets: seq<int>)
    requires cellCounts.StorageSize() == |cells|
    ensures facetCounts == SectionOf(cellCounts.pStart, AllPatchFacets(m, cellCounts, cells))
    ensures facets == Flatten(AllPatchFacets(m, cellCounts, cells))
  {
    ghost var lists := AllPatchFacets(m, cellCounts, cells);
    var n := |cellCounts.counts|;
    var counts: seq<nat> := seq(n, _ => 0);
    // Guess at the number of facets: one per cell.
    var totalFacets := |cells|;
    var facetsArray := new int[totalFacets];
    var facetIndex: nat := 0;
    for v := cellCounts.pStart to cellCounts.PEnd()
      invariant |counts| == n
      invariant forall k :: 0 <= k < v - cellCounts.pStart ==> counts[k] == |lists[k]|
      invariant forall k :: v - cellCounts.pStart <= k < n ==> counts[k] == 0
      invariant facetIndex <= facetsArray.Length && fresh(facetsArray)
      invariant facetsArray[..facetIndex] == Flatten(lists[..v - cellCounts.pStart])
    {
      var k := v - cellCounts.pStart;
      var ndof := cellCounts.Dof(v);
      var cs := PatchSlice(cellCounts, cells, v);
      assert lists[k] == PatchFacetList(m, cs);
      FlattenSnoc(lists, k);
      if ndof <= 0 {
        // No cells around this vertex.
        assert cs == [];
        continue;
      }
      var added;
      facetsArray, facetIndex, added := AppendPatchFacets(m, cs, facetsArray, facetIndex, Flatten(lists[..k]));
      counts := counts[k := counts[k] + added];
    }
    assert counts == Lengths(lists);
    assert lists[..n] == lists;
    facetCounts := Section(cellCounts.pStart, counts);
    var trimmed := Realloc(facetsArray, facetIndex, facetIndex);
    facets := trimmed[..];
  }

  /**
   * Which facets a patch gets: exactly those in the cone of one of its cells
   * that pass the selection test against the patch's own cell set.
   */
  lemma {:induction false} PatchFacetMembers(m: Mesh, patch: set<int>, cs: seq<int>, f: int)
    ensures f in BoundaryFacets(m, patch, cs)
      <==> (exists i :: 0 <= i < |cs| && f in m.cone(cs[i])) && OnPatchBoundary(m, patch, f)
  {
    if cs != [] {
      var n := |cs| - 1;
      PatchFacetMembers(m, patch, cs[..n], f);
      SelectMembers(m, patch, m.cone(cs[n]), f);
      if exists i :: 0 <= i < |cs| && f in m.cone(cs[i]) {
        var i :| 0 <= i < |cs| && f in m.cone(cs[i]);
        if i < n {
          assert f in m.cone(cs[..n][i]);
        }
      }
      if exists i :: 0 <= i < n && f in m.cone(cs[..n][i]) {
        var i :| 0 <= i < n && f in m.cone(cs[..n][i]);
        assert f in m.cone(cs[i]);
      }
    }
  }

  lemma {:induction false} SelectMembers(m: Mesh, patch: set<int>, fs: seq<int>, f: int)
    ensures f in SelectFacets(m, patch, fs) <==> f in fs && OnPatchBoundary(m, patch, f)
  {
    if fs != [] {
      var n := |fs| - 1;
      SelectMembers(m, patch, fs[..n], f);
      assert fs == fs[..n] + [fs[n]];
    }
  }

  /**
   * Per vertex: its run of the facet array is its boundary-facet list, which
   * is empty when the vertex has no cells, and holds f exactly when f is in
   * the cone of a patch cell and passes the selection test against the patch.
   */
  lemma FacetsOfVertex(m: Mesh, cellCounts: Section, cells: seq<int>, v: int, f: int)
    requires cellCounts.StorageSize() == |cells| && cellCounts.InChart(v)
    ensures var lists := AllPatchFacets(m, cellCounts, cells);
      var s := SectionOf(cellCounts.pStart, lists);
      var cs := PatchSlice(cellCounts, cells, v);
      && s.StorageSize() == |Flatten(lists)|
      && PatchSlice(s, Flatten(lists), v) == PatchFacetList(m, cs)
      && (cellCounts.Dof(v) == 0 ==> s.Dof(v) == 0)
      && (f in PatchSlice(s, Flatten(lists), v)
          <==> (exists i :: 0 <= i < |cs| && f in m.cone(cs[i])) && OnPatchBoundary(m, Elems(cs), f))
  {
    var lists := AllPatchFacets(m, cellCounts, cells);
    SliceOfFlatten(cellCounts.pStart, lists, v);
    PatchFacetMembers(m, Elems(PatchSlice(cellCounts, cells, v)), PatchSlice(cellCounts, cells, v), f);
  }
}
