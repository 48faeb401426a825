/**
 * PCPatchCreateCellPatches: for every owned vertex, the cells of its star,
 * counted in a first pass (the section cellCounts) and stored in a second
 * pass at the section's offsets (the flat array cells).
 */
module CellPatches {
  import opened IndexedList
  import opened Topology

  /** The cell points among `pts`, in their order. */
  function CellsAmong(m: Mesh, pts: seq<int>): seq<int>
  {
    if pts == [] then []
    else CellsAmong(m, pts[..|pts| - 1]) + (if m.IsCell(pts[|pts| - 1]) then [pts[|pts| - 1]] else [])
  }

  /** The cells of the patch around vertex v; none for a vertex this process does not own. */
  function PatchCells(m: Mesh, v: int): seq<int>
  {
    if m.Owned(v) then CellsAmong(m, m.star(v)) else []
  }

  /** The per-vertex cell lists over the whole vertex stratum. */
  function AllPatchCells(m: Mesh): seq<seq<int>>
    requires m.WellFormed()
  {
    seq(m.vEnd - m.vStart, k => PatchCells(m, m.vStart + k))
  }

  /** The filter keeps every cell point with its multiplicity and drops every other point. */
  lemma {:induction false} CellsAmongCounts(m: Mesh, pts: seq<int>, x: int)
    ensures multiset(CellsAmong(m, pts))[x] == if m.IsCell(x) then multiset(pts)[x] else 0
  {
    if pts != [] {
      var n := |pts| - 1;
      CellsAmongCounts(m, pts[..n], x);
      assert pts == pts[..n] + [pts[n]];
    }
  }

  /** A prefix of the points yields no more cells than all of them. */
  lemma {:induction false} CellsAmongPrefix(m: Mesh, pts: seq<int>, i: nat)
    requires i <= |pts|
    ensures |CellsAmong(m, pts[..i])| <= |CellsAmong(m, pts)|
    decreases |pts|
  {
    if i == |pts| {
      assert pts[..i] == pts;
    } else {
      var init := pts[..|pts| - 1];
      assert init[..i] == pts[..i];
      CellsAmongPrefix(m, init, i);
    }
  }

  lemma CellsAmongSnoc(m: Mesh, pts: seq<int>, i: nat)
    requires i < |pts|
    ensures CellsAmong(m, pts[..i + 1]) == CellsAmong(m, pts[..i]) + (if m.IsCell(pts[i]) then [pts[i]] else [])
  {
    assert pts[..i + 1][..i] == pts[..i];
  }

  method CreateCellPatches(m: Mesh) returns (cellCounts: Section, cells: seq<int>)
    requires m.WellFormed()
    ensures cellCounts == SectionOf(m.vStart, AllPatchCells(m))
    ensures cells == Flatten(AllPatchCells(m))
  {
    cellCounts := CountPass(m);
    cells := FillPass(m, cellCounts);
  }

  /** Count cells surrounding each vertex (PetscSectionAddDof on a zeroed section). */
  method CountPass(m: Mesh) returns (cellCounts: Section)
    requires m.WellFormed()
    ensures cellCounts == SectionOf(m.vStart, AllPatchCells(m))
  {
    var n := m.vEnd - m.vStart;
    ghost var lists := AllPatchCells(m);
    var counts: seq<nat> := seq(n, _ => 0);
    for v := m.vStart to m.vEnd
      invariant |counts| == n
      invariant forall k :: 0 <= k < v - m.vStart ==> counts[k] == |lists[k]|
      invariant forall k :: v - m.vStart <= k < n ==> counts[k] == 0
    {
      var k := v - m.vStart;
      assert lists[k] == PatchCells(m, v);
      if !(v in m.core || v in m.nonCore) {
        // Not an owned vertex: no cell patch.
        continue;
      }
      var closure := m.star(v);
      for ci := 0 to |closure|
        invariant |counts| == n
        invariant counts[k] == |CellsAmong(m, closure[..ci])|
        invariant forall k' :: 0 <= k' < k ==> counts[k'] == |lists[k']|
        invariant forall k' :: k < k' < n ==> counts[k'] == 0
      {
        CellsAmongSnoc(m, closure, ci);
        var c := closure[ci];
        if m.cStart <= c && c < m.cEnd {
          counts := counts[k := counts[k] + 1];
        }
      }
      assert closure[..|closure|] == closure;
    }
    assert counts == Lengths(lists);
    cellCounts := Section(m.vStart, counts);
  }

  /** Now that the sizes are known, run through again and remember the cells. */
  method FillPass(m: Mesh, cellCounts: Section) returns (cells: seq<int>)
    requires m.WellFormed()
    requires cellCounts == SectionOf(m.vStart, AllPatchCells(m))
    ensures cells == Flatten(AllPatchCells(m))
  {
    ghost var lists := AllPatchCells(m);
    ghost var counts := cellCounts.counts;
    var n := m.vEnd - m.vStart;
    var numCells := cellCounts.StorageSize();
    FlattenLength(lists);
    var cellsArray := new int[numCells];
    ghost var filled: nat := 0;
    for v := m.vStart to m.vEnd
      invariant filled == Sum(counts[..v - m.vStart]) <= numCells
      invariant cellsArray[..filled] == Flatten(lists[..v - m.vStart])
    {
      FillVertex(m, cellCounts, v, cellsArray, lists);
      SumSnoc(counts, v - m.vStart);
      filled := cellCounts.Offset(v) + cellCounts.Dof(v);
    }
    assert counts[..n] == counts;
    assert lists[..n] == lists;
    cells := cellsArray[..];
  }

  /** One vertex of the fill pass: its run of cells lands right after the runs of the vertices before it. */
  method FillVertex(m: Mesh, cellCounts: Section, v: int, cellsArray: array<int>, ghost lists: seq<seq<int>>)
    requires m.WellFormed() && m.vStart <= v < m.vEnd
    requires lists == AllPatchCells(m) && cellCounts == SectionOf(m.vStart, lists)
    requires cellCounts.Offset(v) <= cellsArray.Length == cellCounts.StorageSize()
    requires cellsArray[..cellCounts.Offset(v)] == Flatten(lists[..v - m.vStart])
    modifies cellsArray
    ensures cellCounts.Offset(v) + cellCounts.Dof(v) <= cellsArray.Length
    ensures cellsArray[..cellCounts.Offset(v) + cellCounts.Dof(v)] == Flatten(lists[..v + 1 - m.vStart])
  {
    var k := v - m.vStart;
    var ndof := cellCounts.Dof(v);
    var off := cellCounts.Offset(v);
    OffsetStep(cellCounts, v);
    assert lists[k] == PatchCells(m, v) && ndof == |lists[k]|;
    FlattenSnoc(lists, k);
    if ndof <= 0 {
      return;
    }
    FillStar(m, m.star(v), cellsArray, off, Flatten(lists[..k]));
  }

  /** The fill loop for one vertex: its cells land at `off` onwards, right after the runs already filled. */
  method FillStar(m: Mesh, closure: seq<int>, cellsArray: array<int>, off: nat, ghost done: seq<int>)
    requires off + |CellsAmong(m, closure)| <= cellsArray.Length
    requires cellsArray[..off] == done
    modifies cellsArray
    ensures cellsArray[..off + |CellsAmong(m, closure)|] == done + CellsAmong(m, closure)
  {
    var ndof := 0;
    for ci := 0 to |closure|
      invariant ndof == |CellsAmong(m, closure[..ci])| <= |CellsAmong(m, closure)|
      invariant cellsArray[..off + ndof] == done + CellsAmong(m, closure[..ci])
    {
      CellsAmongSnoc(m, closure, ci);
      CellsAmongPrefix(m, closure, ci + 1);
      var c := closure[ci];
      if m.cStart <= c && c < m.cEnd {
        ghost var before := cellsArray[..];
        cellsArray[ndof + off] := c;
        PrefixStore(before, cellsArray[..], off + ndof, c);
        AppendAssoc(done, CellsAmong(m, closure[..ci]), [c]);
        ndof := ndof + 1;
      }
    }
    assert closure[..|closure|] == closure;
  }

  /**
   * What the two passes promise about one vertex: its run of the flat array
   * is its patch, every entry of it is a cell, and it is non-empty only for
   * an owned vertex, where its length is the number of cell points in the
   * vertex's star.
   */
  lemma CellPatchOfVertex(m: Mesh, v: int)
    requires m.WellFormed() && m.vStart <= v < m.vEnd
    ensures var s := SectionOf(m.vStart, AllPatchCells(m));
      && s.StorageSize() == |Flatten(AllPatchCells(m))|
      && PatchSlice(s, Flatten(AllPatchCells(m)), v) == PatchCells(m, v)
      && (s.Dof(v) > 0 ==> m.Owned(v))
      && (m.Owned(v) ==> s.Dof(v) == |CellsAmong(m, m.star(v))|)
      && (forall c :: c in PatchSlice(s, Flatten(AllPatchCells(m)), v) ==> m.IsCell(c))
  {
    SliceOfFlatten(m.vStart, AllPatchCells(m), v);
    forall c | c in PatchCells(m, v)
      ensures m.IsCell(c)
    {
      CellsAmongCounts(m, m.star(v), c);
    }
  }
}
