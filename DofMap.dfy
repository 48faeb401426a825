/**
 * PCPatchCreateCellPatchDiscretisationInfo: the patch-local dof numbering.
 * Each patch numbers the global dofs of its cells densely from 0 in the
 * order it first meets them (a hash map cleared per patch); the `dofs`
 * array holds, per (cell, slot), the local number; `gtol` holds, per patch,
 * the inverse table from local number to global dof; the cell array is
 * replaced by the compact cell numbering.
 */
module DofMap {
  import opened IndexedList
  import opened PatchErrors

  predicate NoDup(s: seq<int>)
  {
    forall i, j :: 0 <= i < j < |s| ==> s[i] != s[j]
  }

  /** The distinct entries of `s`, each once, in the order they first occur. */
  function FirstSeen(s: seq<int>): seq<int>
  {
    if s == [] then [] else
    var r0 := FirstSeen(s[..|s| - 1]);
    var x := s[|s| - 1];
    if x in r0 then r0 else r0 + [x]
  }

  lemma {:induction false} FirstSeenMembers(s: seq<int>)
    ensures forall x :: x in FirstSeen(s) <==> x in s
  {
    if s != [] {
      var t := s[..|s| - 1];
      FirstSeenMembers(t);
      assert s == t + [s[|s| - 1]];
    }
  }

  lemma {:induction false} FirstSeenNoDup(s: seq<int>)
    ensures NoDup(FirstSeen(s))
  {
    if s != [] {
      var t := s[..|s| - 1];
      FirstSeenNoDup(t);
    }
  }

  /** The position of the first occurrence of x. */
  function IndexOf(d: seq<int>, x: int): (i: nat)
    requires x in d
    ensures i < |d| && d[i] == x
  {
    if d[0] == x then 0 else 1 + IndexOf(d[1..], x)
  }

  lemma {:induction false} IndexOfFirst(d: seq<int>, x: int)
    requires x in d
    ensures forall j :: 0 <= j < IndexOf(d, x) ==> d[j] != x
  {
    if d[0] != x {
      IndexOfFirst(d[1..], x);
      forall j | 0 < j < IndexOf(d, x)
        ensures d[j] != x
      {
        assert d[j] == d[1..][j - 1];
      }
    }
  }

  lemma IndexOfUnique(d: seq<int>, i: nat)
    requires NoDup(d) && i < |d|
    ensures IndexOf(d, d[i]) == i
  {
    IndexOfFirst(d, d[i]);
  }

  /**
   * The local number given to each entry of a patch's dof stream: where its
   * global dof stands in first-seen order, computed as the stream is read.
   */
  function LocalNumbers(s: seq<int>): (r: seq<int>)
    ensures |r| == |s|
  {
    if s == [] then [] else
    FirstSeenMembers(s);
    LocalNumbers(s[..|s| - 1]) + [IndexOf(FirstSeen(s), s[|s| - 1])]
  }

  lemma FirstSeenSnoc(t: seq<int>, x: int)
    ensures FirstSeen(t + [x]) == if x in t then FirstSeen(t) else FirstSeen(t) + [x]
  {
    assert (t + [x])[..|t|] == t;
    FirstSeenMembers(t);
  }

  lemma LocalNumbersSnoc(t: seq<int>, x: int)
    ensures LocalNumbers(t + [x]) == LocalNumbers(t) + [IndexOf(FirstSeen(t + [x]), x)]
  {
    assert (t + [x])[..|t|] == t;
  }

  /** Local numbers never change once given: they are positions in FirstSeen of the whole stream. */
  lemma {:induction false} LocalNumbersAt(s: seq<int>, k: nat)
    requires k < |s|
    ensures s[k] in FirstSeen(s) && LocalNumbers(s)[k] == IndexOf(FirstSeen(s), s[k])
  {
    FirstSeenMembers(s);
    var n := |s| - 1;
    if k < n {
      var t := s[..n];
      assert s == t + [s[n]];
      LocalNumbersAt(t, k);
      FirstSeenSnoc(t, s[n]);
      FirstSeenNoDup(s);
      var i := IndexOf(FirstSeen(t), t[k]);
      assert FirstSeen(s)[i] == s[k];
      IndexOfUnique(FirstSeen(s), i);
    }
  }

  /**
   * Round trip and dense numbering: every entry's local number is in
   * [0, |FirstSeen(s)|) and names that entry's global dof; every local
   * number in range is used by some entry.
   */
  lemma LocalRoundTrip(s: seq<int>, k: nat)
    requires k < |s|
    ensures 0 <= LocalNumbers(s)[k] < |FirstSeen(s)|
    ensures FirstSeen(s)[LocalNumbers(s)[k]] == s[k]
  {
    LocalNumbersAt(s, k);
  }

  lemma LocalDense(s: seq<int>, l: nat)
    requires l < |FirstSeen(s)|
    ensures exists k :: 0 <= k < |s| && LocalNumbers(s)[k] == l
  {
    var g := FirstSeen(s)[l];
    FirstSeenMembers(s);
    FirstSeenNoDup(s);
    assert g in s;
    var k :| 0 <= k < |s| && s[k] == g;
    LocalNumbersAt(s, k);
    IndexOfUnique(FirstSeen(s), l);
  }

  /** Shared-dof contraction: two entries share a local number exactly when they name the same global dof. */
  lemma LocalSharing(s: seq<int>, k1: nat, k2: nat)
    requires k1 < |s| && k2 < |s|
    ensures LocalNumbers(s)[k1] == LocalNumbers(s)[k2] <==> s[k1] == s[k2]
  {
    LocalNumbersAt(s, k1);
    LocalNumbersAt(s, k2);
  }

  /** The number of local dofs of a patch is the number of distinct global dofs it touches. */
  lemma {:induction false} FirstSeenCount(s: seq<int>)
    ensures |FirstSeen(s)| == |Elems(s)|
  {
    if s != [] {
      var t := s[..|s| - 1];
      var x := s[|s| - 1];
      assert s == t + [x];
      FirstSeenCount(t);
      FirstSeenSnoc(t, x);
      assert Elems(s) == Elems(t) + {x};
      if x !in t {
        assert x !in Elems(t);
      } else {
        assert x in Elems(t);
      }
    }
  }

  // ---- The dof stream of a patch -----------------------------------------

  /** The rows of cellNodeMap: `d` global dofs per compact cell number. */
  predicate CellFits(cellNodeMap: seq<int>, d: nat, cell: int)
  {
    0 <= cell && cell * d + d <= |cellNodeMap|
  }

  predicate NumbersFit(cellNodeMap: seq<int>, d: nat, nums: seq<int>)
  {
    forall i :: 0 <= i < |nums| ==> CellFits(cellNodeMap, d, nums[i])
  }

  function CellDofs(cellNodeMap: seq<int>, d: nat, cell: int): (r: seq<int>)
    requires CellFits(cellNodeMap, d, cell)
    ensures |r| == d
  {
    cellNodeMap[cell * d .. cell * d + d]
  }

  /** The global dofs of the cells `nums`, slot by slot, cell after cell. */
  function DofStream(cellNodeMap: seq<int>, d: nat, nums: seq<int>): seq<int>
    requires NumbersFit(cellNodeMap, d, nums)
  {
    if nums == [] then []
    else DofStream(cellNodeMap, d, nums[..|nums| - 1]) + CellDofs(cellNodeMap, d, nums[|nums| - 1])
  }

  lemma DofStreamSnoc(cellNodeMap: seq<int>, d: nat, nums: seq<int>, cell: int)
    requires NumbersFit(cellNodeMap, d, nums) && CellFits(cellNodeMap, d, cell)
    ensures NumbersFit(cellNodeMap, d, nums + [cell])
    ensures DofStream(cellNodeMap, d, nums + [cell]) == DofStream(cellNodeMap, d, nums) + CellDofs(cellNodeMap, d, cell)
  {
    assert (nums + [cell])[..|nums|] == nums;
  }

  /** Entry j of cell a sits at a * d + j of the stream. */
  lemma {:induction false} DofStreamAt(cellNodeMap: seq<int>, d: nat, nums: seq<int>, a: nat, j: nat)
    requires NumbersFit(cellNodeMap, d, nums)
    ensures |DofStream(cellNodeMap, d, nums)| == |nums| * d
    ensures a < |nums| && j < d ==>
      && a * d + j < |nums| * d
      && DofStream(cellNodeMap, d, nums)[a * d + j] == cellNodeMap[nums[a] * d + j]
  {
    if nums != [] {
      var n := |nums| - 1;
      var init := nums[..n];
      assert |nums| * d == n * d + d;
      if a < n {
        DofStreamAt(cellNodeMap, d, init, a, j);
        if j < d {
          assert a * d + j < n * d by {
            assert (a + 1) * d <= n * d by { MulMono(a + 1, n, d); }
          }
        }
      } else {
        DofStreamAt(cellNodeMap, d, init, 0, 0);
      }
    }
  }

  lemma MulMono(a: nat, b: nat, d: nat)
    requires a <= b
    ensures a * d <= b * d
  {
  }

  // ---- The whole construction ---------------------------------------------

  /**
   * The discretisation inputs. cellNumbering is a section over plex cell
   * points: a cell is numbered when its dof there is positive, and its
   * compact number is its offset there.
   */
  datatype Discretisation = Discretisation(cellNumbering: Section, dofsPerCell: nat, cellNodeMap: seq<int>)
  {
    /** cellNodeMap holds a row of dofsPerCell global dofs for every compact cell number (the caller's sizing). */
    predicate Fits()
    {
      cellNumbering.StorageSize() * dofsPerCell <= |cellNodeMap|
    }
  }

  predicate Numbered(numbering: Section, c: int)
  {
    numbering.InChart(c) && numbering.Dof(c) > 0
  }

  predicate AllNumbered(numbering: Section, cells: seq<int>)
  {
    forall i :: 0 <= i < |cells| ==> Numbered(numbering, cells[i])
  }

  /**
   * The error pass 1 raises at a cell the numbering does not know: the
   * section query's range error outside its chart, otherwise "Cell doesn't
   * appear in cell numbering map".
   */
  function NumberingError(numbering: Section, c: int): Error
  {
    if numbering.InChart(c) then CellNotNumbered else PatchIndexOutOfRange
  }

  /** e is the error of the first cell of `cells`, in order, that the numbering does not know. */
  ghost predicate FirstUnnumbered(numbering: Section, cells: seq<int>, e: Error)
  {
    exists i :: 0 <= i < |cells| && !Numbered(numbering, cells[i]) && AllNumbered(numbering, cells[..i])
      && e == NumberingError(numbering, cells[i])
  }

  /** The first unknown cell of a run that follows known cells is the first unknown cell of the whole array. */
  lemma FirstUnnumberedShift(numbering: Section, cells: seq<int>, off: nat, e: nat, cs: seq<int>, err: Error)
    requires off <= e <= |cells| && cs == cells[off..e]
    requires AllNumbered(numbering, cells[..off]) && FirstUnnumbered(numbering, cs, err)
    ensures FirstUnnumbered(numbering, cells, err)
  {
    var i :| 0 <= i < |cs| && !Numbered(numbering, cs[i]) && AllNumbered(numbering, cs[..i])
      && err == NumberingError(numbering, cs[i]);
    assert cells[off + i] == cs[i];
    var pre := cells[..off + i];
    assert pre == cells[..off] + cs[..i];
    forall j | 0 <= j < |pre|
      ensures Numbered(numbering, pre[j])
    {
      if j < off {
        assert pre[j] == cells[..off][j];
      } else {
        assert pre[j] == cs[..i][j - off];
      }
    }
    assert AllNumbered(numbering, pre);
  }

  /** The cells renamed to their compact numbers. */
  function NewCells(numbering: Section, cells: seq<int>): (r: seq<int>)
    requires AllNumbered(numbering, cells)
    ensures |r| == |cells|
    ensures forall i :: 0 <= i < |cells| ==> r[i] == numbering.Offset(cells[i])
  {
    seq(|cells|, i requires 0 <= i < |cells| => numbering.Offset(cells[i]))
  }

  /** Every numbered cell has its row in cellNodeMap. */
  lemma NumberedFits(disc: Discretisation, c: int)
    requires disc.Fits() && Numbered(disc.cellNumbering, c)
    ensures CellFits(disc.cellNodeMap, disc.dofsPerCell, disc.cellNumbering.Offset(c))
  {
    var numbering := disc.cellNumbering;
    OffsetStep(numbering, c);
    MulMono(numbering.Offset(c) + 1, numbering.StorageSize(), disc.dofsPerCell);
    Distrib(numbering.Offset(c), 1, disc.dofsPerCell);
  }

  lemma NewCellsFit(disc: Discretisation, cs: seq<int>)
    requires disc.Fits() && AllNumbered(disc.cellNumbering, cs)
    ensures NumbersFit(disc.cellNodeMap, disc.dofsPerCell, NewCells(disc.cellNumbering, cs))
  {
    var nums := NewCells(disc.cellNumbering, cs);
    forall i | 0 <= i < |nums|
      ensures CellFits(disc.cellNodeMap, disc.dofsPerCell, nums[i])
    {
      var c := cs[i];
      NumberedFits(disc, c);
      assert nums[i] == disc.cellNumbering.Offset(c);
    }
  }

  /** The run of a patch inherits being numbered from the whole cell array. */
  lemma SliceNumbered(numbering: Section, cellCounts: Section, cells: seq<int>, p: int)
    requires AllNumbered(numbering, cells) && cellCounts.StorageSize() == |cells| && cellCounts.InChart(p)
    ensures AllNumbered(numbering, PatchSlice(cellCounts, cells, p))
  {
    OffsetStep(cellCounts, p);
  }

  /** The stream of global dofs of a patch whose cells (plex points) are `cs`. */
  function PatchStream(disc: Discretisation, cs: seq<int>): (r: seq<int>)
    requires disc.Fits() && AllNumbered(disc.cellNumbering, cs)
    ensures |r| == |cs| * disc.dofsPerCell
  {
    var nums := NewCells(disc.cellNumbering, cs);
    NewCellsFit(disc, cs);
    DofStreamAt(disc.cellNodeMap, disc.dofsPerCell, nums, 0, 0);
    DofStream(disc.cellNodeMap, disc.dofsPerCell, nums)
  }

  function DofLists(disc: Discretisation, cellCounts: Section, cells: seq<int>): seq<seq<int>>
    requires disc.Fits() && AllNumbered(disc.cellNumbering, cells) && cellCounts.StorageSize() == |cells|
  {
    seq(|cellCounts.counts|, k requires 0 <= k < |cellCounts.counts| =>
      SliceNumbered(disc.cellNumbering, cellCounts, cells, cellCounts.pStart + k);
      LocalNumbers(PatchStream(disc, PatchSlice(cellCounts, cells, cellCounts.pStart + k))))
  }

  function GtolLists(disc: Discretisation, cellCounts: Section, cells: seq<int>): seq<seq<int>>
    requires disc.Fits() && AllNumbered(disc.cellNumbering, cells) && cellCounts.StorageSize() == |cells|
  {
    seq(|cellCounts.counts|, k requires 0 <= k < |cellCounts.counts| =>
      SliceNumbered(disc.cellNumbering, cellCounts, cells, cellCounts.pStart + k);
      FirstSeen(PatchStream(disc, PatchSlice(cellCounts, cells, cellCounts.pStart + k))))
  }

  /**
   * gtol agrees with the expected table wherever the global dof is not
   * negative; slots of negative global dofs are never written.
   */
  predicate GtolAgrees(gtol: seq<int>, expected: seq<int>)
  {
    |gtol| == |expected| && forall n :: 0 <= n < |expected| && expected[n] >= 0 ==> gtol[n] == expected[n]
  }

  datatype DofInfo = DofInfo(cells: seq<int>, dofs: seq<int>, gtolCounts: Section, gtol: seq<int>)

  // ---- Facts linking the per-patch lists to the flat arrays ----------------

  lemma Distrib(a: nat, b: nat, d: nat)
    ensures (a + b) * d == a * d + b * d
  {
  }

  lemma {:induction false} SumScale(a: seq<nat>, b: seq<nat>, d: nat)
    requires |a| == |b| && forall i :: 0 <= i < |a| ==> a[i] == b[i] * d
    ensures Sum(a) == Sum(b) * d
  {
    if a != [] {
      var n := |a| - 1;
      SumScale(a[..n], b[..n], d);
      Distrib(Sum(b[..n]), b[n], d);
    }
  }

  lemma NumberedSplit(numbering: Section, cells: seq<int>, lo: nat, hi: nat)
    requires lo <= hi <= |cells|
    ensures AllNumbered(numbering, cells) ==> AllNumbered(numbering, cells[lo..hi])
    ensures AllNumbered(numbering, cells[..lo]) && AllNumbered(numbering, cells[lo..hi]) ==>
      && AllNumbered(numbering, cells[..hi])
      && NewCells(numbering, cells[..hi]) == NewCells(numbering, cells[..lo]) + NewCells(numbering, cells[lo..hi])
  {
    if AllNumbered(numbering, cells[..lo]) && AllNumbered(numbering, cells[lo..hi]) {
      forall i | 0 <= i < hi
        ensures Numbered(numbering, cells[..hi][i])
      {
        if i < lo {
          assert cells[..hi][i] == cells[..lo][i];
        } else {
          assert cells[..hi][i] == cells[lo..hi][i - lo];
        }
      }
    }
  }

  /** The section of the flat dof array is the cell-count section scaled by dofsPerCell. */
  lemma DofSectionScaled(disc: Discretisation, cellCounts: Section, cells: seq<int>, p: int)
    requires disc.Fits() && AllNumbered(disc.cellNumbering, cells) && cellCounts.StorageSize() == |cells|
    requires cellCounts.InChart(p)
    ensures var sd := SectionOf(cellCounts.pStart, DofLists(disc, cellCounts, cells));
      && sd.InChart(p)
      && sd.Offset(p) == cellCounts.Offset(p) * disc.dofsPerCell
      && sd.Dof(p) == cellCounts.Dof(p) * disc.dofsPerCell
  {
    var d := disc.dofsPerCell;
    var dl := DofLists(disc, cellCounts, cells);
    var counts := cellCounts.counts;
    var k := p - cellCounts.pStart;
    forall i | 0 <= i < |counts|
      ensures |dl[i]| == counts[i] * d
    {
      var q := cellCounts.pStart + i;
      SliceNumbered(disc.cellNumbering, cellCounts, cells, q);
      var cs := PatchSlice(cellCounts, cells, q);
      assert dl[i] == LocalNumbers(PatchStream(disc, cs));
    }
    SumScale(Lengths(dl)[..k], counts[..k], d);
  }

  /** The run of the flat dof array belonging to patch p is that patch's list of local numbers. */
  lemma DofsOfPatch(disc: Discretisation, cellCounts: Section, cells: seq<int>, p: int)
    requires disc.Fits() && AllNumbered(disc.cellNumbering, cells) && cellCounts.StorageSize() == |cells|
    requires cellCounts.InChart(p)
    ensures var sd := SectionOf(cellCounts.pStart, DofLists(disc, cellCounts, cells));
      var dofs := Flatten(DofLists(disc, cellCounts, cells));
      && sd.InChart(p) && sd.StorageSize() == |dofs|
      && AllNumbered(disc.cellNumbering, PatchSlice(cellCounts, cells, p))
      && PatchSlice(sd, dofs, p) == LocalNumbers(PatchStream(disc, PatchSlice(cellCounts, cells, p)))
  {
    var dl := DofLists(disc, cellCounts, cells);
    SliceNumbered(disc.cellNumbering, cellCounts, cells, p);
    SliceOfFlatten(cellCounts.pStart, dl, p);
  }

  // ---- Pass 1: local numbering --------------------------------------------

  /** Each dof of a first-seen list mapped to its position there. */
  function Positions(f: seq<int>): (m: map<int, int>)
    ensures m.Keys == Elems(f)
  {
    map g | g in f :: IndexOf(f, g)
  }

  lemma IndexOfSnoc(f: seq<int>, x: int, g: int)
    ensures g in f ==> IndexOf(f + [x], g) == IndexOf(f, g)
    ensures x !in f ==> IndexOf(f + [x], x) == |f|
  {
    if g in f {
      var i := IndexOf(f + [x], g);
      var i' := IndexOf(f, g);
      assert (f + [x])[i'] == g;
      IndexOfFirst(f + [x], g);
      IndexOfFirst(f, g);
    }
    if x !in f {
      IndexOfFirst(f + [x], x);
    }
  }

  lemma PositionsSnoc(f: seq<int>, x: int)
    requires x !in f
    ensures Positions(f + [x]) == Positions(f)[x := |f|]
  {
    forall g | g in f
      ensures IndexOf(f + [x], g) == IndexOf(f, g)
    {
      IndexOfSnoc(f, x, g);
    }
    IndexOfSnoc(f, x, x);
    assert Elems(f + [x]) == Elems(f) + {x};
  }

  /**
   * The hash map of pass 1 after reading the stream prefix t: its keys are
   * the global dofs met so far, each mapped to its first-seen position.
   */
  ghost predicate TableOf(ht: map<int, int>, t: seq<int>)
  {
    ht == Positions(FirstSeen(t))
  }

  /** The number of entries of the table is the number of local dofs given out. */
  lemma TableSize(t: seq<int>)
    ensures |Positions(FirstSeen(t))| == |FirstSeen(t)|
  {
    var f := FirstSeen(t);
    FirstSeenCount(t);
    FirstSeenMembers(t);
    forall x
      ensures x in Elems(f) <==> x in Elems(t)
    {
    }
    assert Elems(f) == Elems(t);
    assert |Positions(f).Keys| == |Positions(f)|;
  }

  /** A lookup that finds x: the table is unchanged and x keeps its first-seen position. */
  lemma SlotFound(ht: map<int, int>, t: seq<int>, x: int)
    requires TableOf(ht, t) && x in ht
    ensures ht[x] != -1
    ensures TableOf(ht, t + [x]) && |FirstSeen(t + [x])| == |FirstSeen(t)|
    ensures LocalNumbers(t + [x]) == LocalNumbers(t) + [ht[x]]
  {
    LocalNumbersSnoc(t, x);
    FirstSeenSnoc(t, x);
    FirstSeenMembers(t);
  }

  /** A lookup that misses x: x is inserted with the next local number, its first-seen position. */
  lemma SlotNew(ht: map<int, int>, t: seq<int>, x: int, localIndex: nat)
    requires TableOf(ht, t) && localIndex == |FirstSeen(t)| && x !in ht
    ensures TableOf(ht[x := localIndex], t + [x]) && |FirstSeen(t + [x])| == localIndex + 1
    ensures LocalNumbers(t + [x]) == LocalNumbers(t) + [localIndex]
  {
    LocalNumbersSnoc(t, x);
    FirstSeenSnoc(t, x);
    FirstSeenMembers(t);
    var f := FirstSeen(t);
    PositionsSnoc(f, x);
    IndexOfSnoc(f, x, x);
  }

  lemma RowSnoc(row: seq<int>, rowStart: nat, j: nat, t: seq<int>, u: seq<int>)
    requires rowStart + j < |row| && u == t + row[rowStart .. rowStart + j]
    ensures u + [row[rowStart + j]] == t + row[rowStart .. rowStart + j + 1]
  {
    assert row[rowStart .. rowStart + j + 1] == row[rowStart .. rowStart + j] + [row[rowStart + j]];
  }

  /**
   * One slot of pass 1: look the global dof up in the table, give it the
   * next local number when it is new, and store its local number.
   */
  method NumberSlot(globalDof: int, ht: map<int, int>, localIndex: nat,
                    dofsArray: array<int>, globalIndex: nat, ghost done: seq<int>, ghost u: seq<int>)
    returns (ht': map<int, int>, localIndex': nat)
    requires TableOf(ht, u) && localIndex == |FirstSeen(u)|
    requires globalIndex < dofsArray.Length
    requires dofsArray[..globalIndex] == done + LocalNumbers(u)
    modifies dofsArray
    ensures TableOf(ht', u + [globalDof]) && localIndex' == |FirstSeen(u + [globalDof])|
    ensures dofsArray[..globalIndex + 1] == done + LocalNumbers(u + [globalDof])
  {
    ht', localIndex' := ht, localIndex;
    var localDof := if globalDof in ht' then ht'[globalDof] else -1;
    if globalDof in ht' {
      SlotFound(ht', u, globalDof);
    } else {
      SlotNew(ht', u, globalDof, localIndex');
    }
    if localDof == -1 {
      localDof := localIndex';
      localIndex' := localIndex' + 1;
      ht' := ht'[globalDof := localDof];
    }
    ghost var before := dofsArray[..];
    dofsArray[globalIndex] := localDof;
    PrefixStore(before, dofsArray[..], globalIndex, localDof);
    AppendAssoc(done, LocalNumbers(u), [localDof]);
  }

  /** The inner loop of pass 1 over the dofsPerCell slots of the cell whose row starts at rowStart. */
  method NumberCell(cellNodeMap: seq<int>, rowStart: nat, d: nat, ht: map<int, int>, localIndex: nat,
                    dofsArray: array<int>, globalIndex: nat, ghost done: seq<int>, ghost t: seq<int>)
    returns (ht': map<int, int>, localIndex': nat, globalIndex': nat)
    requires rowStart + d <= |cellNodeMap|
    requires TableOf(ht, t) && localIndex == |FirstSeen(t)|
    requires globalIndex + d <= dofsArray.Length
    requires dofsArray[..globalIndex] == done + LocalNumbers(t)
    modifies dofsArray
    ensures globalIndex' == globalIndex + d
    ensures TableOf(ht', t + cellNodeMap[rowStart .. rowStart + d])
    ensures localIndex' == |FirstSeen(t + cellNodeMap[rowStart .. rowStart + d])|
    ensures dofsArray[..globalIndex'] == done + LocalNumbers(t + cellNodeMap[rowStart .. rowStart + d])
  {
    ht', localIndex', globalIndex' := ht, localIndex, globalIndex;
    ghost var u := t;
    for j := 0 to d
      invariant u == t + cellNodeMap[rowStart .. rowStart + j]
      invariant TableOf(ht', u) && localIndex' == |FirstSeen(u)|
      invariant globalIndex' == globalIndex + j
      invariant dofsArray[..globalIndex'] == done + LocalNumbers(u)
    {
      var globalDof := cellNodeMap[rowStart + j];
      RowSnoc(cellNodeMap, rowStart, j, t, u);
      // "Found more dofs than expected" cannot happen: the run fits.
      ht', localIndex' := NumberSlot(globalDof, ht', localIndex', dofsArray, globalIndex', done, u);
      globalIndex' := globalIndex' + 1;
      u := u + [globalDof];
    }
  }

  /**
   * One cell of pass 1: look the plex cell c up in the numbering, record its
   * compact number at position i, and number its dofs.
   */
  method NumberPatchCell(disc: Discretisation, c: int, i: nat, newCellsArray: array<int>, dofsArray: array<int>,
                         ht: map<int, int>, localIndex: nat, globalIndex: nat,
                         ghost cellsDone: seq<int>, ghost done: seq<int>, ghost t: seq<int>)
    returns (r: Result<int>, ht': map<int, int>, localIndex': nat, globalIndex': nat)
    requires disc.Fits()
    requires i < newCellsArray.Length && newCellsArray != dofsArray
    requires newCellsArray[..i] == cellsDone
    requires TableOf(ht, t) && localIndex == |FirstSeen(t)|
    requires globalIndex + disc.dofsPerCell <= dofsArray.Length
    requires dofsArray[..globalIndex] == done + LocalNumbers(t)
    modifies newCellsArray, dofsArray
    ensures r.Err? <==> !Numbered(disc.cellNumbering, c)
    ensures r.Err? ==> r.error == NumberingError(disc.cellNumbering, c)
    ensures r.Ok? ==>
      && r.value == disc.cellNumbering.Offset(c)
      && CellFits(disc.cellNodeMap, disc.dofsPerCell, r.value)
      && newCellsArray[..i + 1] == cellsDone + [r.value]
      && globalIndex' == globalIndex + disc.dofsPerCell
      && TableOf(ht', t + CellDofs(disc.cellNodeMap, disc.dofsPerCell, r.value))
      && localIndex' == |FirstSeen(t + CellDofs(disc.cellNodeMap, disc.dofsPerCell, r.value))|
      && dofsArray[..globalIndex'] == done + LocalNumbers(t + CellDofs(disc.cellNodeMap, disc.dofsPerCell, r.value))
  {
    var numbering := disc.cellNumbering;
    var d := disc.dofsPerCell;
    ht', localIndex', globalIndex' := ht, localIndex, globalIndex;
    if !numbering.InChart(c) {
      return Err(PatchIndexOutOfRange), ht', localIndex', globalIndex';
    }
    if numbering.Dof(c) <= 0 {
      // Cell doesn't appear in cell numbering map.
      return Err(CellNotNumbered), ht', localIndex', globalIndex';
    }
    var cell := numbering.Offset(c);
    assert Numbered(numbering, c);
    ghost var before := newCellsArray[..];
    newCellsArray[i] := cell;
    PrefixStore(before, newCellsArray[..], i, cell);
    var rowStart := cell * d;
    NumberedFits(disc, c);
    ht', localIndex', globalIndex' := NumberCell(disc.cellNodeMap, rowStart, d, ht, localIndex,
                                                 dofsArray, globalIndex, done, t);
    r := Ok(cell);
  }

  lemma NumberedSnoc(numbering: Section, cs: seq<int>, i: nat)
    requires i < |cs| && AllNumbered(numbering, cs[..i]) && Numbered(numbering, cs[i])
    ensures AllNumbered(numbering, cs[..i + 1])
    ensures NewCells(numbering, cs[..i + 1]) == NewCells(numbering, cs[..i]) + [numbering.Offset(cs[i])]
  {
    assert cs[..i + 1] == cs[..i] + [cs[i]];
  }

  lemma RowBound(i: nat, n: nat, d: nat)
    requires i < n
    ensures i * d + d <= n * d && (i + 1) * d == i * d + d
  {
    MulMono(i + 1, n, d);
    Distrib(i, 1, d);
  }

  /**
   * Pass 1 for one patch whose cells (plex points) are cs, to be stored from
   * position lo of the cell array and globalIndex of the dof array: rename
   * the cells, give each of their dofs its local number, and report how
   * many distinct global dofs the patch has. Fails on the first cell the
   * numbering does not know.
   */
  method NumberPatch(disc: Discretisation, cs: seq<int>, lo: nat, globalIndex: nat,
                     newCellsArray: array<int>, dofsArray: array<int>, ghost cellsDone: seq<int>, ghost done: seq<int>)
    returns (r: Result<nat>, globalIndex': nat)
    requires disc.Fits()
    requires lo + |cs| <= newCellsArray.Length && newCellsArray != dofsArray
    requires globalIndex + |cs| * disc.dofsPerCell <= dofsArray.Length
    requires newCellsArray[..lo] == cellsDone && dofsArray[..globalIndex] == done
    modifies newCellsArray, dofsArray
    ensures r.Err? <==> !AllNumbered(disc.cellNumbering, cs)
    ensures r.Err? ==> FirstUnnumbered(disc.cellNumbering, cs, r.error)
    ensures r.Ok? ==>
      && AllNumbered(disc.cellNumbering, cs)
      && newCellsArray[..lo + |cs|] == cellsDone + NewCells(disc.cellNumbering, cs)
      && globalIndex' == globalIndex + |cs| * disc.dofsPerCell
      && dofsArray[..globalIndex'] == done + LocalNumbers(PatchStream(disc, cs))
      && r.value == |FirstSeen(PatchStream(disc, cs))|
  {
    var d := disc.dofsPerCell;
    var ht: map<int, int> := map[];
    var localIndex: nat := 0;
    ghost var nums: seq<int> := [];
    ghost var t: seq<int> := [];
    globalIndex' := globalIndex;
    for i := 0 to |cs|
      invariant AllNumbered(disc.cellNumbering, cs[..i])
      invariant nums == NewCells(disc.cellNumbering, cs[..i])
      invariant NumbersFit(disc.cellNodeMap, d, nums)
      invariant t == DofStream(disc.cellNodeMap, d, nums)
      invariant globalIndex' == globalIndex + i * d <= dofsArray.Length
      invariant TableOf(ht, t) && localIndex == |FirstSeen(t)|
      invariant newCellsArray[..lo + i] == cellsDone + nums
      invariant dofsArray[..globalIndex'] == done + LocalNumbers(t)
    {
      RowBound(i, |cs|, d);
      var cell: Result<int>;
      cell, ht, localIndex, globalIndex' := NumberPatchCell(disc, cs[i], lo + i, newCellsArray, dofsArray,
                                                           ht, localIndex, globalIndex', cellsDone + nums, done, t);
      if cell.Err? {
        assert !Numbered(disc.cellNumbering, cs[i]);
        return Err(cell.error), globalIndex';
      }
      NumberedSnoc(disc.cellNumbering, cs, i);
      DofStreamSnoc(disc.cellNodeMap, d, nums, cell.value);
      AppendAssoc(cellsDone, nums, [cell.value]);
      nums := nums + [cell.value];
      t := t + CellDofs(disc.cellNodeMap, d, cell.value);
    }
    // How many local dofs in this patch: the size of the table.
    assert cs[..|cs|] == cs;
    TableSize(t);
    r := Ok(|ht|);
  }

  // ---- Pass 2: the global-to-local table -----------------------------------

  /**
   * The hash map of pass 2 after re-reading the first pos entries of the
   * stream s: each global dof seen so far maps to its position in f.
   */
  function PartialTable(s: seq<int>, f: seq<int>, pos: nat): map<int, int>
    requires pos <= |s|
  {
    map g | g in s[..pos] && g in f :: IndexOf(f, g)
  }

  /** Re-adding entry pos of the stream with its position in f extends the table by that entry. */
  lemma RebuildStep(s: seq<int>, f: seq<int>, pos: nat)
    requires pos < |s| && s[pos] in f
    ensures PartialTable(s, f, pos + 1) == PartialTable(s, f, pos)[s[pos] := IndexOf(f, s[pos])]
  {
    assert s[..pos + 1] == s[..pos] + [s[pos]];
  }

  lemma RebuildDone(s: seq<int>)
    ensures PartialTable(s, FirstSeen(s), |s|) == Positions(FirstSeen(s))
  {
    FirstSeenMembers(s);
    assert s[..|s|] == s;
  }

  lemma SubSlice(a: seq<int>, off: nat, x: seq<int>, pos: nat, len: nat)
    requires off + |x| <= |a| && a[off .. off + |x|] == x && pos + len <= |x|
    ensures a[off + pos .. off + pos + len] == x[pos .. pos + len]
  {
    var lhs := a[off + pos .. off + pos + len];
    var rhs := x[pos .. pos + len];
    forall i | 0 <= i < len
      ensures lhs[i] == rhs[i]
    {
      assert a[off .. off + |x|][pos + i] == x[pos + i];
    }
  }

  lemma {:induction false} DofStreamRow(cellNodeMap: seq<int>, d: nat, nums: seq<int>, a: nat)
    requires NumbersFit(cellNodeMap, d, nums) && a < |nums|
    ensures a * d + d <= |DofStream(cellNodeMap, d, nums)|
    ensures DofStream(cellNodeMap, d, nums)[a * d .. a * d + d] == CellDofs(cellNodeMap, d, nums[a])
  {
    var n := |nums| - 1;
    var init := nums[..n];
    var s := DofStream(cellNodeMap, d, nums);
    DofStreamAt(cellNodeMap, d, init, 0, 0);
    if a < n {
      DofStreamRow(cellNodeMap, d, init, a);
      assert s[a * d .. a * d + d] == DofStream(cellNodeMap, d, init)[a * d .. a * d + d];
    } else {
      assert |DofStream(cellNodeMap, d, init)| == a * d;
    }
  }

  /** The inner loop of pass 2 over one cell: the cell's row of the stream re-enters the table. */
  method RebuildCell(cellNodeMap: seq<int>, rowStart: nat, d: nat, dofs: seq<int>, dofsRow: nat,
                     ht: map<int, int>, ghost s: seq<int>, ghost pos: nat)
    returns (ht': map<int, int>)
    requires rowStart + d <= |cellNodeMap| && dofsRow + d <= |dofs| && pos + d <= |s|
    requires s[pos .. pos + d] == cellNodeMap[rowStart .. rowStart + d]
    requires dofs[dofsRow .. dofsRow + d] == LocalNumbers(s)[pos .. pos + d]
    requires ht == PartialTable(s, FirstSeen(s), pos)
    ensures ht' == PartialTable(s, FirstSeen(s), pos + d)
  {
    ht' := ht;
    for j := 0 to d
      invariant ht' == PartialTable(s, FirstSeen(s), pos + j)
    {
      var globalDof := cellNodeMap[rowStart + j];
      var localDof := dofs[dofsRow + j];
      assert globalDof == s[pos .. pos + d][j];
      assert localDof == LocalNumbers(s)[pos .. pos + d][j];
      LocalNumbersAt(s, pos + j);
      RebuildStep(s, FirstSeen(s), pos + j);
      ht' := ht'[globalDof := localDof];
    }
  }

  /** The run of a patch's stream at cell i's position is that cell's row of the cell-node map. */
  lemma RowOfStream(disc: Discretisation, cs: seq<int>, i: nat, pos: nat)
    requires disc.Fits() && i < |cs| && AllNumbered(disc.cellNumbering, cs)
    requires pos == i * disc.dofsPerCell
    ensures Numbered(disc.cellNumbering, cs[i])
    ensures var d := disc.dofsPerCell;
      var rowStart := disc.cellNumbering.Offset(cs[i]) * d;
      && 0 <= rowStart && rowStart + d <= |disc.cellNodeMap|
      && pos + d == (i + 1) * d <= |PatchStream(disc, cs)|
      && PatchStream(disc, cs)[pos .. pos + d] == disc.cellNodeMap[rowStart .. rowStart + d]
  {
    var d := disc.dofsPerCell;
    var nums := NewCells(disc.cellNumbering, cs);
    var cell := disc.cellNumbering.Offset(cs[i]);
    assert nums[i] == cell;
    NewCellsFit(disc, cs);
    DofStreamRow(disc.cellNodeMap, d, nums, i);
    MulMono(0, cell, d);
    Distrib(i, 1, d);
  }

  /**
   * One cell of pass 2: the row of global dofs of cell i of the patch
   * re-enters the table with the local numbers stored for it.
   */
  method RebuildPatchCell(disc: Discretisation, cs: seq<int>, lo: nat, i: nat, dofs: seq<int>,
                          ht: map<int, int>, ghost s: seq<int>, ghost dofsOff: nat, ghost pos: nat)
    returns (ht': map<int, int>)
    requires disc.Fits() && i < |cs| && AllNumbered(disc.cellNumbering, cs)
    requires s == PatchStream(disc, cs)
    requires dofsOff == lo * disc.dofsPerCell && pos == i * disc.dofsPerCell
    requires dofsOff + |s| <= |dofs| && dofs[dofsOff .. dofsOff + |s|] == LocalNumbers(s)
    requires ht == PartialTable(s, FirstSeen(s), pos)
    ensures pos + disc.dofsPerCell == (i + 1) * disc.dofsPerCell <= |s|
    ensures ht' == PartialTable(s, FirstSeen(s), pos + disc.dofsPerCell)
  {
    var d := disc.dofsPerCell;
    RowOfStream(disc, cs, i, pos);
    SubSlice(dofs, dofsOff, LocalNumbers(s), pos, d);
    Distrib(lo, i, d);
    var cell := disc.cellNumbering.Offset(cs[i]);
    ht' := RebuildCell(disc.cellNodeMap, cell * d, d, dofs, (lo + i) * d, ht, s, pos);
  }

  /**
   * Pass 2 for one patch whose cells (plex points) are cs and whose local
   * numbers were stored from position lo * dofsPerCell of dofs: rebuild its
   * global-to-local map from the global dofs and the stored local numbers.
   */
  method RebuildPatch(disc: Discretisation, cs: seq<int>, lo: nat, dofs: seq<int>, ghost s: seq<int>, ghost dofsOff: nat)
    returns (ht: map<int, int>)
    requires disc.Fits() && AllNumbered(disc.cellNumbering, cs)
    requires s == PatchStream(disc, cs)
    requires dofsOff == lo * disc.dofsPerCell
    requires dofsOff + |s| <= |dofs| && dofs[dofsOff .. dofsOff + |s|] == LocalNumbers(s)
    ensures ht == Positions(FirstSeen(s))
  {
    var d := disc.dofsPerCell;
    ghost var pos: nat := 0;
    ht := map[];
    assert s[..0] == [];
    for i := 0 to |cs|
      invariant pos == i * d <= |s|
      invariant ht == PartialTable(s, FirstSeen(s), pos)
    {
      ht := RebuildPatchCell(disc, cs, lo, i, dofs, ht, s, dofsOff, pos);
      pos := pos + d;
    }
    RebuildDone(s);
  }

  /**
   * One write of the scatter: once global dof g has been written to its slot,
   * every position whose dof is no longer pending holds its dof.
   */
  lemma ScatterStep(s: seq<int>, keys: set<int>, g: int, a: seq<int>, a': seq<int>, off: nat)
    requires g in FirstSeen(s) && off + |FirstSeen(s)| <= |a|
    requires a' == if g >= 0 then a[off + IndexOf(FirstSeen(s), g) := g] else a
    requires forall l :: 0 <= l < |FirstSeen(s)| && FirstSeen(s)[l] !in keys && FirstSeen(s)[l] >= 0 ==> a[off + l] == FirstSeen(s)[l]
    ensures forall l :: 0 <= l < |FirstSeen(s)| && FirstSeen(s)[l] !in keys - {g} && FirstSeen(s)[l] >= 0 ==> a'[off + l] == FirstSeen(s)[l]
  {
    var f := FirstSeen(s);
    FirstSeenNoDup(s);
    forall l | 0 <= l < |f| && f[l] !in keys - {g} && f[l] >= 0
      ensures a'[off + l] == f[l]
    {
      if f[l] == g {
        IndexOfUnique(f, l);
      }
    }
  }

  /**
   * Shove the table into gtol: slot off + local receives its global dof,
   * for every entry whose global dof is not negative, in any order.
   */
  method ScatterTable(ht: map<int, int>, ghost s: seq<int>, gtolArray: array<int>, off: nat)
    requires ht == Positions(FirstSeen(s))
    requires off + |FirstSeen(s)| <= gtolArray.Length
    modifies gtolArray
    ensures forall n :: 0 <= n < gtolArray.Length && !(off <= n < off + |FirstSeen(s)|) ==> gtolArray[n] == old(gtolArray[n])
    ensures forall l :: 0 <= l < |FirstSeen(s)| && FirstSeen(s)[l] >= 0 ==> gtolArray[off + l] == FirstSeen(s)[l]
  {
    ghost var f := FirstSeen(s);
    var keys := ht.Keys;
    while keys != {}
      invariant keys <= ht.Keys
      invariant forall n :: 0 <= n < gtolArray.Length && !(off <= n < off + |f|) ==> gtolArray[n] == old(gtolArray[n])
      invariant forall l :: 0 <= l < |f| && f[l] !in keys && f[l] >= 0 ==> gtolArray[off + l] == f[l]
      decreases |keys|
    {
      var g :| g in keys;
      var localDof := ht[g];
      assert localDof == IndexOf(f, g);
      ghost var a := gtolArray[..];
      if g >= 0 {
        gtolArray[off + localDof] := g;
      }
      ScatterStep(s, keys, g, a, gtolArray[..], off);
      keys := keys - {g};
    }
  }

  // ---- The two passes over all patches ------------------------------------

  /** Patch j's pass-1 results: its cells are numbered, ds is its dof run and n its number of local dofs. */
  ghost predicate PatchNumbered(disc: Discretisation, cellCounts: Section, cells: seq<int>, j: int, ds: seq<int>, n: nat)
    requires disc.Fits() && cellCounts.StorageSize() == |cells|
  {
    && 0 <= j < |cellCounts.counts|
    && AllNumbered(disc.cellNumbering, PatchSlice(cellCounts, cells, cellCounts.pStart + j))
    && ds == LocalNumbers(PatchStream(disc, PatchSlice(cellCounts, cells, cellCounts.pStart + j)))
    && n == |FirstSeen(PatchStream(disc, PatchSlice(cellCounts, cells, cellCounts.pStart + j)))|
  }

  lemma FlattenAppend(xs: seq<seq<int>>, x: seq<int>)
    ensures Flatten(xs + [x]) == Flatten(xs) + x
  {
    assert (xs + [x])[..|xs|] == xs;
  }

  /** The pass-1 results of the patches of the first |dl| vertices. */
  ghost predicate PatchesNumbered(disc: Discretisation, cellCounts: Section, cells: seq<int>,
                                  dl: seq<seq<int>>, gcounts: seq<nat>)
    requires disc.Fits() && cellCounts.StorageSize() == |cells|
  {
    && |dl| == |gcounts| <= |cellCounts.counts|
    && forall j :: 0 <= j < |dl| ==> PatchNumbered(disc, cellCounts, cells, j, dl[j], gcounts[j])
  }

  lemma PatchesNumberedSnoc(disc: Discretisation, cellCounts: Section, cells: seq<int>,
                            dl: seq<seq<int>>, gcounts: seq<nat>, ds: seq<int>, n: nat)
    requires disc.Fits() && cellCounts.StorageSize() == |cells|
    requires PatchesNumbered(disc, cellCounts, cells, dl, gcounts)
    requires PatchNumbered(disc, cellCounts, cells, |dl|, ds, n)
    ensures PatchesNumbered(disc, cellCounts, cells, dl + [ds], gcounts + [n])
  {
    forall j | 0 <= j < |dl| + 1
      ensures PatchNumbered(disc, cellCounts, cells, j, (dl + [ds])[j], (gcounts + [n])[j])
    {
      if j < |dl| {
        assert (dl + [ds])[j] == dl[j] && (gcounts + [n])[j] == gcounts[j];
      }
    }
  }

  /** What pass 1 found for one patch, stated for the patch of vertex v. */
  lemma PatchNumberedAt(disc: Discretisation, cellCounts: Section, cells: seq<int>, v: int, cs: seq<int>, n: nat)
    requires disc.Fits() && cellCounts.StorageSize() == |cells| && cellCounts.InChart(v)
    requires cs == PatchSlice(cellCounts, cells, v) && AllNumbered(disc.cellNumbering, cs)
    requires n == |FirstSeen(PatchStream(disc, cs))|
    ensures PatchNumbered(disc, cellCounts, cells, v - cellCounts.pStart, LocalNumbers(PatchStream(disc, cs)), n)
  {
    assert cellCounts.pStart + (v - cellCounts.pStart) == v;
  }

  /**
   * The state of pass 1 after the patches of the first k vertices: their
   * cells are numbered and renamed in the cell array, their dof runs fill the
   * dof array up to globalIndex, and each has its run and local-dof count.
   */
  ghost predicate Pass1Done(disc: Discretisation, cellCounts: Section, cells: seq<int>, k: nat,
                            nc: seq<int>, da: seq<int>, globalIndex: nat, dl: seq<seq<int>>, gcounts: seq<nat>)
    requires disc.Fits() && cellCounts.StorageSize() == |cells|
  {
    && k <= |cellCounts.counts|
    && Sum(cellCounts.counts[..k]) <= |cells| == |nc|
    && AllNumbered(disc.cellNumbering, cells[..Sum(cellCounts.counts[..k])])
    && nc[..Sum(cellCounts.counts[..k])] == NewCells(disc.cellNumbering, cells[..Sum(cellCounts.counts[..k])])
    && globalIndex == Sum(cellCounts.counts[..k]) * disc.dofsPerCell <= |da|
    && da[..globalIndex] == Flatten(dl)
    && |dl| == k
    && PatchesNumbered(disc, cellCounts, cells, dl, gcounts)
  }

  lemma Pass1Step(disc: Discretisation, cellCounts: Section, cells: seq<int>, k: nat, e: nat,
                  nc: seq<int>, da: seq<int>, globalIndex: nat, dl: seq<seq<int>>, gcounts: seq<nat>)
    requires disc.Fits() && cellCounts.StorageSize() == |cells| && k < |cellCounts.counts|
    requires e == Sum(cellCounts.counts[..k + 1]) <= |cells| == |nc|
    requires AllNumbered(disc.cellNumbering, cells[..e])
    requires nc[..e] == NewCells(disc.cellNumbering, cells[..e])
    requires globalIndex == e * disc.dofsPerCell <= |da|
    requires da[..globalIndex] == Flatten(dl) && |dl| == k + 1
    requires PatchesNumbered(disc, cellCounts, cells, dl, gcounts)
    ensures Pass1Done(disc, cellCounts, cells, k + 1, nc, da, globalIndex, dl, gcounts)
  {
  }



  /** The dof run of a patch of dof cells starts at off * d and ends at (off + dof) * d. */
  lemma RunStep(off: nat, dof: nat, e: nat, d: nat, n: nat, start: nat, end: int)
    requires e == off + dof <= n && start == off * d && end == start + dof * d
    ensures end == e * d <= n * d
  {
    Distrib(off, dof, d);
    MulMono(off + dof, n, d);
  }

  /**
   * Pass 1 at vertex v: number the patch whose cells are v's run of the cell
   * array, right after the runs of the vertices before it; ds is that
   * patch's run of local numbers.
   */
  method NumberVertex(disc: Discretisation, cellCounts: Section, cells: seq<int>, v: int,
                      newCellsArray: array<int>, dofsArray: array<int>, globalIndex: nat,
                      ghost dl: seq<seq<int>>, ghost gcounts: seq<nat>)
    returns (r: Result<nat>, globalIndex': nat, ghost ds: seq<int>)
    requires disc.Fits() && cellCounts.StorageSize() == |cells| && cellCounts.InChart(v)
    requires dofsArray.Length == |cells| * disc.dofsPerCell && newCellsArray != dofsArray
    requires Pass1Done(disc, cellCounts, cells, v - cellCounts.pStart, newCellsArray[..], dofsArray[..], globalIndex, dl, gcounts)
    modifies newCellsArray, dofsArray
    ensures r.Err? ==> !AllNumbered(disc.cellNumbering, cells)
    ensures r.Err? ==> FirstUnnumbered(disc.cellNumbering, cells, r.error)
    ensures r.Ok? ==>
      Pass1Done(disc, cellCounts, cells, v + 1 - cellCounts.pStart, newCellsArray[..], dofsArray[..], globalIndex',
                dl + [ds], gcounts + [r.value])
  {
    var dof := cellCounts.Dof(v);
    var off := cellCounts.Offset(v);
    ghost var e := off + dof;
    Pass1At(disc, cellCounts, cells, v, newCellsArray[..], dofsArray[..], globalIndex, dl, gcounts);
    RunStep(off, dof, e, disc.dofsPerCell, |cells|, globalIndex, globalIndex + dof * disc.dofsPerCell);
    var cs := cells[off .. off + dof];
    r, globalIndex' := NumberPatch(disc, cs, off, globalIndex, newCellsArray, dofsArray,
                                   NewCells(disc.cellNumbering, cells[..off]), Flatten(dl));
    ds := [];
    if r.Err? {
      FirstUnnumberedShift(disc.cellNumbering, cells, off, e, cs, r.error);
    }
    if r.Ok? {
      ds := LocalNumbers(PatchStream(disc, cs));
      Pass1Extend(disc, cellCounts, cells, v, off, e, cs, r.value, ds, newCellsArray[..], dofsArray[..], globalIndex, globalIndex', dl, gcounts);
    }
  }

  /** What pass 1's state before vertex v says about v's run of the cell array and its dof run. */
  lemma Pass1At(disc: Discretisation, cellCounts: Section, cells: seq<int>, v: int,
                nc: seq<int>, da: seq<int>, globalIndex: nat, dl: seq<seq<int>>, gcounts: seq<nat>)
    requires disc.Fits() && cellCounts.StorageSize() == |cells| && cellCounts.InChart(v)
    requires |da| == |cells| * disc.dofsPerCell
    requires Pass1Done(disc, cellCounts, cells, v - cellCounts.pStart, nc, da, globalIndex, dl, gcounts)
    ensures cellCounts.Offset(v) + cellCounts.Dof(v) <= |cells| == |nc|
    ensures AllNumbered(disc.cellNumbering, cells[..cellCounts.Offset(v)])
    ensures nc[..cellCounts.Offset(v)] == NewCells(disc.cellNumbering, cells[..cellCounts.Offset(v)])
    ensures globalIndex == cellCounts.Offset(v) * disc.dofsPerCell
    ensures da[..globalIndex] == Flatten(dl)
    ensures |dl| == v - cellCounts.pStart && PatchesNumbered(disc, cellCounts, cells, dl, gcounts)
  {
    OffsetStep(cellCounts, v);
    SumSnoc(cellCounts.counts, v - cellCounts.pStart);
  }

  /** Pass 1's state after numbering the patch of vertex v, from the state before it. */
  lemma Pass1Extend(disc: Discretisation, cellCounts: Section, cells: seq<int>, v: int, off: nat, e: nat,
                    cs: seq<int>, n: nat, ds: seq<int>, nc: seq<int>, da: seq<int>, globalIndex: nat, globalIndex': nat,
                    dl: seq<seq<int>>, gcounts: seq<nat>)
    requires disc.Fits() && cellCounts.StorageSize() == |cells| && cellCounts.InChart(v)
    requires off == cellCounts.Offset(v) && e == off + cellCounts.Dof(v) <= |cells|
    requires cs == PatchSlice(cellCounts, cells, v) && cs == cells[off..e] && AllNumbered(disc.cellNumbering, cs)
    requires AllNumbered(disc.cellNumbering, cells[..off])
    requires |nc| == |cells| && |da| == |cells| * disc.dofsPerCell
    requires nc[..e] == NewCells(disc.cellNumbering, cells[..off]) + NewCells(disc.cellNumbering, cs)
    requires globalIndex == off * disc.dofsPerCell
    requires globalIndex' == globalIndex + |cs| * disc.dofsPerCell <= |da|
    requires ds == LocalNumbers(PatchStream(disc, cs)) && da[..globalIndex'] == Flatten(dl) + ds
    requires |dl| == v - cellCounts.pStart && PatchesNumbered(disc, cellCounts, cells, dl, gcounts)
    requires n == |FirstSeen(PatchStream(disc, cs))|
    ensures Pass1Done(disc, cellCounts, cells, v + 1 - cellCounts.pStart, nc, da, globalIndex', dl + [ds], gcounts + [n])
  {
    Pass1ExtendCells(disc, cellCounts, cells, v, off, e, cs, nc, globalIndex, globalIndex');
    PatchNumberedAt(disc, cellCounts, cells, v, cs, n);
    Pass1ExtendDofs(disc, cellCounts, cells, ds, n, da, globalIndex', dl, gcounts);
    Pass1Step(disc, cellCounts, cells, v - cellCounts.pStart, e, nc, da, globalIndex', dl + [ds], gcounts + [n]);
  }

  /** The cell half of Pass1Extend: the patch's cells end at the prefix sum of the counts, all renamed. */
  lemma Pass1ExtendCells(disc: Discretisation, cellCounts: Section, cells: seq<int>, v: int, off: nat, e: nat,
                         cs: seq<int>, nc: seq<int>, globalIndex: nat, globalIndex': nat)
    requires cellCounts.StorageSize() == |cells| && cellCounts.InChart(v)
    requires off == cellCounts.Offset(v) && e == off + cellCounts.Dof(v) <= |cells|
    requires cs == cells[off..e] && AllNumbered(disc.cellNumbering, cs)
    requires AllNumbered(disc.cellNumbering, cells[..off])
    requires |nc| == |cells| && nc[..e] == NewCells(disc.cellNumbering, cells[..off]) + NewCells(disc.cellNumbering, cs)
    requires globalIndex == off * disc.dofsPerCell && globalIndex' == globalIndex + |cs| * disc.dofsPerCell
    ensures e == Sum(cellCounts.counts[..v - cellCounts.pStart + 1])
    ensures globalIndex' == e * disc.dofsPerCell <= |cells| * disc.dofsPerCell
    ensures AllNumbered(disc.cellNumbering, cells[..e]) && nc[..e] == NewCells(disc.cellNumbering, cells[..e])
  {
    OffsetStep(cellCounts, v);
    SumSnoc(cellCounts.counts, v - cellCounts.pStart);
    RunStep(off, |cs|, e, disc.dofsPerCell, |cells|, globalIndex, globalIndex');
    CellsStep(disc.cellNumbering, cells, off, e, cs, nc);
  }

  /** The dof half of Pass1Extend: the patch's local numbers follow those of the earlier patches. */
  lemma Pass1ExtendDofs(disc: Discretisation, cellCounts: Section, cells: seq<int>, ds: seq<int>, n: nat,
                        da: seq<int>, globalIndex': nat, dl: seq<seq<int>>, gcounts: seq<nat>)
    requires disc.Fits() && cellCounts.StorageSize() == |cells|
    requires PatchNumbered(disc, cellCounts, cells, |dl|, ds, n)
    requires globalIndex' <= |da| && da[..globalIndex'] == Flatten(dl) + ds
    requires PatchesNumbered(disc, cellCounts, cells, dl, gcounts)
    ensures da[..globalIndex'] == Flatten(dl + [ds])
    ensures PatchesNumbered(disc, cellCounts, cells, dl + [ds], gcounts + [n])
  {
    FlattenAppend(dl, ds);
    PatchesNumberedSnoc(disc, cellCounts, cells, dl, gcounts, ds, n);
  }

  /** Renaming the cells up to e: those up to off, then the patch cs. */
  lemma CellsStep(numbering: Section, cells: seq<int>, off: nat, e: nat, cs: seq<int>, nc: seq<int>)
    requires off <= e <= |cells| && cs == cells[off..e]
    requires AllNumbered(numbering, cells[..off]) && AllNumbered(numbering, cs)
    requires e <= |nc| && nc[..e] == NewCells(numbering, cells[..off]) + NewCells(numbering, cs)
    ensures AllNumbered(numbering, cells[..e]) && nc[..e] == NewCells(numbering, cells[..e])
  {
    NumberedSplit(numbering, cells, off, e);
  }



  /**
   * Pass 1 over all patches: the compact cell numbers, the local number of
   * every (cell, slot) entry, and the number of local dofs of each patch
   * (the counts of the gtolCounts section). Fails when some patch cell is
   * not in the cell numbering.
   */
  method NumberAllPatches(disc: Discretisation, cellCounts: Section, cells: seq<int>,
                          newCellsArray: array<int>, dofsArray: array<int>)
    returns (r: Result<seq<nat>>)
    requires disc.Fits() && cellCounts.StorageSize() == |cells| == newCellsArray.Length
    requires dofsArray.Length == |cells| * disc.dofsPerCell && newCellsArray != dofsArray
    modifies newCellsArray, dofsArray
    ensures r.Err? <==> !AllNumbered(disc.cellNumbering, cells)
    ensures r.Err? ==> FirstUnnumbered(disc.cellNumbering, cells, r.error)
    ensures r.Ok? ==>
      && AllNumbered(disc.cellNumbering, cells)
      && newCellsArray[..] == NewCells(disc.cellNumbering, cells)
      && dofsArray[..] == Flatten(DofLists(disc, cellCounts, cells))
      && r.value == Lengths(GtolLists(disc, cellCounts, cells))
  {
    var gcounts: seq<nat> := [];
    var globalIndex: nat := 0;
    ghost var dl: seq<seq<int>> := [];
    for v := cellCounts.pStart to cellCounts.PEnd()
      invariant Pass1Done(disc, cellCounts, cells, v - cellCounts.pStart, newCellsArray[..], dofsArray[..],
                          globalIndex, dl, gcounts)
    {
      var res: Result<nat>;
      ghost var ds: seq<int>;
      res, globalIndex, ds := NumberVertex(disc, cellCounts, cells, v, newCellsArray, dofsArray, globalIndex, dl, gcounts);
      if res.Err? {
        return Err(res.error);
      }
      // How many local dofs in this patch: PetscSectionSetDof(gtolCounts, v, ...).
      gcounts := gcounts + [res.value];
      dl := dl + [ds];
    }
    Pass1Finish(disc, cellCounts, cells, newCellsArray[..], dofsArray[..], globalIndex, dl, gcounts);
    r := Ok(gcounts);
  }

  /** After the last vertex, the pass-1 state is the specification's flat arrays and counts. */
  lemma Pass1Finish(disc: Discretisation, cellCounts: Section, cells: seq<int>,
                    nc: seq<int>, da: seq<int>, globalIndex: nat, dl: seq<seq<int>>, gcounts: seq<nat>)
    requires disc.Fits() && cellCounts.StorageSize() == |cells| && |da| == |cells| * disc.dofsPerCell
    requires Pass1Done(disc, cellCounts, cells, |cellCounts.counts|, nc, da, globalIndex, dl, gcounts)
    ensures AllNumbered(disc.cellNumbering, cells)
    ensures nc == NewCells(disc.cellNumbering, cells)
    ensures da == Flatten(DofLists(disc, cellCounts, cells))
    ensures gcounts == Lengths(GtolLists(disc, cellCounts, cells))
  {
    var counts := cellCounts.counts;
    assert counts[..|counts|] == counts && cells[..|cells|] == cells && nc[..|nc|] == nc && da[..|da|] == da;
    assert dl == DofLists(disc, cellCounts, cells);
    assert gcounts == Lengths(GtolLists(disc, cellCounts, cells));
  }
}
