/**
 * What the preconditioner asks of the DMPlex mesh, taken as given inputs:
 * the vertex and cell strata, the ownership and exterior-facet labels, and
 * the results of the topology queries as functions of a point.
 */
module Topology {

  datatype Mesh = Mesh(
    vStart: int, vEnd: int,       // depth-0 stratum: the vertices
    cStart: int, cEnd: int,       // height-0 stratum: the cells
    core: set<int>,               // label "op2_core"
    nonCore: set<int>,            // label "op2_non_core"
    exteriorFacets: set<int>,     // label "exterior_facets"
    star: int -> seq<int>,        // points of DMPlexGetTransitiveClosure(p, PETSC_FALSE)
    closure: int -> seq<int>,     // points of DMPlexGetTransitiveClosure(p, PETSC_TRUE)
    cone: int -> seq<int>,        // DMPlexGetCone
    support: int -> seq<int>)     // DMPlexGetSupport
  {
    /** A vertex this process owns: marked by either ownership label. */
    predicate Owned(v: int) { v in core || v in nonCore }

    predicate IsCell(p: int) { cStart <= p < cEnd }

    predicate WellFormed() { vStart <= vEnd }
  }
}

/** The errors the setup and apply paths raise (SETERRQ). */
module PatchErrors {

  datatype Error =
    | CellNotNumbered       // "Cell doesn't appear in cell numbering map"
    | FacetDofNotInPatch    // "Didn't find facet dof in patch dof"
    | NoComputeOperator     // "Must call PCPatchSetComputeOperator() to set user callback"
    | PatchIndexOutOfRange  // "Asked for operator index is invalid"; also a section query outside its chart
    | EmptyPatch            // "Expecting positive number of patch cells"
    | BadPatchLength        // "Did not find correct length for localToPatch mapping"
    | PatchVectorNotCreated // PCPatchCreateMatrix reads a patch work vector that was never created

  datatype Result<+T> = Ok(value: T) | Err(error: Error)
}
