/** Option and Result values used where the source returns `undefined` or throws. */
module Wrappers {

  datatype Option<+T> = None | Some(value: T)

  datatype Result<+T, +E> = Ok(value: T) | Err(error: E)

  /** The failures the core can raise. */
  datatype Error =
    | InvalidEdge             // a unit line built with a missing endpoint
    | EmptyGraph              // an Eulerian circuit built from no edges
    | UnresolvableOddVertex   // odd-degree repair found no odd neighbour
    | UnknownName             // a catalog lookup by a name that is not listed

}
