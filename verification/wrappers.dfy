/** Result shapes shared by the catalog lookups. */
module Wrappers {

  /** A value that may be SQL `NULL` / PHP `null`. */
  datatype Option<+T> = None | Some(value: T)

  /** What an Eloquent relation declared `withDefault()` yields: the first
      matching row, or a fresh model with no attributes. */
  datatype Fetched<+T> = Found(row: T) | Blank

  function OrBlank<T>(o: Option<T>): (r: Fetched<T>)
    ensures r.Blank? <==> o.None?
    ensures o.Some? ==> r == Found(o.value)
  {
    match o
    case Some(v) => Found(v)
    case None => Blank
  }
}
