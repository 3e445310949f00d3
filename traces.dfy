/**
 * What the route-plotting script builds: a path whose first element is the
 * source address (a string) and whose other elements are (next hop, node id)
 * pairs, and the Python errors its parsing can raise.
 */
module Traces {
  datatype PathElem =
    | Source(addr: string)
    | Hop(next: string, node: int)

  /** An uncaught exception, or sys.exit with a status. */
  datatype PyError =
    | IndexError
    | ValueError
    | NameError
    | KeyError
    | ZeroDivisionError
    | Exit(status: int)

  /** The address an element stands for: the source itself, or a pair's next hop. */
  function AddrOf(e: PathElem): string
  {
    match e
    case Source(a) => a
    case Hop(n, _) => n
  }
}
