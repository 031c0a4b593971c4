/** Page numbers as the spiders take them from their callers. */
module Paging {

  /** A request below 1 asks for page 1. */
  function PageNumber(pg: int): (p: nat)
    ensures p >= 1 && (pg >= 1 ==> p == pg)
  {
    if pg < 1 then 1 else pg
  }
}
