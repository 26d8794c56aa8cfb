/** Whether two records can answer one client request. */
module Requests {

  /** Two printed references decide alone; otherwise two known vessels must agree. "" stands for one that is missing. */
  predicate MayBeOne(refA: string, vesselA: string, refB: string, vesselB: string) {
    if refA != "" && refB != "" then refA == refB
    else vesselA == "" || vesselB == "" || vesselA == vesselB
  }
}
