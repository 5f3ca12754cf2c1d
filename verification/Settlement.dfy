/** The acknowledge rule every one-way binding settles messages by (envelope/settlement.go). */
module Settlements {

  datatype Delivery = BindingDefault | AtLeastOnce | AtMostOnce

  datatype Settlement = Settlement(delivery: Delivery, ignoreUnmatchedTopics: bool)

  const ZERO := Settlement(BindingDefault, false)

  /** How a dispatch ended: the pipeline's success, and whether no handler serves the topic. */
  datatype Dispatched = Dispatched(successful: bool, unmatched: bool)

  predicate Acknowledges(s: Settlement, d: Dispatched) {
    d.successful || s.delivery == AtMostOnce || (s.ignoreUnmatchedTopics && d.unmatched)
  }

  /** What the binding's contract says: a message may be forgotten when it succeeded, when it is delivered at most
      once, or when its topic is unmatched and such are to be ignored - and not otherwise. */
  predicate MayForget(s: Settlement, d: Dispatched) {
    match s.delivery
    case AtMostOnce => true
    case _ => d.successful || (d.unmatched && s.ignoreUnmatchedTopics)
  }
}
