/** Listings of a keyed store: the API server's list call and a directory read. */
module Listing {

  /** Every key of the store once, in some order. */
  predicate Lists<V>(store: map<string, V>, order: seq<string>) {
    && (forall i | 0 <= i < |order| :: order[i] in store)
    && (forall i, j | 0 <= i < j < |order| :: order[i] != order[j])
    && (forall k | k in store :: k in order)
  }
}
