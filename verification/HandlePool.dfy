/** The few statement handles a client keeps for reuse instead of dropping them. */
module HandlePool {
  const MAX_FREE_HANDLES := 8

  /** A prepare takes the handle put in last. */
  function Popped(pool: seq<int>): seq<int> {
    if pool == [] then [] else pool[..|pool| - 1]
  }

  /** A full pool lets the handle go. */
  function Pushed(pool: seq<int>, h: int): seq<int> {
    if |pool| < MAX_FREE_HANDLES then pool + [h] else pool
  }

  /** The pool is small, holds nothing twice, and nothing that somebody is using. */
  ghost predicate Apart(pool: seq<int>, used: set<int>) {
    && |pool| <= MAX_FREE_HANDLES
    && (forall i, j :: 0 <= i < j < |pool| ==> pool[i] != pool[j])
    && (forall i :: 0 <= i < |pool| ==> pool[i] !in used)
  }
}
