/** The response a route handler sends: an HTTP status and the JSON `message`. */
module Http {
  datatype Response = Response(status: int, message: string)
}

/**
 * `orderedPair`, which friends.routes.js and messages.routes.js each define, and the
 * friendship lookup built on it (`checkFriends` / `ensureFriends`).
 */
module Pairs {
  /** A row of the `friends` table. */
  datatype Pair = Pair(user1: int, user2: int)

  /** The canonical key of the undirected edge between `a` and `b`: smaller id first. */
  function OrderedPair(a: int, b: int): (p: Pair)
    ensures p.user1 <= p.user2
    ensures (p.user1 == a && p.user2 == b) || (p.user1 == b && p.user2 == a)
  {
    if a < b then Pair(a, b) else Pair(b, a)
  }

  /** `checkFriends(a, b)` / `ensureFriends(a, b)`: the canonical pair is stored. */
  predicate AreFriends(friends: set<Pair>, a: int, b: int) {
    OrderedPair(a, b) in friends
  }

  /** The canonical pair does not depend on the argument order. */
  lemma OrderedPairSymmetric(a: int, b: int)
    ensures OrderedPair(a, b) == OrderedPair(b, a)
  {
  }

  /** Two calls give the same key exactly when they name the same two users. */
  lemma OrderedPairSameUsers(a: int, b: int, c: int, d: int)
    ensures OrderedPair(a, b) == OrderedPair(c, d) <==> (a == c && b == d) || (a == d && b == c)
  {
  }

  /** Friendship is symmetric, whichever user asks. */
  lemma AreFriendsSymmetric(friends: set<Pair>, a: int, b: int)
    ensures AreFriends(friends, a, b) == AreFriends(friends, b, a)
  {
    OrderedPairSymmetric(a, b);
  }
}
