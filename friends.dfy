/**
 * The friend-request lifecycle of friends.routes.js: the `friend_requests` and
 * `friends` tables as fields of a store, one method per route handler, and the
 * read-only queries as functions of the tables.
 */
module Friends {
  import opened Wrappers
  import opened Http
  import opened Pairs

  datatype Status = Pending | Accepted | Rejected | Canceled

  /**
   * A row of `friend_requests`.  Of the two timestamps only what the handlers
   * decide is kept: `responded` says whether `responded_at` is set.
   */
  datatype Request = Request(from: int, to: int, status: Status, responded: bool)

  /** `friend_requests`, keyed by its AUTO_INCREMENT id. */
  type Table = map<int, Request>

  /** Who may answer a request: its recipient (accept, reject) or its sender (cancel). */
  datatype Role = Recipient | Sender

  /** A row links `a` and `b`, in either direction. */
  predicate Between(r: Request, a: int, b: int) {
    (r.from == a && r.to == b) || (r.from == b && r.to == a)
  }

  /** Two rows share the UNIQUE key (from_user_id, to_user_id). */
  predicate SameDirection(r: Request, s: Request) {
    r.from == s.from && r.to == s.to
  }

  /**
   * A row as the handlers leave it: both ids present and distinct, and
   * `responded_at` set exactly when the request has been answered.
   */
  predicate WellFormed(r: Request) {
    r.from != 0 && r.to != 0 && r.from != r.to && (r.status == Pending <==> !r.responded)
  }

  /**
   * The request consulted by the send handler: among the rows with id below
   * `bound` that link `a` and `b`, the one with the highest id
   * (`ORDER BY id DESC LIMIT 1`).
   */
  function LatestBetween(requests: Table, a: int, b: int, bound: int): (r: Option<int>)
    ensures r.Some? ==> 0 <= r.value < bound && r.value in requests && Between(requests[r.value], a, b)
    ensures forall id :: 0 <= id < bound && id in requests && Between(requests[id], a, b) ==> r.Some? && id <= r.value
    decreases bound
  {
    if bound <= 0 then None
    else if bound - 1 in requests && Between(requests[bound - 1], a, b) then Some(bound - 1)
    else LatestBetween(requests, a, b, bound - 1)
  }

  /** The row, with id below `bound`, that holds the exact direction `from` → `to`. */
  function RowFor(requests: Table, from: int, to: int, bound: int): (r: Option<int>)
    ensures r.Some? ==> 0 <= r.value < bound && r.value in requests
                        && requests[r.value].from == from && requests[r.value].to == to
    ensures r.None? ==> forall id :: 0 <= id < bound && id in requests ==> !(requests[id].from == from && requests[id].to == to)
    decreases bound
  {
    if bound <= 0 then None
    else if bound - 1 in requests && requests[bound - 1].from == from && requests[bound - 1].to == to then Some(bound - 1)
    else RowFor(requests, from, to, bound - 1)
  }

  /** The id the upsert writes: the existing row for `from` → `to`, else the next id. */
  function UpsertSlot(requests: Table, nextId: int, from: int, to: int): (id: int)
    ensures id == nextId || (id in requests && requests[id].from == from && requests[id].to == to)
  {
    match RowFor(requests, from, to, nextId)
    case Some(id) => id
    case None => nextId
  }

  /**
   * `INSERT ... ON DUPLICATE KEY UPDATE` on the UNIQUE key (from, to): the row
   * for that direction is reset to pending with `responded_at` cleared, or a
   * new row takes the next id.
   */
  function Upsert(requests: Table, nextId: int, from: int, to: int): (res: (Table, int))
    ensures var slot := UpsertSlot(requests, nextId, from, to);
      && slot in res.0 && res.0[slot] == Request(from, to, Pending, false)
      && (forall id :: id in requests && id != slot ==> id in res.0 && res.0[id] == requests[id])
    ensures RowFor(requests, from, to, nextId).Some? ==> res.0.Keys == requests.Keys && res.1 == nextId
    ensures RowFor(requests, from, to, nextId).None? ==> res.0.Keys == requests.Keys + {nextId} && res.1 == nextId + 1
  {
    var id := UpsertSlot(requests, nextId, from, to);
    (requests[id := Request(from, to, Pending, false)], if id == nextId then nextId + 1 else nextId)
  }

  /**
   * The answer of POST /friends/request, in the order the handler checks:
   * missing ids, self-request, existing friendship, then the latest request
   * between the two users in either direction.
   */
  function SendVerdict(friends: set<Pair>, requests: Table, bound: int, from: int, to: int): (res: Response)
    ensures res.status in {201, 400, 409}
    ensures res.status == 400 <==> from == 0 || to == 0 || from == to
    ensures from != 0 && to != 0 && from != to && AreFriends(friends, from, to) ==> res == Response(409, "Already friends")
    ensures var l := LatestBetween(requests, from, to, bound);
      res.status == 201 <==>
        from != 0 && to != 0 && from != to && !AreFriends(friends, from, to)
        && (l.Some? ==> requests[l.value].status == Rejected || requests[l.value].status == Canceled)
    ensures var l := LatestBetween(requests, from, to, bound);
      res.status == 409 && l.Some? && requests[l.value].status == Pending && !AreFriends(friends, from, to) ==>
        res.message == "A pending request already exists"
    ensures var l := LatestBetween(requests, from, to, bound);
      from != 0 && to != 0 && from != to && l.Some? && requests[l.value].status == Accepted ==>
        res == Response(409, "Already friends")
  {
    if from == 0 || to == 0 then Response(400, "from_user_id and to_user_id are required")
    else if from == to then Response(400, "You cannot add yourself")
    else if AreFriends(friends, from, to) then Response(409, "Already friends")
    else match LatestBetween(requests, from, to, bound)
      case Some(id) =>
        if requests[id].status == Pending then Response(409, "A pending request already exists")
        else if requests[id].status == Accepted then Response(409, "Already friends")
        else Response(201, "Request sent")
      case None => Response(201, "Request sent")
  }

  /**
   * The checks shared by accept, reject and cancel, in the handlers' order:
   * missing acting user, unknown id, not pending, then authority.  Status 200
   * means the transition may go ahead.
   */
  function AnswerVerdict(requests: Table, id: int, user: int, role: Role): (res: Response)
    ensures res.status in {200, 400, 403, 404, 409}
    ensures res.status == 400 <==> user == 0
    ensures res.status == 404 <==> user != 0 && id !in requests
    ensures res.status == 409 <==> user != 0 && id in requests && requests[id].status != Pending
    ensures res.status == 200 <==> user != 0 && id in requests && requests[id].status == Pending
                                   && user == (if role == Recipient then requests[id].to else requests[id].from)
  {
    if user == 0 then Response(400, "user_id is required")
    else if id !in requests then Response(404, "Request not found")
    else if requests[id].status != Pending then Response(409, "Request is not pending")
    else if user != (if role == Recipient then requests[id].to else requests[id].from) then Response(403, "Not allowed")
    else Response(200, "")
  }

  /** The row `id` after a successful answer: the new status, `responded_at` stamped. */
  function Answered(requests: Table, id: int, status: Status): (t: Table)
    requires id in requests
    ensures t.Keys == requests.Keys
    ensures SameDirection(t[id], requests[id]) && t[id].status == status && t[id].responded
    ensures forall j :: j in requests && j != id ==> t[j] == requests[j]
  {
    requests[id := requests[id].(status := status, responded := true)]
  }

  /** GET /friends/requests/incoming/:user_id: the pending requests addressed to `user`. */
  function Incoming(requests: Table, user: int): set<int> {
    set id | id in requests && requests[id].to == user && requests[id].status == Pending
  }

  /** GET /friends/requests/outgoing/:user_id: the pending requests sent by `user`. */
  function Outgoing(requests: Table, user: int): set<int> {
    set id | id in requests && requests[id].from == user && requests[id].status == Pending
  }

  /** GET /friends/list/:user_id: the other end of every edge that touches `user`. */
  function FriendsOf(friends: set<Pair>, user: int): (r: set<int>)
    ensures Canonical(friends) ==> user !in r
  {
    set p | p in friends && (p.user1 == user || p.user2 == user) :: if p.user1 == user then p.user2 else p.user1
  }

  /** The friends table keeps every edge as (smaller id, larger id). */
  predicate Canonical(friends: set<Pair>) {
    forall p :: p in friends ==> p.user1 < p.user2
  }

  /** The friend list of `user` holds exactly the users `checkFriends` accepts, never `user`. */
  lemma FriendsOfMatchesCheck(friends: set<Pair>, user: int, other: int)
    requires Canonical(friends)
    ensures other in FriendsOf(friends, user) <==> AreFriends(friends, user, other)
    ensures user !in FriendsOf(friends, user)
  {
    var p := OrderedPair(user, other);
    if AreFriends(friends, user, other) {
      assert p in friends && (p.user1 == user || p.user2 == user);
      assert other == (if p.user1 == user then p.user2 else p.user1);
    }
    if other in FriendsOf(friends, user) {
      var q :| q in friends && (q.user1 == user || q.user2 == user)
               && other == (if q.user1 == user then q.user2 else q.user1);
      assert q == p;
    }
  }

  /** Friend lists are mutual. */
  lemma FriendsOfSymmetric(friends: set<Pair>, a: int, b: int)
    requires Canonical(friends)
    ensures b in FriendsOf(friends, a) <==> a in FriendsOf(friends, b)
  {
    FriendsOfMatchesCheck(friends, a, b);
    FriendsOfMatchesCheck(friends, b, a);
    AreFriendsSymmetric(friends, a, b);
  }

  /** With no self-requests, no request is both incoming and outgoing for the same user. */
  lemma IncomingOutgoingDisjoint(requests: Table, user: int)
    requires forall id :: id in requests ==> WellFormed(requests[id])
    ensures Incoming(requests, user) !! Outgoing(requests, user)
    ensures forall id :: id in Incoming(requests, user) ==> requests[id].from != user
  {
    forall id | id in Incoming(requests, user)
      ensures id !in Outgoing(requests, user)
    {
      assert WellFormed(requests[id]);
    }
  }

  /** A request the send handler opens is listed as incoming for its recipient and outgoing for its sender. */
  lemma SentRequestIsListed(requests: Table, nextId: int, from: int, to: int)
    ensures var slot := UpsertSlot(requests, nextId, from, to);
      slot in Incoming(Upsert(requests, nextId, from, to).0, to)
      && slot in Outgoing(Upsert(requests, nextId, from, to).0, from)
  {
  }

  /**
   * An answered request leaves both lists of every user, and every other
   * request stays listed exactly where it was.
   */
  lemma AnsweredIsUnlisted(requests: Table, id: int, status: Status, user: int)
    requires id in requests && status != Pending
    ensures id !in Incoming(Answered(requests, id, status), user)
    ensures id !in Outgoing(Answered(requests, id, status), user)
    ensures Incoming(Answered(requests, id, status), user) == Incoming(requests, user) - {id}
    ensures Outgoing(Answered(requests, id, status), user) == Outgoing(requests, user) - {id}
  {
  }

  /** At most one pending request links any two users, whatever its direction. */
  predicate AtMostOnePending(requests: Table) {
    forall i, j ::
      (i in requests && j in requests && requests[i].status == Pending && requests[j].status == Pending
       && Between(requests[i], requests[j].from, requests[j].to)) ==> i == j
  }

  /** Answering a request never creates a second pending one. */
  lemma AnswerKeepsOnePending(requests: Table, id: int, status: Status)
    requires id in requests && AtMostOnePending(requests) && status != Pending
    ensures AtMostOnePending(Answered(requests, id, status))
  {
  }

  class FriendStore {
    /** The `friends` table. */
    var friends: set<Pair>
    /** The `friend_requests` table. */
    var requests: Table
    /** The next AUTO_INCREMENT value of `friend_requests`. */
    var nextId: int

    /**
     * The structural invariants the handlers keep: canonical edges, well-formed
     * rows with ids below the counter, and one row per ordered pair.
     */
    ghost predicate Valid()
      reads this
    {
      && 1 <= nextId
      && Canonical(friends)
      && (forall id :: id in requests ==> 1 <= id < nextId && WellFormed(requests[id]))
      && (forall i, j :: i in requests && j in requests && SameDirection(requests[i], requests[j]) ==> i == j)
    }

    constructor ()
      ensures Valid()
      ensures friends == {} && requests == map[] && nextId == 1
    {
      friends := {};
      requests := map[];
      nextId := 1;
    }

    /**
     * POST /friends/request.  On success the row for the exact direction
     * `from` → `to` is created, or reset to pending with `responded_at` cleared
     * (`INSERT ... ON DUPLICATE KEY UPDATE`), keeping its id.
     */
    method SendRequest(from: int, to: int) returns (res: Response)
      requires Valid()
      modifies this
      ensures Valid()
      ensures res == SendVerdict(old(friends), old(requests), old(nextId), from, to)
      ensures friends == old(friends)
      ensures res.status != 201 ==> requests == old(requests) && nextId == old(nextId)
      ensures res.status == 201 ==> (requests, nextId) == Upsert(old(requests), old(nextId), from, to)
    {
      res := SendVerdict(friends, requests, nextId, from, to);
      if res.status == 201 {
        var row := Request(from, to, Pending, false);
        match RowFor(requests, from, to, nextId)
        case Some(id) =>
          requests := requests[id := row];
        case None =>
          requests := requests[nextId := row];
          nextId := nextId + 1;
      }
    }

    /**
     * POST /friends/request as evidently intended: a pending request in either
     * direction blocks a new one, not only when it has the highest id.
     */
    method SendRequestGuarded(from: int, to: int) returns (res: Response)
      requires Valid()
      modifies this
      ensures Valid()
      ensures AtMostOnePending(old(requests)) ==> AtMostOnePending(requests)
      ensures friends == old(friends)
      ensures var v := SendVerdict(old(friends), old(requests), old(nextId), from, to);
        res == if v.status == 201 && PendingBetween(old(requests), from, to, old(nextId))
               then Response(409, "A pending request already exists") else v
      ensures res.status == 201 ==> forall id :: id in old(requests) && Between(old(requests)[id], from, to) ==> old(requests)[id].status != Pending
      ensures res.status != 201 ==> requests == old(requests) && nextId == old(nextId)
      ensures res.status == 201 ==> (requests, nextId) == Upsert(old(requests), old(nextId), from, to)
    {
      var verdict := SendVerdict(friends, requests, nextId, from, to);
      if verdict.status == 201 && PendingBetween(requests, from, to, nextId) {
        res := Response(409, "A pending request already exists");
      } else {
        PendingBetweenComplete(requests, from, to, nextId);
        ghost var before := requests;
        ghost var slot := UpsertSlot(requests, nextId, from, to);
        res := SendRequest(from, to);
        if res.status == 201 && AtMostOnePending(before) {
          OpenRequestKeepsOnePending(before, slot, from, to);
        }
      }
    }

    /** POST /friends/requests/:id/accept.  The status update and the edge insert are two writes. */
    method Accept(id: int, user: int, edgeInsertFails: bool) returns (res: Response)
      requires Valid()
      modifies this
      ensures Valid()
      ensures nextId == old(nextId)
      ensures var v := AnswerVerdict(old(requests), id, user, Recipient);
        if v.status != 200 then
          res == v && requests == old(requests) && friends == old(friends)
        else
          && requests == Answered(old(requests), id, Accepted)
          && (edgeInsertFails ==> res == Response(500, "Database error") && friends == old(friends))
          && (!edgeInsertFails ==>
                res == Response(200, "Friend request accepted")
                && friends == old(friends) + {OrderedPair(old(requests)[id].from, old(requests)[id].to)})
    {
      res := AnswerVerdict(requests, id, user, Recipient);
      if res.status == 200 {
        var row := requests[id];
        requests := Answered(requests, id, Accepted);
        if edgeInsertFails {
          res := Response(500, "Database error");
        } else {
          friends := friends + {OrderedPair(row.from, row.to)};
          res := Response(200, "Friend request accepted");
        }
      }
    }

    /** POST /friends/requests/:id/reject. */
    method Reject(id: int, user: int) returns (res: Response)
      requires Valid()
      modifies this
      ensures Valid()
      ensures friends == old(friends) && nextId == old(nextId)
      ensures var v := AnswerVerdict(old(requests), id, user, Recipient);
        if v.status != 200 then res == v && requests == old(requests)
        else res == Response(200, "Friend request rejected") && requests == Answered(old(requests), id, Rejected)
    {
      res := AnswerVerdict(requests, id, user, Recipient);
      if res.status == 200 {
        requests := Answered(requests, id, Rejected);
        res := Response(200, "Friend request rejected");
      }
    }

    /** POST /friends/requests/:id/cancel: only the sender may cancel. */
    method Cancel(id: int, user: int) returns (res: Response)
      requires Valid()
      modifies this
      ensures Valid()
      ensures friends == old(friends) && nextId == old(nextId)
      ensures var v := AnswerVerdict(old(requests), id, user, Sender);
        if v.status != 200 then res == v && requests == old(requests)
        else res == Response(200, "Friend request canceled") && requests == Answered(old(requests), id, Canceled)
    {
      res := AnswerVerdict(requests, id, user, Sender);
      if res.status == 200 {
        requests := Answered(requests, id, Canceled);
        res := Response(200, "Friend request canceled");
      }
    }

    /** DELETE /friends/:user_id/:friend_id: removes the canonical pair; request rows stay. */
    method Unfriend(user: int, friend: int) returns (res: Response)
      requires Valid()
      modifies this
      ensures Valid()
      ensures friends == old(friends) - {OrderedPair(user, friend)}
      ensures requests == old(requests) && nextId == old(nextId)
      ensures res.status == (if AreFriends(old(friends), user, friend) then 200 else 404)
    {
      var p := OrderedPair(user, friend);
      if p in friends {
        friends := friends - {p};
        res := Response(200, "Friend removed");
      } else {
        res := Response(404, "Friendship not found");
      }
    }
  }

  /** Some row with id below `bound` links `a` and `b` and is still pending. */
  predicate PendingBetween(requests: Table, a: int, b: int, bound: int)
    decreases bound
  {
    if bound <= 0 then false
    else (bound - 1 in requests && Between(requests[bound - 1], a, b) && requests[bound - 1].status == Pending)
         || PendingBetween(requests, a, b, bound - 1)
  }

  /** `PendingBetween` finds every pending row between the two users below its bound. */
  lemma {:induction false} PendingBetweenComplete(requests: Table, a: int, b: int, bound: int)
    ensures !PendingBetween(requests, a, b, bound) ==>
      forall id :: 0 <= id < bound && id in requests && Between(requests[id], a, b) ==> requests[id].status != Pending
    decreases bound
  {
    if bound > 0 {
      PendingBetweenComplete(requests, a, b, bound - 1);
    }
  }

  /**
   * Writing a fresh pending `from` → `to` row (new or reset) keeps at most one
   * pending request per pair, provided no other row between the two is pending.
   */
  lemma OpenRequestKeepsOnePending(requests: Table, slot: int, from: int, to: int)
    requires AtMostOnePending(requests)
    requires forall id :: id in requests && Between(requests[id], from, to) ==> requests[id].status != Pending
    ensures AtMostOnePending(requests[slot := Request(from, to, Pending, false)])
  {
    var t := requests[slot := Request(from, to, Pending, false)];
    forall i, j | i in t && j in t && t[i].status == Pending && t[j].status == Pending
      && Between(t[i], t[j].from, t[j].to)
      ensures i == j
    {
      if i != slot && j != slot {
        assert t[i] == requests[i] && t[j] == requests[j];
      }
    }
  }
}
