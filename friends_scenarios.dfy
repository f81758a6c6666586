/**
 * Request sequences against a fresh store, each stating the codes the
 * handlers return and, where it matters, the tables they leave behind.
 */
module FriendScenarios {
  import opened Http
  import opened Pairs
  import opened Friends

  /** Send, accept by the recipient, send again: the second send meets the friendship. */
  method AcceptThenResend() returns (sent: Response, accepted: Response, again: Response)
    ensures sent.status == 201 && accepted.status == 200
    ensures again == Response(409, "Already friends")
  {
    var s := new FriendStore();
    sent := s.SendRequest(1, 2);
    accepted := s.Accept(1, 2, false);
    assert AreFriends(s.friends, 1, 2) && AreFriends(s.friends, 2, 1);
    again := s.SendRequest(1, 2);
  }

  /** Send, cancel by the sender, send again: the same row (id 1) is reopened. */
  method CancelThenResend() returns (s: FriendStore, sent: Response, canceled: Response, again: Response)
    ensures sent.status == 201 && canceled.status == 200 && again.status == 201
    ensures s.requests == map[1 := Request(1, 2, Pending, false)]
  {
    s := new FriendStore();
    sent := s.SendRequest(1, 2);
    canceled := s.Cancel(1, 1);
    again := s.SendRequest(1, 2);
  }

  /** A reverse send while the first request is pending is a conflict; no second row appears. */
  method ReverseWhilePending() returns (s: FriendStore, sent: Response, reverse: Response)
    ensures sent.status == 201
    ensures reverse == Response(409, "A pending request already exists")
    ensures s.requests.Keys == {1}
  {
    s := new FriendStore();
    sent := s.SendRequest(1, 2);
    reverse := s.SendRequest(2, 1);
  }

  /** Accepting twice: the second answer is a conflict and the edge is stored once. */
  method AcceptTwice() returns (s: FriendStore, first: Response, second: Response)
    ensures first.status == 200
    ensures second == Response(409, "Request is not pending")
    ensures s.friends == {Pair(1, 2)}
  {
    s := new FriendStore();
    var sent := s.SendRequest(2, 1);
    first := s.Accept(1, 1, false);
    second := s.Accept(1, 1, false);
  }

  /** Only the recipient accepts or rejects and only the sender cancels. */
  method WrongActors() returns (acceptBySender: Response, rejectBySender: Response, cancelByRecipient: Response)
    ensures acceptBySender == Response(403, "Not allowed")
    ensures rejectBySender == Response(403, "Not allowed")
    ensures cancelByRecipient == Response(403, "Not allowed")
  {
    var s := new FriendStore();
    var sent := s.SendRequest(1, 2);
    acceptBySender := s.Accept(1, 1, false);
    rejectBySender := s.Reject(1, 1);
    cancelByRecipient := s.Cancel(1, 2);
  }

  /**
   * After an unfriend the latest request between the pair is still accepted,
   * so a new request is refused as "Already friends" although no edge exists.
   */
  method UnfriendThenResend() returns (s: FriendStore, removed: Response, again: Response)
    ensures removed.status == 200
    ensures !AreFriends(s.friends, 1, 2)
    ensures again == Response(409, "Already friends")
  {
    s := new FriendStore();
    var sent := s.SendRequest(1, 2);
    var accepted := s.Accept(1, 2, false);
    removed := s.Unfriend(2, 1);
    again := s.SendRequest(2, 1);
  }

  /** The edge insert failing after the status update leaves an accepted request with no edge. */
  method AcceptHalfDone() returns (s: FriendStore, res: Response)
    ensures res == Response(500, "Database error")
    ensures 1 in s.requests && s.requests[1].status == Accepted && s.friends == {}
  {
    s := new FriendStore();
    var sent := s.SendRequest(1, 2);
    res := s.Accept(1, 2, true);
  }

  /** A request each way, both rejected: row 1 is 1 → 2 and row 2 is 2 → 1. */
  method RejectedBothWays() returns (s: FriendStore)
    ensures fresh(s) && s.Valid()
    ensures s.friends == {} && s.nextId == 3
    ensures s.requests == map[1 := Request(1, 2, Rejected, true), 2 := Request(2, 1, Rejected, true)]
  {
    s := new FriendStore();
    var r := s.SendRequest(1, 2);
    assert s.requests == map[1 := Request(1, 2, Pending, false)] && s.nextId == 2;
    r := s.Reject(1, 2);
    assert s.requests == map[1 := Request(1, 2, Rejected, true)];
    r := s.SendRequest(2, 1);
    assert s.requests == map[1 := Request(1, 2, Rejected, true), 2 := Request(2, 1, Pending, false)] && s.nextId == 3;
    r := s.Reject(2, 1);
  }

  /**
   * The send handler looks only at the highest-id request between the pair.
   * With one row per direction, after both have been rejected and the older
   * one reopened, the newer (rejected) row hides it: the last send succeeds
   * and both directions are pending at once.
   */
  method StaleLatestRequest() returns (s: FriendStore, last: Response)
    ensures last == Response(201, "Request sent")
    ensures 1 in s.requests && 2 in s.requests
    ensures s.requests[1].status == Pending && s.requests[2].status == Pending
    ensures !AtMostOnePending(s.requests)
  {
    s := RejectedBothWays();
    var r := s.SendRequest(1, 2);   // row 1 reopened; row 2 is the latest
    assert s.requests == map[1 := Request(1, 2, Pending, false), 2 := Request(2, 1, Rejected, true)];
    last := s.SendRequest(2, 1);    // row 2 reopened as well
    assert s.requests == map[1 := Request(1, 2, Pending, false), 2 := Request(2, 1, Pending, false)];
  }

  /**
   * Unfriending does not block the pair for good: after both directions were
   * rejected, row 1 is reopened and accepted, but row 2 (rejected) stays the
   * latest, so a send after the unfriend succeeds and turns row 1 from
   * accepted back to pending.
   */
  method UnfriendAfterStaleAccept() returns (s: FriendStore, again: Response)
    ensures again == Response(201, "Request sent")
    ensures !AreFriends(s.friends, 1, 2)
    ensures 1 in s.requests && s.requests[1].status == Pending
  {
    s := RejectedBothWays();
    var r := s.SendRequest(1, 2);
    assert s.requests == map[1 := Request(1, 2, Pending, false), 2 := Request(2, 1, Rejected, true)];
    r := s.Accept(1, 2, false);
    assert s.requests == map[1 := Request(1, 2, Accepted, true), 2 := Request(2, 1, Rejected, true)];
    r := s.Unfriend(1, 2);
    again := s.SendRequest(1, 2);
  }

  /** The same last two sends through the guarded send: the second one is a conflict. */
  method StaleLatestRequestGuarded() returns (s: FriendStore, last: Response)
    ensures last.status == 409
    ensures AtMostOnePending(s.requests)
  {
    s := RejectedBothWays();
    var r := s.SendRequestGuarded(1, 2);
    assert s.requests == map[1 := Request(1, 2, Pending, false), 2 := Request(2, 1, Rejected, true)];
    assert s.requests[1].status == Pending && Between(s.requests[1], 2, 1);
    assert PendingBetween(s.requests, 2, 1, 2);
    last := s.SendRequestGuarded(2, 1);
  }
}
