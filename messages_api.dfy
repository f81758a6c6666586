/**
 * The chat API of messages.routes.js: conversation reads gated by friendship,
 * message validation and insert, and the mark-read update.  The `messages`
 * table is a sequence in insertion order; a later row is a newer message.
 */
module MessagesApi {
  import opened Wrappers
  import opened Text
  import opened Http
  import opened Pairs
  import TextFacts

  /** A row of `messages`; `read` says whether `read_at` is set. */
  datatype Message = Message(id: int, sender: int, receiver: int, body: string, read: bool)

  const DefaultLimit := 50
  const MaxLimit := 200
  const MaxBody := 2000

  /** `Math.min(Number(limit || 50), 200)`: an absent parameter means 50. */
  function ConversationLimit(requested: Option<int>): (n: int)
    ensures var want := if requested.None? then DefaultLimit else requested.value;
      n <= want && n <= MaxLimit && (n == want || n == MaxLimit)
  {
    var want := if requested.None? then DefaultLimit else requested.value;
    if want < MaxLimit then want else MaxLimit
  }

  /** The message was sent from `a` to `b` or from `b` to `a`. */
  predicate Between(m: Message, a: int, b: int) {
    (m.sender == a && m.receiver == b) || (m.sender == b && m.receiver == a)
  }

  /** Ids grow along the table, as AUTO_INCREMENT hands them out. */
  predicate IdsIncreasing(ms: seq<Message>) {
    forall i, j :: 0 <= i < j < |ms| ==> ms[i].id < ms[j].id
  }

  /** The messages between `a` and `b`, oldest first. */
  function Thread(ms: seq<Message>, a: int, b: int): (t: seq<Message>)
    ensures forall m :: m in t <==> m in ms && Between(m, a, b)
    ensures IdsIncreasing(ms) ==> IdsIncreasing(t)
  {
    if ms == [] then []
    else
      var init := ms[..|ms| - 1];
      var rest := Thread(init, a, b);
      var last := ms[|ms| - 1];
      assert forall m :: m in ms <==> m in init || m == last;
      if Between(last, a, b) then
        assert IdsIncreasing(ms) ==> forall k :: 0 <= k < |rest| ==> rest[k].id < last.id by {
          if IdsIncreasing(ms) {
            forall k | 0 <= k < |rest| ensures rest[k].id < last.id {
              assert rest[k] in init;
            }
          }
        }
        rest + [last]
      else rest
  }

  /** Ids shrink along the sequence: newest first. */
  predicate IdsDecreasing(ms: seq<Message>) {
    forall i, j :: 0 <= i < j < |ms| ==> ms[i].id > ms[j].id
  }

  function Reverse(s: seq<Message>): (r: seq<Message>)
    ensures |r| == |s| && forall i :: 0 <= i < |s| ==> r[i] == s[|s| - 1 - i]
  {
    seq(|s|, i requires 0 <= i < |s| => s[|s| - 1 - i])
  }

  datatype Conversation = Rows(rows: seq<Message>) | Refused(response: Response)

  /**
   * GET /messages/conversation: 400 without both ids, 403 unless the two are
   * friends, otherwise the newest `limit` messages between them, newest first.
   * A negative limit makes the SQL `LIMIT` clause invalid and the query fails.
   */
  function ConversationOf(friends: set<Pair>, ms: seq<Message>, user: int, friend: int, limit: Option<int>): (c: Conversation)
    ensures c.Refused? ==> c.response.status in {400, 403, 500}
    ensures c.Refused? && c.response.status == 400 <==> user == 0 || friend == 0
    ensures c.Refused? && c.response.status == 403 <==> user != 0 && friend != 0 && !AreFriends(friends, user, friend)
    ensures c.Rows? ==> AreFriends(friends, user, friend) && ConversationLimit(limit) >= 0
    ensures c.Refused? && c.response.status == 500 <==>
      user != 0 && friend != 0 && AreFriends(friends, user, friend) && ConversationLimit(limit) < 0
    ensures user != 0 && friend != 0 && AreFriends(friends, user, friend) && ConversationLimit(limit) >= 0 ==>
      c == Rows(NewestPage(ms, user, friend, ConversationLimit(limit)))
  {
    if user == 0 || friend == 0 then Refused(Response(400, "user_id and friend_id are required"))
    else if !AreFriends(friends, user, friend) then Refused(Response(403, "You can only chat with friends"))
    else
      var n := ConversationLimit(limit);
      if n < 0 then Refused(Response(500, "Database error"))
      else Rows(NewestPage(ms, user, friend, n))
  }

  lemma ReverseDecreasing(t: seq<Message>)
    requires IdsIncreasing(t)
    ensures IdsDecreasing(Reverse(t))
  {
  }

  /** In a newest-first list, whatever lies past a prefix is older than all of the prefix. */
  lemma PastPrefixIsOlder(s: seq<Message>, k: int)
    requires IdsDecreasing(s) && 0 <= k <= |s|
    ensures IdsDecreasing(s[..k])
    ensures forall m, r :: m in s && m !in s[..k] && r in s[..k] ==> m.id < r.id
  {
    forall m, r | m in s && m !in s[..k] && r in s[..k] ensures m.id < r.id {
      var j :| 0 <= j < |s| && s[j] == m;
      var i :| 0 <= i < k && s[..k][i] == r;
      assert j >= k;
    }
  }

  /** The `n` newest messages between `a` and `b`, newest first (`ORDER BY ... DESC LIMIT n`). */
  function NewestPage(ms: seq<Message>, a: int, b: int, n: nat): (p: seq<Message>)
    ensures var t := Thread(ms, a, b); |p| == if n < |t| then n else |t|
    ensures forall i :: 0 <= i < |p| ==> Between(p[i], a, b)
  {
    var t := Thread(ms, a, b);
    var p := LastPage(t, n);
    assert forall i :: 0 <= i < |p| ==> p[i] in t;
    p
  }

  /** The last `n` entries of `t`, last first: as many as `LIMIT n` returns. */
  function LastPage(t: seq<Message>, n: nat): (p: seq<Message>)
    ensures |p| == if n < |t| then n else |t|
    ensures forall i :: 0 <= i < |p| ==> p[i] == t[|t| - 1 - i]
  {
    var newest := Reverse(t);
    if n < |newest| then newest[..n] else newest
  }

  lemma LastPageProperties(t: seq<Message>, n: nat)
    requires IdsIncreasing(t)
    ensures var p := LastPage(t, n);
      && |p| == (if n < |t| then n else |t|)
      && (forall m :: m in p ==> m in t)
      && IdsDecreasing(p)
      && (forall m, r :: m in t && m !in p && r in p ==> m.id < r.id)
  {
    var newest := Reverse(t);
    var k := if n < |newest| then n else |newest|;
    var p := newest[..k];
    assert LastPage(t, n) == p;
    ReverseDecreasing(t);
    PastPrefixIsOlder(newest, k);
    ReverseSameElements(t);
    forall m | m in p ensures m in newest {
      var i :| 0 <= i < k && p[i] == m;
      assert newest[i] == m;
    }
  }

  /** Reversing keeps exactly the same messages. */
  lemma ReverseSameElements(t: seq<Message>)
    ensures forall m :: m in Reverse(t) <==> m in t
  {
    var r := Reverse(t);
    forall m | m in t ensures m in r {
      var j :| 0 <= j < |t| && t[j] == m;
      assert r[|t| - 1 - j] == m;
    }
    forall m | m in r ensures m in t {
      var i :| 0 <= i < |r| && r[i] == m;
      assert t[|t| - 1 - i] == m;
    }
  }

  /**
   * A conversation holds only messages between the two users, `limit` of them
   * (never more than 200) or the whole thread when it is shorter, newest
   * first, and every message it leaves out is older than every message it
   * returns.
   */
  lemma ConversationIsNewestPage(friends: set<Pair>, ms: seq<Message>, user: int, friend: int, limit: Option<int>)
    requires IdsIncreasing(ms)
    ensures var c := ConversationOf(friends, ms, user, friend, limit);
      c.Rows? ==>
        && ConversationLimit(limit) <= MaxLimit
        && |c.rows| == (var n, t := ConversationLimit(limit), Thread(ms, user, friend); if n < |t| then n else |t|)
        && (forall m :: m in c.rows ==> m in ms && Between(m, user, friend))
        && IdsDecreasing(c.rows)
        && (forall m, r :: m in Thread(ms, user, friend) && m !in c.rows && r in c.rows ==> m.id < r.id)
  {
    var c := ConversationOf(friends, ms, user, friend, limit);
    if c.Rows? {
      LastPageProperties(Thread(ms, user, friend), ConversationLimit(limit));
    }
  }

  /** Ask for 0 messages and you get none; ask for more than 200 and you get at most 200. */
  lemma ConversationLimitEdges(v: int)
    ensures ConversationLimit(Some(0)) == 0
    ensures v > MaxLimit ==> ConversationLimit(Some(v)) == MaxLimit
    ensures ConversationLimit(None) == DefaultLimit
  {
  }

  /**
   * The checks of POST /messages that need no database, in order: all three
   * fields present (an empty body is absent), then the trimmed body non-empty
   * and at most 2000 characters.  `None` lets the request through.
   */
  function ValidateMessage(sender: int, receiver: int, body: string): (err: Option<Response>)
    ensures err.None? <==> sender != 0 && receiver != 0 && !Blank(body) && |Trim(body)| <= MaxBody
    ensures err.Some? ==> err.value.status == 400
  {
    if sender == 0 || receiver == 0 || body == "" then Some(Response(400, "sender_id, receiver_id and body are required"))
    else if Trim(body) == "" then Some(Response(400, "Message body is empty"))
    else if |Trim(body)| > MaxBody then Some(Response(400, "Message too long"))
    else None
  }

  datatype Sent = Created(message: Message) | Rejected(response: Response)

  /** The rows `POST /messages/read` touches: from `friend` to `user`, not yet read. */
  predicate Unread(m: Message, user: int, friend: int) {
    m.receiver == user && m.sender == friend && !m.read
  }

  /** The table after the mark-read UPDATE. */
  function MarkedRead(ms: seq<Message>, user: int, friend: int): (r: seq<Message>)
    ensures |r| == |ms|
    ensures forall i :: 0 <= i < |ms| ==> r[i] == if Unread(ms[i], user, friend) then ms[i].(read := true) else ms[i]
  {
    if ms == [] then []
    else
      var m := ms[|ms| - 1];
      MarkedRead(ms[..|ms| - 1], user, friend) + [if Unread(m, user, friend) then m.(read := true) else m]
  }

  /** `affectedRows` of the mark-read UPDATE. */
  function UnreadCount(ms: seq<Message>, user: int, friend: int): (n: nat)
    ensures n <= |ms|
    ensures n == 0 <==> forall i :: 0 <= i < |ms| ==> !Unread(ms[i], user, friend)
  {
    if ms == [] then 0
    else UnreadCount(ms[..|ms| - 1], user, friend) + (if Unread(ms[|ms| - 1], user, friend) then 1 else 0)
  }

  /** Marking as read twice is marking once; a repeat finds nothing to update. */
  lemma MarkReadIdempotent(ms: seq<Message>, user: int, friend: int)
    ensures MarkedRead(MarkedRead(ms, user, friend), user, friend) == MarkedRead(ms, user, friend)
    ensures UnreadCount(MarkedRead(ms, user, friend), user, friend) == 0
  {
  }

  /** Mark-read changes exactly the counted rows, and only their `read` flag. */
  lemma MarkReadChangesOnlyUnread(ms: seq<Message>, user: int, friend: int, i: int)
    requires 0 <= i < |ms|
    ensures MarkedRead(ms, user, friend)[i] != ms[i] <==> Unread(ms[i], user, friend)
    ensures MarkedRead(ms, user, friend)[i].(read := ms[i].read) == ms[i]
  {
  }

  /** Mark-read keeps every id in place. */
  lemma MarkedReadKeepsIds(ms: seq<Message>, user: int, friend: int)
    ensures forall i :: 0 <= i < |ms| ==> MarkedRead(ms, user, friend)[i].id == ms[i].id
  {
  }

  /** The UPDATE row by row: each unread message from `friend` to `user` marked, and counted. */
  method MarkEach(ms: seq<Message>, user: int, friend: int) returns (next: seq<Message>, updated: nat)
    ensures next == MarkedRead(ms, user, friend)
    ensures updated == UnreadCount(ms, user, friend)
  {
    next, updated := [], 0;
    for i := 0 to |ms|
      invariant next == MarkedRead(ms[..i], user, friend)
      invariant updated == UnreadCount(ms[..i], user, friend)
    {
      var m := ms[i];
      assert ms[..i + 1][..i] == ms[..i];
      if Unread(m, user, friend) {
        next := next + [m.(read := true)];
        updated := updated + 1;
      } else {
        next := next + [m];
      }
    }
    assert ms[..|ms|] == ms;
  }

  /** A message whose id is above every stored id can go last, and the ids keep growing. */
  lemma AppendKeepsIds(ms: seq<Message>, m: Message)
    requires IdsIncreasing(ms) && forall i :: 0 <= i < |ms| ==> ms[i].id < m.id
    ensures IdsIncreasing(ms + [m])
    ensures forall i :: 0 <= i < |ms| ==> (ms + [m])[i] == ms[i]
  {
    var stored := ms + [m];
    forall i, j | 0 <= i < j < |stored| ensures stored[i].id < stored[j].id {
      assert stored[i] == ms[i];
    }
  }

  class MessageStore {
    /** The `messages` table in insertion order. */
    var messages: seq<Message>
    /** The next AUTO_INCREMENT value of `messages`. */
    var nextId: int

    ghost predicate Valid()
      reads this
    {
      1 <= nextId && IdsIncreasing(messages) && forall i :: 0 <= i < |messages| ==> 1 <= messages[i].id < nextId
    }

    constructor ()
      ensures Valid() && messages == [] && nextId == 1
    {
      messages := [];
      nextId := 1;
    }

    /**
     * POST /messages: validation, then friendship, then the insert, which
     * stores and echoes the trimmed body.
     */
    method Send(friends: set<Pair>, sender: int, receiver: int, body: string) returns (res: Sent)
      requires Valid()
      modifies this
      ensures Valid()
      ensures var err := ValidateMessage(sender, receiver, body);
        if err.Some? then res == Rejected(err.value) && messages == old(messages) && nextId == old(nextId)
        else if !AreFriends(friends, sender, receiver) then
          res == Rejected(Response(403, "You can only message friends")) && messages == old(messages) && nextId == old(nextId)
        else
          && res == Created(Message(old(nextId), sender, receiver, Trim(body), false))
          && messages == old(messages) + [res.message] && nextId == old(nextId) + 1
    {
      var err := ValidateMessage(sender, receiver, body);
      if err.Some? {
        res := Rejected(err.value);
      } else if !AreFriends(friends, sender, receiver) {
        res := Rejected(Response(403, "You can only message friends"));
      } else {
        var text := Trim(body);
        var m := Message(nextId, sender, receiver, text, false);
        AppendKeepsIds(messages, m);
        messages, nextId := messages + [m], nextId + 1;
        res := Created(m);
      }
    }

    /**
     * POST /messages/read: 400 without both ids, 403 unless friends, otherwise
     * every unread message from `friend` to `user` is marked read and the
     * number of rows changed is returned.
     */
    method MarkRead(friends: set<Pair>, user: int, friend: int) returns (res: Response, updated: int)
      requires Valid()
      modifies this
      ensures Valid()
      ensures nextId == old(nextId)
      ensures user == 0 || friend == 0 ==>
        res == Response(400, "user_id and friend_id are required") && messages == old(messages)
      ensures user != 0 && friend != 0 && !AreFriends(friends, user, friend) ==>
        res == Response(403, "Not friends") && messages == old(messages)
      ensures user != 0 && friend != 0 && AreFriends(friends, user, friend) ==>
        && res == Response(200, "Marked as read")
        && messages == MarkedRead(old(messages), user, friend)
        && updated == UnreadCount(old(messages), user, friend)
    {
      updated := 0;
      if user == 0 || friend == 0 {
        res := Response(400, "user_id and friend_id are required");
        return;
      }
      if !AreFriends(friends, user, friend) {
        res := Response(403, "Not friends");
        return;
      }
      var next, count := MarkEach(messages, user, friend);
      MarkedReadKeepsIds(messages, user, friend);
      messages, updated := next, count;
      res := Response(200, "Marked as read");
    }
  }

  /** Whatever a store returns as created is stored last and has the trimmed, valid body. */
  lemma CreatedBodyValid(sender: int, receiver: int, body: string)
    requires ValidateMessage(sender, receiver, body).None?
    ensures 0 < |Trim(body)| <= MaxBody
    ensures Trim(Trim(body)) == Trim(body)
  {
    TextFacts.TrimIdempotent(body);
  }
}
