/**
 * public/contacts.js: the user search card and the friend-request button.
 * `lastUser` is the one piece of state, set by a search and read by a send.
 */
module ContactsPage {
  import opened Wrappers
  import opened Text
  import opened Avatar
  import opened Http
  import Pairs
  import Friends

  /** The user found by a search: id, user name, display name, photo path. */
  datatype User = User(id: int, userName: string, name: string, photo: string)

  /** What `renderSearch` draws for a found user. */
  datatype Card = Card(avatar: Image, userName: string, isMe: bool, buttonText: string, disabled: bool, sendsRequest: bool)

  /** `renderSearch`: the current user's own card shows a disabled "You" button with no handler. */
  function SearchCard(u: User, userId: int): (c: Card)
    ensures c.isMe <==> u.id == userId
    ensures c.isMe ==> c.buttonText == "You" && c.disabled && !c.sendsRequest
    ensures !c.isMe ==> c.buttonText == "Send request" && !c.disabled && c.sendsRequest
    ensures c.avatar == Photo(u.photo, u.userName)
  {
    var isMe := u.id == userId;
    Card(Photo(u.photo, u.userName), u.userName, isMe, if isMe then "You" else "Send request", isMe, !isMe)
  }

  /** The JSON body of POST /friends/request. */
  datatype RequestBody = RequestBody(fromUserId: int, toUserId: int)

  /**
   * A request sent from a card's button never names the same user twice, so
   * the server never answers it with "You cannot add yourself".
   */
  lemma CardNeverSendsToSelf(u: User, userId: int, friends: set<Pairs.Pair>, requests: Friends.Table, bound: int)
    requires SearchCard(u, userId).sendsRequest && userId != 0 && u.id != 0
    ensures Friends.SendVerdict(friends, requests, bound, userId, u.id).status != 400
  {
  }

  class Page {
    const userId: int
    /** The user of the last successful search, if any. */
    var lastUser: Option<User>
    var card: Option<Card>
    var status: string

    constructor (me: int)
      ensures userId == me && lastUser == None && card == None && status == ""
    {
      userId := me;
      lastUser := None;
      card := None;
      status := "";
    }

    /**
     * `searchUser`: forget the last result, then search for the trimmed input.
     * A blank input sends nothing.  `found` is the server's answer to the
     * query the method returns.
     */
    method SearchUser(input: string, found: Option<User>) returns (query: Option<string>)
      modifies this
      ensures query.None? <==> Blank(input)
      ensures query.Some? ==> query.value == Trim(input)
      ensures query.None? ==> lastUser == None && card == None && status == "Type a username."
      ensures query.Some? ==> lastUser == found && card == (if found.Some? then Some(SearchCard(found.value, userId)) else None)
      ensures query.Some? && found.None? ==> status == "User not found"
      ensures query.Some? && found.Some? ==> status == ""
    {
      var q := Trim(input);
      lastUser := None;
      card := None;
      status := "";
      if q == "" {
        status := "Type a username.";
        query := None;
        return;
      }
      query := Some(q);
      if found.None? {
        status := "User not found";
      } else {
        lastUser := found;
        card := Some(SearchCard(found.value, userId));
      }
    }

    /** `sendRequest`: nothing without a found user; otherwise a request from the current user to that user. */
    method SendRequest() returns (body: Option<RequestBody>)
      modifies this
      ensures body.None? <==> old(lastUser).None?
      ensures body.Some? ==> body.value == RequestBody(userId, old(lastUser).value.id) && status == "Sending..."
      ensures body.None? ==> status == old(status)
      ensures lastUser == old(lastUser) && card == old(card)
    {
      if lastUser.None? {
        body := None;
        return;
      }
      status := "Sending...";
      body := Some(RequestBody(userId, lastUser.value.id));
    }
  }
}
