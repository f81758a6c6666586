/**
 * public/messages.js: the chat page.  Its module state (the friend list, the
 * selected friend, the polling timer) is reassigned by its handlers; the
 * contact filter, the bubble list and the guards on send and mark-read are
 * functions of that state.
 */
module ChatPage {
  import opened Wrappers
  import opened Text
  import opened Seqs
  import opened Html
  import opened Avatar
  import MessagesApi
  import Pairs
  import TextFacts

  /** An entry of GET /friends/list. */
  datatype Friend = Friend(id: int, userName: string, name: string, photo: string)

  /** The contact box's query: trimmed and lower-cased. */
  function ContactQuery(input: string): string {
    Lower(Trim(input))
  }

  /** The friend's `user_name` or `name`, lower-cased, contains the query. */
  predicate MatchesContact(q: string, f: Friend) {
    Contains(Lower(f.userName), q) || Contains(Lower(f.name), q)
  }

  function FilterContacts(friends: seq<Friend>, q: string): (r: seq<Friend>)
    ensures |r| <= |friends|
  {
    if friends == [] then []
    else
      var init := friends[..|friends| - 1];
      var last := friends[|friends| - 1];
      if MatchesContact(q, last) then FilterContacts(init, q) + [last] else FilterContacts(init, q)
  }

  lemma {:induction false} FilterContactsMembers(friends: seq<Friend>, q: string)
    ensures forall f :: f in FilterContacts(friends, q) <==> f in friends && MatchesContact(q, f)
  {
    if friends != [] {
      var init := friends[..|friends| - 1];
      FilterContactsMembers(init, q);
      assert forall f :: f in friends <==> f in init || f == friends[|friends| - 1];
    }
  }

  /** `applyContactFilter`: every friend for a blank query, otherwise the matching ones. */
  function VisibleContacts(friends: seq<Friend>, input: string): (r: seq<Friend>)
    ensures |r| <= |friends|
  {
    var q := ContactQuery(input);
    if q == "" then friends else FilterContacts(friends, q)
  }

  /** A blank box lists every friend; otherwise exactly the friends whose name or user name contains the query. */
  lemma VisibleContactsMembers(friends: seq<Friend>, input: string)
    ensures Blank(input) ==> VisibleContacts(friends, input) == friends
    ensures forall f :: f in VisibleContacts(friends, input) <==>
      f in friends && (Blank(input) || MatchesContact(ContactQuery(input), f))
  {
    if ContactQuery(input) != "" {
      FilterContactsMembers(friends, ContactQuery(input));
    }
  }

  lemma {:induction false} FilterContactsInOrder(friends: seq<Friend>, q: string)
    ensures Subsequence(FilterContacts(friends, q), friends)
  {
    if friends != [] {
      var r := FilterContacts(friends, q);
      FilterContactsInOrder(friends[..|friends| - 1], q);
      if MatchesContact(q, friends[|friends| - 1]) {
        assert r[..|r| - 1] == FilterContacts(friends[..|friends| - 1], q);
      }
    }
  }

  lemma SubsequenceOfSelf<T>(s: seq<T>)
    ensures Subsequence(s, s)
  {
    if s != [] {
      SubsequenceOfSelf(s[..|s| - 1]);
    }
  }

  /** Lower-casing the box's text before the page does changes nothing. */
  lemma ContactQueryIgnoresCase(input: string)
    ensures ContactQuery(Lower(input)) == ContactQuery(input)
  {
    var t := Trim(input);
    TextFacts.TrimLower(input);
    TextFacts.LowerIdempotent(t);
    assert ContactQuery(Lower(input)) == Lower(Lower(t));
  }

  /** The visible contacts keep the friend list's order, and the query ignores ASCII case. */
  lemma VisibleContactsInOrder(friends: seq<Friend>, input: string)
    ensures Subsequence(VisibleContacts(friends, input), friends)
    ensures VisibleContacts(friends, input) == VisibleContacts(friends, Lower(input))
  {
    if ContactQuery(input) == "" {
      SubsequenceOfSelf(friends);
    } else {
      FilterContactsInOrder(friends, ContactQuery(input));
    }
    ContactQueryIgnoresCase(input);
  }

  /** A rendered chat bubble: on the right for the current user's messages, with the body escaped. */
  datatype Bubble = Bubble(mine: bool, text: string)

  /** `Number(m.sender_id) === Number(userId)`. */
  predicate Mine(m: MessagesApi.Message, userId: int) {
    m.sender == userId
  }

  /** `renderMessages`: the server's newest-first list reversed, one bubble per message. */
  function Bubbles(msgs: seq<MessagesApi.Message>, userId: int): (b: seq<Bubble>)
    ensures |b| == |msgs|
    ensures forall i :: 0 <= i < |msgs| ==>
      var m := msgs[|msgs| - 1 - i];
      b[i] == Bubble(Mine(m, userId), Escape(m.body))
  {
    var ordered := MessagesApi.Reverse(msgs);
    seq(|ordered|, i requires 0 <= i < |ordered| => Bubble(Mine(ordered[i], userId), Escape(ordered[i].body)))
  }

  /** Reversing the conversation puts it oldest first; no bubble carries raw markup. */
  lemma BubblesOldestFirst(msgs: seq<MessagesApi.Message>, userId: int)
    requires MessagesApi.IdsDecreasing(msgs)
    ensures MessagesApi.IdsIncreasing(MessagesApi.Reverse(msgs))
    ensures forall b :: b in Bubbles(msgs, userId) ==> '<' !in b.text && '>' !in b.text
  {
    forall b | b in Bubbles(msgs, userId) ensures '<' !in b.text && '>' !in b.text {
      var i :| 0 <= i < |msgs| && Bubbles(msgs, userId)[i] == b;
      EscapeLeavesNoMarkup(msgs[|msgs| - 1 - i].body);
    }
  }

  /** The chat page asks for `limit=80`: at most 80 bubbles, each the newest between the two users. */
  lemma ChatShowsAtMost80(friends: set<Pairs.Pair>, ms: seq<MessagesApi.Message>, userId: int, friendId: int)
    requires MessagesApi.IdsIncreasing(ms)
    ensures var c := MessagesApi.ConversationOf(friends, ms, userId, friendId, Some(80));
      c.Rows? ==>
        && |Bubbles(c.rows, userId)| <= 80
        && forall i :: 0 <= i < |c.rows| ==> MessagesApi.Between(c.rows[i], userId, friendId)
  {
    MessagesApi.ConversationIsNewestPage(friends, ms, userId, friendId, Some(80));
    var c := MessagesApi.ConversationOf(friends, ms, userId, friendId, Some(80));
    if c.Rows? {
      assert forall i :: 0 <= i < |c.rows| ==> c.rows[i] in c.rows;
    }
  }

  /** The JSON body of POST /messages. */
  datatype Outgoing = Outgoing(sender: int, receiver: int, body: string)

  /** The send form: nothing without a selected friend or with a blank input; otherwise the trimmed body. */
  function OutgoingMessage(selected: Option<Friend>, userId: int, input: string): (o: Option<Outgoing>)
    ensures o.None? <==> selected.None? || Blank(input)
    ensures o.Some? ==> o.value == Outgoing(userId, selected.value.id, Trim(input))
  {
    if selected.None? then None
    else
      var body := Trim(input);
      if body == "" then None else Some(Outgoing(userId, selected.value.id, body))
  }

  /** A message the page sends is never refused for a blank body, and the server stores it unchanged. */
  lemma OutgoingNeverBlank(selected: Option<Friend>, userId: int, input: string)
    requires OutgoingMessage(selected, userId, input).Some?
    ensures var o := OutgoingMessage(selected, userId, input).value;
      !Blank(o.body) && Trim(o.body) == o.body
      && (userId != 0 && o.receiver != 0 && |o.body| <= MessagesApi.MaxBody ==> MessagesApi.ValidateMessage(o.sender, o.receiver, o.body).None?)
  {
    TextFacts.TrimIdempotent(input);
  }

  /** The mark-read button: the (user, friend) pair to mark, or nothing without a selected friend. */
  function MarkReadRequest(selected: Option<Friend>, userId: int): (r: Option<(int, int)>)
    ensures r.None? <==> selected.None?
  {
    match selected
    case None => None
    case Some(f) => Some((userId, f.id))
  }

  /**
   * The update the button asks for marks read only messages the selected
   * friend sent to the user, and all of those that were unread.
   */
  lemma MarkReadRequestTargetsChat(selected: Option<Friend>, userId: int, ms: seq<MessagesApi.Message>)
    requires selected.Some?
    ensures MarkReadRequest(selected, userId).Some?
    ensures var (user, friend) := MarkReadRequest(selected, userId).value;
      forall i :: 0 <= i < |ms| ==>
        (MessagesApi.MarkedRead(ms, user, friend)[i] != ms[i]
         <==> ms[i].sender == selected.value.id && ms[i].receiver == userId && !ms[i].read)
  {
    var (user, friend) := MarkReadRequest(selected, userId).value;
    forall i | 0 <= i < |ms|
      ensures MessagesApi.MarkedRead(ms, user, friend)[i] != ms[i]
              <==> ms[i].sender == selected.value.id && ms[i].receiver == userId && !ms[i].read
    {
      MessagesApi.MarkReadChangesOnlyUnread(ms, user, friend, i);
    }
  }

  /** `friends.find(x => String(x.id) === String(id))`: the first friend with that id. */
  function FindFriend(friends: seq<Friend>, id: int): (r: Option<Friend>)
    ensures r.Some? ==> r.value in friends && r.value.id == id
    ensures r.None? ==> forall f :: f in friends ==> f.id != id
    ensures r.Some? ==> exists k :: 0 <= k < |friends| && friends[k] == r.value && forall j :: 0 <= j < k ==> friends[j].id != id
  {
    if friends == [] then None
    else if friends[0].id == id then Some(friends[0])
    else
      var r := FindFriend(friends[1..], id);
      assert forall f :: f in friends ==> f == friends[0] || f in friends[1..];
      if r.Some? then
        var k :| 0 <= k < |friends[1..]| && friends[1..][k] == r.value && forall j :: 0 <= j < k ==> friends[1..][j].id != id;
        assert friends[k + 1] == r.value;
        r
      else r
  }

  /** The chat header: the friend's user name, or a dash when it is missing. */
  function ChatTitle(f: Friend): (title: string)
    ensures title != ""
    ensures f.userName != "" ==> title == f.userName
    ensures f.userName == "" ==> title == "—"
  {
    if f.userName != "" then f.userName else "—"
  }

  class Page {
    const userId: int
    var friends: seq<Friend>
    var selected: Option<Friend>
    var polling: bool
    /** The text of the contact search box. */
    var query: string
    /** The contacts listed. */
    var contacts: seq<Friend>
    /** The header of the open chat and its avatar. */
    var chatWith: string
    var chatAvatar: Image
    var bubbles: seq<Bubble>
    var chatEnabled: bool

    /** `init` before the friend list arrives: chat disabled, the "?" avatar. */
    constructor (me: int)
      ensures userId == me && friends == [] && selected == None && !polling && !chatEnabled
      ensures query == "" && contacts == [] && bubbles == [] && chatAvatar == Generated("?")
    {
      userId := me;
      friends := [];
      selected := None;
      polling := false;
      query := "";
      contacts := [];
      chatWith := "";
      chatAvatar := Generated(AvatarChar("?"));
      bubbles := [];
      chatEnabled := false;
    }

    /** `applyContactFilter`, run on every keystroke in the search box. */
    method ApplyContactFilter(input: string)
      modifies this
      ensures query == input && contacts == VisibleContacts(friends, input)
      ensures friends == old(friends) && selected == old(selected) && polling == old(polling) && bubbles == old(bubbles)
      ensures chatWith == old(chatWith) && chatAvatar == old(chatAvatar) && chatEnabled == old(chatEnabled)
    {
      var list := VisibleContacts(friends, input);
      query := input;
      contacts := list;
    }

    /** `loadFriends` after a successful fetch. */
    method FriendsLoaded(list: seq<Friend>)
      modifies this
      ensures friends == list && contacts == VisibleContacts(list, query)
      ensures selected == old(selected) && polling == old(polling) && query == old(query) && bubbles == old(bubbles)
      ensures chatWith == old(chatWith) && chatAvatar == old(chatAvatar) && chatEnabled == old(chatEnabled)
    {
      friends := list;
      ApplyContactFilter(query);
    }

    /** `selectFriend`: open the chat with `f`, re-run the contact filter and (re)start polling. */
    method SelectFriend(f: Friend)
      modifies this
      ensures selected == Some(f) && polling && chatEnabled
      ensures chatWith == ChatTitle(f)
      ensures chatAvatar == Photo(f.photo, f.userName)
      ensures friends == old(friends) && query == old(query)
      ensures contacts == VisibleContacts(friends, query)
      ensures bubbles == old(bubbles)
    {
      var title, img := ChatTitle(f), Photo(f.photo, f.userName);
      var list := VisibleContacts(friends, query);
      selected := Some(f);
      contacts := list;
      chatWith := title;
      chatAvatar := img;
      chatEnabled := true;
      polling := true;
    }

    /** A click on a contact, or a `friend_id` in the URL: select that friend if the list has one. */
    method OpenById(id: int)
      modifies this
      ensures FindFriend(friends, id).None? ==> unchanged(this)
      ensures FindFriend(friends, id).Some? ==>
        var f := FindFriend(friends, id).value;
        && selected == Some(f) && polling && chatEnabled
        && chatWith == ChatTitle(f) && chatAvatar == Photo(f.photo, f.userName)
        && contacts == VisibleContacts(friends, query)
      ensures friends == old(friends) && query == old(query) && bubbles == old(bubbles)
    {
      var f := FindFriend(friends, id);
      if f.Some? {
        SelectFriend(f.value);
      }
    }

    /** `loadConversation` after a successful fetch. */
    method ConversationLoaded(msgs: seq<MessagesApi.Message>)
      modifies this
      ensures bubbles == Bubbles(msgs, userId)
      ensures friends == old(friends) && selected == old(selected) && contacts == old(contacts)
      ensures polling == old(polling) && query == old(query)
      ensures chatWith == old(chatWith) && chatAvatar == old(chatAvatar) && chatEnabled == old(chatEnabled)
    {
      bubbles := Bubbles(msgs, userId);
    }

    /** `beforeunload`. */
    method StopPolling()
      modifies this
      ensures !polling
      ensures friends == old(friends) && selected == old(selected) && bubbles == old(bubbles)
      ensures query == old(query) && contacts == old(contacts)
      ensures chatWith == old(chatWith) && chatAvatar == old(chatAvatar) && chatEnabled == old(chatEnabled)
    {
      polling := false;
    }
  }
}
