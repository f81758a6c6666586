# Friends, chat and tasks: a Dafny model

This project models the core of a small Express + MySQL web application. Users keep a to-do list, befriend one another through friend requests, and chat with their friends. The model covers three parts:

- **Friend-request state machine** (`friends.routes.js`). The `friends` and `friend_requests` tables are the fields of the class `Friends.FriendStore`. Each route handler is a method that returns the HTTP status and message the handler sends. The class invariant `Valid` holds that:
  - edges are stored as (smaller id, larger id);
  - no row is a self-request;
  - `responded_at` is set exactly on answered rows;
  - there is one row per ordered pair.

  Every handler preserves it. `FriendScenarios` replays concrete request sequences against the store.
- **Chat API** (`messages.routes.js`). `MessagesApi` models:
  - the friendship gate, through the same canonical pair;
  - the conversation limit clamp and the newest-first page;
  - body validation (trimmed, non-empty, at most 2000 characters);
  - the insert;
  - the mark-read update, as a loop over the `messages` table held by `MessageStore`.
- **Browser scripts** (`public/todo.js`, `user.js`, `messages.js`, `contacts.js`, `settings.js`). The shared logic is defined once:
  - `Text`: `trim`, ASCII case mapping, `indexOf`/`includes`;
  - `Html`: the `esc` escaper;
  - `Avatar`: the avatar letter and the photo fallback;
  - `Tasks`: the `"title - description"` encoding, the filter predicate and the comparators;
  - `TaskTable`: the rows a task table shows.

  Each page's module state is a class whose methods are the page's event handlers: `TodoPage.Page`, `UserPage.Page`, `ChatPage.Page` and `ContactsPage.Page`. `SettingsPage` is pure.

Conventions:
- Ids are integers, and 0 stands for a missing or falsy id.
- A missing string is the empty string.
- The `messages` table is a sequence in insertion order, so a later row is a newer message.
- The server's answer to a `fetch` is a parameter of the handler that receives it, such as the `found` argument of `ContactsPage.Page.SearchUser` or the `saved` argument of `SubmitEdit`.

Three properties of the code shape the model:
- **Accept is two separate writes.** `accept` first sets the request to accepted (friends.routes.js:185-190) and then, in a second query, inserts the friendship edge (friends.routes.js:192-200). Nothing ties the two together, so a failure of the second write leaves an accepted request with no edge. `FriendStore.Accept` keeps the two writes, and its `edgeInsertFails` flag reaches that state (`FriendScenarios.AcceptHalfDone`).
- **Unfriending keeps the accepted request.** Unfriending deletes only the edge (friends.routes.js:291-303); the request row stays accepted. The send handler looks only at the highest-id request between the two (friends.routes.js:59-83), so the pair stays refused as "Already friends" only while that accepted request is the latest row between them (`FriendScenarios.UnfriendThenResend`). When a later row between them is rejected or canceled, a new send after the unfriend is accepted and turns the older accepted row back into a pending one (`FriendScenarios.UnfriendAfterStaleAccept`).
- **Task text is not escaped in `user.js`.** `user.js` writes task titles and descriptions into the table unescaped, while the other pages escape them. `UserPage` models the page as written: its rows are `RowsAsWritten`. The escaped rows `RowsOf` are the corrected version, logged under Findings below.

## Model

| member | source | states |
|---|---|---|
| Pairs.OrderedPair | friends.routes.js:7-11 | the canonical pair is (min, max) of the two ids |
| Pairs.OrderedPairSymmetric | messages.routes.js:6-10 | `orderedPair(a, b) == orderedPair(b, a)` |
| Pairs.OrderedPairSameUsers | friends.routes.js:7-11 | two calls give the same key exactly when they name the same two users |
| Pairs.AreFriendsSymmetric | messages.routes.js:12-19 | `ensureFriends(a, b) == ensureFriends(b, a)` |
| Friends.LatestBetween | friends.routes.js:59-65 | the result is the highest id of a row linking the two users in either direction, or none when no such row exists |
| Friends.RowFor | friends.routes.js:86-93 | the row holding the exact direction from → to, or a proof that there is none |
| Friends.UpsertSlot | friends.routes.js:86-94 | the upsert writes either the existing row of that direction or a new id |
| Friends.Upsert | friends.routes.js:86-94 | the written row is pending from → to with `responded_at` cleared; every other row is kept; an existing row keeps its id and a new one takes the next id |
| Friends.Answered | friends.routes.js:185-229 | the answered row keeps its direction and takes the new status with `responded_at` set; no row is added, removed or otherwise changed |
| Friends.SendVerdict | friends.routes.js:42-83 | 400 exactly for a missing id or a self-request; 409 "Already friends" for friends; 201 exactly when neither holds and the latest request is rejected or canceled (or absent); a pending latest request gives "A pending request already exists" and an accepted latest request gives 409 "Already friends" |
| Friends.AnswerVerdict | friends.routes.js:164-183 | the checks of accept/reject/cancel in order: 400 without a user, 404 for an unknown id, 409 for a non-pending row before any authority check, 403 for the wrong user; 200 exactly in the remaining case |
| Friends.FriendsOf | friends.routes.js:265-287 | with edges stored as (smaller, larger), a user is never in its own friend list |
| Friends.SentRequestIsListed | friends.routes.js:86-160 | after the upsert, the written row is among the incoming requests of the addressee and the outgoing requests of the sender |
| Friends.AnsweredIsUnlisted | friends.routes.js:185-229 | an accepted, rejected or canceled request leaves the incoming and outgoing lists of every user, and nothing else leaves them |
| Friends.FriendsOfMatchesCheck | friends.routes.js:265-287 | the friend list of a user holds exactly the users `checkFriends` accepts, and never the user itself |
| Friends.FriendsOfSymmetric | friends.routes.js:274-277 | b is in a's friend list exactly when a is in b's |
| Friends.IncomingOutgoingDisjoint | friends.routes.js:120-150 | with no self-requests, no request is both incoming and outgoing for the same user, and no incoming request of a user was sent by that user |
| Friends.AnswerKeepsOnePending | friends.routes.js:223-229 | answering a request never creates a second pending request between two users |
| Friends.PendingBetweenComplete | friends.routes.js:59-65 | a search that finds no pending row below the bound means none exists |
| Friends.OpenRequestKeepsOnePending | friends.routes.js:86-93 | reopening or inserting a pending row keeps at most one pending request per pair when no other row between the two is pending |
| Friends.FriendStore.SendRequest | friends.routes.js:41-104 | the response is the verdict; on any refusal both tables are unchanged; on 201 the row for from → to is created or reset to pending with `responded_at` cleared, keeping its id; friends untouched; the invariant is kept |
| Friends.FriendStore.SendRequestGuarded | friends.routes.js:75-83 | corrected send: a pending request in either direction blocks a new one, so at most one pending request per pair is preserved |
| Friends.FriendStore.Accept | friends.routes.js:164-203 | on refusal nothing changes; otherwise the row becomes accepted with `responded_at` set, then the canonical pair is added (a no-op if present), or, when the edge insert fails, 500 with the request already accepted |
| Friends.FriendStore.Reject | friends.routes.js:207-232 | on refusal nothing changes; otherwise only that row becomes rejected; friends untouched |
| Friends.FriendStore.Cancel | friends.routes.js:236-261 | only the sender may cancel; on refusal nothing changes; otherwise only that row becomes canceled |
| Friends.FriendStore.Unfriend | friends.routes.js:291-303 | exactly the canonical pair is removed; 404 when it was absent; request rows untouched |
| FriendScenarios.AcceptThenResend | friends.routes.js:51-82 | after an accept, a new send is refused with 409 "Already friends" |
| FriendScenarios.CancelThenResend | friends.routes.js:85-99 | after a cancel, a new send in the same direction reopens row 1 instead of adding a row |
| FriendScenarios.ReverseWhilePending | friends.routes.js:59-78 | a send in the reverse direction while a request is pending is a 409 and adds no row |
| FriendScenarios.AcceptTwice | friends.routes.js:177-180 | a second accept is 409 "Request is not pending" and the edge is stored once |
| FriendScenarios.WrongActors | friends.routes.js:181-250 | the sender cannot accept or reject, and the recipient cannot cancel (403) |
| FriendScenarios.UnfriendThenResend | friends.routes.js:75-82 | after an unfriend where the accepted request is the latest row between the pair, a new send is refused as "Already friends" although no edge exists |
| FriendScenarios.UnfriendAfterStaleAccept | friends.routes.js:59-83 | after an unfriend where a later rejected row exists between the pair, a new send gives 201 and the accepted row is pending again |
| FriendScenarios.AcceptHalfDone | friends.routes.js:185-198 | a failing edge insert leaves an accepted request without an edge |
| FriendScenarios.RejectedBothWays | friends.routes.js:207-232 | the store after a request each way, both rejected: row 1 is 1 → 2 and row 2 is 2 → 1 |
| FriendScenarios.StaleLatestRequest | friends.routes.js:59-83 | the handler as written lets both directions be pending at once |
| FriendScenarios.StaleLatestRequestGuarded | friends.routes.js:59-83 | with the corrected send, the same requests end in a 409 and at most one pending request |
| MessagesApi.ConversationLimit | messages.routes.js:26 | the limit is `min(requested or 50, 200)` and never above 200 |
| MessagesApi.ConversationLimitEdges | messages.routes.js:26 | absent gives 50, 0 gives 0, anything above 200 gives 200 |
| MessagesApi.Reverse | messages.routes.js:44 | the result has the same length, with the i-th message counted from the end first |
| MessagesApi.Thread | messages.routes.js:40-46 | holds exactly the messages between the two users, in either direction, with ids still increasing |
| MessagesApi.ConversationOf | messages.routes.js:23-55 | 400 exactly without both ids; 403 exactly for non-friends; a 500 exactly for friends with a negative limit; otherwise the rows are the newest page of the thread for the clamped limit |
| MessagesApi.ReverseDecreasing | messages.routes.js:44 | reversing an oldest-first list gives a newest-first one |
| MessagesApi.ReverseSameElements | messages.routes.js:44 | reversing keeps exactly the same messages |
| MessagesApi.PastPrefixIsOlder | messages.routes.js:44-45 | in a newest-first list, everything past a prefix is older than everything in it |
| MessagesApi.LastPageProperties | messages.routes.js:44-45 | the page holds exactly min(n, size of the thread) messages, all from the thread, newest first, and every left-out message is older than every returned one |
| MessagesApi.LastPage | messages.routes.js:44-45 | `ORDER BY ... DESC LIMIT n` over an oldest-first thread: exactly min(n, size) messages, the i-th being the i-th newest |
| MessagesApi.NewestPage | messages.routes.js:40-46 | exactly min(n, size of the thread) messages, each between the two users |
| MessagesApi.ConversationIsNewestPage | messages.routes.js:40-53 | a conversation holds only messages between the two users, exactly min(limit, size of the thread) of them with the limit never above 200, newest first, and omits only older messages |
| MessagesApi.ValidateMessage | messages.routes.js:61-66 | the request passes exactly when both ids are present, the body is not blank and the trimmed body has at most 2000 characters; each failure is a 400 |
| MessagesApi.MarkedRead | messages.routes.js:99 | each message from friend to user that is unread becomes read; every other message is kept |
| MessagesApi.UnreadCount | messages.routes.js:105 | the count is 0 exactly when no message matches the update |
| MessagesApi.MarkReadIdempotent | messages.routes.js:99-105 | marking twice is marking once, and an immediate repeat updates 0 rows |
| MessagesApi.MarkReadChangesOnlyUnread | messages.routes.js:99 | a message changes exactly when it is unread and from friend to user, and only its read flag changes |
| MessagesApi.MarkedReadKeepsIds | messages.routes.js:99 | the update keeps every id in place |
| MessagesApi.MarkEach | messages.routes.js:99-105 | the row-by-row update yields the marked table and the number of rows changed |
| MessagesApi.AppendKeepsIds | messages.routes.js:75-81 | inserting a message with a fresh, larger id keeps ids increasing and the older rows in place |
| MessagesApi.MessageStore.Send | messages.routes.js:59-84 | validation failures are 400 and friendship failures 403, both with no insert; otherwise the trimmed body is stored last under the next id and echoed |
| MessagesApi.MessageStore.MarkRead | messages.routes.js:88-108 | 400 without both ids and 403 for non-friends, both leaving the table as it was; otherwise the table is marked and the count of changed rows returned |
| MessagesApi.CreatedBodyValid | messages.routes.js:64-81 | a stored body is non-empty, at most 2000 characters, and already trimmed |
| Text.TrimStart | messages.routes.js:64 | strips exactly a blank prefix and leaves a result that starts with a non-space character |
| Text.TrimEnd | messages.routes.js:64 | strips exactly a blank suffix and leaves a result that ends with a non-space character |
| Text.Trim | messages.routes.js:64 | the result is empty exactly for a blank string, has no space at either end, and is the input itself when the input has none |
| Text.LowerChar | public/todo.js:76 | no upper-case ASCII letter survives, and white space is kept |
| Text.UpperChar | public/messages.js:50 | no lower-case ASCII letter survives, and upper-case letters are kept |
| Text.Lower | public/todo.js:76 | the result has the input's length |
| Text.LowerAt | public/todo.js:76 | each character is lower-cased on its own |
| Text.IndexOf | public/todo.js:46 | a found index is an occurrence of the pattern |
| Text.IndexOfFirst | public/todo.js:46 | the index found is at or before every occurrence |
| Text.OccursThenContains | public/todo.js:76 | any occurrence makes `includes` true |
| TextFacts.TrimIdempotent | messages.routes.js:64 | trimming twice is trimming once |
| TextFacts.TrimStartLower | public/messages.js:119 | trimming the start commutes with lower-casing |
| TextFacts.TrimEndLower | public/messages.js:119 | trimming the end commutes with lower-casing |
| TextFacts.TrimLower | public/messages.js:119 | `trim` commutes with `toLowerCase` |
| TextFacts.LowerIdempotent | public/todo.js:76 | lower-casing twice is lower-casing once |
| TextFacts.ContainsEmpty | public/todo.js:76 | every string contains the empty string |
| Html.ReplaceAll | public/todo.js:40-41 | a string without the character is returned unchanged |
| Html.Escape | public/todo.js:38-42 | text free of the five special characters comes back unchanged |
| Html.ReplaceAllAppend | public/todo.js:40-41 | `replaceAll` distributes over concatenation |
| Html.ReplaceAllOne | public/todo.js:40-41 | on one character, `replaceAll` replaces it or keeps it |
| Html.EscapeOne | public/todo.js:38-42 | the five passes turn one character into its entity (`&` first, so `esc("<") == "&lt;"`) |
| Html.EscapeAppend | public/todo.js:38-42 | `esc` distributes over concatenation |
| Html.EscapeIsSinglePass | public/todo.js:38-42 | the five chained passes equal an independent one-pass, per-character escaper |
| Html.EscapeCharLeavesNoMarkup | public/todo.js:38-42 | no entity holds `<`, `>`, `"` or `'` |
| Html.EachLeavesNoMarkup | public/todo.js:38-42 | the per-character escaper leaves no `<`, `>`, `"` or `'` |
| Html.EscapeLeavesNoMarkup | public/messages.js:40-47 | `esc` output contains no raw `<`, `>`, `"` or `'` |
| Html.EachAmpersandsStartEntities | public/todo.js:38-42 | every `&` the per-character escaper emits is followed by the first letter of an entity |
| Html.EscapeAmpersandsStartEntities | public/settings.js:16 | every `&` in the output is followed by the first letter of an entity, as `&` is escaped first |
| Html.EachPlainText | public/todo.js:38-42 | the per-character escaper is the identity on text without special characters |
| Html.EscapePlainText | public/contacts.js:25 | `esc` is the identity on text without `& < > " '` |
| Html.EachLength | public/todo.js:38-42 | escaping never shortens, and keeps the length exactly when nothing is special |
| Html.EscapeLength | public/todo.js:38-42 | `esc(s) == s` exactly when `s` has no special character, and `esc` never shortens |
| Avatar.FirstVisible | public/messages.js:50 | the first non-space character, absent exactly for a blank name |
| Avatar.FirstVisibleIsTrimHead | public/messages.js:50 | the first visible character is `trim().charAt(0)`, and both are absent together |
| Avatar.AvatarChar | public/contacts.js:27 | the letter is one character and never a lower-case ASCII letter |
| Avatar.AvatarCharIsTrimHead | public/settings.js:18 | the letter is "?" for a blank name, otherwise the upper-cased first character of the trimmed name |
| Avatar.Photo | public/messages.js:60-64 | an empty path gives the generated avatar of the label; any other path is used unchanged |
| Avatar.FirstVisiblePadding | public/messages.js:50 | leading white space never changes the first visible character |
| Avatar.AvatarCharIgnoresPadding | public/messages.js:50 | leading white space never changes the letter |
| Avatar.UpperLower | public/messages.js:50 | upper-casing after lower-casing equals upper-casing |
| Avatar.FirstVisibleLower | public/messages.js:50 | lower-casing a name lower-cases its first visible character |
| Avatar.AvatarCharIgnoresCase | public/messages.js:50 | the letter does not depend on the case of the name |
| Tasks.SplitText | public/todo.js:44-49 | empty text gives ("", ""); text without " - " is all title; otherwise the title is the part before the first " - " and `title + " - " + description == text` |
| Tasks.Compose | public/todo.js:143 | without a description the text is the title; with one it is exactly the title, " - " and the description |
| Tasks.TitleHasNoSeparator | public/todo.js:46-48 | the title never contains " - " |
| Tasks.SplitCompose | public/user.js:165-172 | splitting a composed text returns the title and description when the title contains no " - " and does not end in " -" |
| Tasks.NoEarlySeparator | public/todo.js:46 | under those conditions no separator starts inside the title |
| Tasks.SplitComposeDashTitle | public/todo.js:162 | a title ending in " -" loses its dash to the description: the round trip fails |
| Tasks.FilterOf | public/todo.js:71-75 | "all" is the only key keeping everything, and an unknown key matches nothing |
| Tasks.FilterTasks | public/todo.js:69-78 | keeps exactly the tasks passing the filter and the search |
| Tasks.FilterIsSubsequence | public/user.js:179-194 | the filtered list is a subsequence of the tasks |
| Tasks.FilterTasksCounts | public/todo.js:69-78 | the filtered list holds each kept task exactly as often as the input, and no other task |
| Tasks.FilterAllKeepsAll | public/todo.js:72 | "all" with no search keeps every task, in order |
| Tasks.DoneNotDonePartition | public/todo.js:73-74 | "done" and "notDone" split what the search keeps into two disjoint parts |
| Tasks.SearchIgnoresCase | public/todo.js:76 | the search ignores the case of the query |
| Tasks.SortKeyOf | public/todo.js:88-96 | an unknown sort key sorts newest first |
| Tasks.CompareMeaning | public/todo.js:85-97 | every comparator puts a task level with itself; "oldest" and "newest" order by id up and down, "doneFirst" and "notDoneFirst" by the done flag |
| Tasks.CollateSelf | public/todo.js:90-91 | a title compares equal to itself |
| Tasks.CollateAntisymmetric | public/todo.js:90-91 | swapping the titles negates the comparison |
| Tasks.CollateTransitive | public/todo.js:90-91 | the title order is transitive |
| Tasks.CompareAntisymmetric | public/todo.js:85-97 | every comparator is antisymmetric |
| Tasks.CompareTransitive | public/todo.js:85-97 | every comparator is transitive |
| Tasks.PrependSorted | public/todo.js:85 | an entry not above any entry of a sorted list can go in front of it |
| Tasks.InsertPermutes | public/todo.js:85 | inserting adds exactly that entry |
| Tasks.SortedTail | public/todo.js:85 | the tail of a sorted list is sorted |
| Tasks.InsertSorted | public/todo.js:85 | inserting into a sorted list keeps it sorted |
| Tasks.SortTasksSorted | public/todo.js:85-97 | the sorted list is ordered by the comparator |
| Tasks.SortTasksPermutes | public/todo.js:85-97 | the sorted list is a permutation of its input |
| Tasks.SortTasksCorrect | public/todo.js:85-97 | the sorted list is a permutation of the filtered one, ordered by the comparator |
| Tasks.SortTasks | public/todo.js:85-97 | the sorted list is as long as its input |
| Tasks.SortTasksStable | public/todo.js:85-97 | the sort is stable: for any task, the entries the comparator puts level with it come out in their input order |
| Tasks.SortById | public/todo.js:89-95 | "oldest" orders by id ascending; "newest" and unknown keys by id descending |
| Tasks.FlagOrder | public/user.js:215-216 | under the `is_done` comparators, an entry at or below another is done first, or not done first |
| Tasks.SortDoneFirst | public/user.js:215 | "doneFirst" places every done task before every task not done |
| Tasks.SortNotDoneFirst | public/user.js:216 | "notDoneFirst" places every task not done before every done task |
| Tasks.ToggleBody | public/todo.js:179 | the text is unchanged and `is_done` is 1 exactly for a task not done |
| Tasks.ToggleTwice | public/user.js:336 | toggling twice restores the truthiness, and toggling moves a task between "done" and "notDone" |
| Tasks.NewTaskText | public/user.js:112-120 | nothing is sent exactly when the trimmed title is empty |
| Tasks.NewTaskTextRoundTrip | public/todo.js:159-162 | what the form sends reads back as the trimmed title and description |
| Tasks.EditBody | public/todo.js:139-148 | a blank title sends nothing; otherwise the composed text with `is_done` unchanged |
| TaskTable.Visible | public/todo.js:69-97 | the shown tasks are a permutation of the filtered ones, sorted by the comparator |
| TaskTable.VisibleAreKept | public/todo.js:69-97 | as many tasks are shown as the filter keeps, and every one was kept |
| TaskTable.EscapedRowHasNoMarkup | public/todo.js:102-106 | an escaped row carries no markup |
| TaskTable.EscapedRowOfPlainText | public/todo.js:104-105 | a row of plain text shows the title and description unchanged |
| TaskTable.RawRowCarriesMarkup | public/user.js:227-230 | an unescaped row for the title "<" carries markup |
| TodoPage.ToggleLabel | public/todo.js:109 | "Undone" exactly for a done task |
| TodoPage.PageRowsSound | public/todo.js:66-120 | one row per kept task; every row is a kept task's row and carries no markup |
| TodoPage.BuildRows | public/todo.js:99-119 | the loop builds one escaped row per task, in order |
| TodoPage.MeLabel | public/todo.js:8 | the header shows the user name, or "—" when it is missing |
| TodoPage.Page.constructor | public/todo.js:32-36 | the initial state: filter "all", sort "newest", no search, no task being edited |
| TodoPage.Page.Render | public/todo.js:66-120 | the rows are those of the visible tasks; an empty selection shows the notice; the state is untouched |
| TodoPage.Page.Loaded | public/todo.js:51-64 | stores the list, renders it and clears the notice |
| TodoPage.Page.ChooseFilter | public/todo.js:192-194 | the filter is the button's value, or "all" without one, and the rows are re-rendered for it. The notice shows the empty-selection text when no row is left, and otherwise keeps its old text. The tasks and the edit form are kept. |
| TodoPage.Page.Search | public/todo.js:196 | the search is the trimmed input, and the rows are re-rendered for it. The notice shows the empty-selection text when no row is left, and otherwise keeps its old text. The tasks and the edit form are kept. |
| TodoPage.Page.ClearSearch | public/todo.js:197 | the search is emptied, and the rows are re-rendered for it. The notice shows the empty-selection text when no row is left, and otherwise keeps its old text. The tasks and the edit form are kept. |
| TodoPage.Page.ChooseSort | public/todo.js:199 | the sort is the selected value, or "newest" without one, and the rows are re-rendered for it. The notice shows the empty-selection text when no row is left, and otherwise keeps its old text. The tasks and the edit form are kept. |
| TodoPage.Page.StartEdit | public/todo.js:122-129 | the task is remembered and the form shows its split text. Tasks, rows, notice, filter, search and sort are kept |
| TodoPage.Page.CancelEdit | public/todo.js:131-134 | no task is being edited. Tasks, rows, notice, filter, search and sort are kept |
| TodoPage.Page.SubmitEdit | public/todo.js:136-155 | no request without an edited task or with a blank title; otherwise the PUT for that task, and the form closes once saved. Tasks, rows, notice, filter, search and sort are kept |
| UserPage.Welcome | public/user.js:19-24 | the label is the user name, otherwise "User #" followed by the id |
| UserPage.RowsAsWrittenCarryMarkup | public/user.js:223-244 | the rows as written put a raw "<" from a title into the table |
| UserPage.PageRowsCarryMarkup | public/user.js:223-244 | the page as written shows a task titled "<" with the raw "<" in its row |
| UserPage.RowsOfHaveNoMarkup | public/user.js:227-231 | escaped rows carry no markup, whatever the tasks hold |
| UserPage.RowsOfPlainText | public/user.js:227-231 | escaping changes no row of a plain-text task, so the correction only differs on special characters |
| UserPage.PageRowsOfPlainText | public/user.js:227-231 | for tasks free of special characters, the rows as written equal the corrected escaped rows |
| UserPage.BuildRows | public/user.js:223-244 | the loop builds one row per task, in order, with title and description unescaped as user.js writes them |
| UserPage.MissingFilterShowsNothing | public/user.js:251 | a filter button without `data-filter` empties the table |
| UserPage.Page.constructor | public/user.js:16-24 | the labels show the welcome text, and the initial filter, sort and search are set |
| UserPage.Page.UpdateAccount | public/user.js:31-79 | the four inputs are sent as typed; on success the user name and both labels take the new name, otherwise they are kept. The user id, tasks, rows, filter, search, sort, edit form and notice are kept |
| UserPage.Page.Render | public/user.js:175-245 | the rows are the unescaped rows of the visible tasks; the notice is set for an empty selection and cleared otherwise; the rest of the state is kept |
| UserPage.Page.Loaded | public/user.js:144-162 | stores the list, shows the unescaped rows of its visible tasks and clears the notice; filter, search, sort, edit form, user and labels are kept |
| UserPage.Page.ChooseFilter | public/user.js:248-255 | the filter is the button's value as it is, and the unescaped rows are re-rendered for it. The notice shows the empty-selection text when no row is left and is cleared otherwise. The tasks, the edit form, the user and the labels are kept. |
| UserPage.Page.Search | public/user.js:258-261 | the search is the trimmed input, and the unescaped rows are re-rendered for it. The notice shows the empty-selection text when no row is left and is cleared otherwise. The tasks, the edit form, the user and the labels are kept. |
| UserPage.Page.ClearSearch | public/user.js:263-267 | the search is emptied, and the unescaped rows are re-rendered for it. The notice shows the empty-selection text when no row is left and is cleared otherwise. The tasks, the edit form, the user and the labels are kept. |
| UserPage.Page.ChooseSort | public/user.js:270-275 | the sort is the selected value as it is, and the unescaped rows are re-rendered for it. The notice shows the empty-selection text when no row is left and is cleared otherwise. The tasks, the edit form, the user and the labels are kept. |
| UserPage.Page.StartEdit | public/user.js:278-288 | the task is remembered and the form shows its split text. Tasks, rows, notice, filter, search, sort, user and labels are kept |
| UserPage.Page.CancelEdit | public/user.js:328-331 | no task is being edited. Tasks, rows, notice, filter, search, sort, user and labels are kept |
| UserPage.Page.SubmitEdit | public/user.js:290-325 | no request without an edited task or with a blank title; otherwise the PUT, and the form closes once saved. Tasks, rows, notice, filter, search, sort, user and labels are kept |
| ChatPage.FilterContacts | public/messages.js:122-125 | the filtered list is no longer than the friend list |
| ChatPage.FilterContactsMembers | public/messages.js:122-125 | keeps exactly the friends whose lower-cased user name or name contains the query |
| ChatPage.FilterContactsInOrder | public/messages.js:122-125 | the filtered list keeps the friend list's order |
| ChatPage.SubsequenceOfSelf | public/messages.js:120 | the unfiltered list is in order |
| ChatPage.VisibleContacts | public/messages.js:118-128 | never lists more contacts than there are friends |
| ChatPage.VisibleContactsMembers | public/messages.js:118-128 | a blank box lists every friend; otherwise exactly the matching friends |
| ChatPage.ContactQueryIgnoresCase | public/messages.js:119 | lower-casing the box's text first changes nothing |
| ChatPage.VisibleContactsInOrder | public/messages.js:118-128 | the listed contacts keep the friend list's order, and the query ignores case |
| ChatPage.Bubbles | public/messages.js:152-170 | one bubble per message, in the reverse of the server's order, "mine" exactly for the user's messages, with the body escaped |
| ChatPage.BubblesOldestFirst | public/messages.js:158-165 | reversing a newest-first list puts it oldest first, and no bubble carries `<` or `>` |
| ChatPage.ChatShowsAtMost80 | public/messages.js:179 | the page shows at most 80 bubbles, all between the two users |
| ChatPage.OutgoingMessage | public/messages.js:218-235 | nothing is sent without a selected friend or with a blank input; otherwise the trimmed body to that friend |
| ChatPage.OutgoingNeverBlank | public/messages.js:222-234 | a body the page sends is never refused as empty, and the server stores it unchanged |
| ChatPage.MarkReadRequest | public/messages.js:252-260 | a request is made exactly when a friend is selected |
| ChatPage.MarkReadRequestTargetsChat | public/messages.js:252-260 | with a friend selected, the request the page sends makes the server mark read exactly the unread messages from that friend to the user |
| ChatPage.FindFriend | public/messages.js:112 | the first friend with that id, or none when no friend has it |
| ChatPage.ChatTitle | public/messages.js:208 | the header is the friend's user name, or "—" when it is missing |
| ChatPage.Page.constructor | public/messages.js:284-286 | chat disabled, no friend selected, the "?" avatar |
| ChatPage.Page.ApplyContactFilter | public/messages.js:118-128 | the query is the new text and the listed contacts are those visible for it; nothing else changes |
| ChatPage.Page.FriendsLoaded | public/messages.js:130-150 | stores the friends and lists those visible for the current query; the selection, polling, query, bubbles and chat header are kept |
| ChatPage.Page.SelectFriend | public/messages.js:206-216 | selects the friend, sets the header and avatar, enables the chat, re-runs the contact filter and starts polling |
| ChatPage.Page.OpenById | public/messages.js:289-293 | when a friend has that id, the first one is selected: chat enabled, polling on, header and avatar set, contacts re-filtered. Otherwise nothing changes at all. Friends, query and bubbles are always kept |
| ChatPage.Page.ConversationLoaded | public/messages.js:175-195 | the bubbles are those of the loaded messages; nothing else changes |
| ChatPage.Page.StopPolling | public/messages.js:201-204 | polling stops; nothing else changes |
| ContactsPage.SearchCard | public/contacts.js:37-53 | the own card is a disabled "You" button with no handler; any other card sends a request |
| ContactsPage.CardNeverSendsToSelf | public/contacts.js:47-52 | a request sent from a card is never refused as a self-request |
| ContactsPage.Page.constructor | public/contacts.js:35 | no user found yet |
| ContactsPage.Page.SearchUser | public/contacts.js:55-67 | a blank query sends nothing, leaves no user and asks for a username; otherwise the trimmed query is sent and the answer becomes the card, with an empty status on success and "User not found" otherwise |
| ContactsPage.Page.SendRequest | public/contacts.js:69-81 | nothing, and no status change, without a found user; otherwise a request from the current user to that user, with the status "Sending..." |
| SettingsPage.UpdateBody | public/settings.js:63-71 | all four fields are sent trimmed |
| SettingsPage.UpdateBodyOfTrimmedInput | public/settings.js:63-66 | already trimmed input is sent unchanged |
| SettingsPage.ProfileImage | public/settings.js:31-40 | without a profile, the stored name's avatar; otherwise `photo` of the profile's path and name, falling back to the stored name |
| SettingsPage.LabelAfterUpdate | public/settings.js:78-80 | the header shows the trimmed new name, and is empty exactly for a blank input |

## Left out

- The "Database error" 500 branches are not modelled. The one exception is the failing edge insert of accept, which is a parameter. Every other query is assumed to succeed.
- Friends.FriendStore.Accept: a failure of the status update itself is not modelled, only a failure of the edge insert after it.
- `Number()` coercion and `NaN` are not modelled. Ids arrive as integers, and 0 stands for every falsy id.
- MessagesApi.ConversationLimit: a non-numeric `limit` (`NaN`) is not modelled. A negative limit is modelled as the failing query it causes.
- Timestamps are not modelled. `created_at` ordering is replaced by id or insertion order, and `responded_at` is kept only as a set/unset flag. The incoming, outgoing and friend lists are sets, so their `ORDER BY` is not modelled.
- Tasks.Collate: `localeCompare` is replaced by a code-point comparison, because locale collation is not available.
- Tasks.SortTasks: its own contract states only the length. That the result is ordered by the comparator and is a permutation of the input is stated by `Tasks.SortTasksSorted`, `Tasks.SortTasksPermutes` and `Tasks.SortTasksCorrect`.
- Tasks.Compare: it has no contract of its own. What each comparator means is stated by `Tasks.CompareMeaning`, `Tasks.CompareAntisymmetric` and `Tasks.CompareTransitive`.
- Html.Escape: its own contract states only that plain text comes back unchanged. The full meaning is stated by `Html.EscapeIsSinglePass`, `Html.EscapeLeavesNoMarkup` and `Html.EscapeLength`.
- Friends.Incoming and Friends.Outgoing have no contract of their own. How the handlers move requests into and out of them is stated by `Friends.SentRequestIsListed`, `Friends.AnsweredIsUnlisted` and `Friends.IncomingOutgoingDisjoint`.
- Text.Lower: `toLowerCase`/`toUpperCase` are restricted to ASCII letters.
- Text.Trim: only the common white-space characters count as space. String lengths count characters, not UTF-16 code units.
- Avatar.Photo: the generated SVG and its `encodeURIComponent` encoding are abstracted to the letter the image shows. A path starting with "/" and any other path are both returned unchanged.
- The DOM, `fetch`, `localStorage`, `alert`/`confirm`, page redirects and the logout buttons are not modelled. The server's answers appear as method parameters.
- The polling timer is a flag, and `loadConversation`'s periodic refresh is not modelled.
- `deleteTask` in todo.js and user.js is not modelled. It sends a DELETE and reloads the list, and the task routes are not part of this model.
- The HTML of `renderContacts`, the contact "active" highlight, and the incoming/outgoing/friend lists of contacts.js are not modelled. Their content is `Friends.Incoming`, `Friends.Outgoing` and `Friends.FriendsOf` of the server state.
- The GET /friends/search route is not modelled. `searchUser` receives its answer as a parameter.
- ContactsPage.Page.SearchUser: a failed search shows the fixed "User not found" rather than the server's message.
- The photo upload form of settings.js (multipart file upload) is not modelled. Only the image shown afterwards follows `Avatar.Photo`.
- The chat page's status line texts ("Sending...", "Marked as read ✅") are not modelled.
- Concurrency between simultaneous requests is not modelled. Each handler runs to completion on its own.
- users.routes.js, tasks.routes.js, db.config.js, index.js, login.js, register.js and mascot.js are not part of this model.

## Findings

| source | as written | input that shows it | evidently intended | confidence | as-written member | corrected member |
|---|---|---|---|---|---|---|
| friends.routes.js:59-83 | the send handler looks only at the highest-id request between the two users, so a pending request with a lower id goes unnoticed | 1 → 2 sent and rejected, 2 → 1 sent and rejected, 1 → 2 sent again (row 1 reopened), then 2 → 1 sent: the latest row (2) is rejected, so row 2 is reopened and both directions are pending | a pending request in either direction blocks a new one, so at most one request per pair is pending | not executed | FriendScenarios.StaleLatestRequest | Friends.FriendStore.SendRequestGuarded |
| public/user.js:227-231 | task title and description are written into `innerHTML` without `esc`, unlike todo.js | a task whose text is "<" | the cells are escaped as on the task page | not executed | UserPage.PageRowsCarryMarkup | UserPage.RowsOfHaveNoMarkup |
