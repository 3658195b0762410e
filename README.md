# Forum and chat rooms: a Dafny model

This project models the core of a forum application with real-time chat
rooms. The backend is an Express and Socket.IO server over MongoDB. The
frontend is a React client. The model covers the following parts.

- **Chat server** (`chat_server.dfy`). This is the Socket.IO side of
  `backend/index.js`, modelled as the class `Server`.
  - The token check on every new connection.
  - The `join-room`, `leave-room`, `send-message` and `disconnect` handlers.
  - Its state is the shared room collection plus two maps:
    - the session of each socket (`socket.userId`);
    - the live subscriptions, a map from room id to the set of subscribed
      sockets.
  - Each handler is one atomic step. It returns the events it emits, each
    with the set of sockets it is delivered to.
- **Room schema** (`room_schema.dfy`). The document shape of
  `backend/models/Room.js` as datatypes, plus:
  - `ValidRoom`, what `save` validates;
  - the `unique` index on names;
  - the defaults;
  - the two in-place updates the chat server makes: add a participant,
    append a message.
- **REST routes** over in-memory collections. Each route is a method that
  returns `Ok` or `Fail(status, message)`.
  - `RoomStore`, from `backend/routes/rooms.js`.
  - `UserStore`, from `backend/routes/users.js`.
  - `CommentStore`, from `backend/routes/comments.js`. It keeps each post's
    list of comment ids in step with the comments.
- **Client components**:
  - the home page's post filter and sort, and the like and bookmark toggles
    (`home.dfy`);
  - the chat page's message log, room switching and send guard
    (`chat_client.dfy`);
  - the profile form's checks and state updates (`profile.dfy`).
- **Helpers**. `text.dfy` models the JavaScript string operations the core
  relies on: `trim`, `toLowerCase` and `includes`. `seqs.dfy` holds the list
  operations:
  - `filter`;
  - removing every occurrence of a value;
  - a stable sort by an integer key. This is what `Array.prototype.sort`
    does with the client's comparators. MongoDB's `sort` returns rooms or
    posts with equal keys in no fixed order. The room list and the liked
    posts are specified only up to that order: every entry once, keys
    descending.

Conventions used throughout:

- A field or id that a request leaves out is written `""`. Mongoose's
  `required` rejects it, as it rejects the empty string.
- JWT verification is the parameter `verify`. It maps a token to the `id`
  claim when it accepts the token.
- bcrypt's compare is the parameter `matches`. What `bcrypt.hash` returns is
  passed in as a value.
- New ObjectIds and clock readings are parameters.
- In the chat server and the client components, a boolean parameter says
  whether a `save` or a request succeeds, where the code's `try`/`catch`
  depends on it. The REST routes have no such parameter. Their writes are
  taken to succeed, apart from the failures below.
- A `save` whose document fails validation, or that reuses an existing
  `_id`, gives `Fail(500, "Server error")`.
- Mongoose's `trim` setter on `name` is taken to apply to query filters too.
  So `Room.findOne({ name })` looks for the trimmed name.

The model follows the code in these places, because the code differs from
what one might expect:

- **Whitespace-only chat messages.** The server stores and broadcasts them.
  Only the client refuses them: `ChatPage.HandleSendMessage` does so, and
  `Text.TrimEmptyIffBlank` proves that its guard is exactly "only
  whitespace". The server's schema refuses only an empty content.
- **A failed `save` in `join-room` still subscribes the socket.** The
  subscription happens before the save. The caller then gets only the error
  `Failed to join room`.
- **A failed user lookup in `send-message`.** The message is stored but not
  broadcast. The sender gets `Failed to send message`.
- **`disconnect` only logs.** The transport removes the socket from every
  live room. The stored participants stay as they are.
- **`leave-room` before the fetch in `handleJoinRoom`.** The client emits
  `leave-room` for the old room before fetching the new one. When the fetch
  fails, the page keeps the old room as active, although it has already
  left that room on the server.
- **Renaming a room to its own name with surrounding spaces.** The room
  update compares the request's untrimmed name with the stored name. The
  name lookup does not exclude the room being edited. So this rename is
  refused with `Room name already exists`.

## Model

| member | source | states |
|---|---|---|
| `RoomSchema.NewRoomValid` | backend/models/Room.js:3-50 | a new room stores the trimmed name, an empty message log, `createdAt = now` and `isActive = true`; it passes validation exactly when the name is not blank and topic, description and creator are given |
| `RoomSchema.StorePreservesInvariant` | backend/models/Room.js:4-22 | storing a valid room whose participants are listed without repeats keeps the collection valid, its names unique and every participant list free of repeats, provided the room keeps the name already stored under its id or takes a name no room holds |
| `RoomSchema.MakeMessage` | backend/models/Room.js:27-41 | a message is valid exactly when its user and its content are present |
| `RoomSchema.Appended` | backend/index.js:97 | the log grows by exactly one message at the end; earlier messages and every other field are unchanged; a valid room stays valid exactly when the message is valid |
| `RoomSchema.WithParticipant` | backend/index.js:64-67 | afterwards the user is listed; the list grows only when they were absent, keeps its prefix, and has exactly the old members plus the user; nothing else changes |
| `RoomSchema.ParticipantCount` | backend/index.js:64-67 | a join lists the joining user once more only if they were absent, and no other user's count changes |
| `RoomSchema.RepeatedJoinsListOnce` | backend/index.js:64-67 | for a user listed at most once beforehand, any positive number of joins by that user leaves them listed exactly once |
| `RoomSchema.StoredRoomJoinsListOnce` | backend/index.js:64-67 | in every room of a store whose participant lists have no repeats (an invariant of `RoomStore` and `Server`), any positive number of joins by one user leaves them listed exactly once |
| `Text.TrimmedIff` | backend/models/Room.js:8 | a string is trimmed (no whitespace at either end) exactly when `trim` leaves it unchanged, and `trim` always yields a trimmed string |
| `Text.TrimIdempotent` | backend/models/Room.js:8 | trimming twice is trimming once |
| `Text.TrimEmptyIffBlank` | frontend/src/components/ChatRooms.jsx:87 | `trim` yields the empty string exactly when every character is whitespace |
| `Text.ContainsIff` | frontend/src/components/Home.jsx:117-118 | `includes` holds exactly when the needle occurs at some index of the haystack |
| `RoomRoutes.Edited` | backend/routes/rooms.js:86-88 | an edit sets the name to the trimmed request name and sets topic and description; every other field is unchanged |
| `RoomRoutes.EditKeepsName` | backend/routes/rooms.js:79-88 | an edit that resends the stored name of a valid room leaves the name as it is |
| `RoomRoutes.RoomStore.List` | backend/routes/rooms.js:7-16 | returns every stored room exactly once, each paired with its id, ordered by `createdAt` descending |
| `RoomRoutes.RoomStore.Get` | backend/routes/rooms.js:46-61 | the stored room when the id exists, otherwise 404 `Room not found` |
| `RoomRoutes.RoomStore.Create` | backend/routes/rooms.js:19-43 | a taken name gives 400 `Room name already exists` and stores nothing; otherwise the room is stored with creator = requester, participants = [requester] and the defaults; an invalid room gives 500; names stay unique and no participant is listed twice; the reply is the new room's id, where the route replies with the whole document |
| `RoomRoutes.RoomStore.Update` | backend/routes/rooms.js:64-95 | 404 before 403 for a non-creator; the name check runs only when the request's name differs from the stored one; success changes only name, topic and description; every failure leaves the store unchanged |
| `RoomRoutes.RoomStore.Delete` | backend/routes/rooms.js:98-116 | 404 before 403 for a non-creator; on success exactly that room is removed |
| `ChatServer.Authenticate` | backend/index.js:35-48 | accepted exactly when a non-empty token is present and verifies, with the session user being the token's `id`; every refusal is `Authentication error` |
| `ChatServer.Subscribed` | backend/index.js:63 | the room gains the socket and no other room changes |
| `ChatServer.Unsubscribed` | backend/index.js:78 | the room loses the socket and no other room changes; leaving a room one is not in changes nothing |
| `ChatServer.Disconnected` | backend/index.js:109-111 | the socket is in no room afterwards, and every room keeps its other subscribers |
| `ChatServer.JoinThenLeave` | backend/index.js:63-80 | joining a room and leaving it again restores every room's subscribers, for a socket that was not subscribed |
| `ChatServer.Server.Connect` | backend/index.js:35-48 | a session is opened exactly for an accepted handshake, with the token's user |
| `ChatServer.Server.JoinRoom` | backend/index.js:55-74 | a missing room gives `Room not found` to the caller only and changes nothing; otherwise the socket is subscribed, the user is added once, `room-joined` goes to the caller and `user-joined` to the other subscribers; a failed save gives only `Failed to join room` and leaves the participants as stored |
| `ChatServer.Server.LeaveRoom` | backend/index.js:77-80 | only the subscription is dropped; participants are unchanged; `user-left` goes to the remaining subscribers |
| `ChatServer.Server.SendMessage` | backend/index.js:83-107 | a missing room gives `Room not found` and no log changes; a failed save or a message without content gives only `Failed to send message`; otherwise exactly one message is appended, and `new-message` goes to every subscriber including the sender, unless the author lookup throws |
| `ChatServer.Server.Disconnect` | backend/index.js:109-111 | the socket leaves every room and its session ends; stored rooms are unchanged and nothing is emitted |
| `UserRoutes.StoreKeepsDistinct` | backend/routes/users.js:15-31 | storing a user whose username and email no other user holds keeps usernames and emails distinct |
| `UserRoutes.LikedPosts` | backend/routes/users.js:136-145 | returns exactly the posts whose likes list the user, with none invented or duplicated, newest first |
| `UserRoutes.WithoutPassword` | backend/routes/users.js:128-129 | the profile reply is a document with the user's id that, with the stored password put back, is the stored user |
| `UserRoutes.UserStore.Register` | backend/routes/users.js:10-42 | refused with `User already exists` when any user has the same email or the same username; otherwise stores the hashed password and replies with only id, username and email |
| `UserRoutes.UserStore.Login` | backend/routes/users.js:45-70 | succeeds exactly when a user with that email has a matching password; an unknown email and a wrong password give the identical `Invalid credentials` |
| `UserRoutes.UserStore.UpdateProfile` | backend/routes/users.js:83-133 | the uniqueness check runs only when username or email changed, and excludes the user; a new password needs a current password that matches, otherwise 400 and nothing is saved; the password changes only then; username and email are always set on success, and the reply is the stored user without its password, bookmarks included |
| `UserRoutes.UserStore.AddBookmark` | backend/routes/users.js:162-174 | a present bookmark gives `Post already bookmarked` and nothing changes; otherwise the id is appended at the end |
| `UserRoutes.UserStore.RemoveBookmark` | backend/routes/users.js:177-186 | every occurrence of the id is dropped, and removing an absent id succeeds |
| `UserRoutes.BookmarkRoundTrip` | backend/routes/users.js:162-186 | adding a new bookmark and removing it gives the list back |
| `UserRoutes.RemoveBookmarkKeepsOthers` | backend/routes/users.js:180 | removal works segment by segment, so other ids keep their order, and no other id's count changes |
| `CommentRoutes.PushComment` | backend/routes/comments.js:19-21 | the post gains the id at the end of its list; other posts are unchanged; a missing post changes nothing |
| `CommentRoutes.PullComment` | backend/routes/comments.js:44-46 | the post loses every occurrence of the id; other posts are unchanged |
| `CommentRoutes.PushThenPull` | backend/routes/comments.js:19-46 | pulling a freshly pushed comment id gives back the posts as they were |
| `CommentRoutes.CommentStore.Create` | backend/routes/comments.js:8-28 | the comment has author = requester and post = postId and is stored; its id is appended to that post's list; every listed id names a comment of that post |
| `CommentRoutes.CommentStore.Delete` | backend/routes/comments.js:31-53 | 404 for a missing comment; 401 for a non-author with nothing changed; on success the comment is removed and its id is pulled from its post, other posts unchanged |
| `Home.MatchesAtIff` | frontend/src/components/Home.jsx:117-118 | the lower-cased term occurs at an index of the lower-cased text exactly when each of its characters equals the text's character there, up to the case of letters |
| `Home.MentionsIff` | frontend/src/components/Home.jsx:117-118 | the search is a case-insensitive substring test, and the empty term matches every text |
| `Home.EmptyTermKeepsCategory` | frontend/src/components/Home.jsx:114-119 | an empty search term keeps exactly the posts of the chosen category, or every post for `all` |
| `Home.CompareIsKeyDifference` | frontend/src/components/Home.jsx:120-126 | the comparator is the difference of an integer key |
| `Home.FilteredPosts` | frontend/src/components/Home.jsx:114-126 | a reordering of a subset of the posts that contains every post the filter keeps and only those, sorted by the comparator's key |
| `Home.SortOrders` | frontend/src/components/Home.jsx:120-124 | `newest` sorts by `createdAt` descending, `oldest` ascending, `mostComments` by comment count descending, and `mostLiked` puts liked posts before the rest |
| `Home.OtherSortKeepsOrder` | frontend/src/components/Home.jsx:125 | any other sort option keeps the filtered posts in their original order |
| `Home.Liked` | frontend/src/components/Home.jsx:78-84 | each post with that id gets the user appended to its likes; every other post is unchanged |
| `Home.Unliked` | frontend/src/components/Home.jsx:66-76 | each post with that id loses the user from its likes; every other post is unchanged |
| `Home.LikeThenUnlike` | frontend/src/components/Home.jsx:65-85 | unliking after liking gives the posts back, for a user who had not liked the post |
| `Home.Toggled` | frontend/src/components/Home.jsx:98-108 | membership of the id flips and no other id changes |
| `Home.ToggleTwice` | frontend/src/components/Home.jsx:98-108 | toggling twice gives the set back |
| `Home.HomePage.Visible` | frontend/src/components/Home.jsx:114-126 | the visible posts are a sub-multiset of the page's posts; they are exactly the posts the filter keeps, sorted by the key whose differences the comparator returns, where "liked" means in the page's `likedPosts` |
| `Home.HomePage.HandleLike` | frontend/src/components/Home.jsx:58-89 | no user: navigate to login and change nothing; a failed request changes nothing; otherwise the liked set and the post's likes gain or lose the entry together |
| `Home.HomePage.HandleBookmark` | frontend/src/components/Home.jsx:91-112 | no user: navigate to login and change nothing; otherwise a successful request toggles the post in the bookmarked set |
| `ChatClient.StoredLines` | frontend/src/components/ChatRooms.jsx:47-49 | the shown log is the room's message log, entry for entry |
| `ChatClient.AfterEvent` | frontend/src/components/ChatRooms.jsx:47-57 | `room-joined` replaces the log; `new-message` appends one line and leaves earlier lines unchanged; other events leave the log |
| `ChatClient.AppendBroadcasts` | frontend/src/components/ChatRooms.jsx:51-53 | a run of `new-message` events appends one line per event, in arrival order |
| `ChatClient.JoinedThenBroadcast` | frontend/src/components/ChatRooms.jsx:47-53 | after `room-joined` and then broadcasts, the log is the room's stored log followed by the broadcasts, in arrival order |
| `ChatClient.InStepAfterJoin` | frontend/src/components/ChatRooms.jsx:47-49 | after `room-joined` the page shows the content and time of every stored message, in order |
| `ChatClient.InStepAfterBroadcast` | frontend/src/components/ChatRooms.jsx:51-53 | a page in step with the server's log stays in step when the message the server appended is broadcast to it |
| `ChatClient.ChatPage.OnEvent` | frontend/src/components/ChatRooms.jsx:47-57 | the log is updated as `AfterEvent` says, and nothing else changes |
| `ChatClient.ChatPage.Type` | frontend/src/components/ChatRooms.jsx:180 | the message box takes the typed text |
| `ChatClient.ChatPage.HandleJoinRoom` | frontend/src/components/ChatRooms.jsx:71-83 | `leave-room` for the old room comes before `join-room` for the new one; a failed fetch sets the error, keeps `activeRoom` and emits no `join-room` |
| `ChatClient.ChatPage.HandleSendMessage` | frontend/src/components/ChatRooms.jsx:85-95 | nothing happens for blank input or no active room; otherwise the untrimmed text is sent to the active room and the box is cleared |
| `Profile.WithField` | frontend/src/components/Profile.jsx:77 | the named field takes the value and every other field keeps its own |
| `Profile.Validate` | frontend/src/components/Profile.jsx:88-100 | passes exactly when no new password is typed, or it matches its confirmation and a current password is given; a mismatch is reported before a missing current password |
| `Profile.ValidRequestHasCurrentPassword` | frontend/src/components/Profile.jsx:95-108 | a request that passed the checks never meets the profile route's `MissingCurrentPassword` refusal, and the client's own refusal for that reason uses the route's message |
| `Profile.FailureText` | frontend/src/components/Profile.jsx:121 | the server's non-empty message, otherwise `Failed to update profile` |
| `Profile.ProfilePage.constructor` | frontend/src/components/Profile.jsx:10-36 | the form starts with the user's username and email and empty password fields |
| `Profile.ProfilePage.HandleChange` | frontend/src/components/Profile.jsx:76-80 | only the named field changes, and error and success are cleared |
| `Profile.ProfilePage.HandleSubmit` | frontend/src/components/Profile.jsx:82-125 | a failed check sets its error and sends nothing; on success the three password fields are cleared, username and email are kept, editing ends and the success message is set; on failure the error comes from `FailureText`; loading always ends |

## Left out

- Concurrency. The handlers and routes run as atomic, sequential steps. The
  read-then-write race in `join-room` is not modelled.
- Socket.IO transport. Delivery is returned as a list of emits, each with
  its recipient set. The transport's reconnection and buffering are not
  modelled.
- JWT signing and verification, and bcrypt. These are cryptographic calls.
  They are parameters (`verify`, `matches`, the hash values), and the
  signed token in the register and login replies is not modelled.
- MongoDB and Mongoose persistence. This covers the queries, `populate`,
  `deleteOne`, connection setup and ObjectId casting. A malformed id makes
  `findById` throw. It is treated as an id that is not found. So the REST
  routes answer 404 where the code answers 500. In `join-room` and
  `send-message` the model emits `Room not found`, where the code's `catch`
  emits `Failed to join room` or `Failed to send message`.
- `populate` of display names in the room and post routes is not modelled.
  `RoomStore.Get` and `RoomStore.Update` return the stored document.
- `RoomRoutes.RoomStore.Create` replies with the new room's id, not with the
  populated document that the route sends back.
- `GET /users/me` and `GET /users/me/bookmarks` are not modelled. They are
  lookups whose replies consist of populated documents.
- The User, Post and Comment models, the posts routes and the auth
  middleware are not part of this model. So `Post`, `User` and `Comment`
  hold only the fields these routes read and write, and no validation is
  assumed for them.
- Write failures in the REST routes are not modelled. Each route answers
  500 `Server error` from its `catch` when a write throws. This covers
  `RoomStore.Create`, `Update` and `Delete`, `UserStore.Register`,
  `UpdateProfile`, `AddBookmark` and `RemoveBookmark`, and
  `CommentStore.Create` and `Delete`. Only the failures that come from the
  data are modelled: a duplicate `_id`, a failed validation, and a missing
  user.
- `CommentRoutes.CommentStore`: each route is one atomic step, so the
  model cannot reach the two partial states that the routes' separate
  writes allow:
  - a comment that was saved but whose id was never pushed onto its post
    (`Create`, when the `$push` fails after the `save`);
  - a comment id that was pulled from its post but whose comment was not
    deleted (`Delete`, when `deleteOne` fails after the `$pull`).
- Express plumbing, CORS and `server.listen`. Error replies are
  `Fail(status, message)`.
- React rendering, effects, routing and loading spinners, and the page's
  initial data fetches. Client state is modelled after those fetches.
- `RoomSchema.MakeMessage`: `createdAt` is the clock reading the chat server
  passes in. The schema's `Date.now` default is the same reading.
- `Text.LowerChar`: `toLowerCase` is modelled for ASCII letters only. Other
  characters are left as they are.
- `Home.Compare`: `new Date(x) - new Date(y)` on dates is modelled as
  subtraction of integer timestamps.
