# Group chat: mediator and coupled versions

This project models the two group chats of the repository and proves what
each of them delivers to whom.

- **ChatRoom** (`chat_room.dfy`) is the mediator version.
  - `ChatRoomMediator` owns the ordered member list and applies every routing rule: join, leave, group message, private message, mute, and the system broadcast.
  - `ChatUser` holds only its constant name, its mute flag and a back-reference to the room. Every intent is forwarded under the user's own name, and nothing happens when no room is attached.
- **LegacyChat** (`legacy_chat.dfy`) is the coupled version of `Challenge.cs`.
  - Every `ChatUser` keeps its own member list and delivers messages and notices itself.
  - Muted recipients are skipped, and a muted user's private messages are blocked.
  - A mute notice skips both the actor and the target.
  - Leaving empties the leaver's own list and removes the leaver from the other members' lists.
- **Sequences** (`sequences.dfy`) states the .NET list operations both versions use on Dafny sequences:
  - `List<T>.Remove` is `RemoveFirst`, specified through `IndexOf`, the position of the first occurrence;
  - `Where(u => u != x)` is `Without`.
  - It also proves their multiset and order properties.

In ChatRoom, the lookups `First` and `FirstOrDefault` by name are one
function, `FirstNamed`, which gives the index of the first member with that
name, or nothing.

Users are class objects, so `u != sender` and `member != this` are reference
comparisons, as in C#.

Every `Console.WriteLine` that delivers something to a user becomes an event.
The event is appended to a `Console` object's `events` log, which each
operation receives as a parameter. Every operation is proved against a
specification function of that log: `Deliveries`, `MessageEvents` and
`PrivateEvents` in ChatRoom, and `Notifications` and `Messages` in LegacyChat.
Separate lemmas then prove the audience properties of those functions:

- who is reached;
- how often each member is reached;
- in which order;
- who is never reached.

`_users.First(u => u.Name == from)` in `SendMessage` throws when no member has
that name. The model does not exclude that case with a precondition. Instead,
`SendMessage` returns `Outcome.InvalidOperation` and logs nothing, and
`ChatUser.Send` passes the same outcome on.

## Model

| member | source | states |
|---|---|---|
| Sequences.IndexOf | src/Mediator.Application/Services/ChatRoomService.cs:19 | the first occurrence, at which `List.Remove` cuts (here and at Challenge.cs:88): the position holds `x` and no earlier position does |
| Sequences.RemoveFirst | src/Mediator.Application/Services/ChatRoomService.cs:19 | `List.Remove` leaves a list that does not contain the element unchanged; the cut and the counts are the two lemmas below |
| Sequences.RemoveFirstCutsAtIndex | src/Mediator.Application/Services/ChatRoomService.cs:19 | when the element occurs, `List.Remove` cuts the list at its first occurrence and keeps everything before and after in order |
| Sequences.RemoveFirstCounts | Challenge.cs:88 | `Remove` takes out exactly one copy of the element when there is one, and every other element keeps its count |
| Sequences.Without | src/Mediator.Application/Services/ChatRoomService.cs:33 | the filtered list never contains the excluded element |
| Sequences.WithoutKeepsOthers | src/Mediator.Application/Services/ChatRoomService.cs:33 | `Where(u => u != x)` keeps every copy of every other element, in the original order |
| Sequences.WithoutAppend | src/Mediator.Application/Services/ChatRoomService.cs:33-34 | filtering a concatenation filters each part, so a `foreach` can build the filtered list one member at a time |
| Sequences.RemoveTimesCounts | Challenge.cs:83-89 | removing the first `x` k times takes out min(k, count) copies of `x`, and every other element keeps its count |
| Sequences.RemoveTimesAll | Challenge.cs:83-89 | once k covers every copy of `x`, `x` is gone |
| Sequences.SubsequenceTransitive | Challenge.cs:106 | order is kept through successive filters, as when the mute loop skips both the actor and the target (and when the message loop at Challenge.cs:60 skips the sender and the muted) |
| ChatRoom.FirstNamed | src/Mediator.Application/Services/ChatRoomService.cs:25 | the lookup by name returns the first member with that name, or nothing when no member has it |
| ChatRoom.Deliveries | src/Mediator.Application/Services/ChatRoomService.cs:33-34 | a delivery loop emits exactly as many events as it has recipients; the order and contents are `DeliveriesShape` |
| ChatRoom.DeliveriesShape | src/Mediator.Application/Services/ChatRoomService.cs:52-56 | a delivery loop emits exactly one `Receive(from, message)` per recipient, in list order |
| ChatRoom.DeliveriesAppend | src/Mediator.Application/Services/ChatRoomService.cs:54-55 | delivering to two lists in turn is delivering to their concatenation |
| ChatRoom.AddresseesOfDeliveries | src/Mediator.Application/Services/ChatRoomService.cs:54-55 | the recipients of a delivery loop are exactly its list, in order, duplicates included |
| ChatRoom.MessageEvents | src/Mediator.Application/Services/ChatRoomService.cs:23-35 | the lookup fails, so that `First` would throw, exactly when no member has the sender's name |
| ChatRoom.UnmutedSendAudience | src/Mediator.Application/Services/ChatRoomService.cs:33-34 | an unmuted sender's message reaches every other member object as often as it is listed and in list order, muted members included; it never reaches the sender; every event carries `from` and the message |
| ChatRoom.PrivateEvents | src/Mediator.Application/Services/ChatRoomService.cs:37-41 | at most one event; none exactly when no member has the name `to`; otherwise a `Receive` with text "Private - " + message to the first member named `to`: a member listed at some position before which no member has that name |
| ChatRoom.SendMessageSkipsSender | src/Mediator.Application/Services/ChatRoomService.cs:25-34 | when the first member named `from` is not muted, the message goes out, that member object is not among the recipients, and every other member is reached as often as it is listed |
| ChatRoom.LeaverHearsNothing | src/Mediator.Application/Services/ChatRoomService.cs:17-21 | a user listed at most once is not among the recipients of its own leave notice |
| ChatRoom.JoinThenLeave | src/Mediator.Application/Services/ChatRoomService.cs:10-21 | joining a room one was not in and then leaving restores the member list |
| ChatRoom.ChatUser.constructor | src/Mediator.Domain/Chat/ChatUser.cs:5-10 | a new user has the given name, is not muted and has no mediator |
| ChatRoom.ChatUser.Mute | src/Mediator.Domain/Chat/ChatUser.cs:12-15 | the flag is set and nothing else changes |
| ChatRoom.ChatUser.SetMediator | src/Mediator.Domain/Chat/ChatUser.cs:17-18 | the back-reference is replaced unconditionally and nothing else changes |
| ChatRoom.ChatUser.Send | src/Mediator.Domain/Chat/ChatUser.cs:20-21 | without a mediator nothing happens; with one, the log and the outcome are those of the room's `SendMessage` under the user's own name |
| ChatRoom.ChatUser.SendPrivate | src/Mediator.Domain/Chat/ChatUser.cs:23-24 | without a mediator nothing happens; with one, the log is that of the room's `SendPrivateMessage` from the user's own name |
| ChatRoom.ChatUser.Join | src/Mediator.Domain/Chat/ChatUser.cs:26-27 | without a mediator nothing happens; with one, the user is appended again and everyone is notified |
| ChatRoom.ChatUser.Leave | src/Mediator.Domain/Chat/ChatUser.cs:29-30 | without a mediator nothing happens; with one, the first occurrence is removed and the remaining members are notified |
| ChatRoom.ChatUser.MuteTarget | src/Mediator.Domain/Chat/ChatUser.cs:32-33 | without a mediator nothing happens; with one, the room's `Mute` runs with the user's own name as moderator |
| ChatRoom.ChatUser.Receive | src/Mediator.Domain/Chat/ChatUser.cs:35-36 | appends one `Receive` event addressed to this user |
| ChatRoom.ChatUser.Notify | src/Mediator.Domain/Chat/ChatUser.cs:38-39 | appends one `Notify` event addressed to this user |
| ChatRoom.ChatRoomMediator.constructor | src/Mediator.Application/Services/ChatRoomService.cs:8 | a new room has no members |
| ChatRoom.ChatRoomMediator.Join | src/Mediator.Application/Services/ChatRoomService.cs:10-15 | the user is appended with no duplicate check; its mediator becomes this room; every member of the new list, the joiner included, receives one "entrou no grupo" from "Sistema", in list order |
| ChatRoom.ChatRoomMediator.Leave | src/Mediator.Application/Services/ChatRoomService.cs:17-21 | the first occurrence is removed, or nothing if absent; the remaining members receive "saiu do grupo"; the leaver's back-reference is kept |
| ChatRoom.ChatRoomMediator.SendMessage | src/Mediator.Application/Services/ChatRoomService.cs:23-35 | an unknown sender gives `InvalidOperation` and no event; a muted sender gets one `Notify` "Você está mutado"; otherwise every member that is not the sender object receives the message, in list order; the member list is unchanged |
| ChatRoom.ChatRoomMediator.DeliverToOthers | src/Mediator.Application/Services/ChatRoomService.cs:33-34 | the `foreach` over `Where(u => u != sender)` logs one `Receive` per other member, in list order |
| ChatRoom.ChatRoomMediator.SendPrivateMessage | src/Mediator.Application/Services/ChatRoomService.cs:37-41 | the log grows by `PrivateEvents`, whatever the sender's mute flag; the member list is unchanged |
| ChatRoom.ChatRoomMediator.Mute | src/Mediator.Application/Services/ChatRoomService.cs:43-50 | an unknown target changes no flag and logs nothing; otherwise the first member with that name is muted, no other flag changes, and every member, target and moderator included, receives the notice; the member list is unchanged |
| ChatRoom.ChatRoomMediator.Broadcast | src/Mediator.Application/Services/ChatRoomService.cs:52-56 | one `Receive(from, message)` per member, in list order |
| LegacyChat.Notifications | Challenge.cs:35-41 | a notification loop emits exactly as many notices as it has recipients; the order and contents are `NotificationsShape` |
| LegacyChat.Messages | Challenge.cs:58-64 | a message loop emits exactly as many messages as it has recipients; the order and contents are `MessagesShape` |
| LegacyChat.Unmuted | Challenge.cs:60 | skipping muted members never lengthens the list; what it keeps is `UnmutedKeepsUnmuted` |
| LegacyChat.NotificationsShape | Challenge.cs:123-126 | a notification loop emits exactly one notice per recipient, in list order |
| LegacyChat.MessagesShape | Challenge.cs:113-116 | a message loop emits exactly one message per recipient, in list order |
| LegacyChat.NotificationsAppend | Challenge.cs:35-41 | notifying two lists in turn is notifying their concatenation |
| LegacyChat.MessagesAppend | Challenge.cs:58-64 | messaging two lists in turn is messaging their concatenation |
| LegacyChat.UnmutedOthers | Challenge.cs:58-64 | the group message reaches each member that is neither the sender nor muted, as often as it is listed and in list order, and nobody else |
| LegacyChat.UnmutedKeepsUnmuted | Challenge.cs:60 | skipping muted members keeps every copy of every unmuted member, in order |
| LegacyChat.MuteNoticeAudience | Challenge.cs:104-110 | the mute notice reaches each member that is neither the actor nor the target, as often as it is listed and in list order |
| LegacyChat.OccurrencesCount | Challenge.cs:83-89 | the count the leave loop keeps per member is that member's multiplicity in the leaver's list |
| LegacyChat.LeaverGone | Challenge.cs:83-89 | a member listed in the leaver's list at least as often as it lists the leaver no longer lists the leaver afterwards, and keeps every other entry |
| LegacyChat.ChatUser.constructor | Challenge.cs:23-28 | a new user has the given name, is not muted and has an empty member list |
| LegacyChat.ChatUser.JoinGroup | Challenge.cs:30-44 | the given list is adopted and every member that is not this user is notified "entrou no grupo", once per listing, in list order |
| LegacyChat.ChatUser.SendMessage | Challenge.cs:46-65 | a muted sender delivers nothing; otherwise each member that is neither the sender nor muted receives the message, in list order |
| LegacyChat.ChatUser.SendPrivateMessage | Challenge.cs:67-78 | a muted sender delivers nothing; otherwise exactly one private message goes to the recipient, member or not |
| LegacyChat.ChatUser.LeaveGroup | Challenge.cs:80-94 | every other member is notified "saiu do grupo" in list order; each other member's list loses one copy of the leaver per time that member is visited; the leaver's own list ends empty |
| LegacyChat.ChatUser.SayGoodbyeTo | Challenge.cs:85-89 | one visit of the leave loop: the member's list becomes exactly its old list after `Remove` of the leaver, it receives one notice, and the loop's per-member removal count and notice log advance by this member |
| LegacyChat.ChatUser.MuteUser | Challenge.cs:96-111 | the target is muted with no permission check; every member that is neither the actor nor the target is notified, in list order |
| LegacyChat.ChatUser.ReceiveMessage | Challenge.cs:113-116 | appends one message event addressed to this user |
| LegacyChat.ChatUser.ReceivePrivateMessage | Challenge.cs:118-121 | appends one private-message event addressed to this user |
| LegacyChat.ChatUser.ReceiveNotification | Challenge.cs:123-126 | appends one notice event addressed to this user |

## Left out

- Console rendering is not modelled. Deliveries are abstract events holding the recipient, the sender name and the text; the bracketed prefixes, arrows and emoji are not reproduced.
- The legacy user's reports about its own actions are not logged (Challenge.cs:43, 50, 54, 71, 76, 93, 101). Only deliveries to other users are.
- `IChatMediator` (src/Mediator.Domain/Abstractions/IChatMediator.cs) holds only signatures. It is folded into `ChatRoomMediator`, which is the type of the user's back-reference.
- The demo drivers (src/Mediator.Console/Program.cs and `Program.Main` in Challenge.cs:129-189) are not replayed.
- LegacyChat.ChatUser.LeaveGroup does not model aliased member lists: every user's list is a sequence value of its own. `Program.Main` in Challenge.cs:142-148 gives all users one shared `List`. With that list, the `Remove` inside the `foreach` invalidates the enumerator, and .NET throws; neither this nor any other effect of sharing is modelled.
- LegacyChat.ChatUser.SendMessage reads each recipient's mute flag inside the loop, as the source does. Its contract, however, is stated with the set of members muted when the call starts. No delivery changes a flag, so the two agree.
- The legacy `Name` setter (Challenge.cs:17) is never called, so the name is a constant in both versions.
- Null arguments are not modelled: a null user, a null recipient or a null target. In C# they raise `NullReferenceException`; in the model the types exclude them.
- That the mute flag never goes back to false is shown per operation: the only writes to it set it to true. It is not stated as a whole-program lemma.
