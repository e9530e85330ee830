/** The mediator version of the group chat (src/Mediator.Domain and
    src/Mediator.Application): a `ChatRoomMediator` owns the ordered member
    list and applies every routing rule, and each `ChatUser` holds only its
    own name, mute flag and a back-reference to the mediator it forwards its
    intents to. What users print is kept as an append-only log of events. */
module ChatRoom {
  import opened Sequences

  /** One line a user prints: `Receive` is "[name] from: message",
      `Notify` is "[name] - message". */
  datatype Event =
    | Receive(recipient: ChatUser, from: string, message: string)
    | Notify(recipient: ChatUser, message: string)

  /** The console, as the log of every line printed so far. */
  class Console {
    var events: seq<Event>

    constructor ()
      ensures events == []
    {
      events := [];
    }
  }

  /** How `SendMessage` ends: normally, or with the `InvalidOperationException`
      that `Enumerable.First` throws when no member has the sender's name. */
  datatype Outcome = Completed | InvalidOperation

  /** The sender name the room uses for its own notices. */
  const SystemName := "Sistema"

  /** The warning a muted sender gets back instead of a broadcast. */
  const MutedWarning := "Você está mutado"

  function JoinedNotice(name: string): string { name + " entrou no grupo" }

  function LeftNotice(name: string): string { name + " saiu do grupo" }

  function MutedNotice(target: string, moderator: string): string { target + " foi mutado por " + moderator }

  function PrivateText(message: string): string { "Private - " + message }

  /** `FirstOrDefault(u => u.Name == name)`, as the position of that member. */
  function FirstNamed(users: seq<ChatUser>, name: string): (r: Option<nat>)
    ensures r.Some? ==> r.value < |users| && users[r.value].name == name
    ensures forall j :: 0 <= j < |users| && (r.None? || j < r.value) ==> users[j].name != name
  {
    if users == [] then None
    else if users[0].name == name then Some(0)
    else
      match FirstNamed(users[1..], name)
      case None => None
      case Some(i) => Some(i + 1)
  }

  /** What a `foreach` over `recipients` calling `Receive(from, message)` prints. */
  function Deliveries(recipients: seq<ChatUser>, from: string, message: string): (r: seq<Event>)
    ensures |r| == |recipients|
  {
    if recipients == [] then []
    else [Receive(recipients[0], from, message)] + Deliveries(recipients[1..], from, message)
  }

  /** One `Receive(from, message)` per recipient, in recipient order, and nothing else. */
  lemma {:induction false} DeliveriesShape(recipients: seq<ChatUser>, from: string, message: string)
    ensures |Deliveries(recipients, from, message)| == |recipients|
    ensures forall i :: 0 <= i < |recipients| ==>
              Deliveries(recipients, from, message)[i] == Receive(recipients[i], from, message)
  {
    if recipients != [] {
      DeliveriesShape(recipients[1..], from, message);
    }
  }

  /** Delivering to two lists in turn is delivering to their concatenation. */
  lemma {:induction false} DeliveriesAppend(a: seq<ChatUser>, b: seq<ChatUser>, from: string, message: string)
    ensures Deliveries(a + b, from, message) == Deliveries(a, from, message) + Deliveries(b, from, message)
  {
    if a == [] {
      assert a + b == b;
    } else {
      assert (a + b)[1..] == a[1..] + b;
      DeliveriesAppend(a[1..], b, from, message);
    }
  }

  /** One more member at the end of a broadcast. */
  lemma DeliveriesSnoc(s: seq<ChatUser>, u: ChatUser, from: string, message: string)
    ensures Deliveries(s + [u], from, message) == Deliveries(s, from, message) + [Receive(u, from, message)]
  {
    DeliveriesAppend(s, [u], from, message);
  }

  /** One more member at the end of a delivery that skips `sender`. */
  lemma DeliveredSnoc(s: seq<ChatUser>, u: ChatUser, sender: ChatUser, from: string, message: string)
    ensures Deliveries(Without(s + [u], sender), from, message) ==
            Deliveries(Without(s, sender), from, message) + (if u == sender then [] else [Receive(u, from, message)])
  {
    WithoutSnoc(s, u, sender);
    if u != sender {
      DeliveriesSnoc(Without(s, sender), u, from, message);
    } else {
      assert Without(s, sender) + [] == Without(s, sender);
    }
  }

  /** The users the events are addressed to, in order. */
  function Addressees(events: seq<Event>): seq<ChatUser>
  {
    if events == [] then [] else [events[0].recipient] + Addressees(events[1..])
  }

  /** A delivery loop addresses exactly its recipient list, in order. */
  lemma {:induction false} AddresseesOfDeliveries(recipients: seq<ChatUser>, from: string, message: string)
    ensures Addressees(Deliveries(recipients, from, message)) == recipients
  {
    if recipients != [] {
      AddresseesOfDeliveries(recipients[1..], from, message);
    }
  }

  /** An unmuted sender's message reaches every member that is a different
      object, each as often as it is listed and in list order, and never the
      sender itself; muted recipients are not skipped. */
  lemma UnmutedSendAudience(users: seq<ChatUser>, sender: ChatUser, from: string, message: string)
    ensures multiset(Addressees(Deliveries(Without(users, sender), from, message))) == multiset(users)[sender := 0]
    ensures IsSubsequence(Addressees(Deliveries(Without(users, sender), from, message)), users)
    ensures forall e | e in Deliveries(Without(users, sender), from, message) :: e == Receive(e.recipient, from, message)
  {
    var events := Deliveries(Without(users, sender), from, message);
    AddresseesOfDeliveries(Without(users, sender), from, message);
    WithoutKeepsOthers(users, sender);
    DeliveriesShape(Without(users, sender), from, message);
    forall e | e in events
      ensures e == Receive(e.recipient, from, message)
    {
      var i :| 0 <= i < |events| && events[i] == e;
    }
  }

  /** When the first member named `from` is not muted, `SendMessage` reaches
      every other member object, as often as it is listed, and never that
      sender. */
  lemma SendMessageSkipsSender(users: seq<ChatUser>, from: string, message: string)
    requires FirstNamed(users, from).Some? && !users[FirstNamed(users, from).value].isMuted
    ensures MessageEvents(users, from, message).Some?
    ensures var sender := users[FirstNamed(users, from).value];
            sender !in Addressees(MessageEvents(users, from, message).value) &&
            multiset(Addressees(MessageEvents(users, from, message).value)) == multiset(users)[sender := 0]
  {
    var sender := users[FirstNamed(users, from).value];
    UnmutedSendAudience(users, sender, from, message);
    assert multiset(Addressees(MessageEvents(users, from, message).value))[sender] == 0;
  }

  /** A user listed at most once hears nothing of its own leaving: the notice
      goes only to the members that remain. */
  lemma LeaverHearsNothing(users: seq<ChatUser>, user: ChatUser, text: string)
    requires multiset(users)[user] <= 1
    ensures user !in Addressees(Deliveries(RemoveFirst(users, user), SystemName, text))
  {
    var rest: seq<ChatUser> := RemoveFirst(users, user);
    RemoveFirstCounts(users, user);
    AddresseesOfDeliveries(rest, SystemName, text);
    assert user in users <==> multiset(users)[user] == 1;
    assert multiset(rest)[user] == 0;
    assert user in rest ==> multiset(rest)[user] > 0;
  }

  /** Leaving right after joining restores the member list of a room the
      user was not in. */
  lemma {:induction false} JoinThenLeave(users: seq<ChatUser>, user: ChatUser)
    requires user !in users
    ensures RemoveFirst(users + [user], user) == users
  {
    if users == [] {
      assert users + [user] == [user];
    } else {
      assert (users + [user])[1..] == users[1..] + [user];
      JoinThenLeave(users[1..], user);
    }
  }

  /** What `SendMessage(from, message)` prints; `None` when the lookup of the
      sender throws. A muted sender is warned; otherwise every member that is
      not the sender object receives the message, muted or not. */
  function MessageEvents(users: seq<ChatUser>, from: string, message: string): (r: Option<seq<Event>>)
    reads users
    ensures r.None? <==> forall j :: 0 <= j < |users| ==> users[j].name != from
  {
    match FirstNamed(users, from)
    case None => None
    case Some(i) =>
      var sender := users[i];
      Some(if sender.isMuted then [Notify(sender, MutedWarning)]
           else Deliveries(Without(users, sender), from, message))
  }

  /** What `SendPrivateMessage(from, to, message)` prints. It reads no mute flag. */
  function PrivateEvents(users: seq<ChatUser>, from: string, to: string, message: string): (r: seq<Event>)
    ensures |r| <= 1
    ensures r == [] <==> forall j :: 0 <= j < |users| ==> users[j].name != to
    ensures forall e | e in r :: e == Receive(e.recipient, from, PrivateText(message)) &&
                                 e.recipient in users && e.recipient.name == to
    ensures forall e | e in r :: exists i :: (0 <= i < |users| && users[i] == e.recipient &&
                                              forall j :: 0 <= j < i ==> users[j].name != to)
  {
    match FirstNamed(users, to)
    case None => []
    case Some(i) => [Receive(users[i], from, PrivateText(message))]
  }

  /** A participant: its own name, its mute flag and the mediator it forwards to. */
  class ChatUser {
    const name: string
    var isMuted: bool
    var mediator: ChatRoomMediator?

    constructor (name: string)
      ensures this.name == name && !isMuted && mediator == null
    {
      this.name := name;
      isMuted := false;
      mediator := null;
    }

    /** Sets the flag. Nothing in the room ever clears it. */
    method Mute()
      modifies this`isMuted
      ensures isMuted
    {
      isMuted := true;
    }

    /** Replaces the back-reference, whatever it was. */
    method SetMediator(mediator: ChatRoomMediator)
      modifies this`mediator
      ensures this.mediator == mediator
    {
      this.mediator := mediator;
    }

    /** Broadcasts through the mediator under this user's own name. */
    method Send(message: string, console: Console) returns (outcome: Outcome)
      modifies console
      ensures mediator == null ==> outcome == Completed && console.events == old(console.events)
      ensures mediator != null ==>
                match MessageEvents(mediator.users, name, message)
                case None => outcome == InvalidOperation && console.events == old(console.events)
                case Some(events) => outcome == Completed && console.events == old(console.events) + events
    {
      outcome := Completed;
      if mediator != null {
        outcome := mediator.SendMessage(name, message, console);
      }
    }

    /** Sends a private message through the mediator under this user's own name. */
    method SendPrivate(to: string, message: string, console: Console)
      modifies console
      ensures mediator == null ==> console.events == old(console.events)
      ensures mediator != null ==>
                console.events == old(console.events) + PrivateEvents(mediator.users, name, to, message)
    {
      if mediator != null {
        mediator.SendPrivateMessage(name, to, message, console);
      }
    }

    /** Asks the attached mediator to add this user (again). */
    method Join(console: Console)
      modifies mediator, this`mediator, console
      ensures mediator == old(mediator)
      ensures mediator == null ==> console.events == old(console.events)
      ensures mediator != null ==>
                mediator.users == old(mediator.users) + [this] &&
                console.events == old(console.events) + Deliveries(mediator.users, SystemName, JoinedNotice(name))
    {
      if mediator != null {
        mediator.Join(this, console);
      }
    }

    /** Asks the attached mediator to remove this user; the back-reference stays. */
    method Leave(console: Console)
      modifies mediator, console
      ensures mediator == null ==> console.events == old(console.events)
      ensures mediator != null ==>
                mediator.users == RemoveFirst(old(mediator.users), this) &&
                console.events == old(console.events) + Deliveries(mediator.users, SystemName, LeftNotice(name))
    {
      if mediator != null {
        mediator.Leave(this, console);
      }
    }

    /** Asks the attached mediator to mute `target`, with this user as moderator. */
    method MuteTarget(target: string, console: Console)
      modifies (if mediator == null then [] else mediator.users)`isMuted, console
      ensures mediator == null ==> console.events == old(console.events)
      ensures mediator != null ==>
                match FirstNamed(mediator.users, target)
                case None =>
                  console.events == old(console.events) &&
                  forall u | u in mediator.users :: u.isMuted == old(u.isMuted)
                case Some(i) =>
                  mediator.users[i].isMuted &&
                  (forall u | u in mediator.users && u != mediator.users[i] :: u.isMuted == old(u.isMuted)) &&
                  console.events == old(console.events) + Deliveries(mediator.users, SystemName, MutedNotice(target, name))
    {
      if mediator != null {
        mediator.Mute(name, target, console);
      }
    }

    /** Prints a delivered message. */
    method Receive(from: string, message: string, console: Console)
      modifies console
      ensures console.events == old(console.events) + [Event.Receive(this, from, message)]
    {
      console.events := console.events + [Event.Receive(this, from, message)];
    }

    /** Prints a notice addressed to this user alone. */
    method Notify(message: string, console: Console)
      modifies console
      ensures console.events == old(console.events) + [Event.Notify(this, message)]
    {
      console.events := console.events + [Event.Notify(this, message)];
    }
  }

  /** The room: the ordered member list (join order) and every routing rule. */
  class ChatRoomMediator {
    var users: seq<ChatUser>

    constructor ()
      ensures users == []
    {
      users := [];
    }

    /** Appends `user` with no duplicate check, attaches this room, and
        announces it to every member, the newcomer included. */
    method Join(user: ChatUser, console: Console)
      modifies this, user`mediator, console
      ensures users == old(users) + [user]
      ensures user.mediator == this
      ensures console.events == old(console.events) + Deliveries(users, SystemName, JoinedNotice(user.name))
    {
      users := users + [user];
      user.SetMediator(this);
      Broadcast(SystemName, JoinedNotice(user.name), console);
    }

    /** Removes the first occurrence of `user`, if any, and announces it to
        the members that remain. The user's back-reference is kept. */
    method Leave(user: ChatUser, console: Console)
      modifies this, console
      ensures users == RemoveFirst(old(users), user)
      ensures user.mediator == old(user.mediator)
      ensures console.events == old(console.events) + Deliveries(users, SystemName, LeftNotice(user.name))
    {
      users := RemoveFirst(users, user);
      Broadcast(SystemName, LeftNotice(user.name), console);
    }

    /** Routes a broadcast from the first member named `from`. */
    method SendMessage(from: string, message: string, console: Console) returns (outcome: Outcome)
      modifies console
      ensures match MessageEvents(users, from, message)
              case None => outcome == InvalidOperation && console.events == old(console.events)
              case Some(events) => outcome == Completed && console.events == old(console.events) + events
    {
      var found := FirstNamed(users, from);
      if found.None? {
        return InvalidOperation;
      }
      var sender := users[found.value];
      if sender.isMuted {
        sender.Notify(MutedWarning, console);
        return Completed;
      }
      DeliverToOthers(sender, from, message, console);
      outcome := Completed;
    }

    /** `foreach (var user in _users.Where(u => u != sender)) user.Receive(from, message)`. */
    method DeliverToOthers(sender: ChatUser, from: string, message: string, console: Console)
      modifies console
      ensures console.events == old(console.events) + Deliveries(Without(users, sender), from, message)
    {
      var members := users;
      for i := 0 to |members|
        invariant console.events == old(console.events) + Deliveries(Without(members[..i], sender), from, message)
      {
        assert members[..i + 1] == members[..i] + [members[i]];
        DeliveredSnoc(members[..i], members[i], sender, from, message);
        if members[i] != sender {
          members[i].Receive(from, message, console);
        }
      }
      assert members[..|members|] == members;
    }

    /** Delivers a private message to the first member named `to`, if there
        is one, whatever the sender's mute flag. */
    method SendPrivateMessage(from: string, to: string, message: string, console: Console)
      modifies console
      ensures console.events == old(console.events) + PrivateEvents(users, from, to, message)
    {
      var found := FirstNamed(users, to);
      if found.Some? {
        users[found.value].Receive(from, PrivateText(message), console);
      }
    }

    /** Mutes the first member named `target`, with no permission check, and
        announces it to every member; an unknown target changes nothing. */
    method Mute(moderator: string, target: string, console: Console)
      modifies users`isMuted, console
      ensures match FirstNamed(users, target)
              case None =>
                console.events == old(console.events) &&
                forall u | u in users :: u.isMuted == old(u.isMuted)
              case Some(i) =>
                users[i].isMuted &&
                (forall u | u in users && u != users[i] :: u.isMuted == old(u.isMuted)) &&
                console.events == old(console.events) + Deliveries(users, SystemName, MutedNotice(target, moderator))
    {
      var found := FirstNamed(users, target);
      if found.None? {
        return;
      }
      users[found.value].Mute();
      Broadcast(SystemName, MutedNotice(target, moderator), console);
    }

    /** One `Receive` per member, in list order. */
    method Broadcast(from: string, message: string, console: Console)
      modifies console
      ensures console.events == old(console.events) + Deliveries(users, from, message)
    {
      for i := 0 to |users|
        invariant console.events == old(console.events) + Deliveries(users[..i], from, message)
      {
        assert users[..i + 1] == users[..i] + [users[i]];
        DeliveriesSnoc(users[..i], users[i], from, message);
        users[i].Receive(from, message, console);
      }
      assert users[..|users|] == users;
    }
  }
}
