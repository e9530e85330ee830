/** The coupled group chat of Challenge.cs, before the mediator: every user
    keeps its own member list and delivers messages and notices itself, and
    leaving or muting edits the state of other users directly. What users
    print when something is delivered to them is kept as a log of events. */
module LegacyChat {
  import opened Sequences

  /** One delivery a user prints: a group message, a private message or a notice. */
  datatype Event =
    | Message(recipient: ChatUser, sender: string, text: string)
    | PrivateMessage(recipient: ChatUser, sender: string, text: string)
    | Notification(recipient: ChatUser, text: string)

  /** The console, as the log of every delivery printed so far. */
  class Console {
    var events: seq<Event>

    constructor ()
      ensures events == []
    {
      events := [];
    }
  }

  function JoinedNotice(name: string): string { name + " entrou no grupo" }

  function LeftNotice(name: string): string { name + " saiu do grupo" }

  function MutedNotice(target: string, moderator: string): string { target + " foi mutado por " + moderator }

  /** The users of `s` whose mute flag is on. */
  function MutedAmong(s: seq<ChatUser>): set<ChatUser>
    reads s
  {
    set u | u in s && u.isMuted
  }

  /** The users of `s` that are not in `muted`, in the order of `s`. */
  function Unmuted(s: seq<ChatUser>, muted: set<ChatUser>): (r: seq<ChatUser>)
    ensures |r| <= |s|
  {
    if s == [] then []
    else if s[0] in muted then Unmuted(s[1..], muted)
    else [s[0]] + Unmuted(s[1..], muted)
  }

  /** One `ReceiveNotification(text)` per recipient, in order. */
  function Notifications(recipients: seq<ChatUser>, text: string): (r: seq<Event>)
    ensures |r| == |recipients|
  {
    if recipients == [] then []
    else [Notification(recipients[0], text)] + Notifications(recipients[1..], text)
  }

  /** One `ReceiveMessage(sender, text)` per recipient, in order. */
  function Messages(recipients: seq<ChatUser>, sender: string, text: string): (r: seq<Event>)
    ensures |r| == |recipients|
  {
    if recipients == [] then []
    else [Message(recipients[0], sender, text)] + Messages(recipients[1..], sender, text)
  }

  /** One notice per recipient, in recipient order, and nothing else. */
  lemma {:induction false} NotificationsShape(recipients: seq<ChatUser>, text: string)
    ensures |Notifications(recipients, text)| == |recipients|
    ensures forall i :: 0 <= i < |recipients| ==> Notifications(recipients, text)[i] == Notification(recipients[i], text)
  {
    if recipients != [] {
      NotificationsShape(recipients[1..], text);
    }
  }

  /** One message per recipient, in recipient order, and nothing else. */
  lemma {:induction false} MessagesShape(recipients: seq<ChatUser>, sender: string, text: string)
    ensures |Messages(recipients, sender, text)| == |recipients|
    ensures forall i :: 0 <= i < |recipients| ==> Messages(recipients, sender, text)[i] == Message(recipients[i], sender, text)
  {
    if recipients != [] {
      MessagesShape(recipients[1..], sender, text);
    }
  }

  /** Notifying two lists in turn is notifying their concatenation. */
  lemma {:induction false} NotificationsAppend(a: seq<ChatUser>, b: seq<ChatUser>, text: string)
    ensures Notifications(a + b, text) == Notifications(a, text) + Notifications(b, text)
  {
    if a == [] {
      assert a + b == b;
    } else {
      assert (a + b)[1..] == a[1..] + b;
      NotificationsAppend(a[1..], b, text);
    }
  }

  /** Messaging two lists in turn is messaging their concatenation. */
  lemma {:induction false} MessagesAppend(a: seq<ChatUser>, b: seq<ChatUser>, sender: string, text: string)
    ensures Messages(a + b, sender, text) == Messages(a, sender, text) + Messages(b, sender, text)
  {
    if a == [] {
      assert a + b == b;
    } else {
      assert (a + b)[1..] == a[1..] + b;
      MessagesAppend(a[1..], b, sender, text);
    }
  }

  /** Notifying one more member at the end of the list: the step of the
      loops in `JoinGroup` and `LeaveGroup`. */
  lemma NotifiedSnoc(s: seq<ChatUser>, u: ChatUser, actor: ChatUser, text: string)
    ensures Notifications(Without(s + [u], actor), text) ==
            Notifications(Without(s, actor), text) + (if u == actor then [] else [Notification(u, text)])
  {
    WithoutSnoc(s, u, actor);
    if u != actor {
      NotificationsAppend(Without(s, actor), [u], text);
    } else {
      assert Without(s + [u], actor) == Without(s, actor);
    }
  }

  /** One more member at the end of the list: the step of the loop in `MuteUser`. */
  lemma MuteNoticeSnoc(s: seq<ChatUser>, u: ChatUser, actor: ChatUser, target: ChatUser, text: string)
    ensures Notifications(Without(Without(s + [u], actor), target), text) ==
            Notifications(Without(Without(s, actor), target), text) +
            (if u == actor || u == target then [] else [Notification(u, text)])
  {
    WithoutSnoc(s, u, actor);
    if u != actor {
      NotifiedSnoc(Without(s, actor), u, target, text);
    } else {
      assert Without(s + [u], actor) == Without(s, actor);
    }
  }

  /** Filtering one more user at the end: the step of a loop that builds `Unmuted`. */
  lemma {:induction false} UnmutedSnoc(s: seq<ChatUser>, u: ChatUser, muted: set<ChatUser>)
    ensures Unmuted(s + [u], muted) == Unmuted(s, muted) + (if u in muted then [] else [u])
  {
    if s == [] {
      assert s + [u] == [u];
    } else {
      assert (s + [u])[0] == s[0] && (s + [u])[1..] == s[1..] + [u];
      UnmutedSnoc(s[1..], u, muted);
    }
  }

  /** One more member at the end of the list: the step of the loop in `SendMessage`. */
  lemma AudienceSnoc(s: seq<ChatUser>, u: ChatUser, sender: ChatUser, muted: set<ChatUser>)
    ensures Unmuted(Without(s + [u], sender), muted) ==
            Unmuted(Without(s, sender), muted) + (if u != sender && u !in muted then [u] else [])
  {
    WithoutSnoc(s, u, sender);
    if u != sender {
      UnmutedSnoc(Without(s, sender), u, muted);
    } else {
      assert Without(s + [u], sender) == Without(s, sender);
    }
  }

  /** One more member at the end of the list: the step of the loop in `SendMessage`. */
  lemma MessagedSnoc(s: seq<ChatUser>, u: ChatUser, sender: ChatUser, muted: set<ChatUser>, name: string, text: string)
    ensures Messages(Unmuted(Without(s + [u], sender), muted), name, text) ==
            Messages(Unmuted(Without(s, sender), muted), name, text) +
            (if u != sender && u !in muted then [Message(u, name, text)] else [])
  {
    AudienceSnoc(s, u, sender, muted);
    if u != sender && u !in muted {
      MessagesAppend(Unmuted(Without(s, sender), muted), [u], name, text);
    } else {
      assert Unmuted(Without(s + [u], sender), muted) == Unmuted(Without(s, sender), muted);
    }
  }

  /** The legacy group message reaches each member that is neither the sender
      nor muted, as often as it is listed, and in list order. */
  lemma UnmutedOthers(s: seq<ChatUser>, sender: ChatUser, muted: set<ChatUser>)
    ensures forall u :: multiset(Unmuted(Without(s, sender), muted))[u] ==
                        if u == sender || u in muted then 0 else multiset(s)[u]
    ensures IsSubsequence(Unmuted(Without(s, sender), muted), s)
  {
    WithoutKeepsOthers(s, sender);
    UnmutedKeepsUnmuted(Without(s, sender), muted);
    SubsequenceTransitive(Unmuted(Without(s, sender), muted), Without(s, sender), s);
  }

  /** `Unmuted` keeps every copy of every user outside `muted`, in order. */
  lemma {:induction false} UnmutedKeepsUnmuted(s: seq<ChatUser>, muted: set<ChatUser>)
    ensures forall u :: multiset(Unmuted(s, muted))[u] == if u in muted then 0 else multiset(s)[u]
    ensures IsSubsequence(Unmuted(s, muted), s)
  {
    if s != [] {
      assert s == [s[0]] + s[1..];
      UnmutedKeepsUnmuted(s[1..], muted);
      var rest := Unmuted(s[1..], muted);
      if s[0] !in muted {
        assert ([s[0]] + rest)[1..] == rest;
      }
    }
  }

  /** The notice of `MuteUser` reaches each member that is neither the actor
      nor the target, as often as it is listed, and in list order. */
  lemma MuteNoticeAudience(s: seq<ChatUser>, actor: ChatUser, target: ChatUser)
    ensures forall u :: multiset(Without(Without(s, actor), target))[u] ==
                        if u == actor || u == target then 0 else multiset(s)[u]
    ensures IsSubsequence(Without(Without(s, actor), target), s)
  {
    WithoutKeepsOthers(s, actor);
    WithoutKeepsOthers(Without(s, actor), target);
    SubsequenceTransitive(Without(Without(s, actor), target), Without(s, actor), s);
  }

  /** How many times `x` is listed in `s`, counted from the end so that a
      loop over `s` adds one position at a time. */
  function Occurrences(s: seq<ChatUser>, x: ChatUser): nat
  {
    if s == [] then 0
    else Occurrences(s[..|s| - 1], x) + (if s[|s| - 1] == x then 1 else 0)
  }

  /** Listing one more user changes no other user's count. */
  lemma OccurrencesSnoc(s: seq<ChatUser>, y: ChatUser)
    ensures Occurrences(s + [y], y) == Occurrences(s, y) + 1
    ensures forall x | x != y :: Occurrences(s + [y], x) == Occurrences(s, x)
  {
    assert (s + [y])[..|s|] == s;
  }

  /** `Occurrences` is the multiplicity of `x` in `s`. */
  lemma {:induction false} OccurrencesCount(s: seq<ChatUser>, x: ChatUser)
    ensures Occurrences(s, x) == multiset(s)[x]
  {
    if s != [] {
      var prefix: seq<ChatUser> := s[..|s| - 1];
      assert s == prefix + [s[|s| - 1]];
      OccurrencesCount(prefix, x);
    }
  }

  /** A member `m` whose own list holds the leaver no more often than the
      leaver's list holds `m` no longer lists the leaver after `LeaveGroup`,
      and keeps every other entry. */
  lemma LeaverGone(memberList: seq<ChatUser>, leaver: ChatUser, leaverList: seq<ChatUser>, m: ChatUser)
    requires multiset(memberList)[leaver] <= multiset(leaverList)[m]
    ensures leaver !in RemoveTimes(memberList, leaver, Occurrences(leaverList, m))
    ensures forall u | u != leaver ::
              multiset(RemoveTimes(memberList, leaver, Occurrences(leaverList, m)))[u] == multiset(memberList)[u]
  {
    OccurrencesCount(leaverList, m);
    RemoveTimesAll(memberList, leaver, Occurrences(leaverList, m));
    RemoveTimesCounts(memberList, leaver, Occurrences(leaverList, m));
  }

  /** A user of the chat that talks to every other member directly. */
  class ChatUser {
    const name: string
    var isMuted: bool
    var groupMembers: seq<ChatUser>

    constructor (name: string)
      ensures this.name == name && !isMuted && groupMembers == []
    {
      this.name := name;
      isMuted := false;
      groupMembers := [];
    }

    /** Adopts `members` as this user's list and notifies every member that is
        not this user. */
    method JoinGroup(members: seq<ChatUser>, console: Console)
      modifies this`groupMembers, console
      ensures groupMembers == members
      ensures console.events == old(console.events) + Notifications(Without(members, this), JoinedNotice(name))
    {
      groupMembers := members;
      for i := 0 to |members|
        invariant groupMembers == members
        invariant console.events == old(console.events) + Notifications(Without(members[..i], this), JoinedNotice(name))
      {
        assert members[..i + 1] == members[..i] + [members[i]];
        NotifiedSnoc(members[..i], members[i], this, JoinedNotice(name));
        if members[i] != this {
          members[i].ReceiveNotification(JoinedNotice(name), console);
        }
      }
      assert members[..|members|] == members;
    }

    /** A muted user delivers nothing; otherwise every member that is neither
        this user nor muted receives the message. */
    method SendMessage(message: string, console: Console)
      modifies console
      ensures console.events == old(console.events) +
                                if isMuted then []
                                else Messages(Unmuted(Without(groupMembers, this), MutedAmong(groupMembers)), name, message)
    {
      if isMuted {
        return;
      }
      var members := groupMembers;
      ghost var muted: set<ChatUser> := MutedAmong(members);
      for i := 0 to |members|
        invariant console.events == old(console.events) + Messages(Unmuted(Without(members[..i], this), muted), name, message)
      {
        assert members[..i + 1] == members[..i] + [members[i]];
        MessagedSnoc(members[..i], members[i], this, muted, name, message);
        if members[i] != this && !members[i].isMuted {
          members[i].ReceiveMessage(name, message, console);
        }
      }
      assert members[..|members|] == members;
    }

    /** A muted user's private message is blocked; otherwise it goes to
        `recipient` alone, member or not. */
    method SendPrivateMessage(recipient: ChatUser, message: string, console: Console)
      modifies console
      ensures console.events == old(console.events) +
                                if isMuted then [] else [PrivateMessage(recipient, name, message)]
    {
      if isMuted {
        return;
      }
      recipient.ReceivePrivateMessage(name, message, console);
    }

    /** Notifies every other member, takes this user out of each other
        member's list (once per time that member is listed here) and empties
        this user's own list. */
    method LeaveGroup(console: Console)
      modifies this`groupMembers, groupMembers`groupMembers, console
      ensures groupMembers == []
      ensures forall m | m in old(groupMembers) && m != this ::
                m.groupMembers == RemoveTimes(old(m.groupMembers), this, Occurrences(old(groupMembers), m))
      ensures console.events == old(console.events) + Notifications(Without(old(groupMembers), this), LeftNotice(name))
    {
      var members := groupMembers;
      ghost var start: map<ChatUser, seq<ChatUser>> := map m | m in members :: m.groupMembers;
      ghost var visited: seq<ChatUser> := [];
      for i := 0 to |members|
        invariant groupMembers == members
        invariant visited == members[..i]
        invariant forall m | m in start && m != this :: m.groupMembers == RemoveTimes(start[m], this, Occurrences(visited, m))
        invariant console.events == old(console.events) + Notifications(Without(visited, this), LeftNotice(name))
        modifies members`groupMembers, console
      {
        var member := members[i];
        assert members[..i + 1] == members[..i] + [member];
        if member != this {
          SayGoodbyeTo(member, console, start, visited, old(console.events));
        } else {
          NotifiedSnoc(visited, member, this, LeftNotice(name));
          OccurrencesSnoc(visited, member);
        }
        visited := visited + [member];
      }
      assert visited == members;
      groupMembers := [];
    }

    /** One step of `LeaveGroup`: notify `member`, then take this user out of
        its list once more. */
    method SayGoodbyeTo(member: ChatUser, console: Console, ghost start: map<ChatUser, seq<ChatUser>>,
                        ghost visited: seq<ChatUser>, ghost log: seq<Event>)
      requires member != this
      requires forall m | m in start && m != this :: m.groupMembers == RemoveTimes(start[m], this, Occurrences(visited, m))
      requires console.events == log + Notifications(Without(visited, this), LeftNotice(name))
      modifies member`groupMembers, console
      ensures member.groupMembers == RemoveFirst(old(member.groupMembers), this)
      ensures forall m | m in start && m != this :: m.groupMembers == RemoveTimes(start[m], this, Occurrences(visited + [member], m))
      ensures console.events == old(console.events) + [Notification(member, LeftNotice(name))]
      ensures console.events == log + Notifications(Without(visited + [member], this), LeftNotice(name))
    {
      OccurrencesSnoc(visited, member);
      NotifiedSnoc(visited, member, this, LeftNotice(name));
      member.ReceiveNotification(LeftNotice(name), console);
      member.groupMembers := RemoveFirst(member.groupMembers, this);
      assert console.events == log + (Notifications(Without(visited, this), LeftNotice(name)) + [Notification(member, LeftNotice(name))]);
    }

    /** Sets `target`'s flag, with no permission check, and notifies every
        member that is neither this user nor the target. */
    method MuteUser(target: ChatUser, console: Console)
      modifies target`isMuted, console
      ensures target.isMuted
      ensures console.events == old(console.events) +
                                Notifications(Without(Without(groupMembers, this), target), MutedNotice(target.name, name))
    {
      target.isMuted := true;
      var members := groupMembers;
      ghost var text := MutedNotice(target.name, name);
      for i := 0 to |members|
        invariant target.isMuted
        invariant console.events == old(console.events) + Notifications(Without(Without(members[..i], this), target), text)
      {
        assert members[..i + 1] == members[..i] + [members[i]];
        MuteNoticeSnoc(members[..i], members[i], this, target, text);
        if members[i] != this && members[i] != target {
          members[i].ReceiveNotification(MutedNotice(target.name, name), console);
        }
      }
      assert members[..|members|] == members;
    }

    method ReceiveMessage(senderName: string, message: string, console: Console)
      modifies console
      ensures console.events == old(console.events) + [Message(this, senderName, message)]
    {
      console.events := console.events + [Message(this, senderName, message)];
    }

    method ReceivePrivateMessage(senderName: string, message: string, console: Console)
      modifies console
      ensures console.events == old(console.events) + [PrivateMessage(this, senderName, message)]
    {
      console.events := console.events + [PrivateMessage(this, senderName, message)];
    }

    method ReceiveNotification(notification: string, console: Console)
      modifies console
      ensures console.events == old(console.events) + [Notification(this, notification)]
    {
      console.events := console.events + [Notification(this, notification)];
    }
  }
}
