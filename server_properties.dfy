/** What the server operations promise: the error order of each one, the
    state it leaves, exactly who is notified, and the invariant (unique
    nicknames, owners are members, channel nicknames in sync with the
    registry) that every operation keeps. */
module ServerProperties {

  import opened Basics
  import opened JavaText
  import opened SortedSeqs
  import opened Commands
  import opened ErrorCodes
  import opened Responses
  import opened Channels
  import opened ServerState

  // ---------------------------------------------------------------------
  // Facts about lookups in a state that keeps the invariant
  // ---------------------------------------------------------------------

  /** With unique nicknames, `getNickname` finds the one nickname of id. */
  lemma NicknameIsUnique(s: State, userId: int, n: string)
    requires Inv(s) && n in s.users && s.users[n] == userId
    ensures GetNickname(s, userId) == Success(n)
  {
  }

  /** A channel name is found exactly under its own sum. */
  lemma ChannelFoundUnderItsSum(s: State, name: string)
    requires Inv(s)
    ensures ChannelExists(s, name) <==> Ascii(name) in s.channels && s.channels[Ascii(name)].name == name
    ensures ChannelExists(s, name) ==> FindChannel(s, name) == Some(Ascii(name))
  {
    if ChannelExists(s, name) {
      var k := FindChannel(s, name).value;
      assert ChannelOk(s.users, k, s.channels[k]);
    }
  }

  /** The owner name of a channel is the nickname of its owner id, so it
      equals a user's nickname exactly when that user is the owner. */
  lemma OwnerNameIsOwnersNickname(s: State, k: int, userId: int, name: string)
    requires Inv(s) && k in s.channels
    requires name in s.users && s.users[name] == userId
    ensures s.channels[k].ownerName == name <==> s.channels[k].ownerId == userId
  {
    assert ChannelOk(s.users, k, s.channels[k]);
  }

  lemma UserNameIsValid(n: nat)
    ensures IsValidName(UserName(n))
  {
    var d := NatToString(n);
    forall i | 0 <= i < |UserName(n)| ensures IsLetterOrDigit(UserName(n)[i]) {
      if i >= 4 {
        assert UserName(n)[i] == d[i - 4];
      }
    }
  }

  lemma ValidValuesAreTidy(m: map<int, string>)
    requires forall u :: u in m ==> IsValidName(m[u])
    ensures forall v :: v in Nicknames(m) ==> Tidy(v)
  {
    forall v | v in Nicknames(m) ensures Tidy(v) {
      ValidNameIsTidy(v);
    }
  }

  lemma ValidNameIsTidy(name: string)
    requires IsValidName(name)
    ensures Tidy(name)
  {
    assert IsLetterOrDigit(name[0]) && IsLetterOrDigit(name[|name| - 1]);
  }

  // ---------------------------------------------------------------------
  // Integrity errors
  // ---------------------------------------------------------------------

  /** Registering a registered id, deregistering an unknown one, and any
      command from an unregistered sender throw and change nothing. */
  lemma IntegrityErrorsChangeNothing(s: State, userId: int, cmd: Command)
    ensures ExistingUserId(s, userId) ==> RegisterUser(s, userId) == Outcome(s, Thrown(IllegalArgument))
    ensures !ExistingUserId(s, userId) ==> DeregisterUser(s, userId) == Outcome(s, Thrown(IllegalArgument))
    ensures (!ExistingUserId(s, GetSenderId(cmd)) && !cmd.Invite? && !cmd.Kick?) ==>
              Apply(s, cmd) == Outcome(s, Thrown(IllegalArgument))
  {
  }

  /** Invite and kick are stubs: `null`, whatever the state. */
  lemma InviteAndKickAnswerNull(s: State, cmd: Command)
    requires cmd.Invite? || cmd.Kick?
    ensures Apply(s, cmd) == Outcome(s, NoResponse)
  {
  }

  // ---------------------------------------------------------------------
  // registerUser
  // ---------------------------------------------------------------------

  /** A fresh id is stored under "User" + the smallest free suffix and is
      told so in exactly one CONNECT; the invariant is kept. */
  lemma RegisterFreshUser(s: State, userId: int)
    requires Inv(s) && !ExistingUserId(s, userId)
    ensures var o := RegisterUser(s, userId);
            var n := FirstFreeFrom(s.users.Keys, 0);
            && UserName(n) !in s.users
            && (forall k :: 0 <= k < n ==> UserName(k) in s.users)
            && o.state == State(s.users[UserName(n) := userId], s.channels)
            && o.reply == Sent({Connected(userId, UserName(n))})
            && GetNickname(o.state, userId) == Success(UserName(n))
            && Inv(o.state)
  {
    var n := FirstFreeFrom(s.users.Keys, 0);
    var t := RegisterUser(s, userId).state;
    UserNameIsValid(n);
    forall k | k in t.channels ensures InSync(t.users, t.channels[k]) {
      assert ChannelOk(s.users, k, s.channels[k]);
    }
    assert Inv(t);
    NicknameIsUnique(t, userId, UserName(n));
  }

  // ---------------------------------------------------------------------
  // deregisterUser
  // ---------------------------------------------------------------------

  /** Under the invariant the owner is a member, so the ids notified are
      exactly the other members of the user's channels. */
  lemma DeregisterNotifiesCoMembers(s: State, userId: int)
    requires Inv(s)
    ensures DeregisterNotified(s.channels, userId) == CoMembers(s.channels, userId) - {userId}
  {
    forall u | u in CoMembers(s.channels, userId) - {userId}
      ensures u in DeregisterNotified(s.channels, userId)
    {
      var k :| k in s.channels && userId in s.channels[k].users && u in s.channels[k].users;
    }
    forall u | u in DeregisterNotified(s.channels, userId)
      ensures u in CoMembers(s.channels, userId)
    {
      var k :| k in s.channels && (s.channels[k].ownerId == userId || userId in s.channels[k].users)
               && u in s.channels[k].users && u != userId;
      assert ChannelOk(s.users, k, s.channels[k]);
    }
  }

  lemma DeregisterPreservesInv(s: State, userId: int)
    requires Inv(s)
    ensures Inv(DeregisterUser(s, userId).state)
  {
    if ExistingUserId(s, userId) {
      var nick := GetNickname(s, userId).value;
      var t := DeregisterUser(s, userId).state;
      forall k | k in t.channels ensures ChannelOk(t.users, k, t.channels[k]) {
        assert ChannelOk(s.users, k, s.channels[k]);
      }
    }
  }

  /** `deregisterUser` of a registered id: the nickname is freed, owned
      channels are deleted, the user leaves every other channel, and one
      QUIT goes to every other id that shared a channel with it: never to
      the user itself, and none at all when it shared no channel. */
  lemma DeregisterRegisteredUser(s: State, userId: int)
    requires Inv(s) && ExistingUserId(s, userId)
    ensures var o := DeregisterUser(s, userId);
            var nick := GetNickname(s, userId).value;
            && o.state.users == s.users - {nick}
            && !ExistingUserId(o.state, userId)
            && o.state.channels.Keys <= s.channels.Keys
            && (forall k :: k in s.channels && s.channels[k].ownerId == userId ==> k !in o.state.channels)
            && (forall k :: k in s.channels && s.channels[k].ownerId != userId ==>
                  k in o.state.channels && o.state.channels[k] == WithoutUser(s.channels[k], userId))
            && o.reply == Sent(QuitToAll(CoMembers(s.channels, userId) - {userId}, nick))
            && (forall r :: r in o.reply.responses ==> r.recipientId != userId)
            && (o.reply.responses == {} <==> CoMembers(s.channels, userId) <= {userId})
            && Inv(o.state)
  {
    var nick := GetNickname(s, userId).value;
    var o := DeregisterUser(s, userId);
    DeregisterNotifiesCoMembers(s, userId);
    DeregisterPreservesInv(s, userId);
    forall k | k in s.channels && s.channels[k].ownerId != userId && userId !in s.channels[k].users
      ensures s.channels[k] == WithoutUser(s.channels[k], userId)
    {
      assert s.channels[k].users - {userId} == s.channels[k].users;
    }
    var others := CoMembers(s.channels, userId) - {userId};
    if others != {} {
      var u :| u in others;
      assert Disconnected(u, nick) in o.reply.responses;
    }
  }

  // ---------------------------------------------------------------------
  // changeNickname
  // ---------------------------------------------------------------------

  /** INVALID_NAME is checked before NAME_ALREADY_IN_USE; either is one
      ERROR to the sender and changes nothing. */
  lemma ChangeNicknameErrors(s: State, cmd: NicknameCommand)
    requires ExistingUserId(s, cmd.senderId)
    ensures !IsValidName(cmd.newNickname) ==>
              ChangeNickname(s, cmd) == Outcome(s, Sent({Error(cmd, InvalidName)}))
    ensures IsValidName(cmd.newNickname) && ExistingNickname(s, cmd.newNickname) ==>
              ChangeNickname(s, cmd) == Outcome(s, Sent({Error(cmd, NameAlreadyInUse)}))
    ensures Error(cmd, InvalidName).recipientId == cmd.senderId
    ensures Error(cmd, NameAlreadyInUse).recipientId == cmd.senderId
  {
  }

  /** Asking for one's own current nickname is NAME_ALREADY_IN_USE. */
  lemma OwnNicknameIsInUse(s: State, cmd: NicknameCommand)
    requires ExistingUserId(s, cmd.senderId)
    requires cmd.newNickname == GetNickname(s, cmd.senderId).value
    requires IsValidName(cmd.newNickname)
    ensures ChangeNickname(s, cmd) == Outcome(s, Sent({Error(cmd, NameAlreadyInUse)}))
  {
  }

  lemma ChangeNicknamePreservesInv(s: State, cmd: NicknameCommand)
    requires Inv(s)
    ensures Inv(ChangeNickname(s, cmd).state)
  {
    if ExistingUserId(s, cmd.senderId) {
      ChangeNicknameAsPreservesInv(s, cmd, GetNickname(s, cmd.senderId).value);
    }
  }

  /** The renaming keeps nicknames unique and every channel in step with
      the registry. */
  lemma ChangeNicknameAsPreservesInv(s: State, cmd: NicknameCommand, oldName: string)
    requires Inv(s) && oldName in s.users && s.users[oldName] == cmd.senderId
    ensures Inv(ChangeNicknameAs(s, cmd, oldName).state)
  {
    var userId := cmd.senderId;
    var newName := cmd.newNickname;
    if IsValidName(newName) && !ExistingNickname(s, newName) {
      var t := ChangeNicknameAs(s, cmd, oldName).state;
      assert t.users == (s.users - {oldName})[newName := userId];
      forall a, b | a in t.users && b in t.users && t.users[a] == t.users[b] ensures a == b {
      }
      forall k | k in t.channels ensures ChannelOk(t.users, k, t.channels[k]) {
        var c := s.channels[k];
        assert ChannelOk(s.users, k, c);
        forall u | u in t.channels[k].users
          ensures t.channels[k].users[u] in t.users && t.users[t.channels[k].users[u]] == u
        {
          if u != userId {
            assert c.users[u] != oldName;
          }
        }
      }
    }
  }

  /** A successful `changeNickname`: the new name maps to the id and the
      old one is gone; every channel containing the user now lists it (and
      names it as owner, where it owns the channel) by the new name; the
      sender and everyone sharing a channel with it get OKAY under the old
      name. */
  lemma ChangeNicknameSucceeds(s: State, cmd: NicknameCommand)
    requires Inv(s) && ExistingUserId(s, cmd.senderId)
    requires IsValidName(cmd.newNickname) && !ExistingNickname(s, cmd.newNickname)
    ensures var o := ChangeNickname(s, cmd);
            var oldName := GetNickname(s, cmd.senderId).value;
            var newName := cmd.newNickname;
            && o.state.users == (s.users - {oldName})[newName := cmd.senderId]
            && GetNickname(o.state, cmd.senderId) == Success(newName)
            && !ExistingNickname(o.state, oldName)
            && o.state.channels.Keys == s.channels.Keys
            && (forall k :: k in s.channels ==>
                  o.state.channels[k].users.Keys == s.channels[k].users.Keys
                  && (cmd.senderId in s.channels[k].users ==> o.state.channels[k].users[cmd.senderId] == newName)
                  && (s.channels[k].ownerId == cmd.senderId ==> o.state.channels[k].ownerName == newName)
                  && o.state.channels[k].ownerId == s.channels[k].ownerId
                  && o.state.channels[k].name == s.channels[k].name
                  && (cmd.senderId !in s.channels[k].users ==> o.state.channels[k] == s.channels[k])
                  && (forall u :: u in s.channels[k].users && u != cmd.senderId ==>
                        o.state.channels[k].users[u] == s.channels[k].users[u]))
            && o.reply == Sent(OkayToAll(CoMembers(s.channels, cmd.senderId) + {cmd.senderId}, oldName, cmd))
            && Inv(o.state)
  {
    var o := ChangeNickname(s, cmd);
    ChangeNicknamePreservesInv(s, cmd);
    NicknameIsUnique(o.state, cmd.senderId, cmd.newNickname);
    forall k | k in s.channels && s.channels[k].ownerId == cmd.senderId
      ensures o.state.channels[k].ownerName == cmd.newNickname
    {
      assert ChannelOk(s.users, k, s.channels[k]);
    }
  }

  // ---------------------------------------------------------------------
  // createChannel
  // ---------------------------------------------------------------------

  /** CHANNEL_ALREADY_EXISTS is checked before INVALID_NAME; either is one
      ERROR to the creator and changes nothing. */
  lemma CreateChannelErrors(s: State, cmd: CreateCommand)
    requires ExistingUserId(s, cmd.senderId)
    ensures ChannelExists(s, cmd.channel) ==>
              CreateChannel(s, cmd) == Outcome(s, Sent({Error(cmd, ChannelAlreadyExists)}))
    ensures !ChannelExists(s, cmd.channel) && !IsValidName(cmd.channel) ==>
              CreateChannel(s, cmd) == Outcome(s, Sent({Error(cmd, InvalidName)}))
  {
  }

  /** A new channel whose sum is free: the creator owns it and is its only
      member, and exactly one OKAY goes to the creator. */
  lemma CreateChannelSucceeds(s: State, cmd: CreateCommand)
    requires Inv(s) && ExistingUserId(s, cmd.senderId)
    requires !ChannelExists(s, cmd.channel) && IsValidName(cmd.channel)
    requires Ascii(cmd.channel) !in s.channels
    ensures var o := CreateChannel(s, cmd);
            var nick := GetNickname(s, cmd.senderId).value;
            && o.state.users == s.users
            && o.state.channels == s.channels[Ascii(cmd.channel) :=
                 Channel(cmd.senderId, nick, cmd.channel, map[cmd.senderId := nick])]
            && ChannelExists(o.state, cmd.channel)
            && GetOwner(o.state, cmd.channel) == Success(nick)
            && GetUserIdsInChannel(o.state, cmd.channel) == Success([cmd.senderId])
            && o.reply == Sent({Okay(cmd.senderId, nick, cmd)})
            && Inv(o.state)
  {
    var o := CreateChannel(s, cmd);
    CreatePreservesInv(s, cmd);
    ChannelFoundUnderItsSum(o.state, cmd.channel);
    var ids := GetUserIdsInChannel(o.state, cmd.channel).value;
    SortedUnique(IntLess, ids, [cmd.senderId]);
  }

  /** The `TreeSet` trap: when another channel already has the same
      character-code sum, `createChannel` still answers OKAY but nothing is
      stored, and the channel does not exist afterwards. */
  lemma CreateChannelSumCollision(s: State, cmd: CreateCommand)
    requires ExistingUserId(s, cmd.senderId)
    requires !ChannelExists(s, cmd.channel) && IsValidName(cmd.channel)
    requires Ascii(cmd.channel) in s.channels
    ensures var nick := GetNickname(s, cmd.senderId).value;
            CreateChannel(s, cmd) == Outcome(s, Sent({Okay(cmd.senderId, nick, cmd)}))
    ensures !ChannelExists(CreateChannel(s, cmd).state, cmd.channel)
  {
  }

  /** A concrete instance: with "ab" in place, creating "ba" answers OKAY
      and creates nothing. */
  lemma CollisionExample()
    ensures var s := State(map["User0" := 0],
                           map[Ascii("ab") := Channel(0, "User0", "ab", map[0 := "User0"])]);
            var cmd: CreateCommand := Create(0, "ba", false);
            && Inv(s)
            && CreateChannel(s, cmd) == Outcome(s, Sent({Okay(0, "User0", cmd)}))
            && !ChannelExists(CreateChannel(s, cmd).state, "ba")
  {
    assert CharSum("ab") == 195 by {
      assert "ab"[..1] == "a" && "a"[..0] == "";
    }
    assert CharSum("ba") == 195 by {
      assert "ba"[..1] == "b" && "b"[..0] == "";
    }
    var c := Channel(0, "User0", "ab", map[0 := "User0"]);
    var s := State(map["User0" := 0], map[195 := c]);
    assert IsValidName("User0") && IsValidName("ab") && IsValidName("ba");
    assert ChannelOk(s.users, 195, c);
    assert Inv(s);
    var cmd: CreateCommand := Create(0, "ba", false);
    assert !ChannelExists(s, "ba");
    NicknameIsUnique(s, 0, "User0");
    CreateChannelSumCollision(s, cmd);
  }

  lemma CreatePreservesInv(s: State, cmd: CreateCommand)
    requires Inv(s)
    ensures Inv(CreateChannel(s, cmd).state)
  {
    if ExistingUserId(s, cmd.senderId) {
      CreateAsPreservesInv(s, cmd, GetNickname(s, cmd.senderId).value);
    }
  }

  /** The creator's registered nickname becomes the owner name. */
  lemma CreateAsPreservesInv(s: State, cmd: CreateCommand, ownerName: string)
    requires Inv(s) && ownerName in s.users && s.users[ownerName] == cmd.senderId
    ensures Inv(CreateChannelAs(s, cmd, ownerName).state)
  {
  }

  // ---------------------------------------------------------------------
  // joinChannel
  // ---------------------------------------------------------------------

  lemma JoinChannelMissing(s: State, cmd: JoinCommand)
    requires ExistingUserId(s, cmd.senderId) && !ChannelExists(s, cmd.channel)
    ensures JoinChannel(s, cmd) == Outcome(s, Sent({Error(cmd, NoSuchChannel)}))
  {
  }

  /** Joining an existing channel: the sender becomes a member (nothing
      changes if it already was one), every member including the joiner
      gets OKAY, and the joiner gets the NAMES listing of the channel. */
  lemma JoinChannelSucceeds(s: State, cmd: JoinCommand)
    requires Inv(s) && ExistingUserId(s, cmd.senderId) && ChannelExists(s, cmd.channel)
    ensures var o := JoinChannel(s, cmd);
            var k := Ascii(cmd.channel);
            var nick := GetNickname(s, cmd.senderId).value;
            var c := o.state.channels[k];
            && k in s.channels && k in o.state.channels
            && o.state.users == s.users
            && o.state.channels == s.channels[k := WithUser(s.channels[k], cmd.senderId, nick)]
            && (cmd.senderId in s.channels[k].users ==> o.state == s)
            && o.reply == Sent(OkayToAll(c.users.Keys, nick, cmd) +
                 {NamesWithPayload(cmd.senderId, nick, cmd.channel,
                    JoinSpaced(MarkAll(SortedStrings(Nicknames(c.users)), c.ownerName)))})
            && cmd.senderId in c.users.Keys
            && Inv(o.state)
  {
    var k := Ascii(cmd.channel);
    var nick := GetNickname(s, cmd.senderId).value;
    ChannelFoundUnderItsSum(s, cmd.channel);
    var old_ := s.channels[k];
    assert ChannelOk(s.users, k, old_);
    var c := WithUser(old_, cmd.senderId, nick);
    if cmd.senderId in old_.users {
      assert c.users == old_.users;
      assert c == old_;
      assert s.channels[k := c] == s.channels;
    }
    assert c.ownerName == c.users[c.ownerId];
    forall u | u in c.users ensures IsValidName(c.users[u]) {
    }
    ValidValuesAreTidy(c.users);
    NamesOverloadsAgree(cmd.senderId, nick, cmd.channel, Nicknames(c.users), c.ownerName);
    JoinPreservesInv(s, cmd);
  }

  lemma JoinPreservesInv(s: State, cmd: JoinCommand)
    requires Inv(s)
    ensures Inv(JoinChannel(s, cmd).state)
  {
    if ExistingUserId(s, cmd.senderId) {
      JoinAsPreservesInv(s, cmd, GetNickname(s, cmd.senderId).value);
    }
  }

  /** The joiner enters under its registered nickname. */
  lemma JoinAsPreservesInv(s: State, cmd: JoinCommand, name: string)
    requires Inv(s) && name in s.users && s.users[name] == cmd.senderId
    ensures Inv(JoinChannelAs(s, cmd, name).state)
  {
    if ChannelExists(s, cmd.channel) {
      var k := FindChannel(s, cmd.channel).value;
      var c := s.channels[k];
      assert ChannelOk(s.users, k, c);
      var t := JoinChannelAs(s, cmd, name).state;
      assert ChannelOk(t.users, k, t.channels[k]);
    }
  }

  // ---------------------------------------------------------------------
  // sendMessage
  // ---------------------------------------------------------------------

  /** NO_SUCH_CHANNEL, then USER_NOT_IN_CHANNEL; otherwise OKAY to every
      member, the sender included. Nothing ever changes. */
  lemma SendMessageOutcome(s: State, cmd: MessageCommand)
    requires Inv(s) && ExistingUserId(s, cmd.senderId)
    ensures var o := SendMessage(s, cmd);
            var k := Ascii(cmd.channel);
            var nick := GetNickname(s, cmd.senderId).value;
            && o.state == s
            && (!ChannelExists(s, cmd.channel) ==> o.reply == Sent({Error(cmd, NoSuchChannel)}))
            && (ChannelExists(s, cmd.channel) && cmd.senderId !in s.channels[k].users ==>
                  o.reply == Sent({Error(cmd, UserNotInChannel)}))
            && (ChannelExists(s, cmd.channel) && cmd.senderId in s.channels[k].users ==>
                  o.reply == Sent(OkayToAll(s.channels[k].users.Keys, nick, cmd))
                  && Okay(cmd.senderId, nick, cmd) in o.reply.responses)
  {
    ChannelFoundUnderItsSum(s, cmd.channel);
  }

  // ---------------------------------------------------------------------
  // leaveChannel
  // ---------------------------------------------------------------------

  /** NO_SUCH_CHANNEL, then USER_NOT_IN_CHANNEL; each is one ERROR to the
      sender and changes nothing. */
  lemma LeaveChannelErrors(s: State, cmd: LeaveCommand)
    requires Inv(s) && ExistingUserId(s, cmd.senderId)
    ensures !ChannelExists(s, cmd.channel) ==>
              LeaveChannel(s, cmd) == Outcome(s, Sent({Error(cmd, NoSuchChannel)}))
    ensures ChannelExists(s, cmd.channel) && cmd.senderId !in s.channels[Ascii(cmd.channel)].users ==>
              LeaveChannel(s, cmd) == Outcome(s, Sent({Error(cmd, UserNotInChannel)}))
  {
    ChannelFoundUnderItsSum(s, cmd.channel);
  }

  /** A member leaves: the channel is deleted when the sender was its last
      member (only the sender is answered) or its owner; otherwise the
      sender is removed from it. Every member present before the removal
      gets OKAY. */
  lemma LeaveChannelSucceeds(s: State, cmd: LeaveCommand)
    requires Inv(s) && ExistingUserId(s, cmd.senderId) && ChannelExists(s, cmd.channel)
    requires cmd.senderId in s.channels[Ascii(cmd.channel)].users
    ensures var o := LeaveChannel(s, cmd);
            var k := Ascii(cmd.channel);
            var c := s.channels[k];
            var nick := GetNickname(s, cmd.senderId).value;
            && o.state.users == s.users
            && (c.ownerId == cmd.senderId || c.users.Keys == {cmd.senderId} ==>
                  o.state.channels == s.channels - {k} && !ChannelExists(o.state, cmd.channel))
            && (c.ownerId != cmd.senderId && c.users.Keys != {cmd.senderId} ==>
                  o.state.channels == s.channels[k := WithoutUser(c, cmd.senderId)])
            && o.reply == Sent(OkayToAll(c.users.Keys, nick, cmd))
            && Inv(o.state)
  {
    var k := Ascii(cmd.channel);
    var c := s.channels[k];
    var nick := GetNickname(s, cmd.senderId).value;
    ChannelFoundUnderItsSum(s, cmd.channel);
    OwnerNameIsOwnersNickname(s, k, cmd.senderId, nick);
    var c' := WithoutUser(c, cmd.senderId);
    assert c'.users.Keys + {cmd.senderId} == c.users.Keys;
    if c'.users.Keys == {} {
      assert c.users.Keys == {cmd.senderId};
    }
    LeavePreservesInv(s, cmd);
    var o := LeaveChannel(s, cmd);
    if c.ownerId == cmd.senderId || c.users.Keys == {cmd.senderId} {
      ChannelFoundUnderItsSum(o.state, cmd.channel);
    }
  }

  /** Which channel a name finds depends on the names alone, so a
      change of members does not move it. */
  lemma FindChannelIgnoresMembers(s: State, k: int, c: Channel, name: string)
    requires k in s.channels && c.name == s.channels[k].name
    ensures FindChannel(s.(channels := s.channels[k := c]), name) == FindChannel(s, name)
  {
    var t := s.(channels := s.channels[k := c]);
    assert KeysNamed(t, name) == KeysNamed(s, name);
  }

  lemma LeavePreservesInv(s: State, cmd: LeaveCommand)
    requires Inv(s)
    ensures Inv(LeaveChannel(s, cmd).state)
  {
    if ExistingUserId(s, cmd.senderId) {
      LeaveAsPreservesInv(s, cmd, GetNickname(s, cmd.senderId).value);
    }
  }

  /** A channel whose owner leaves is removed, so no kept channel loses
      its owner. */
  lemma LeaveAsPreservesInv(s: State, cmd: LeaveCommand, name: string)
    requires Inv(s) && name in s.users && s.users[name] == cmd.senderId
    ensures Inv(LeaveChannelAs(s, cmd, name).state)
  {
    if ChannelExists(s, cmd.channel) {
      var k := FindChannel(s, cmd.channel).value;
      var c := s.channels[k];
      assert ChannelOk(s.users, k, c);
      OwnerNameIsOwnersNickname(s, k, cmd.senderId, name);
    }
  }

  // ---------------------------------------------------------------------
  // Every reachable state keeps the invariant
  // ---------------------------------------------------------------------

  lemma InitialInv()
    ensures Inv(Initial)
  {
  }

  lemma ApplyPreservesInv(s: State, cmd: Command)
    requires Inv(s)
    ensures Inv(Apply(s, cmd).state)
  {
    match cmd
    case Nick(_, _) => ChangeNicknamePreservesInv(s, cmd);
    case Create(_, _, _) => CreatePreservesInv(s, cmd);
    case Join(_, _) => JoinPreservesInv(s, cmd);
    case Mesg(_, _, _) =>
    case Leave(_, _) => LeavePreservesInv(s, cmd);
    case Invite(_, _, _) =>
    case Kick(_, _, _) =>
  }

  lemma StepPreservesInv(s: State, t: Task)
    requires Inv(s)
    ensures Inv(Step(s, t).state)
  {
    match t
    case Registration(id) =>
      if !ExistingUserId(s, id) {
        RegisterFreshUser(s, id);
      }
    case Disconnection(id) => DeregisterPreservesInv(s, id);
    case Request(cmd) => ApplyPreservesInv(s, cmd);
  }

  /** Whatever the backend feeds the model, from the empty server on,
      nicknames stay unique, owners stay members and every channel's
      nicknames agree with the registry. */
  lemma {:induction false} RunPreservesInv(s: State, tasks: seq<Task>)
    requires Inv(s)
    ensures Inv(Run(s, tasks))
    decreases |tasks|
  {
    if tasks != [] {
      StepPreservesInv(s, tasks[0]);
      RunPreservesInv(Step(s, tasks[0]).state, tasks[1..]);
    }
  }

  lemma ReachableStatesKeepInv(tasks: seq<Task>)
    ensures Inv(Run(Initial, tasks))
  {
    InitialInv();
    RunPreservesInv(Initial, tasks);
  }
}
