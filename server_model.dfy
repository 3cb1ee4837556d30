/** `ServerModel`: the server's mutable state, a nickname registry and the
    `TreeSet` of channel records, with one method per query and per
    operation. Every method is proved to do what the matching function of
    `ServerState` says to the abstract state `Abs()`. */
module ServerModels {

  import opened Basics
  import opened JavaText
  import opened SortedSeqs
  import opened Commands
  import opened ErrorCodes
  import opened Responses
  import opened ResponseSets
  import opened Channels
  import opened ServerState
  import opened ServerProperties

  /** The records a channel map holds. */
  ghost function RecordsOf(chs: map<int, ChannelInfo>): set<ChannelInfo>
  {
    set k | k in chs :: chs[k]
  }

  /** The channels the records currently describe. */
  ghost function ValuesOf(chs: map<int, ChannelInfo>): map<int, Channel>
    reads RecordsOf(chs)
  {
    map k | k in chs :: chs[k].Value()
  }

  /** Every record is stored under the sum of its (immutable) name, as
      the `TreeSet` orders them; so no record is stored under two keys. */
  ghost predicate Distinct(chs: map<int, ChannelInfo>)
  {
    forall k :: k in chs ==> k == Ascii(chs[k].name)
  }

  /** How a response set answers for a specified reply: `Sent` is a set
      with exactly those responses, `Thrown` the same exception. */
  ghost predicate Reports(r: Result<ResponseSet>, reply: Reply)
    reads if r.Success? then {r.value} else {}
  {
    match reply
    case Sent(responses) => r.Success? && r.value.responses == responses
    case Thrown(e) => r == Failure(e)
    case NoResponse => false
  }

  class ServerModel {
    /** nickname to id (`TreeMap<String, Integer>`) */
    var users: map<string, int>
    /** the channel records, keyed by the sum their `compareTo` compares */
    var channels: map<int, ChannelInfo>

    ghost function Objects(): set<ChannelInfo>
      reads this
    {
      RecordsOf(channels)
    }

    ghost function Abs(): State
      reads this, Objects()
    {
      State(users, ValuesOf(channels))
    }

    /** No record is stored twice, and the abstract state keeps the
        server invariant. */
    ghost predicate Valid()
      reads this, Objects()
    {
      Distinct(channels) && Inv(Abs())
    }

    constructor ()
      ensures Valid() && Abs() == Initial
    {
      users := map[];
      channels := map[];
    }

    // -------------------------------------------------------------------
    // Queries
    // -------------------------------------------------------------------

    method ExistingNickname(nickname: string) returns (b: bool)
      ensures b == ServerState.ExistingNickname(Abs(), nickname)
    {
      b := nickname in users;
    }

    method ExistingUserId(userId: int) returns (b: bool)
      ensures b == ServerState.ExistingUserId(Abs(), userId)
    {
      b := userId in users.Values;
    }

    method GetUserId(nickname: string) returns (r: Result<int>)
      ensures r == ServerState.GetUserId(Abs(), nickname)
    {
      if nickname in users {
        r := Success(users[nickname]);
      } else {
        r := Failure(IllegalArgument);
      }
    }

    /** `getNickname`: walks the registry in key order and returns the
        first nickname registered to the id. */
    method GetNickname(userId: int) returns (r: Result<string>)
      ensures r == ServerState.GetNickname(Abs(), userId)
    {
      var names := GetRegisteredUsers();
      var i := 0;
      while i < |names| && users[names[i]] != userId
        invariant 0 <= i <= |names|
        invariant forall j :: 0 <= j < i ==> users[names[j]] != userId
      {
        i := i + 1;
      }
      FirstMatchIsGetNickname(Abs(), userId, names, i);
      if i < |names| {
        r := Success(names[i]);
      } else {
        r := Failure(IllegalArgument);
      }
    }

    /** `getRegisteredUsers`. */
    method GetRegisteredUsers() returns (names: seq<string>)
      ensures names == ServerState.GetRegisteredUsers(Abs())
    {
      names := SortedStrings(users.Keys);
    }

    /** `getRegisteredChannels`: the records themselves, in `TreeSet`
        order; the caller holds references into the model. */
    function GetRegisteredChannels(): (records: seq<ChannelInfo>)
      reads this
      ensures |records| == |channels|
      ensures forall i :: 0 <= i < |records| ==> records[i] == channels[SortedInts(channels.Keys)[i]]
    {
      var keys := SortedInts(channels.Keys);
      var chs := channels;
      KeysListed(keys);
      seq(|keys|, i requires 0 <= i < |keys| && keys[i] in chs => chs[keys[i]])
    }

    /** `getChannels`: the names of all channels, sorted. */
    method GetChannels() returns (names: seq<string>)
      ensures names == ServerState.GetChannels(Abs())
    {
      var keys := SortedInts(channels.Keys);
      KeysListed(keys);
      var channelNames: set<string> := {};
      var i := 0;
      while i < |keys|
        invariant 0 <= i <= |keys|
        invariant channelNames <= RecordNames()
        invariant forall j :: 0 <= j < i ==> channels[keys[j]].name in channelNames
      {
        channelNames := channelNames + {channels[keys[i]].GetChannelName()};
        i := i + 1;
      }
      assert channelNames == RecordNames() by {
        forall k | k in channels ensures channels[k].name in channelNames {
          assert k in Elems(keys);
          var j :| 0 <= j < |keys| && keys[j] == k;
        }
      }
      RecordNamesAreChannelNames();
      names := SortedStrings(channelNames);
    }

    /** `getChannel`: the first record, in `TreeSet` order, with the name. */
    method GetChannel(name: string) returns (r: Result<ChannelInfo>)
      ensures FindChannel(Abs(), name).None? ==> r == Failure(IllegalArgument)
      ensures FindChannel(Abs(), name).Some? ==> r == Success(channels[FindChannel(Abs(), name).value])
    {
      var keys := SortedInts(channels.Keys);
      KeysListed(keys);
      var i := 0;
      while i < |keys| && channels[keys[i]].GetChannelName() != name
        invariant 0 <= i <= |keys|
        invariant forall j :: 0 <= j < i ==> channels[keys[j]].name != name
      {
        i := i + 1;
      }
      FirstRecordNamed(keys, i, name);
      if i < |keys| {
        r := Success(channels[keys[i]]);
      } else {
        r := Failure(IllegalArgument);
      }
    }

    /** `channelExists`: stops at the first record with the name. */
    method ChannelExists(name: string) returns (b: bool)
      ensures b == ServerState.ChannelExists(Abs(), name)
    {
      var keys := SortedInts(channels.Keys);
      KeysListed(keys);
      var i := 0;
      while i < |keys| && channels[keys[i]].GetChannelName() != name
        invariant 0 <= i <= |keys|
        invariant forall j :: 0 <= j < i ==> channels[keys[j]].name != name
      {
        i := i + 1;
      }
      FirstRecordNamed(keys, i, name);
      b := i < |keys|;
    }

    lemma KeysListed(keys: seq<int>)
      requires keys == SortedInts(channels.Keys)
      ensures forall j :: 0 <= j < |keys| ==> keys[j] in channels
    {
      forall j | 0 <= j < |keys| ensures keys[j] in channels {
        assert keys[j] in Elems(keys);
      }
    }

    lemma AbsKeys()
      ensures Abs().channels.Keys == channels.Keys
    {
      assert forall k :: k in Abs().channels <==> k in channels;
    }

    /** How a stored record appears in the abstract state. */
    lemma AbsChannel(k: int)
      requires k in channels
      ensures k in Abs().channels && Abs().channels[k] == channels[k].Value()
    {
    }

    ghost function RecordNames(): set<string>
      reads this, Objects()
    {
      set k | k in channels :: channels[k].name
    }

    lemma RecordNamesAreChannelNames()
      ensures RecordNames() == ChannelNames(Abs())
    {
      AbsKeys();
      forall k | k in channels ensures Abs().channels[k].name == channels[k].name {
        AbsChannel(k);
      }
    }

    /** A search of the records in key order that stops at index i finds
        what `FindChannel` specifies. */
    lemma FirstRecordNamed(keys: seq<int>, i: nat, name: string)
      requires keys == SortedInts(channels.Keys) && i <= |keys|
      requires forall j :: 0 <= j < |keys| ==> keys[j] in channels
      requires forall j :: 0 <= j < i ==> channels[keys[j]].name != name
      requires i < |keys| ==> channels[keys[i]].name == name
      ensures i < |keys| ==> FindChannel(Abs(), name) == Some(keys[i])
      ensures i == |keys| ==> FindChannel(Abs(), name) == None
    {
      AbsKeys();
      forall j | 0 <= j < |keys| ensures Abs().channels[keys[j]].name == channels[keys[j]].name {
        AbsChannel(keys[j]);
      }
      FirstMatchIsFindChannel(Abs(), name, keys, i);
    }

    /** `getUserIdsInChannel`. */
    method GetUserIdsInChannel(name: string) returns (r: Result<seq<int>>)
      ensures r == ServerState.GetUserIdsInChannel(Abs(), name)
    {
      var channel := GetChannel(name);
      match channel
      case Failure(e) => r := Failure(e);
      case Success(c) => r := Success(c.GetUserIds());
    }

    /** `getUserNicknamesInChannel`. */
    method GetUserNicknamesInChannel(name: string) returns (r: Result<seq<string>>)
      ensures r == ServerState.GetUserNicknamesInChannel(Abs(), name)
    {
      var channel := GetChannel(name);
      match channel
      case Failure(e) => r := Failure(e);
      case Success(c) => r := Success(c.GetUserNames());
    }

    /** `getOwner`. */
    method GetOwner(name: string) returns (r: Result<string>)
      ensures r == ServerState.GetOwner(Abs(), name)
    {
      var channel := GetChannel(name);
      match channel
      case Failure(e) => r := Failure(e);
      case Success(c) => r := Success(c.GetOwner());
    }

    // -------------------------------------------------------------------
    // Responses to many users
    // -------------------------------------------------------------------

    /** `sendResponseToEveryone(Collection<Integer>, …)`: one OKAY per id. */
    method SendResponseToEveryone(userIds: seq<int>, senderName: string, command: Command)
      returns (rs: ResponseSet)
      ensures fresh(rs)
      ensures rs.responses == OkayToAll(Elems(userIds), senderName, command)
    {
      rs := new ResponseSet();
      var i := 0;
      while i < |userIds|
        invariant 0 <= i <= |userIds|
        invariant rs.responses == OkayToAll(Elems(userIds[..i]), senderName, command)
        modifies rs
      {
        ElemsPrefixStep(userIds, i);
        OkayToAllAdd(Elems(userIds[..i]), userIds[i], senderName, command);
        var _ := rs.AddMessage(Okay(userIds[i], senderName, command));
        i := i + 1;
      }
      assert userIds[..i] == userIds;
    }

    /** The QUIT loop of `deregisterUser`: one per id. */
    method SendQuitToEveryone(userIds: seq<int>, userName: string) returns (rs: ResponseSet)
      ensures fresh(rs)
      ensures rs.responses == QuitToAll(Elems(userIds), userName)
    {
      rs := new ResponseSet();
      var i := 0;
      while i < |userIds|
        invariant 0 <= i <= |userIds|
        invariant rs.responses == QuitToAll(Elems(userIds[..i]), userName)
        modifies rs
      {
        ElemsPrefixStep(userIds, i);
        QuitToAllAdd(Elems(userIds[..i]), userIds[i], userName);
        var _ := rs.AddMessage(Disconnected(userIds[i], userName));
        i := i + 1;
      }
      assert userIds[..i] == userIds;
    }

    /** `sendResponseToEveryone(ChannelInfo, …)`: one OKAY per member. */
    method SendResponseToMembers(channel: ChannelInfo, senderName: string, command: Command)
      returns (rs: ResponseSet)
      ensures fresh(rs)
      ensures rs.responses == OkayToAll(channel.users.Keys, senderName, command)
    {
      var userIds := channel.GetUserIds();
      rs := SendResponseToEveryone(userIds, senderName, command);
    }

    // -------------------------------------------------------------------
    // Operations
    // -------------------------------------------------------------------

    /** `isValidName`: scans for a character that is neither a letter nor
        a digit; the empty name is invalid. */
    static method IsValidName(name: string) returns (valid: bool)
      ensures valid == ServerState.IsValidName(name)
    {
      if name == [] {
        return false;
      }
      var i := 0;
      while i < |name|
        invariant 0 <= i <= |name|
        invariant forall j :: 0 <= j < i ==> IsLetterOrDigit(name[j])
      {
        if !IsLetterOrDigit(name[i]) {
          return false;
        }
        i := i + 1;
      }
      valid := true;
    }

    /** `generateUniqueNickname`: tries "User0", "User1", … until one is
        not registered. */
    method GenerateUniqueNickname() returns (nickname: string)
      ensures nickname == UniqueNickname(Abs())
    {
      var existingUsers := GetRegisteredUsers();
      var suffix: nat := 0;
      nickname := UserName(suffix);
      suffix := suffix + 1;
      while nickname in existingUsers
        invariant suffix >= 1 && nickname == UserName(suffix - 1)
        invariant forall k :: 0 <= k < suffix - 1 ==> UserName(k) in users
        decreases |users| - suffix + 1
      {
        assert nickname in Elems(existingUsers);
        GeneratedSize(suffix);
        SubsetSize(Generated(suffix), users.Keys);
        nickname := UserName(suffix);
        suffix := suffix + 1;
      }
      assert nickname !in Elems(existingUsers);
      FirstFreeIsLeast(users.Keys, suffix - 1);
    }

    /** `registerUser`. */
    method RegisterUser(userId: int) returns (r: Result<ResponseSet>)
      requires Valid()
      modifies this
      ensures Valid()
      ensures Abs() == ServerState.RegisterUser(old(Abs()), userId).state
      ensures Reports(r, ServerState.RegisterUser(old(Abs()), userId).reply)
      ensures r.Success? ==> fresh(r.value)
    {
      ghost var s := Abs();
      label querying:
      var userNickname := GenerateUniqueNickname();
      var known := ExistingUserId(userId);
      assert unchanged@querying(this) && unchanged@querying(RecordsOf(channels));
      if !known {
        label registering:
        users := users[userNickname := userId];
        assert unchanged@registering(RecordsOf(channels));
        assert ValuesOf(channels) == s.channels;
        label answering:
        var rs := ResponseSet.SingleMessage(Connected(userId, userNickname));
        assert unchanged@answering(this);
        assert unchanged@answering(RecordsOf(channels));
        RegisterFreshUser(s, userId);
        r := Success(rs);
      } else {
        r := Failure(IllegalArgument);
      }
    }

    /** `deregisterUser` on a channel the user owns: the record loses the
        user and leaves the set. */
    method DropOwnedChannel(channel: ChannelInfo, userId: int, ghost k: int) returns (left: set<int>)
      requires k in channels && channels[k] == channel && Distinct(channels)
      modifies this`channels, channel
      ensures channels == old(channels) - {k}
      ensures ValuesOf(channels) == old(ValuesOf(channels)) - {k}
      ensures left == old(channel.users.Keys) - {userId}
    {
      ghost var rest := ValuesOf(channels - {k});
      ValuesOfRemove(channels, k);
      assert channel !in RecordsOf(channels - {k});
      label deleting:
      channel.DeleteUser(userId);
      assert unchanged@deleting(RecordsOf(channels - {k}));
      assert ValuesOf(channels - {k}) == rest;
      var remaining := channel.GetUserIds();
      left := Elems(remaining);
      var key := ChannelInfo.GetAscii(channel.GetChannelName());
      assert key == k;
      label removing:
      channels := channels - {key};
      assert unchanged@removing(RecordsOf(channels));
      assert ValuesOf(channels) == rest;
    }

    /** `deregisterUser` on a channel the user only belongs to: the record
        loses the user. */
    method LeaveJoinedChannel(channel: ChannelInfo, userId: int, ghost k: int) returns (left: set<int>)
      requires k in channels && channels[k] == channel && Distinct(channels)
      modifies channel
      ensures ValuesOf(channels) == old(ValuesOf(channels))[k := WithoutUser(old(channel.Value()), userId)]
      ensures left == old(channel.users.Keys) - {userId}
    {
      RemoveMember(channel, userId, k);
      var others := channel.GetUserIds();
      left := Elems(others);
    }

    /** One round of the `deregisterUser` loop. */
    method DeregisterFromChannel(channel: ChannelInfo, userId: int, ghost k: int) returns (left: set<int>)
      requires k in channels && channels[k] == channel && Distinct(channels)
      modifies this`channels, channel
      ensures Distinct(channels)
      ensures forall j :: j in old(channels) && j != k ==> j in channels && channels[j] == old(channels)[j]
      ensures k in old(ValuesOf(channels))
      ensures ValuesOf(channels) == DeregisterStep(old(ValuesOf(channels)), userId, k)
      ensures left == NotifiedStep(old(channel.Value()), userId)
    {
      ValuesOfEntry(channels, k);
      if channel.GetOwnerID() == userId {
        left := DropOwnedChannel(channel, userId, k);
      } else if channel.UserInChannel(userId) {
        left := LeaveJoinedChannel(channel, userId, k);
      } else {
        left := {};
      }
    }

    /** A round of the channel loop, seen as progress over the visited
        keys `done`. */
    method DeregisterRound(channel: ChannelInfo, userId: int, ghost k: int, ghost c0: map<int, Channel>, ghost done: set<int>)
      returns (left: set<int>)
      requires k in channels && channels[k] == channel && Distinct(channels)
      requires k in c0 && k !in done
      requires ValuesOf(channels) == DeregisterProgress(c0, userId, done)
      modifies this`channels, channel
      ensures Distinct(channels)
      ensures forall j :: j in old(channels) && j != k ==> j in channels && channels[j] == old(channels)[j]
      ensures ValuesOf(channels) == DeregisterProgress(c0, userId, done + {k})
      ensures NotifiedProgress(c0, userId, done + {k}) == NotifiedProgress(c0, userId, done) + left
    {
      DeregisterProgressStep(c0, userId, done, k);
      ValuesOfEntry(channels, k);
      left := DeregisterFromChannel(channel, userId, k);
    }

    /** The channel loop of `deregisterUser`, over a snapshot of the
        records in `TreeSet` order. */
    method DeregisterFromChannels(userId: int, records: seq<ChannelInfo>) returns (notified: set<int>)
      requires Distinct(channels)
      requires |records| == |channels|
      requires forall i :: 0 <= i < |records| ==> records[i] == channels[SortedInts(channels.Keys)[i]]
      modifies this`channels, RecordsOf(channels)
      ensures Distinct(channels)
      ensures ValuesOf(channels) == DeregisteredChannels(old(ValuesOf(channels)), userId)
      ensures notified == DeregisterNotified(old(ValuesOf(channels)), userId)
    {
      ghost var c0 := ValuesOf(channels);
      ghost var keys := SortedInts(channels.Keys);
      KeysListed(keys);
      ValuesOfKeys(channels);
      DeregisterProgressNone(c0, userId);
      assert Elems(keys[..0]) == {};
      notified := {};
      var i := 0;
      while i < |records|
        invariant 0 <= i <= |records| == |keys|
        invariant Distinct(channels)
        invariant forall j :: i <= j < |keys| ==> keys[j] in channels && channels[keys[j]] == records[j]
        invariant ValuesOf(channels) == DeregisterProgress(c0, userId, Elems(keys[..i]))
        invariant notified == NotifiedProgress(c0, userId, Elems(keys[..i]))
      {
        SortedNotInPrefix(keys, i);
        SortedAfter(keys, i);
        ElemsPrefixStep(keys, i);
        var left := DeregisterRound(records[i], userId, keys[i], c0, Elems(keys[..i]));
        notified := notified + left;
        i := i + 1;
      }
      assert keys[..i] == keys;
      DeregisterProgressAll(c0, userId);
    }

    /** The registry and channel part of `deregisterUser`, once the
        nickname is known: who shared a channel with the user. */
    method RemoveUser(userId: int, userName: string) returns (notified: set<int>)
      requires Distinct(channels)
      modifies this, RecordsOf(channels)
      ensures Distinct(channels)
      ensures users == old(users) - {userName}
      ensures ValuesOf(channels) == DeregisteredChannels(old(ValuesOf(channels)), userId)
      ensures notified == DeregisterNotified(old(ValuesOf(channels)), userId)
    {
      ghost var c0 := ValuesOf(channels);
      label unregistering:
      users := users - {userName};
      assert unchanged@unregistering(RecordsOf(channels));
      assert ValuesOf(channels) == c0;
      var records := GetRegisteredChannels();
      notified := DeregisterFromChannels(userId, records);
    }

    /** `deregisterUser`: the user leaves the registry, owned channels are
        removed, and every remaining member of a channel the user owned or
        belonged to gets a QUIT. */
    method DeregisterUser(userId: int) returns (r: Result<ResponseSet>)
      requires Valid()
      modifies this, Objects()
      ensures Valid()
      ensures Abs() == ServerState.DeregisterUser(old(Abs()), userId).state
      ensures Reports(r, ServerState.DeregisterUser(old(Abs()), userId).reply)
      ensures r.Success? ==> fresh(r.value)
    {
      ghost var s := Abs();
      var nickname := GetNickname(userId);
      if nickname.Failure? {
        return Failure(nickname.error);
      }
      var userName := nickname.value;
      assert ServerState.GetNickname(s, userId) == Success(userName);
      ghost var outcome := ServerState.DeregisterUser(s, userId);
      var allConnectedUsers := RemoveUser(userId, userName);
      assert Abs() == outcome.state;
      var ids := SortedInts(allConnectedUsers);
      label quitting:
      var responses := SendQuitToEveryone(ids, userName);
      assert unchanged@quitting(this);
      assert unchanged@quitting(RecordsOf(channels));
      assert Abs() == outcome.state;
      DeregisterPreservesInv(s, userId);
      r := Success(responses);
    }

    /** `sendMessage`: OKAY to every member of the channel; the model is
        not changed. */
    method SendMessage(cmd: MessageCommand) returns (r: Result<ResponseSet>)
      ensures Reports(r, ServerState.SendMessage(Abs(), cmd).reply)
      ensures r.Success? ==> fresh(r.value)
    {
      var userId := GetSenderId(cmd);
      var nickname := GetNickname(userId);
      if nickname.Failure? {
        return Failure(nickname.error);
      }
      ghost var s := Abs();
      ghost var outcome := ServerState.SendMessage(s, cmd);
      var name := nickname.value;
      var channelName := cmd.channel;
      label searching:
      var found := ChannelExists(channelName);
      assert unchanged@searching(this) && unchanged@searching(RecordsOf(channels));
      assert Abs() == s;
      if !found {
        assert outcome.reply == Sent({Error(cmd, NoSuchChannel)});
        var rs := ResponseSet.SingleMessage(Error(cmd, NoSuchChannel));
        assert unchanged@searching(this) && unchanged@searching(RecordsOf(channels));
        assert Abs() == s;
        return Success(rs);
      }
      label fetching:
      var record := GetChannel(channelName);
      assert unchanged@fetching(this) && unchanged@fetching(RecordsOf(channels));
      var channel := record.value;
      ghost var k := FindChannel(s, channelName).value;
      assert s.channels[k] == channel.Value();
      if !channel.UserInChannel(userId) {
        assert outcome.reply == Sent({Error(cmd, UserNotInChannel)});
        var rs := ResponseSet.SingleMessage(Error(cmd, UserNotInChannel));
        assert unchanged@fetching(this) && unchanged@fetching(RecordsOf(channels));
        assert Abs() == s;
        return Success(rs);
      }
      assert outcome.reply == Sent(OkayToAll(channel.users.Keys, name, cmd));
      label answering:
      var rs := SendResponseToMembers(channel, name, cmd);
      assert unchanged@answering(this) && unchanged@answering(RecordsOf(channels));
      assert Abs() == s;
      r := Success(rs);
    }

    /** `createChannel`: the new record is added to the `TreeSet`, which
        keeps an existing record with the same sum instead. */
    method CreateChannel(cmd: CreateCommand) returns (r: Result<ResponseSet>)
      requires Valid()
      modifies this
      ensures Valid()
      ensures Abs() == ServerState.CreateChannel(old(Abs()), cmd).state
      ensures Reports(r, ServerState.CreateChannel(old(Abs()), cmd).reply)
      ensures r.Success? ==> fresh(r.value)
    {
      var ownerId := GetSenderId(cmd);
      label naming:
      var nickname := GetNickname(ownerId);
      assert unchanged@naming(this) && unchanged@naming(RecordsOf(channels));
      if nickname.Failure? {
        return Failure(nickname.error);
      }
      var rs := CreateChannelAs(cmd, nickname.value);
      r := Success(rs);
    }

    /** The rest of `createChannel`, once the owner's nickname is known. */
    method CreateChannelAs(cmd: CreateCommand, ownerName: string) returns (rs: ResponseSet)
      requires Valid() && ownerName in users && users[ownerName] == cmd.senderId
      modifies this
      ensures Valid()
      ensures Abs() == ServerState.CreateChannelAs(old(Abs()), cmd, ownerName).state
      ensures ServerState.CreateChannelAs(old(Abs()), cmd, ownerName).reply == Sent(rs.responses)
      ensures fresh(rs)
    {
      ghost var s := Abs();
      ghost var outcome := ServerState.CreateChannelAs(s, cmd, ownerName);
      CreateAsPreservesInv(s, cmd, ownerName);
      assert Inv(outcome.state);
      var ownerId := GetSenderId(cmd);
      var channelName := cmd.channel;
      var channelUsers := map[ownerId := ownerName];
      label searching:
      var found := ChannelExists(channelName);
      assert unchanged@searching(this) && unchanged@searching(RecordsOf(channels));
      assert Abs() == s;
      var response;
      if found {
        response := Error(cmd, ChannelAlreadyExists);
      } else {
        label checking:
        var valid := IsValidName(channelName);
        assert unchanged@checking(this) && unchanged@checking(RecordsOf(channels));
        assert Abs() == s;
        if !valid {
          response := Error(cmd, InvalidName);
        } else {
          label creating:
          var newChannel := new ChannelInfo(ownerId, ownerName, channelName, channelUsers);
          assert unchanged@creating(this) && unchanged@creating(RecordsOf(channels));
          assert ValuesOf(channels) == s.channels;
          var key := ChannelInfo.GetAscii(newChannel.GetChannelName());
          AddRecord(key, newChannel);
          response := Okay(ownerId, ownerName, cmd);
        }
      }
      assert Abs() == outcome.state && outcome.reply == Sent({response});
      label answering:
      rs := ResponseSet.SingleMessage(response);
      assert unchanged@answering(this) && unchanged@answering(RecordsOf(channels));
    }

    /** `joinChannel`: the sender becomes a member; every member gets an
        OKAY and the joiner a NAMES listing. */
    method JoinChannel(cmd: JoinCommand) returns (r: Result<ResponseSet>)
      requires Valid()
      modifies Objects()
      ensures Valid()
      ensures Abs() == ServerState.JoinChannel(old(Abs()), cmd).state
      ensures Reports(r, ServerState.JoinChannel(old(Abs()), cmd).reply)
      ensures r.Success? ==> fresh(r.value)
    {
      var userId := GetSenderId(cmd);
      label naming:
      var nickname := GetNickname(userId);
      assert unchanged@naming(this) && unchanged@naming(RecordsOf(channels));
      if nickname.Failure? {
        return Failure(nickname.error);
      }
      r := JoinChannelAs(cmd, nickname.value);
    }

    /** The rest of `joinChannel`, once the joiner's nickname is known. The
        later lookups of the same nickname are this one: nothing changes
        the registry in between. */
    method JoinChannelAs(cmd: JoinCommand, name: string) returns (r: Result<ResponseSet>)
      requires Valid() && name in users && users[name] == cmd.senderId
      modifies Objects()
      ensures Valid()
      ensures Abs() == ServerState.JoinChannelAs(old(Abs()), cmd, name).state
      ensures Reports(r, ServerState.JoinChannelAs(old(Abs()), cmd, name).reply)
      ensures r.Success? ==> fresh(r.value)
    {
      ghost var s := Abs();
      ghost var outcome := ServerState.JoinChannelAs(s, cmd, name);
      JoinAsPreservesInv(s, cmd, name);
      var userId := GetSenderId(cmd);
      var channelName := cmd.channel;
      label searching:
      var found := ChannelExists(channelName);
      assert unchanged@searching(this) && unchanged@searching(RecordsOf(channels));
      if !found {
        var rs := ResponseSet.SingleMessage(Error(cmd, NoSuchChannel));
        assert unchanged@searching(this) && unchanged@searching(RecordsOf(channels));
        assert Abs() == s == outcome.state;
        return Success(rs);
      }
      label fetching:
      var record := GetChannel(channelName);
      assert unchanged@fetching(this) && unchanged@fetching(RecordsOf(channels));
      assert Abs() == s;
      var channel := record.value;
      ghost var k := FindChannel(s, channelName).value;
      assert ChannelOk(users, k, s.channels[k]);
      OwnerNameIsOwnersNickname(s, k, userId, name);
      var rs := JoinRecord(cmd, name, channel, k);
      r := Success(rs);
    }

    /** `joinChannel` on the record found: the joiner is added, then the
        OKAYs and the NAMES listing are built from the updated record. */
    method JoinRecord(cmd: JoinCommand, name: string, channel: ChannelInfo, ghost k: int)
      returns (responses: ResponseSet)
      requires Distinct(channels)
      requires FindChannel(Abs(), cmd.channel) == Some(k) && k in channels && channels[k] == channel
      requires channel.ownerId in channel.users && channel.users[channel.ownerId] == channel.ownerName
      requires channel.ownerId == cmd.senderId ==> channel.ownerName == name
      modifies channel
      ensures Abs() == ServerState.JoinChannelAs(old(Abs()), cmd, name).state
      ensures ServerState.JoinChannelAs(old(Abs()), cmd, name).reply == Sent(responses.responses)
      ensures fresh(responses)
    {
      ghost var s := Abs();
      ghost var outcome := ServerState.JoinChannelAs(s, cmd, name);
      var userId := GetSenderId(cmd);
      var channelName := cmd.channel;
      AddMember(channel, userId, name, k);
      ghost var c := channel.Value();
      assert Abs() == outcome.state;
      assert c.ownerName in Nicknames(c.users) by {
        assert c.users[c.ownerId] == c.ownerName;
      }
      label answering:
      responses := SendResponseToMembers(channel, name, cmd);
      assert unchanged@answering(this) && unchanged@answering(RecordsOf(channels));
      assert Abs() == outcome.state;
      var members := channel.GetUserNames();
      var owner := channel.GetOwner();
      assert Elems(members) == Nicknames(c.users) && owner == c.ownerName;
      label listing:
      var names := Names(userId, name, channelName, Elems(members), owner);
      assert unchanged@listing(this) && unchanged@listing(RecordsOf(channels)) && unchanged@listing(responses);
      assert Abs() == outcome.state;
      assert names.Success?;
      assert outcome.reply == Sent(responses.responses + {names.value});
      label adding:
      var _ := responses.AddMessage(names.value);
      assert unchanged@adding(this) && unchanged@adding(RecordsOf(channels));
      assert Abs() == outcome.state;
    }

    /** `addUser` on a stored record: only that record changes. */
    method AddMember(channel: ChannelInfo, userId: int, name: string, ghost k: int)
      requires k in channels && channels[k] == channel && Distinct(channels)
      modifies channel
      ensures ValuesOf(channels) == old(ValuesOf(channels))[k := WithUser(old(channel.Value()), userId, name)]
    {
      ghost var before := ValuesOf(channels);
      channel.AddUser(userId, name);
      ValuesOfAfterUpdate(channels, k, before);
    }

    /** `leaveChannel`: the sender leaves; the channel is removed when it
        empties or when the sender's nickname is its owner name. */
    method LeaveChannel(cmd: LeaveCommand) returns (r: Result<ResponseSet>)
      requires Valid()
      modifies this, Objects()
      ensures Valid()
      ensures Abs() == ServerState.LeaveChannel(old(Abs()), cmd).state
      ensures Reports(r, ServerState.LeaveChannel(old(Abs()), cmd).reply)
      ensures r.Success? ==> fresh(r.value)
    {
      var userId := GetSenderId(cmd);
      label naming:
      var nickname := GetNickname(userId);
      assert unchanged@naming(this) && unchanged@naming(RecordsOf(channels));
      if nickname.Failure? {
        return Failure(nickname.error);
      }
      r := LeaveChannelAs(cmd, nickname.value);
    }

    /** The rest of `leaveChannel`, once the sender's nickname is known. */
    method LeaveChannelAs(cmd: LeaveCommand, name: string) returns (r: Result<ResponseSet>)
      requires Valid() && name in users && users[name] == cmd.senderId
      modifies this, Objects()
      ensures Valid()
      ensures Abs() == ServerState.LeaveChannelAs(old(Abs()), cmd, name).state
      ensures Reports(r, ServerState.LeaveChannelAs(old(Abs()), cmd, name).reply)
      ensures r.Success? ==> fresh(r.value)
    {
      ghost var s := Abs();
      ghost var outcome := ServerState.LeaveChannelAs(s, cmd, name);
      LeaveAsPreservesInv(s, cmd, name);
      var userId := GetSenderId(cmd);
      var channelName := cmd.channel;
      label searching:
      var found := ChannelExists(channelName);
      assert unchanged@searching(this) && unchanged@searching(RecordsOf(channels));
      if !found {
        var rs := ResponseSet.SingleMessage(Error(cmd, NoSuchChannel));
        assert unchanged@searching(this) && unchanged@searching(RecordsOf(channels));
        assert Abs() == s == outcome.state;
        return Success(rs);
      }
      label fetching:
      var record := GetChannel(channelName);
      assert unchanged@fetching(this) && unchanged@fetching(RecordsOf(channels));
      assert Abs() == s;
      var channel := record.value;
      ghost var k := FindChannel(s, channelName).value;
      if !channel.UserInChannel(userId) {
        var rs := ResponseSet.SingleMessage(Error(cmd, UserNotInChannel));
        assert unchanged@fetching(this) && unchanged@fetching(RecordsOf(channels));
        assert Abs() == s == outcome.state;
        return Success(rs);
      }
      var rs := LeaveRecord(cmd, name, channel, k);
      r := Success(rs);
    }

    /** `leaveChannel` on the record found, with the sender a member. */
    method LeaveRecord(cmd: LeaveCommand, name: string, channel: ChannelInfo, ghost k: int)
      returns (rs: ResponseSet)
      requires Distinct(channels)
      requires FindChannel(Abs(), cmd.channel) == Some(k) && k in channels && channels[k] == channel
      requires cmd.senderId in channel.users
      modifies this`channels, channel
      ensures Distinct(channels)
      ensures Abs() == LeaveFound(old(Abs()), cmd, name, k).state
      ensures LeaveFound(old(Abs()), cmd, name, k).reply == Sent(rs.responses)
      ensures fresh(rs)
    {
      ghost var s := Abs();
      var userId := GetSenderId(cmd);
      RemoveMember(channel, userId, k);
      ghost var c' := channel.Value();
      FindChannelIgnoresMembers(s, k, c', cmd.channel);
      UpdateThenRemove(s.channels, k, c');
      rs := LeaveRemainder(cmd, name, channel, k);
    }

    /** `leaveChannel` once the sender is out of the record. */
    method LeaveRemainder(cmd: LeaveCommand, name: string, channel: ChannelInfo, ghost k: int)
      returns (rs: ResponseSet)
      requires Distinct(channels)
      requires FindChannel(Abs(), cmd.channel) == Some(k) && k in channels && channels[k] == channel
      modifies this`channels
      ensures Distinct(channels)
      ensures ValuesOf(channels) ==
        if channel.users.Keys == {} || channel.ownerName == name then old(ValuesOf(channels)) - {k}
        else old(ValuesOf(channels))
      ensures rs.responses ==
        if channel.users.Keys == {} then {Okay(cmd.senderId, name, cmd)}
        else OkayToAll(channel.users.Keys + {cmd.senderId}, name, cmd)
      ensures fresh(rs)
    {
      label testing:
      var emptied := channel.IsEmpty();
      assert unchanged@testing(this) && unchanged@testing(RecordsOf(channels));
      if emptied {
        rs := LeaveEmptied(cmd, name, channel, k);
      } else {
        rs := LeaveShared(cmd, name, channel, k);
      }
    }

    /** The end of `leaveChannel` when the sender was the last member:
        the record goes and only the sender is told. */
    method LeaveEmptied(cmd: LeaveCommand, name: string, channel: ChannelInfo, ghost k: int)
      returns (rs: ResponseSet)
      requires k in channels && channels[k] == channel && Distinct(channels)
      modifies this`channels
      ensures channels == old(channels) - {k}
      ensures ValuesOf(channels) == old(ValuesOf(channels)) - {k}
      ensures rs.responses == {Okay(cmd.senderId, name, cmd)}
      ensures fresh(rs)
    {
      RemoveRecord(channel, k);
      label answering:
      rs := ResponseSet.SingleMessage(Okay(GetSenderId(cmd), name, cmd));
      assert unchanged@answering(this) && unchanged@answering(RecordsOf(channels));
    }

    /** The end of `leaveChannel` when members remain: the owner leaving
        removes the record, and every former member is told. */
    method LeaveShared(cmd: LeaveCommand, name: string, channel: ChannelInfo, ghost k: int)
      returns (rs: ResponseSet)
      requires Distinct(channels)
      requires FindChannel(Abs(), cmd.channel) == Some(k) && k in channels && channels[k] == channel
      requires channel.users.Keys != {}
      modifies this`channels
      ensures Distinct(channels)
      ensures channels == if channel.ownerName == name then old(channels) - {k} else old(channels)
      ensures ValuesOf(channels) == if channel.ownerName == name then old(ValuesOf(channels)) - {k} else old(ValuesOf(channels))
      ensures rs.responses == OkayToAll(channel.users.Keys + {cmd.senderId}, name, cmd)
      ensures fresh(rs)
    {
      ghost var before := ValuesOf(channels);
      var userId := GetSenderId(cmd);
      var orgUserIds := Elems(channel.GetUserIds()) + {userId};
      assert orgUserIds == channel.users.Keys + {cmd.senderId};
      var recipients := SortedInts(orgUserIds);
      assert Elems(recipients) == orgUserIds;
      DropIfOwnerLeaves(cmd.channel, name, channel, k);
      label answering:
      rs := SendResponseToEveryone(recipients, name, cmd);
      assert unchanged@answering(this) && unchanged@answering(RecordsOf(channels));
      assert ValuesOf(channels) == ValuesOf(old@answering(channels));
    }

    /** `if (getOwner(channelName).equals(name)) channels.remove(channel)`. */
    method DropIfOwnerLeaves(channelName: string, name: string, channel: ChannelInfo, ghost k: int)
      requires Distinct(channels)
      requires FindChannel(Abs(), channelName) == Some(k) && k in channels && channels[k] == channel
      modifies this`channels
      ensures Distinct(channels)
      ensures channels == if channel.ownerName == name then old(channels) - {k} else old(channels)
      ensures ValuesOf(channels) == if channel.ownerName == name then old(ValuesOf(channels)) - {k} else old(ValuesOf(channels))
    {
      label owning:
      var owner := GetOwner(channelName);
      assert unchanged@owning(this) && unchanged@owning(RecordsOf(channels));
      assert owner == Success(channel.ownerName);
      if owner.value == name {
        RemoveRecord(channel, k);
      }
    }

    /** `deleteUser` on a stored record: only that record changes. */
    method RemoveMember(channel: ChannelInfo, userId: int, ghost k: int)
      requires k in channels && channels[k] == channel && Distinct(channels)
      modifies channel
      ensures channel.Value() == WithoutUser(old(channel.Value()), userId)
      ensures ValuesOf(channels) == old(ValuesOf(channels))[k := WithoutUser(old(channel.Value()), userId)]
    {
      ghost var before := ValuesOf(channels);
      channel.DeleteUser(userId);
      ValuesOfAfterUpdate(channels, k, before);
    }

    /** `channels.remove(channel)`: the `TreeSet` finds the record by its
        sum. */
    method RemoveRecord(channel: ChannelInfo, ghost k: int)
      requires k in channels && channels[k] == channel && Distinct(channels)
      modifies this`channels
      ensures channels == old(channels) - {k}
      ensures ValuesOf(channels) == old(ValuesOf(channels)) - {k}
    {
      ghost var rest := ValuesOf(channels - {k});
      ValuesOfRemove(channels, k);
      var key := ChannelInfo.GetAscii(channel.GetChannelName());
      assert key == k;
      label removing:
      channels := channels - {key};
      assert unchanged@removing(RecordsOf(channels));
      assert ValuesOf(channels) == rest;
    }

    /** `changeNickname`: a valid, unused nickname replaces the sender's
        in the registry and in every channel the sender belongs to (and as
        owner name where the sender is owner), and everyone sharing a
        channel with the sender, the sender included, is told. */
    method ChangeNickname(cmd: NicknameCommand) returns (r: Result<ResponseSet>)
      requires Valid()
      modifies this, Objects()
      ensures Valid()
      ensures Abs() == ServerState.ChangeNickname(old(Abs()), cmd).state
      ensures Reports(r, ServerState.ChangeNickname(old(Abs()), cmd).reply)
      ensures r.Success? ==> fresh(r.value)
    {
      var userId := GetSenderId(cmd);
      label naming:
      var nickname := GetNickname(userId);
      assert unchanged@naming(this) && unchanged@naming(RecordsOf(channels));
      if nickname.Failure? {
        return Failure(nickname.error);
      }
      var rs := ChangeNicknameAs(cmd, nickname.value);
      r := Success(rs);
    }

    /** The rest of `changeNickname`, once the old nickname is known. */
    method ChangeNicknameAs(cmd: NicknameCommand, oldName: string) returns (rs: ResponseSet)
      requires Valid() && oldName in users && users[oldName] == cmd.senderId
      modifies this, Objects()
      ensures Valid()
      ensures Abs() == ServerState.ChangeNicknameAs(old(Abs()), cmd, oldName).state
      ensures ServerState.ChangeNicknameAs(old(Abs()), cmd, oldName).reply == Sent(rs.responses)
      ensures fresh(rs)
    {
      ghost var s := Abs();
      ghost var outcome := ServerState.ChangeNicknameAs(s, cmd, oldName);
      ChangeNicknameAsPreservesInv(s, cmd, oldName);
      var userId := GetSenderId(cmd);
      var newName := cmd.newNickname;
      label checking:
      var valid := IsValidName(newName);
      assert unchanged@checking(this) && unchanged@checking(RecordsOf(channels));
      if !valid {
        rs := ResponseSet.SingleMessage(Error(cmd, InvalidName));
        assert unchanged@checking(this) && unchanged@checking(RecordsOf(channels));
        assert Abs() == s == outcome.state;
        return;
      }
      label searching:
      var taken := ExistingNickname(newName);
      assert unchanged@searching(this) && unchanged@searching(RecordsOf(channels));
      if taken {
        rs := ResponseSet.SingleMessage(Error(cmd, NameAlreadyInUse));
        assert unchanged@searching(this) && unchanged@searching(RecordsOf(channels));
        assert Abs() == s == outcome.state;
        return;
      }
      rs := RenameAndAnnounce(cmd, oldName);
    }

    /** The end of `changeNickname` for an accepted nickname: rename, then
        tell every connected user and the sender. */
    method RenameAndAnnounce(cmd: NicknameCommand, oldName: string) returns (rs: ResponseSet)
      requires Distinct(channels)
      modifies this`users, RecordsOf(channels)
      ensures users == (old(users) - {oldName})[cmd.newNickname := cmd.senderId]
      ensures ValuesOf(channels) == RenamedChannels(old(ValuesOf(channels)), cmd.senderId, cmd.newNickname)
      ensures rs.responses == OkayToAll(CoMembers(old(ValuesOf(channels)), cmd.senderId) + {cmd.senderId}, oldName, cmd)
      ensures fresh(rs)
    {
      ghost var before := ValuesOf(channels);
      var userId := GetSenderId(cmd);
      var connected := RenameUser(userId, oldName, cmd.newNickname);
      assert connected == CoMembers(before, userId);
      label answering:
      rs := SendResponseToEveryone(SortedInts(connected + {userId}), oldName, cmd);
      assert unchanged@answering(this) && unchanged@answering(RecordsOf(channels));
    }

    /** The registry and channel part of `changeNickname`: who shares a
        channel with the user. */
    method RenameUser(userId: int, oldName: string, newName: string) returns (connected: set<int>)
      requires Distinct(channels)
      modifies this`users, RecordsOf(channels)
      ensures users == (old(users) - {oldName})[newName := userId]
      ensures ValuesOf(channels) == RenamedChannels(old(ValuesOf(channels)), userId, newName)
      ensures connected == CoMembers(old(ValuesOf(channels)), userId)
    {
      label unregistering:
      users := users - {oldName};
      users := users[newName := userId];
      assert unchanged@unregistering(RecordsOf(channels));
      var records := GetRegisteredChannels();
      connected := RenameInChannels(userId, newName, records);
    }

    /** The channel loop of `changeNickname`, over the records in
        `TreeSet` order. */
    method RenameInChannels(userId: int, newName: string, records: seq<ChannelInfo>) returns (connected: set<int>)
      requires Distinct(channels)
      requires |records| == |channels|
      requires forall i :: 0 <= i < |records| ==> records[i] == channels[SortedInts(channels.Keys)[i]]
      modifies RecordsOf(channels)
      ensures ValuesOf(channels) == RenamedChannels(old(ValuesOf(channels)), userId, newName)
      ensures connected == CoMembers(old(ValuesOf(channels)), userId)
    {
      ghost var c0 := ValuesOf(channels);
      ghost var keys := SortedInts(channels.Keys);
      KeysListed(keys);
      ValuesOfKeys(channels);
      RenameProgressNone(c0, userId, newName);
      assert Elems(keys[..0]) == {};
      connected := {};
      var i := 0;
      while i < |records|
        invariant 0 <= i <= |records| == |keys|
        invariant forall j :: 0 <= j < |keys| ==> keys[j] in channels && channels[keys[j]] == records[j]
        invariant ValuesOf(channels) == RenameProgress(c0, userId, newName, Elems(keys[..i]))
        invariant connected == ConnectedProgress(c0, userId, Elems(keys[..i]))
      {
        SortedNotInPrefix(keys, i);
        ElemsPrefixStep(keys, i);
        var ids := RenameRound(records[i], userId, newName, keys[i], c0, Elems(keys[..i]));
        connected := connected + ids;
        i := i + 1;
      }
      assert keys[..i] == keys;
      RenameProgressAll(c0, userId, newName);
    }

    /** One round of the `changeNickname` loop. */
    method RenameRound(channel: ChannelInfo, userId: int, newName: string, ghost k: int,
                       ghost c0: map<int, Channel>, ghost done: set<int>) returns (ids: set<int>)
      requires k in channels && channels[k] == channel && Distinct(channels)
      requires k in c0 && k !in done
      requires ValuesOf(channels) == RenameProgress(c0, userId, newName, done)
      modifies channel
      ensures ValuesOf(channels) == RenameProgress(c0, userId, newName, done + {k})
      ensures ConnectedProgress(c0, userId, done + {k}) == ConnectedProgress(c0, userId, done) + ids
    {
      RenameProgressStep(c0, userId, newName, done, k);
      ValuesOfEntry(channels, k);
      ids := RenameInChannel(channel, userId, newName, k);
    }

    /** `if (channel.userInChannel(userId))`: rename there and collect the
        channel's members. */
    method RenameInChannel(channel: ChannelInfo, userId: int, newName: string, ghost k: int) returns (ids: set<int>)
      requires k in channels && channels[k] == channel && Distinct(channels)
      modifies channel
      ensures ValuesOf(channels) == old(ValuesOf(channels))[k :=
        if userId in old(channel.users) then Renamed(old(channel.Value()), userId, newName) else old(channel.Value())]
      ensures ids == ConnectedStep(old(channel.Value()), userId)
    {
      ValuesOfEntry(channels, k);
      ghost var before := ValuesOf(channels);
      ids := {};
      if channel.UserInChannel(userId) {
        channel.UpdateNickName(userId, newName);
        ValuesOfAfterUpdate(channels, k, before);
        ids := Elems(channel.GetUserIds());
      } else {
        assert before == before[k := channel.Value()];
      }
    }

    /** `inviteUser` is not implemented: it answers `null` and changes
        nothing. */
    method InviteUser(cmd: InviteCommand) returns (r: Option<ResponseSet>)
      ensures r.None? && ServerState.InviteUser(Abs(), cmd) == Outcome(Abs(), NoResponse)
    {
      r := None;
    }

    /** `kickUser` is not implemented either. */
    method KickUser(cmd: KickCommand) returns (r: Option<ResponseSet>)
      ensures r.None? && ServerState.KickUser(Abs(), cmd) == Outcome(Abs(), NoResponse)
    {
      r := None;
    }

    /** `TreeSet.add` of a new record under its sum: a no-op when a
        record with that sum is already stored. */
    method AddRecord(key: int, record: ChannelInfo)
      requires Distinct(channels) && record !in RecordsOf(channels)
      requires key == Ascii(record.name)
      modifies this`channels
      ensures Distinct(channels)
      ensures ValuesOf(channels) == AddChannel(old(ValuesOf(channels)), record.Value())
    {
      ValuesOfKeys(channels);
      if key !in channels {
        ValuesOfInsert(channels, key, record);
        ghost var after := ValuesOf(channels[key := record]);
        label adding:
        channels := channels[key := record];
        assert unchanged@adding(RecordsOf(channels));
        assert ValuesOf(channels) == after;
      }
    }
  }

  // ---------------------------------------------------------------------
  // The search loops find what the specification names
  // ---------------------------------------------------------------------

  /** The first registry entry, in key order, with the id is the nickname
      `getNickname` specifies; if none has it, the id is unregistered. */
  lemma FirstMatchIsGetNickname(s: State, userId: int, names: seq<string>, i: nat)
    requires names == ServerState.GetRegisteredUsers(s)
    requires i <= |names|
    requires forall j :: 0 <= j < i ==> s.users[names[j]] != userId
    requires i < |names| ==> s.users[names[i]] == userId
    ensures i < |names| ==> ServerState.GetNickname(s, userId) == Success(names[i])
    ensures i == |names| ==> ServerState.GetNickname(s, userId) == Failure(IllegalArgument)
  {
    var ids := NicknamesOf(s.users, userId);
    if i < |names| {
      assert names[i] in Elems(names);
      forall n | n in ids && n != names[i] ensures StrLess(names[i], n) {
        assert n in Elems(names);
        var j :| 0 <= j < |names| && names[j] == n;
        assert j > i;
      }
      var listing := SortedStrings(ids);
      StrLessIsStrictOrder(ids);
      SortedHeadIsLeast(StrLess, listing);
      LeastUnique(StrLess, ids, names[i], listing[0]);
    } else {
      forall n | n in s.users ensures s.users[n] != userId {
        assert n in Elems(names);
      }
    }
  }

  /** The first key, in ascending order, whose record has the name is the
      one `FindChannel` specifies. */
  lemma FirstMatchIsFindChannel(s: State, name: string, keys: seq<int>, i: nat)
    requires keys == SortedInts(s.channels.Keys)
    requires i <= |keys|
    requires forall j :: 0 <= j < i ==> s.channels[keys[j]].name != name
    requires i < |keys| ==> s.channels[keys[i]].name == name
    ensures i < |keys| ==> FindChannel(s, name) == Some(keys[i])
    ensures i == |keys| ==> FindChannel(s, name) == None
  {
    if i < |keys| {
      assert keys[i] in Elems(keys);
      var k := FindChannel(s, name).value;
      assert k in Elems(keys);
      var j :| 0 <= j < |keys| && keys[j] == k;
      assert j >= i;
      assert j == i || IntLess(keys[i], keys[j]);
    } else {
      forall k | k in s.channels ensures s.channels[k].name != name {
        assert k in Elems(keys);
      }
    }
  }

  // ---------------------------------------------------------------------
  // Records and the channels they describe
  // ---------------------------------------------------------------------

  lemma ValuesOfEntry(chs: map<int, ChannelInfo>, k: int)
    requires k in chs
    ensures k in ValuesOf(chs) && ValuesOf(chs)[k] == chs[k].Value()
  {
  }

  lemma UpdateThenRemove<K, V>(m: map<K, V>, k: K, v: V)
    ensures m[k := v] - {k} == m - {k}
  {
  }

  lemma ValuesOfKeys(chs: map<int, ChannelInfo>)
    ensures ValuesOf(chs).Keys == chs.Keys
  {
  }

  lemma ValuesOfRemove(chs: map<int, ChannelInfo>, k: int)
    ensures ValuesOf(chs - {k}) == ValuesOf(chs) - {k}
  {
  }

  lemma ValuesOfInsert(chs: map<int, ChannelInfo>, k: int, o: ChannelInfo)
    ensures ValuesOf(chs[k := o]) == ValuesOf(chs)[k := o.Value()]
  {
  }

  /** When only the record under k has changed, only the channel under k
      has changed. */
  lemma ValuesOfAfterUpdate(chs: map<int, ChannelInfo>, k: int, before: map<int, Channel>)
    requires k in chs && before.Keys == chs.Keys
    requires forall j :: j in chs && j != k ==> before[j] == chs[j].Value()
    ensures ValuesOf(chs) == before[k := chs[k].Value()]
  {
    var after := before[k := chs[k].Value()];
    assert ValuesOf(chs).Keys == after.Keys;
    forall j | j in chs ensures ValuesOf(chs)[j] == after[j] {
      ValuesOfEntry(chs, j);
    }
  }

  lemma SortedAfter(keys: seq<int>, i: nat)
    requires Sorted(IntLess, keys) && i < |keys|
    ensures forall j :: i < j < |keys| ==> keys[j] !in Elems(keys[..i + 1])
  {
    var prefix := keys[..i + 1];
    forall j | i < j < |keys| ensures keys[j] !in Elems(prefix) {
      forall l | 0 <= l < |prefix| ensures prefix[l] != keys[j] {
        assert IntLess(keys[l], keys[j]);
      }
    }
  }

  lemma SortedNotInPrefix(keys: seq<int>, i: nat)
    requires Sorted(IntLess, keys) && i < |keys|
    ensures keys[i] !in Elems(keys[..i])
  {
    forall l | 0 <= l < i ensures keys[..i][l] != keys[i] {
      assert IntLess(keys[l], keys[i]);
    }
  }

  // ---------------------------------------------------------------------
  // `deregisterUser` after the channels in `done` have been visited
  // ---------------------------------------------------------------------

  ghost function DeregisterProgress(chs: map<int, Channel>, userId: int, done: set<int>): map<int, Channel>
  {
    map k | k in chs && !(k in done && chs[k].ownerId == userId) ::
      if k in done && userId in chs[k].users then WithoutUser(chs[k], userId) else chs[k]
  }

  ghost function NotifiedProgress(chs: map<int, Channel>, userId: int, done: set<int>): set<int>
  {
    set k, u | k in chs && k in done && (chs[k].ownerId == userId || userId in chs[k].users)
                 && u in chs[k].users && u != userId :: u
  }

  lemma DeregisterProgressNone(chs: map<int, Channel>, userId: int)
    ensures DeregisterProgress(chs, userId, {}) == chs
    ensures NotifiedProgress(chs, userId, {}) == {}
  {
  }

  lemma DeregisterProgressAll(chs: map<int, Channel>, userId: int)
    ensures DeregisterProgress(chs, userId, chs.Keys) == DeregisteredChannels(chs, userId)
    ensures NotifiedProgress(chs, userId, chs.Keys) == DeregisterNotified(chs, userId)
  {
  }

  /** What visiting the channel under k does to the channels. */
  ghost function DeregisterStep(m: map<int, Channel>, userId: int, k: int): map<int, Channel>
    requires k in m
  {
    if m[k].ownerId == userId then m - {k}
    else if userId in m[k].users then m[k := WithoutUser(m[k], userId)]
    else m
  }

  /** Who visiting the channel c adds to the QUIT recipients. */
  ghost function NotifiedStep(c: Channel, userId: int): set<int>
  {
    if c.ownerId == userId || userId in c.users then c.users.Keys - {userId} else {}
  }

  lemma DeregisterProgressStep(chs: map<int, Channel>, userId: int, done: set<int>, k: int)
    requires k in chs && k !in done
    ensures k in DeregisterProgress(chs, userId, done) && DeregisterProgress(chs, userId, done)[k] == chs[k]
    ensures DeregisterProgress(chs, userId, done + {k}) == DeregisterStep(DeregisterProgress(chs, userId, done), userId, k)
    ensures NotifiedProgress(chs, userId, done + {k}) == NotifiedProgress(chs, userId, done) + NotifiedStep(chs[k], userId)
  {
    var before := NotifiedProgress(chs, userId, done);
    var after := NotifiedProgress(chs, userId, done + {k});
    forall u | u in after ensures u in before + NotifiedStep(chs[k], userId) {
      var k' :| k' in chs && k' in done + {k} && (chs[k'].ownerId == userId || userId in chs[k'].users)
                && u in chs[k'].users && u != userId;
      if k' != k {
        assert u in before;
      }
    }
    forall u | u in before + NotifiedStep(chs[k], userId) ensures u in after {
      if u in before {
        var k' :| k' in chs && k' in done && (chs[k'].ownerId == userId || userId in chs[k'].users)
                  && u in chs[k'].users && u != userId;
        assert k' in done + {k};
      } else {
        assert k in done + {k};
      }
    }
  }

  // ---------------------------------------------------------------------
  // `changeNickname` after the channels in `done` have been visited
  // ---------------------------------------------------------------------

  ghost function RenameProgress(chs: map<int, Channel>, userId: int, newName: string, done: set<int>): map<int, Channel>
  {
    map k | k in chs :: if k in done && userId in chs[k].users then Renamed(chs[k], userId, newName) else chs[k]
  }

  ghost function ConnectedProgress(chs: map<int, Channel>, userId: int, done: set<int>): set<int>
  {
    set k, u | k in chs && k in done && userId in chs[k].users && u in chs[k].users :: u
  }

  /** Who visiting the channel c adds to the connected users. */
  ghost function ConnectedStep(c: Channel, userId: int): set<int>
  {
    if userId in c.users then c.users.Keys else {}
  }

  lemma RenameProgressNone(chs: map<int, Channel>, userId: int, newName: string)
    ensures RenameProgress(chs, userId, newName, {}) == chs
    ensures ConnectedProgress(chs, userId, {}) == {}
  {
  }

  lemma RenameProgressAll(chs: map<int, Channel>, userId: int, newName: string)
    ensures RenameProgress(chs, userId, newName, chs.Keys) == RenamedChannels(chs, userId, newName)
    ensures ConnectedProgress(chs, userId, chs.Keys) == CoMembers(chs, userId)
  {
  }

  lemma RenameProgressStep(chs: map<int, Channel>, userId: int, newName: string, done: set<int>, k: int)
    requires k in chs && k !in done
    ensures k in RenameProgress(chs, userId, newName, done) && RenameProgress(chs, userId, newName, done)[k] == chs[k]
    ensures RenameProgress(chs, userId, newName, done + {k}) ==
      RenameProgress(chs, userId, newName, done)[k := if userId in chs[k].users then Renamed(chs[k], userId, newName) else chs[k]]
    ensures ConnectedProgress(chs, userId, done + {k}) == ConnectedProgress(chs, userId, done) + ConnectedStep(chs[k], userId)
  {
    var before := ConnectedProgress(chs, userId, done);
    var after := ConnectedProgress(chs, userId, done + {k});
    forall u | u in after ensures u in before + ConnectedStep(chs[k], userId) {
      var k' :| k' in chs && k' in done + {k} && userId in chs[k'].users && u in chs[k'].users;
      if k' != k {
        assert u in before;
      }
    }
    forall u | u in before + ConnectedStep(chs[k], userId) ensures u in after {
      if u in before {
        var k' :| k' in chs && k' in done && userId in chs[k'].users && u in chs[k'].users;
        assert k' in done + {k};
      } else {
        assert k in done + {k};
      }
    }
  }
}
