/** The state of the chat server (`ServerModel`) as a value, and every
    operation of the server as a function from a state to the next state
    and the reply. This is the specification the `ServerModel` class is
    proved against; the properties of the operations are proved about
    these functions. */
module ServerState {

  import opened Basics
  import opened JavaText
  import opened SortedSeqs
  import opened Commands
  import opened ErrorCodes
  import opened Responses
  import opened Channels

  /** `users` maps each nickname to its id. `channels` is the `TreeSet` of
      channels keyed by what it compares: the character-code sum
      `Ascii(name)` of the channel name. */
  datatype State = State(users: map<string, int>, channels: map<int, Channel>)

  /** `new ServerModel()`. */
  const Initial: State := State(map[], map[])

  /** What an operation gives back: a response set, `null` (the invite and
      kick stubs), or a thrown `IllegalArgumentException`. */
  datatype Reply = Sent(responses: set<Response>) | NoResponse | Thrown(error: Exception)

  datatype Outcome = Outcome(state: State, reply: Reply)

  // ---------------------------------------------------------------------
  // Names
  // ---------------------------------------------------------------------

  /** `isValidName`: non-empty, letters and digits only. */
  predicate IsValidName(name: string)
  {
    name != [] && forall i :: 0 <= i < |name| ==> IsLetterOrDigit(name[i])
  }

  /** The generated nickname with suffix n. */
  function UserName(n: nat): string
  {
    "User" + NatToString(n)
  }

  lemma UserNameInjective(a: nat, b: nat)
    ensures UserName(a) == UserName(b) <==> a == b
  {
    if UserName(a) == UserName(b) {
      CancelPrefix("User", NatToString(a), NatToString(b));
      NatToStringInjective(a, b);
    }
  }

  /** The generated nicknames with suffix below n. */
  function Generated(n: nat): set<string>
  {
    set k | 0 <= k < n :: UserName(k)
  }

  lemma {:induction false} GeneratedSize(n: nat)
    ensures |Generated(n)| == n
  {
    if n > 0 {
      GeneratedSize(n - 1);
      assert Generated(n) == Generated(n - 1) + {UserName(n - 1)};
      forall k | 0 <= k < n - 1 ensures UserName(k) != UserName(n - 1) {
        UserNameInjective(k, n - 1);
      }
    }
  }

  lemma SubsetSize<T>(a: set<T>, b: set<T>)
    requires a <= b
    ensures |a| <= |b|
  {
    assert b == a + (b - a);
  }

  /** The smallest suffix from n on whose nickname is not in use, given
      that every suffix below n is in use. There is one: the used names
      are finitely many. */
  function FirstFreeFrom(used: set<string>, n: nat): (m: nat)
    requires forall k :: 0 <= k < n ==> UserName(k) in used
    ensures n <= m && UserName(m) !in used
    ensures forall k :: 0 <= k < m ==> UserName(k) in used
    decreases |used| - n
  {
    if UserName(n) !in used then n
    else
      assert Generated(n + 1) <= used;
      GeneratedSize(n + 1);
      SubsetSize(Generated(n + 1), used);
      FirstFreeFrom(used, n + 1)
  }

  /** The suffix `FirstFreeFrom` picks is the least free one. */
  lemma FirstFreeIsLeast(used: set<string>, m: nat)
    requires forall k :: 0 <= k < m ==> UserName(k) in used
    requires UserName(m) !in used
    ensures FirstFreeFrom(used, 0) == m
  {
  }

  /** `generateUniqueNickname`: "User" followed by the smallest suffix
      that is not a registered nickname. */
  function UniqueNickname(s: State): string
  {
    UserName(FirstFreeFrom(s.users.Keys, 0))
  }

  // ---------------------------------------------------------------------
  // Queries
  // ---------------------------------------------------------------------

  /** `existingNickname`. */
  predicate ExistingNickname(s: State, nickname: string)
  {
    nickname in s.users
  }

  /** `existingUserId`. */
  predicate ExistingUserId(s: State, userId: int)
  {
    userId in s.users.Values
  }

  /** `getUserId`. */
  function GetUserId(s: State, nickname: string): (r: Result<int>)
    ensures r.Success? <==> nickname in s.users
    ensures r.Success? ==> r.value == s.users[nickname]
  {
    if nickname in s.users then Success(s.users[nickname]) else Failure(IllegalArgument)
  }

  function NicknamesOf(users: map<string, int>, userId: int): set<string>
  {
    set n | n in users && users[n] == userId
  }

  /** `getNickname`: the first nickname, in ascending order, registered
      to the id. */
  function GetNickname(s: State, userId: int): (r: Result<string>)
    ensures r.Success? <==> userId in s.users.Values
    ensures r.Success? ==> r.value in s.users && s.users[r.value] == userId
  {
    var names := NicknamesOf(s.users, userId);
    assert forall n :: n in s.users && s.users[n] == userId ==> n in names;
    if names == {} then
      Failure(IllegalArgument)
    else
      var listing := SortedStrings(names);
      assert listing[0] in Elems(listing);
      Success(listing[0])
  }

  /** `getRegisteredUsers`. */
  function GetRegisteredUsers(s: State): (r: seq<string>)
    ensures Sorted(StrLess, r) && Elems(r) == s.users.Keys && |r| == |s.users|
  {
    SortedStrings(s.users.Keys)
  }

  function ChannelNames(s: State): set<string>
  {
    set k | k in s.channels :: s.channels[k].name
  }

  /** `getChannels`. */
  function GetChannels(s: State): (r: seq<string>)
    ensures Sorted(StrLess, r) && Elems(r) == ChannelNames(s)
  {
    SortedStrings(ChannelNames(s))
  }

  /** `channelExists`. */
  predicate ChannelExists(s: State, name: string)
  {
    exists k :: k in s.channels && s.channels[k].name == name
  }

  function KeysNamed(s: State, name: string): set<int>
  {
    set k | k in s.channels && s.channels[k].name == name
  }

  /** `getChannel`: the first channel, in `TreeSet` order, with that name. */
  function FindChannel(s: State, name: string): (r: Option<int>)
    ensures r.None? <==> !ChannelExists(s, name)
    ensures r.Some? ==> r.value in s.channels && s.channels[r.value].name == name
    ensures r.Some? ==> forall k :: k in s.channels && s.channels[k].name == name ==> r.value <= k
  {
    var keys := KeysNamed(s, name);
    assert forall k :: k in s.channels && s.channels[k].name == name ==> k in keys;
    if keys == {} then None
    else
      var listing := SortedInts(keys);
      assert listing[0] in Elems(listing);
      assert forall k :: k in keys ==> listing[0] <= k by {
        forall k | k in keys ensures listing[0] <= k {
          var i :| 0 <= i < |listing| && listing[i] == k;
          assert i == 0 || IntLess(listing[0], listing[i]);
        }
      }
      Some(listing[0])
  }

  /** `getUserIdsInChannel`. */
  function GetUserIdsInChannel(s: State, name: string): (r: Result<seq<int>>)
    ensures r.Success? <==> ChannelExists(s, name)
    ensures r.Success? ==>
      Sorted(IntLess, r.value) && Elems(r.value) == s.channels[FindChannel(s, name).value].users.Keys
  {
    match FindChannel(s, name)
    case None => Failure(IllegalArgument)
    case Some(k) => Success(SortedInts(s.channels[k].users.Keys))
  }

  /** `getUserNicknamesInChannel`. */
  function GetUserNicknamesInChannel(s: State, name: string): (r: Result<seq<string>>)
    ensures r.Success? <==> ChannelExists(s, name)
    ensures r.Success? ==>
      Sorted(StrLess, r.value) && Elems(r.value) == Nicknames(s.channels[FindChannel(s, name).value].users)
  {
    match FindChannel(s, name)
    case None => Failure(IllegalArgument)
    case Some(k) =>
      Success(SortedStrings(Nicknames(s.channels[k].users)))
  }

  /** `getOwner`. */
  function GetOwner(s: State, name: string): (r: Result<string>)
    ensures r.Success? <==> ChannelExists(s, name)
    ensures r.Success? ==> r.value == s.channels[FindChannel(s, name).value].ownerName
  {
    match FindChannel(s, name)
    case None => Failure(IllegalArgument)
    case Some(k) => Success(s.channels[k].ownerName)
  }

  // ---------------------------------------------------------------------
  // The invariant every reachable state keeps
  // ---------------------------------------------------------------------

  /** Nicknames are unique per id as well as per name. */
  ghost predicate RegistryInjective(users: map<string, int>)
  {
    forall a, b :: a in users && b in users && users[a] == users[b] ==> a == b
  }

  /** Every member's nickname in the channel is its registered nickname. */
  ghost predicate InSync(users: map<string, int>, c: Channel)
  {
    forall u :: u in c.users ==> c.users[u] in users && users[c.users[u]] == u
  }

  /** A stored channel sits under its own sum, has a valid name, and its
      owner is a member whose nickname is the owner name. */
  ghost predicate ChannelOk(users: map<string, int>, key: int, c: Channel)
  {
    && key == Ascii(c.name)
    && IsValidName(c.name)
    && c.ownerId in c.users
    && c.ownerName == c.users[c.ownerId]
    && InSync(users, c)
  }

  ghost predicate Inv(s: State)
  {
    && RegistryInjective(s.users)
    && (forall n :: n in s.users ==> IsValidName(n))
    && (forall k :: k in s.channels ==> ChannelOk(s.users, k, s.channels[k]))
  }

  // ---------------------------------------------------------------------
  // Operations
  // ---------------------------------------------------------------------

  /** `sendResponseToEveryone`: an OKAY echo of the command to each id. */
  function OkayToAll(userIds: set<int>, senderName: string, command: Command): set<Response>
  {
    set u | u in userIds :: Okay(u, senderName, command)
  }

  /** A QUIT for the disconnected user to each id. */
  function QuitToAll(userIds: set<int>, userName: string): set<Response>
  {
    set u | u in userIds :: Disconnected(u, userName)
  }

  lemma OkayToAllAdd(userIds: set<int>, u: int, senderName: string, command: Command)
    ensures OkayToAll(userIds + {u}, senderName, command) == OkayToAll(userIds, senderName, command) + {Okay(u, senderName, command)}
  {
  }

  lemma QuitToAllAdd(userIds: set<int>, u: int, userName: string)
    ensures QuitToAll(userIds + {u}, userName) == QuitToAll(userIds, userName) + {Disconnected(u, userName)}
  {
  }

  /** `registerUser`: the nickname is generated first, then the id is
      checked. */
  function RegisterUser(s: State, userId: int): Outcome
  {
    var nickname := UniqueNickname(s);
    if !ExistingUserId(s, userId) then
      Outcome(s.(users := s.users[nickname := userId]), Sent({Connected(userId, nickname)}))
    else
      Outcome(s, Thrown(IllegalArgument))
  }

  /** The channels after `deregisterUser`: owned ones are dropped, the user
      is deleted from the ones it is a member of. */
  function DeregisteredChannels(channels: map<int, Channel>, userId: int): map<int, Channel>
  {
    map k | k in channels && channels[k].ownerId != userId ::
      if userId in channels[k].users then WithoutUser(channels[k], userId) else channels[k]
  }

  /** The ids left in a channel the user owned or belonged to. */
  function DeregisterNotified(channels: map<int, Channel>, userId: int): set<int>
  {
    set k, u | k in channels && (channels[k].ownerId == userId || userId in channels[k].users)
                 && u in channels[k].users && u != userId :: u
  }

  /** `deregisterUser`. */
  function DeregisterUser(s: State, userId: int): Outcome
  {
    match GetNickname(s, userId)
    case Failure(e) => Outcome(s, Thrown(e))
    case Success(userName) =>
      var notified := DeregisterNotified(s.channels, userId);
      Outcome(State(s.users - {userName}, DeregisteredChannels(s.channels, userId)),
              Sent(QuitToAll(notified, userName)))
  }

  /** Every id in a channel the user is a member of (the user included). */
  function CoMembers(channels: map<int, Channel>, userId: int): set<int>
  {
    set k, u | k in channels && userId in channels[k].users && u in channels[k].users :: u
  }

  function RenamedChannels(channels: map<int, Channel>, userId: int, newName: string): map<int, Channel>
  {
    map k | k in channels ::
      if userId in channels[k].users then Renamed(channels[k], userId, newName) else channels[k]
  }

  /** `changeNickname`. */
  function ChangeNickname(s: State, cmd: NicknameCommand): Outcome
  {
    match GetNickname(s, cmd.senderId)
    case Failure(e) => Outcome(s, Thrown(e))
    case Success(oldName) => ChangeNicknameAs(s, cmd, oldName)
  }

  /** `changeNickname` once the sender's current nickname is known. */
  function ChangeNicknameAs(s: State, cmd: NicknameCommand, oldName: string): Outcome
  {
    var userId := cmd.senderId;
    var newName := cmd.newNickname;
    if !IsValidName(newName) then
      Outcome(s, Sent({Error(cmd, InvalidName)}))
    else if ExistingNickname(s, newName) then
      Outcome(s, Sent({Error(cmd, NameAlreadyInUse)}))
    else
      var notified := CoMembers(s.channels, userId) + {userId};
      Outcome(State((s.users - {oldName})[newName := userId],
                    RenamedChannels(s.channels, userId, newName)),
              Sent(OkayToAll(notified, oldName, cmd)))
  }

  /** `TreeSet.add`: nothing happens when a channel with the same sum is
      already there. */
  function AddChannel(channels: map<int, Channel>, c: Channel): map<int, Channel>
  {
    var key := Ascii(c.name);
    if key in channels then channels else channels[key := c]
  }

  /** `createChannel`: the sender owns the new channel and is its only
      member. OKAY is returned even when the add did nothing. */
  function CreateChannel(s: State, cmd: CreateCommand): Outcome
  {
    match GetNickname(s, cmd.senderId)
    case Failure(e) => Outcome(s, Thrown(e))
    case Success(ownerName) => CreateChannelAs(s, cmd, ownerName)
  }

  /** `createChannel` once the owner's nickname is known. */
  function CreateChannelAs(s: State, cmd: CreateCommand, ownerName: string): Outcome
  {
    var ownerId := cmd.senderId;
    var channelName := cmd.channel;
    if ChannelExists(s, channelName) then
      Outcome(s, Sent({Error(cmd, ChannelAlreadyExists)}))
    else if !IsValidName(channelName) then
      Outcome(s, Sent({Error(cmd, InvalidName)}))
    else
      var c := Channel(ownerId, ownerName, channelName, map[ownerId := ownerName]);
      Outcome(s.(channels := AddChannel(s.channels, c)), Sent({Okay(ownerId, ownerName, cmd)}))
  }

  /** `joinChannel`: OKAY to every member (the joiner included) and NAMES
      to the joiner. The membership change is made before the NAMES
      response is built, so it stays even if building it throws. */
  function JoinChannel(s: State, cmd: JoinCommand): Outcome
  {
    match GetNickname(s, cmd.senderId)
    case Failure(e) => Outcome(s, Thrown(e))
    case Success(name) => JoinChannelAs(s, cmd, name)
  }

  /** `joinChannel` once the joiner's nickname is known. */
  function JoinChannelAs(s: State, cmd: JoinCommand, name: string): Outcome
  {
    var userId := cmd.senderId;
    var channelName := cmd.channel;
    match FindChannel(s, channelName)
    case None => Outcome(s, Sent({Error(cmd, NoSuchChannel)}))
    case Some(k) =>
      var c := WithUser(s.channels[k], userId, name);
      var s' := s.(channels := s.channels[k := c]);
      match NamesOf(userId, name, channelName, Nicknames(c.users), c.ownerName)
      case Failure(e) => Outcome(s', Thrown(e))
      case Success(names) => Outcome(s', Sent(OkayToAll(c.users.Keys, name, cmd) + {names}))
  }

  /** `sendMessage`: OKAY to every member; nothing changes. */
  function SendMessage(s: State, cmd: MessageCommand): Outcome
  {
    match GetNickname(s, cmd.senderId)
    case Failure(e) => Outcome(s, Thrown(e))
    case Success(name) => SendMessageAs(s, cmd, name)
  }

  /** `sendMessage` once the sender's nickname is known. */
  function SendMessageAs(s: State, cmd: MessageCommand, name: string): Outcome
  {
    var userId := cmd.senderId;
    match FindChannel(s, cmd.channel)
    case None => Outcome(s, Sent({Error(cmd, NoSuchChannel)}))
    case Some(k) =>
      var c := s.channels[k];
      if userId !in c.users then Outcome(s, Sent({Error(cmd, UserNotInChannel)}))
      else Outcome(s, Sent(OkayToAll(c.users.Keys, name, cmd)))
  }

  /** `leaveChannel`: the sender is removed; the channel goes when it is
      empty (then only the sender is answered) or when its owner name is
      the sender's nickname; otherwise the remaining members and the sender
      get OKAY. */
  function LeaveChannel(s: State, cmd: LeaveCommand): Outcome
  {
    match GetNickname(s, cmd.senderId)
    case Failure(e) => Outcome(s, Thrown(e))
    case Success(name) => LeaveChannelAs(s, cmd, name)
  }

  /** `leaveChannel` once the sender's nickname is known. */
  function LeaveChannelAs(s: State, cmd: LeaveCommand, name: string): Outcome
  {
    match FindChannel(s, cmd.channel)
    case None => Outcome(s, Sent({Error(cmd, NoSuchChannel)}))
    case Some(k) =>
      if cmd.senderId !in s.channels[k].users then Outcome(s, Sent({Error(cmd, UserNotInChannel)}))
      else LeaveFound(s, cmd, name, k)
  }

  /** The member leaves the channel stored under `k`: an emptied channel
      goes and only the sender is told; otherwise every former member is
      told, and the channel goes when its owner name is the sender's. */
  function LeaveFound(s: State, cmd: LeaveCommand, name: string, k: int): Outcome
    requires k in s.channels
  {
    var userId := cmd.senderId;
    var c' := WithoutUser(s.channels[k], userId);
    if c'.users.Keys == {} then
      Outcome(s.(channels := s.channels - {k}), Sent({Okay(userId, name, cmd)}))
    else
      var recipients := c'.users.Keys + {userId};
      var channels := if c'.ownerName == name then s.channels - {k} else s.channels[k := c'];
      Outcome(s.(channels := channels), Sent(OkayToAll(recipients, name, cmd)))
  }

  /** `inviteUser` and `kickUser` return `null` and change nothing. */
  function InviteUser(s: State, cmd: InviteCommand): Outcome
  {
    Outcome(s, NoResponse)
  }

  function KickUser(s: State, cmd: KickCommand): Outcome
  {
    Outcome(s, NoResponse)
  }

  /** `Command.updateServerModel`: each kind goes to its own operation. */
  function Apply(s: State, cmd: Command): Outcome
  {
    match cmd
    case Nick(_, _) => ChangeNickname(s, cmd)
    case Create(_, _, _) => CreateChannel(s, cmd)
    case Join(_, _) => JoinChannel(s, cmd)
    case Mesg(_, _, _) => SendMessage(s, cmd)
    case Leave(_, _) => LeaveChannel(s, cmd)
    case Invite(_, _, _) => InviteUser(s, cmd)
    case Kick(_, _, _) => KickUser(s, cmd)
  }

  /** What the backend hands the model: a connection, a disconnection, or
      a parsed command. */
  datatype Task = Registration(userId: int) | Disconnection(userId: int) | Request(command: Command)

  function Step(s: State, t: Task): Outcome
  {
    match t
    case Registration(id) => RegisterUser(s, id)
    case Disconnection(id) => DeregisterUser(s, id)
    case Request(cmd) => Apply(s, cmd)
  }

  /** The state after processing the tasks in order. */
  function Run(s: State, tasks: seq<Task>): State
    decreases |tasks|
  {
    if tasks == [] then s else Run(Step(s, tasks[0]).state, tasks[1..])
  }
}
