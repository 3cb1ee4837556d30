# Chat server model

A model of the in-memory core of a small IRC-style chat server, written in
Java. The server keeps two things:

- a registry that maps each nickname to a user id;
- a set of channels. Each channel has an owner id and an owner nickname, a
  name, and an id-to-nickname member map.

Every client event or command is one operation. Each operation checks its
error cases in a fixed order, updates the state in place and returns the set
of responses to deliver: who receives what text. The operations are:

- a client connects (`registerUser`) or disconnects (`deregisterUser`);
- `NICK`, `CREATE`, `JOIN`, `MESG` and `LEAVE`;
- `INVITE` and `KICK`, which are stubs.

The project has one module per unit of the program:

| file | module | what it holds |
|---|---|---|
| basics.dfy | `Basics` | `Option`, `Result` and the exceptions an operation can throw |
| java_text.dfy | `JavaText` | `String.compareTo`, `trim`, `Integer.toString`, `Integer.compare`, Java `int` wrap-around, `Character.isLetterOrDigit` |
| sorted_seqs.dfy | `SortedSeqs` | strict orders, and the unique sorted listing of a set, which is the iteration order of a `TreeSet` |
| error_codes.dfy | `ErrorCodes` | the error codes |
| commands.dfy | `Commands` | the `Command` variants, their `toString` text and their text-based `equals` |
| responses.dfy | `Responses` | the `Response` value, its factories, the NAMES payload, and `compareTo` |
| response_sets.dfy | `ResponseSets` | the class `ResponseSet`, a mutable deduplicating sorted set |
| channels.dfy | `Channels` | the channel value, the character-code sum the channel set is ordered by, and the class `ChannelInfo` |
| server_state.dfy | `ServerState` | the whole server state as a value, with every operation as a function from state to (next state, reply) |
| server_properties.dfy | `ServerProperties` | the promised behaviour of each operation, and the server invariant, proved about those functions |
| server_model.dfy | `ServerModels` | the class `ServerModel` (a `users` map and a `channels` map of `ChannelInfo` records), with one method per query and per operation, each proved against `ServerState` |
| dispatch.dfy | `Dispatch` | `Command.updateServerModel` and the backend's three kinds of task |

The server invariant is `ServerState.Inv`. It says:

- the registry is injective, and every nickname in it is valid;
- every channel is stored under the sum of its name's characters, and its name is valid;
- every channel's owner is a member, and the owner name is the owner's nickname in the channel;
- every member's nickname in a channel is that member's registered nickname.

`ServerModel.Valid()` holds this invariant for the abstract state `Abs()`.
Every operation method of `ServerModel` (the ones that `updateServerModel` and the backend's tasks call) requires `Valid()` and ensures it again. The smaller helper methods between them require only what they use. Each
such method also ensures two things:

- its new `Abs()` is the state the matching `ServerState` function computes;
- its response set holds exactly the responses that function specifies. A
  thrown exception is modelled as a `Failure`.

Two features of the Java code are kept as written:

- **The channel set is ordered by a character-code sum.** The channel set is a
  `TreeSet` ordered by `ChannelInfo.compareTo`. That method compares the
  sums of the character codes of the names, with Java `int` wrap-around. The
  model therefore stores the channels in a map keyed by that sum.
  `createChannel` checks for an existing channel by name. A new name whose
  sum equals the sum of an existing channel's name (for example "ba" against
  "ab") makes `channels.add` a no-op. OKAY is still returned, and the new
  channel does not exist afterwards. `CreateChannelSumCollision` and
  `CollisionExample` state this.
- **Command equality ignores the sender.** `Command.equals` compares the
  `toString` texts only. The sender id is not part of the text, so two
  commands from different senders are equal. The same holds for the OKAY
  responses built from them.

## Model

| member | source | states |
|---|---|---|
| JavaText.IntegerCompare | hw07_local/hw07_local_temp/src/main/java/org/cis1200/ChannelInfo.java:132-135 | the result is -1, 0 or 1, negative iff x < y and zero iff x == y |
| JavaText.CompareZeroIffEqual | hw07_local/hw07_local_temp/src/main/java/org/cis1200/Response.java:49 | Java `String.compareTo` is zero exactly for equal strings |
| JavaText.CompareAntisymmetric | hw07_local/hw07_local_temp/src/main/java/org/cis1200/Response.java:49 | swapping the arguments of `String.compareTo` negates the result |
| JavaText.StrLessTransitive | hw07_local/hw07_local_temp/src/main/java/org/cis1200/Response.java:49 | the order given by `String.compareTo` is transitive |
| JavaText.StrLessTotal | hw07_local/hw07_local_temp/src/main/java/org/cis1200/ChannelInfo.java:69-71 | any two distinct strings are ordered one way or the other |
| JavaText.StrLessIsStrictOrder | hw07_local/hw07_local_temp/src/main/java/org/cis1200/ChannelInfo.java:69-71 | the string order is a strict total order on any set of strings, so a `TreeSet<String>` has one iteration order |
| JavaText.SortedStrings | hw07_local/hw07_local_temp/src/main/java/org/cis1200/ServerModel.java:114-116 | the result lists exactly the strings of the set, once each, in `String.compareTo` order |
| JavaText.NatToString | hw07_local/hw07_local_temp/src/main/java/org/cis1200/ServerModel.java:257 | `Integer.toString` of a suffix: its digits spell the suffix in decimal, with no leading zero; it is non-empty and all digits, and a single digit iff the suffix is below 10 |
| JavaText.NatToStringInjective | hw07_local/hw07_local_temp/src/main/java/org/cis1200/ServerModel.java:257 | two suffixes with the same decimal text are equal |
| JavaText.Int32 | hw07_local/hw07_local_temp/src/main/java/org/cis1200/ChannelInfo.java:145-151 | the wrapped value lies in the Java `int` range, and in-range values are unchanged |
| JavaText.Int32OfSum | hw07_local/hw07_local_temp/src/main/java/org/cis1200/ChannelInfo.java:145-151 | wrapping after every addition gives the same result as wrapping once at the end |
| JavaText.JavaCompare | hw07_local/hw07_local_temp/src/main/java/org/cis1200/Response.java:49 | `String.compareTo`: the difference of the first differing pair of character codes or, when one string is a prefix of the other, the difference of the lengths |
| JavaText.StrLess | hw07_local/hw07_local_temp/src/main/java/org/cis1200/Response.java:49 | the natural order of Java strings: `a.compareTo(b) < 0` |
| JavaText.Trim | hw07_local/hw07_local_temp/src/main/java/org/cis1200/Response.java:172 | `String.trim`: every leading and every trailing character with code at most that of the space is removed |
| JavaText.IsLetterOrDigit | hw07_local/hw07_local_temp/src/main/java/org/cis1200/ServerModel.java:390 | `Character.isLetterOrDigit`, restricted to the ASCII letters and digits |
| JavaText.DecimalValue | hw07_local/hw07_local_temp/src/main/java/org/cis1200/ServerModel.java:257 | the number that a digit string spells, most significant digit first, so that `NatToString` is shown to give the decimal text |
| SortedSeqs.FromSet | hw07_local/hw07_local_temp/src/main/java/org/cis1200/ResponseSet.java:18 | the listing is sorted, and it holds exactly the set's elements, once each |
| SortedSeqs.SortedUnique | hw07_local/hw07_local_temp/src/main/java/org/cis1200/ResponseSet.java:70-72 | two sorted listings of the same set are equal, so the iteration order of a `TreeSet` is determined by its contents |
| SortedSeqs.SortedHeadIsLeast | hw07_local/hw07_local_temp/src/main/java/org/cis1200/ResponseSet.java:18 | the first element of a sorted listing is the least element of the set |
| SortedSeqs.LeastExists | hw07_local/hw07_local_temp/src/main/java/org/cis1200/ResponseSet.java:18 | a finite non-empty set under a strict total order has a least element |
| SortedSeqs.LeastUnique | hw07_local/hw07_local_temp/src/main/java/org/cis1200/ResponseSet.java:18 | the least element is unique |
| SortedSeqs.SortedInts | hw07_local/hw07_local_temp/src/main/java/org/cis1200/ChannelInfo.java:60-62 | the result lists the set's ids once each, in ascending order |
| Commands.EqualsIgnoresSender | hw07_local/hw07_local_temp/src/main/java/org/cis1200/Command.java:42-78 | changing only the sender gives a command whose `getSenderId` is the new sender and which is still `equals` to the original |
| Commands.TextDeterminesCommand | hw07_local/hw07_local_temp/src/main/java/org/cis1200/Command.java:70-78 | when no channel name contains a space, two commands are `equals` iff they have the same kind and the same fields apart from the sender |
| Commands.SameKind | hw07_local/hw07_local_temp/src/main/java/org/cis1200/Command.java:70-78 | equal commands are of the same kind |
| Commands.CreateTextInjective | hw07_local/hw07_local_temp/src/main/java/org/cis1200/Command.java:156-159 | the CREATE text determines the channel and the invite-only flag |
| Commands.MesgTextInjective | hw07_local/hw07_local_temp/src/main/java/org/cis1200/Command.java:229-231 | when channel names have no space, the MESG text determines the channel and the message |
| Commands.PairTextInjective | hw07_local/hw07_local_temp/src/main/java/org/cis1200/Command.java:305-307 | when channel names have no space, the INVITE text (and the KICK text, which has the same shape) determines the channel and the user |
| Commands.SpaceInChannelMakesTextAmbiguous | hw07_local/hw07_local_temp/src/main/java/org/cis1200/Command.java:70-78 | a space in the channel name makes two different KICK commands `equals` |
| Commands.Text | hw07_local/hw07_local_temp/src/main/java/org/cis1200/Command.java:115-117 | `toString` of each command kind: `NICK n`, `CREATE ch f` with f 1 iff invite-only, `JOIN ch`, `MESG ch :msg`, `LEAVE ch`, `INVITE ch u`, `KICK ch u`; the sender is not part of the text |
| Commands.Equals | hw07_local/hw07_local_temp/src/main/java/org/cis1200/Command.java:70-78 | `equals`: the two `toString` texts are the same |
| Commands.GetSenderId | hw07_local/hw07_local_temp/src/main/java/org/cis1200/Command.java:42-44 | `getSenderId`: the sender id given at construction |
| Responses.MarkAll | hw07_local/hw07_local_temp/src/main/java/org/cis1200/Response.java:161-166 | each member is marked on its own, with `@` exactly for the owner |
| Responses.Names | hw07_local/hw07_local_temp/src/main/java/org/cis1200/Response.java:152-175 | the StringBuilder loop computes `NamesOf`: it throws when the owner is not a member, and otherwise it builds the NAMES response |
| Responses.PayloadStep | hw07_local/hw07_local_temp/src/main/java/org/cis1200/Response.java:161-166 | each loop round appends the member, preceded by `@` iff it is the owner, followed by one space |
| Responses.RawIsJoinedPlusSpace | hw07_local/hw07_local_temp/src/main/java/org/cis1200/Response.java:160-167 | the raw payload is the marked members joined by single spaces, plus one trailing space |
| Responses.NamesPayloadShape | hw07_local/hw07_local_temp/src/main/java/org/cis1200/Response.java:160-172 | after `trim`, the payload is the marked members joined by single spaces, with no trailing space |
| Responses.NamesOverloadsAgree | hw07_local/hw07_local_temp/src/main/java/org/cis1200/Response.java:152-199 | for an owner who is a member, the set overload equals the payload overload applied to the sorted, marked, space-joined member list |
| Responses.JoinSpacedTidy | hw07_local/hw07_local_temp/src/main/java/org/cis1200/Response.java:172 | joined valid names have no leading or trailing space |
| Responses.TrimTrailingSpace | hw07_local/hw07_local_temp/src/main/java/org/cis1200/Response.java:172 | `trim` removes exactly the one trailing space from a string without outer spaces |
| Responses.MarkedTidy | hw07_local/hw07_local_temp/src/main/java/org/cis1200/Response.java:162-165 | marking a name whose ends are not spaces gives a string whose ends are not spaces |
| Responses.CompareToConsistentWithEquals | hw07_local/hw07_local_temp/src/main/java/org/cis1200/Response.java:44-71 | `compareTo` is zero iff the recipient and the text are equal, that is, iff `equals` holds |
| Responses.CompareToAntisymmetric | hw07_local/hw07_local_temp/src/main/java/org/cis1200/Response.java:44-51 | `compareTo` is antisymmetric |
| Responses.LessIsLexicographic | hw07_local/hw07_local_temp/src/main/java/org/cis1200/Response.java:44-51 | responses are ordered by recipient id, and then by text in `String.compareTo` order |
| Responses.LessIsStrictOrder | hw07_local/hw07_local_temp/src/main/java/org/cis1200/Response.java:44-51 | the response order is a strict total order on any set of responses |
| Responses.ConnectedInjective | hw07_local/hw07_local_temp/src/main/java/org/cis1200/Response.java:90-92 | a CONNECT response determines its recipient and nickname |
| Responses.DisconnectedInjective | hw07_local/hw07_local_temp/src/main/java/org/cis1200/Response.java:102-104 | a QUIT response determines its recipient and nickname |
| Responses.OkayCollapsesEqualCommands | hw07_local/hw07_local_temp/src/main/java/org/cis1200/Response.java:117-119 | for nicknames without spaces, two OKAY responses are equal iff they have the same recipient and nickname and the commands are `equals`, whoever sent the commands |
| Responses.ErrorInjective | hw07_local/hw07_local_temp/src/main/java/org/cis1200/Response.java:132-137 | two ERROR responses are equal iff the commands have the same sender and the codes are equal; the response goes to the sender |
| Responses.Connected | hw07_local/hw07_local_temp/src/main/java/org/cis1200/Response.java:90-92 | addressed to the new user, with text `:n CONNECT` |
| Responses.Disconnected | hw07_local/hw07_local_temp/src/main/java/org/cis1200/Response.java:102-104 | addressed to the recipient, with text `:n QUIT` |
| Responses.Okay | hw07_local/hw07_local_temp/src/main/java/org/cis1200/Response.java:117-119 | addressed to the recipient, with text `:` + nickname + space + the command's `toString` |
| Responses.Error | hw07_local/hw07_local_temp/src/main/java/org/cis1200/Response.java:132-137 | addressed to the command's sender, with text `:$server ERROR ` and the decimal code |
| Responses.NamesWithPayload | hw07_local/hw07_local_temp/src/main/java/org/cis1200/Response.java:191-199 | the payload overload: addressed to the user, with text `:n NAMES ch :payload` |
| Responses.NamesOf | hw07_local/hw07_local_temp/src/main/java/org/cis1200/Response.java:152-175 | the set overload: a thrown exception when the owner is not a member; otherwise the NAMES response whose payload is the trimmed builder contents over the sorted members |
| Responses.CompareTo | hw07_local/hw07_local_temp/src/main/java/org/cis1200/Response.java:44-51 | `compareTo`: `Integer.compare` of the recipients, and on a tie `String.compareTo` of the texts |
| Responses.Less | hw07_local/hw07_local_temp/src/main/java/org/cis1200/Response.java:44-51 | the order of a `TreeSet<Response>`: `compareTo` is negative |
| ResponseSets.ResponseSet.constructor | hw07_local/hw07_local_temp/src/main/java/org/cis1200/ResponseSet.java:18 | a new set is empty |
| ResponseSets.ResponseSet.AddMessage | hw07_local/hw07_local_temp/src/main/java/org/cis1200/ResponseSet.java:25-27 | the response is added; the result is true iff the response was absent; the size grows by one exactly then |
| ResponseSets.ResponseSet.Empty | hw07_local/hw07_local_temp/src/main/java/org/cis1200/ResponseSet.java:38-40 | a fresh set with no responses |
| ResponseSets.ResponseSet.SingleMessage | hw07_local/hw07_local_temp/src/main/java/org/cis1200/ResponseSet.java:48-52 | a fresh set holding exactly the given response |
| ResponseSets.ResponseSet.GetResponses | hw07_local/hw07_local_temp/src/main/java/org/cis1200/ResponseSet.java:70-72 | the responses, once each, in `Response.compareTo` order |
| ResponseSets.DeliveryOrderIsUnique | hw07_local/hw07_local_temp/src/main/java/org/cis1200/ResponseSet.java:70-72 | any sorted listing of the set is the listing `getResponses` gives |
| ResponseSets.SingleMessageMatchesAddMessage | hw07_local/hw07_local_temp/src/main/java/org/cis1200/ResponseSet.java:48-52 | `singleMessage(r)` equals a new set after `addMessage(r)` |
| ResponseSets.InsertionOrderIsIrrelevant | hw07_local/hw07_local_temp/src/main/java/org/cis1200/ResponseSet.java:83-91 | adding two responses in either order gives equal sets, and adding one again returns false |
| ResponseSets.ResponseSet.Equals | hw07_local/hw07_local_temp/src/main/java/org/cis1200/ResponseSet.java:83-91 | `equals`: the same object, or the same set of responses |
| Channels.CharSumAppend | hw07_local/hw07_local_temp/src/main/java/org/cis1200/ChannelInfo.java:145-151 | the character sum of a concatenation is the sum of the parts' sums |
| Channels.AsciiOfSwapped | hw07_local/hw07_local_temp/src/main/java/org/cis1200/ChannelInfo.java:132-151 | swapping the two halves of a name keeps its sum, so rearranged names collide |
| Channels.ChannelInfo.constructor | hw07_local/hw07_local_temp/src/main/java/org/cis1200/ChannelInfo.java:20-26 | the new record holds the given owner id, owner name, channel name and members |
| Channels.ChannelInfo.GetUserIds | hw07_local/hw07_local_temp/src/main/java/org/cis1200/ChannelInfo.java:60-62 | a sorted copy of the member ids, once each |
| Channels.ChannelInfo.IsEmpty | hw07_local/hw07_local_temp/src/main/java/org/cis1200/ServerModel.java:658 | true iff the channel has no member |
| Channels.ChannelInfo.GetUserNames | hw07_local/hw07_local_temp/src/main/java/org/cis1200/ChannelInfo.java:69-71 | the member nicknames, sorted in `String.compareTo` order |
| Channels.ChannelInfo.DeleteUser | hw07_local/hw07_local_temp/src/main/java/org/cis1200/ChannelInfo.java:78-80 | removes only that id; the owner fields and every other member stay as they were |
| Channels.ChannelInfo.AddUser | hw07_local/hw07_local_temp/src/main/java/org/cis1200/ChannelInfo.java:88-100 | afterwards the id is a member with that nickname; the ids grow by that one, the other members are unchanged, and re-adding an id only replaces its nickname |
| Channels.ChannelInfo.UpdateNickName | hw07_local/hw07_local_temp/src/main/java/org/cis1200/ChannelInfo.java:109-122 | the owner name changes iff the id is the owner id; the member's nickname changes only if it is a member; the member set and every other member are unchanged |
| Channels.ChannelInfo.GetAscii | hw07_local/hw07_local_temp/src/main/java/org/cis1200/ChannelInfo.java:145-151 | the loop computes the sum of the character codes with `int` wrap-around |
| Channels.ChannelInfo.CompareTo | hw07_local/hw07_local_temp/src/main/java/org/cis1200/ChannelInfo.java:132-135 | the sign of the result is the sign of the difference between the two name sums, so it is zero iff the sums agree |
| Channels.CompareToIsCoarserThanEquals | hw07_local/hw07_local_temp/src/main/java/org/cis1200/ChannelInfo.java:132-170 | records named "ab" and "ba" compare as zero but are not `equals` |
| Channels.WithUser | hw07_local/hw07_local_temp/src/main/java/org/cis1200/ChannelInfo.java:88-90 | `addUser` on the channel value: the member map puts the id with that nickname |
| Channels.WithoutUser | hw07_local/hw07_local_temp/src/main/java/org/cis1200/ChannelInfo.java:78-80 | `deleteUser` on the channel value: the member map loses the id |
| Channels.Renamed | hw07_local/hw07_local_temp/src/main/java/org/cis1200/ChannelInfo.java:109-122 | `updateNickName` on the channel value: the owner name changes iff the id is the owner id, and the member entry is replaced only for a member |
| Channels.CharSum | hw07_local/hw07_local_temp/src/main/java/org/cis1200/ChannelInfo.java:145-151 | the sum of the character codes of a string, as a mathematical integer |
| Channels.Ascii | hw07_local/hw07_local_temp/src/main/java/org/cis1200/ChannelInfo.java:145-151 | `getAscii`: that sum wrapped to a Java `int` |
| Channels.ChannelInfo.GetOwner | hw07_local/hw07_local_temp/src/main/java/org/cis1200/ChannelInfo.java:33-35 | the owner's current nickname |
| Channels.ChannelInfo.GetOwnerID | hw07_local/hw07_local_temp/src/main/java/org/cis1200/ChannelInfo.java:42-44 | the owner id, which is `const` and never changes |
| Channels.ChannelInfo.GetChannelName | hw07_local/hw07_local_temp/src/main/java/org/cis1200/ChannelInfo.java:51-53 | the channel name, which is `const` and never changes |
| Channels.ChannelInfo.UserInChannel | hw07_local/hw07_local_temp/src/main/java/org/cis1200/ChannelInfo.java:98-100 | the id is a key of the member map |
| Channels.ChannelInfo.Equals | hw07_local/hw07_local_temp/src/main/java/org/cis1200/ChannelInfo.java:161-170 | `equals`: the same object, or the same channel name |
| ServerState.UserNameInjective | hw07_local/hw07_local_temp/src/main/java/org/cis1200/ServerModel.java:257 | two generated nicknames are equal iff their suffixes are |
| ServerState.FirstFreeFrom | hw07_local/hw07_local_temp/src/main/java/org/cis1200/ServerModel.java:252-260 | the search finds a suffix at or after its start whose nickname is unused |
| ServerState.FirstFreeIsLeast | hw07_local/hw07_local_temp/src/main/java/org/cis1200/ServerModel.java:252-260 | the search from 0 returns the smallest suffix whose nickname is unused |
| ServerState.GetUserId | hw07_local/hw07_local_temp/src/main/java/org/cis1200/ServerModel.java:65-72 | succeeds iff the nickname is registered, and then returns its id; otherwise it throws |
| ServerState.GetNickname | hw07_local/hw07_local_temp/src/main/java/org/cis1200/ServerModel.java:88-103 | succeeds iff the id is registered, and then returns a nickname registered to it; otherwise it throws |
| ServerState.GetRegisteredUsers | hw07_local/hw07_local_temp/src/main/java/org/cis1200/ServerModel.java:114-116 | every registered nickname, once each, sorted |
| ServerState.GetChannels | hw07_local/hw07_local_temp/src/main/java/org/cis1200/ServerModel.java:140-146 | the names of the channels, sorted |
| ServerState.FindChannel | hw07_local/hw07_local_temp/src/main/java/org/cis1200/ServerModel.java:511-518 | finds a channel iff one has the name, and the channel found has that name |
| ServerState.GetUserIdsInChannel | hw07_local/hw07_local_temp/src/main/java/org/cis1200/ServerModel.java:161-169 | succeeds iff the channel exists, with its member ids sorted |
| ServerState.GetUserNicknamesInChannel | hw07_local/hw07_local_temp/src/main/java/org/cis1200/ServerModel.java:182-190 | succeeds iff the channel exists, with its member nicknames sorted |
| ServerState.GetOwner | hw07_local/hw07_local_temp/src/main/java/org/cis1200/ServerModel.java:202-210 | succeeds iff the channel exists, with its owner's nickname |
| ServerState.IsValidName | hw07_local/hw07_local_temp/src/main/java/org/cis1200/ServerModel.java:385-395 | `isValidName`: the name is non-empty and every character is a letter or a digit |
| ServerState.UniqueNickname | hw07_local/hw07_local_temp/src/main/java/org/cis1200/ServerModel.java:252-260 | `generateUniqueNickname`: "User" followed by the least suffix whose nickname is not registered |
| ServerState.ExistingNickname | hw07_local/hw07_local_temp/src/main/java/org/cis1200/ServerModel.java:42-44 | the nickname is a key of the registry |
| ServerState.ExistingUserId | hw07_local/hw07_local_temp/src/main/java/org/cis1200/ServerModel.java:52-54 | the id is a value of the registry |
| ServerState.ChannelExists | hw07_local/hw07_local_temp/src/main/java/org/cis1200/ServerModel.java:569-576 | some channel has exactly that name |
| ServerState.OkayToAll | hw07_local/hw07_local_temp/src/main/java/org/cis1200/ServerModel.java:551-558 | one OKAY echo of the command, with the sender's nickname, addressed to each id |
| ServerState.QuitToAll | hw07_local/hw07_local_temp/src/main/java/org/cis1200/ServerModel.java:307-310 | one QUIT with the leaving user's nickname, addressed to each id |
| ServerState.RegisterUser | hw07_local/hw07_local_temp/src/main/java/org/cis1200/ServerModel.java:228-242 | the nickname is generated first; a known id throws and changes nothing; otherwise the nickname maps to the id, and one CONNECT goes to the id |
| ServerState.DeregisteredChannels | hw07_local/hw07_local_temp/src/main/java/org/cis1200/ServerModel.java:292-304 | the channels the user owns are dropped, the user is deleted from every other channel it belongs to, and the remaining channels are unchanged |
| ServerState.DeregisterNotified | hw07_local/hw07_local_temp/src/main/java/org/cis1200/ServerModel.java:292-304 | the ids left, after the user is deleted, in each channel the user owned or belonged to |
| ServerState.DeregisterUser | hw07_local/hw07_local_temp/src/main/java/org/cis1200/ServerModel.java:284-314 | an unknown id throws and changes nothing; otherwise the nickname is removed, the channels are deregistered, and one QUIT goes to each notified id |
| ServerState.CoMembers | hw07_local/hw07_local_temp/src/main/java/org/cis1200/ServerModel.java:362-371 | every id in a channel that the user belongs to, the user included |
| ServerState.RenamedChannels | hw07_local/hw07_local_temp/src/main/java/org/cis1200/ServerModel.java:362-368 | each channel the user belongs to is renamed for the user; the others are unchanged |
| ServerState.ChangeNickname | hw07_local/hw07_local_temp/src/main/java/org/cis1200/ServerModel.java:337-375 | an unregistered sender throws and changes nothing; otherwise the sender's current nickname is looked up and the rename proceeds |
| ServerState.ChangeNicknameAs | hw07_local/hw07_local_temp/src/main/java/org/cis1200/ServerModel.java:340-375 | INVALID_NAME, then NAME_ALREADY_IN_USE, each a single ERROR with no change; otherwise the registry swaps the old name for the new one, the channels are renamed, and OKAY with the old name goes to the co-members and the sender |
| ServerState.AddChannel | hw07_local/hw07_local_temp/src/main/java/org/cis1200/ServerModel.java:446 | `channels.add`: the channel is stored under its sum unless that key is taken, in which case nothing changes |
| ServerState.CreateChannel | hw07_local/hw07_local_temp/src/main/java/org/cis1200/ServerModel.java:423-450 | an unregistered sender throws and changes nothing; otherwise the creation proceeds with the sender's nickname |
| ServerState.CreateChannelAs | hw07_local/hw07_local_temp/src/main/java/org/cis1200/ServerModel.java:427-450 | CHANNEL_ALREADY_EXISTS, then INVALID_NAME, each a single ERROR with no change; otherwise the channel with the sender as owner and only member is added, and one OKAY goes to the sender |
| ServerState.JoinChannel | hw07_local/hw07_local_temp/src/main/java/org/cis1200/ServerModel.java:478-500 | an unregistered sender throws and changes nothing; otherwise the join proceeds with the sender's nickname |
| ServerState.JoinChannelAs | hw07_local/hw07_local_temp/src/main/java/org/cis1200/ServerModel.java:481-500 | NO_SUCH_CHANNEL as a single ERROR with no change; otherwise the sender is added, OKAY goes to every member, and NAMES goes to the sender; if building NAMES throws, the member stays added |
| ServerState.SendMessage | hw07_local/hw07_local_temp/src/main/java/org/cis1200/ServerModel.java:594-615 | an unregistered sender throws; otherwise the message proceeds with the sender's nickname |
| ServerState.SendMessageAs | hw07_local/hw07_local_temp/src/main/java/org/cis1200/ServerModel.java:598-615 | NO_SUCH_CHANNEL, then USER_NOT_IN_CHANNEL, each a single ERROR; otherwise OKAY goes to every member; the state never changes |
| ServerState.LeaveChannel | hw07_local/hw07_local_temp/src/main/java/org/cis1200/ServerModel.java:635-675 | an unregistered sender throws and changes nothing; otherwise the leave proceeds with the sender's nickname |
| ServerState.LeaveChannelAs | hw07_local/hw07_local_temp/src/main/java/org/cis1200/ServerModel.java:639-675 | NO_SUCH_CHANNEL, then USER_NOT_IN_CHANNEL, each a single ERROR with no change; otherwise the sender leaves the channel found |
| ServerState.LeaveFound | hw07_local/hw07_local_temp/src/main/java/org/cis1200/ServerModel.java:654-674 | the sender is deleted; an emptied channel is removed and a single OKAY goes to the sender; otherwise OKAY goes to the remaining members and the sender, and the channel is removed iff its owner name is the sender's nickname |
| ServerState.InviteUser | hw07_local/hw07_local_temp/src/main/java/org/cis1200/ServerModel.java:715-717 | the stub: no change, and a `null` answer |
| ServerState.KickUser | hw07_local/hw07_local_temp/src/main/java/org/cis1200/ServerModel.java:741-743 | the stub: no change, and a `null` answer |
| ServerState.Apply | hw07_local/hw07_local_temp/src/main/java/org/cis1200/Command.java:54 | `updateServerModel`: NICK runs `changeNickname`, CREATE `createChannel`, JOIN `joinChannel`, MESG `sendMessage`, LEAVE `leaveChannel`, INVITE `inviteUser` and KICK `kickUser` |
| ServerState.Step | hw07_local/hw07_local_temp/src/main/java/org/cis1200/ServerBackend.java:237-283 | `doTask`: a registration runs `registerUser`, a disconnection `deregisterUser`, and a request its command's `updateServerModel` |
| ServerState.Run | hw07_local/hw07_local_temp/src/main/java/org/cis1200/ServerBackend.java:70-81 | the model thread runs the tasks one after another; a thrown exception is caught, and the next task starts from the state left behind |
| ServerProperties.NicknameIsUnique | hw07_local/hw07_local_temp/src/main/java/org/cis1200/ServerModel.java:88-103 | in a valid state the nickname registered to an id is the one `getNickname` returns |
| ServerProperties.ChannelFoundUnderItsSum | hw07_local/hw07_local_temp/src/main/java/org/cis1200/ServerModel.java:569-576 | in a valid state a channel exists iff the channel stored under its name's sum has that name, and the search finds that key |
| ServerProperties.OwnerNameIsOwnersNickname | hw07_local/hw07_local_temp/src/main/java/org/cis1200/ServerModel.java:671 | in a valid state a channel's owner name is the user's nickname iff that user is the owner, so the nickname test in `leaveChannel` is an owner test |
| ServerProperties.UserNameIsValid | hw07_local/hw07_local_temp/src/main/java/org/cis1200/ServerModel.java:385-395 | every generated nickname is a valid name |
| ServerProperties.IntegrityErrorsChangeNothing | hw07_local/hw07_local_temp/src/main/java/org/cis1200/ServerModel.java:88-103 | these throw and leave the state unchanged: registering a known id, deregistering an unknown id, and any command except INVITE and KICK from an unregistered sender |
| ServerProperties.RegisterFreshUser | hw07_local/hw07_local_temp/src/main/java/org/cis1200/ServerModel.java:228-260 | a fresh id is stored as "User"+N for the least N whose nickname is unused, with exactly one CONNECT to that id; `getNickname` then answers that nickname, and the invariant holds |
| ServerProperties.DeregisterNotifiesCoMembers | hw07_local/hw07_local_temp/src/main/java/org/cis1200/ServerModel.java:292-304 | the ids the channel loop collects are exactly the other users who shared a channel with the leaving user |
| ServerProperties.DeregisterRegisteredUser | hw07_local/hw07_local_temp/src/main/java/org/cis1200/ServerModel.java:284-314 | the nickname is removed; each owned channel is deleted; the user is removed from every other channel and nothing else changes; one QUIT goes to each co-member other than the user and none to the user; the set is empty iff the user shared no channel; the invariant holds |
| ServerProperties.DeregisterPreservesInv | hw07_local/hw07_local_temp/src/main/java/org/cis1200/ServerModel.java:284-314 | `deregisterUser` keeps the invariant |
| ServerProperties.ChangeNicknameErrors | hw07_local/hw07_local_temp/src/main/java/org/cis1200/ServerModel.java:345-353 | INVALID_NAME is checked first and then NAME_ALREADY_IN_USE; each is a single ERROR to the sender, and the state is unchanged |
| ServerProperties.OwnNicknameIsInUse | hw07_local/hw07_local_temp/src/main/java/org/cis1200/ServerModel.java:350-353 | renaming to one's own current nickname answers NAME_ALREADY_IN_USE |
| ServerProperties.ChangeNicknameSucceeds | hw07_local/hw07_local_temp/src/main/java/org/cis1200/ServerModel.java:355-374 | the new name maps to the id and the old name is dropped; in every channel the user is renamed, as owner too; membership, owner ids, channel names and the other members' nicknames are unchanged, and channels without the user are untouched; OKAY with the old name goes to the sender and every co-member; the invariant holds |
| ServerProperties.ChangeNicknamePreservesInv | hw07_local/hw07_local_temp/src/main/java/org/cis1200/ServerModel.java:337-375 | `changeNickname` keeps the invariant |
| ServerProperties.ChangeNicknameAsPreservesInv | hw07_local/hw07_local_temp/src/main/java/org/cis1200/ServerModel.java:340-375 | the part after the nickname lookup keeps the invariant |
| ServerProperties.CreateChannelErrors | hw07_local/hw07_local_temp/src/main/java/org/cis1200/ServerModel.java:432-440 | CHANNEL_ALREADY_EXISTS is checked before INVALID_NAME; either is a single ERROR, and the state is unchanged |
| ServerProperties.CreateChannelSucceeds | hw07_local/hw07_local_temp/src/main/java/org/cis1200/ServerModel.java:423-450 | when the new name's sum is free, the channel is stored with the sender as owner and only member; it exists, its owner and members are as created, and exactly one OKAY goes to the creator; the invariant holds |
| ServerProperties.CreateChannelSumCollision | hw07_local/hw07_local_temp/src/main/java/org/cis1200/ServerModel.java:446-449 | when another channel has the same sum, the state is unchanged but OKAY is still returned, and the new channel does not exist |
| ServerProperties.CollisionExample | hw07_local/hw07_local_temp/src/main/java/org/cis1200/ServerModel.java:446-449 | concretely, creating "ba" when "ab" exists answers OKAY and leaves no channel "ba" |
| ServerProperties.CreatePreservesInv | hw07_local/hw07_local_temp/src/main/java/org/cis1200/ServerModel.java:423-450 | `createChannel` keeps the invariant |
| ServerProperties.CreateAsPreservesInv | hw07_local/hw07_local_temp/src/main/java/org/cis1200/ServerModel.java:427-450 | the part after the nickname lookup keeps the invariant |
| ServerProperties.JoinChannelMissing | hw07_local/hw07_local_temp/src/main/java/org/cis1200/ServerModel.java:483-486 | a missing channel answers NO_SUCH_CHANNEL and changes nothing |
| ServerProperties.JoinChannelSucceeds | hw07_local/hw07_local_temp/src/main/java/org/cis1200/ServerModel.java:478-500 | the sender is added, which is a no-op for a member; OKAY goes to every member including the joiner, plus one NAMES to the joiner with the sorted members and the owner marked; the invariant holds |
| ServerProperties.JoinPreservesInv | hw07_local/hw07_local_temp/src/main/java/org/cis1200/ServerModel.java:478-500 | `joinChannel` keeps the invariant |
| ServerProperties.JoinAsPreservesInv | hw07_local/hw07_local_temp/src/main/java/org/cis1200/ServerModel.java:481-500 | the part after the nickname lookup keeps the invariant |
| ServerProperties.SendMessageOutcome | hw07_local/hw07_local_temp/src/main/java/org/cis1200/ServerModel.java:594-615 | nothing changes; NO_SUCH_CHANNEL is checked, then USER_NOT_IN_CHANNEL; otherwise OKAY goes to every member, the sender included |
| ServerProperties.LeaveChannelErrors | hw07_local/hw07_local_temp/src/main/java/org/cis1200/ServerModel.java:641-652 | NO_SUCH_CHANNEL is checked, then USER_NOT_IN_CHANNEL; each is a single ERROR, and the state is unchanged |
| ServerProperties.LeaveChannelSucceeds | hw07_local/hw07_local_temp/src/main/java/org/cis1200/ServerModel.java:654-674 | the sender is removed; the channel is deleted when it becomes empty or the sender owned it, and is otherwise kept without the sender; OKAY goes to every member present before the removal; the invariant holds |
| ServerProperties.LeavePreservesInv | hw07_local/hw07_local_temp/src/main/java/org/cis1200/ServerModel.java:635-675 | `leaveChannel` keeps the invariant |
| ServerProperties.LeaveAsPreservesInv | hw07_local/hw07_local_temp/src/main/java/org/cis1200/ServerModel.java:639-675 | the part after the nickname lookup keeps the invariant |
| ServerProperties.InviteAndKickAnswerNull | hw07_local/hw07_local_temp/src/main/java/org/cis1200/ServerModel.java:715-743 | INVITE and KICK change nothing and answer `null` |
| ServerProperties.InitialInv | hw07_local/hw07_local_temp/src/main/java/org/cis1200/ServerModel.java:25-28 | the empty server satisfies the invariant |
| ServerProperties.ApplyPreservesInv | hw07_local/hw07_local_temp/src/main/java/org/cis1200/Command.java:54 | every command, whichever operation its `updateServerModel` runs, keeps the invariant |
| ServerProperties.StepPreservesInv | hw07_local/hw07_local_temp/src/main/java/org/cis1200/ServerBackend.java:237-283 | every task (a registration, a disconnection or a request) keeps the invariant |
| ServerProperties.RunPreservesInv | hw07_local/hw07_local_temp/src/main/java/org/cis1200/ServerBackend.java:237-283 | any sequence of tasks keeps the invariant |
| ServerProperties.ReachableStatesKeepInv | hw07_local/hw07_local_temp/src/main/java/org/cis1200/ServerModel.java:25-28 | every state reachable from a new server satisfies the invariant |
| ServerModels.ServerModel.constructor | hw07_local/hw07_local_temp/src/main/java/org/cis1200/ServerModel.java:25-28 | a new model is valid, with no users and no channels |
| ServerModels.ServerModel.ExistingNickname | hw07_local/hw07_local_temp/src/main/java/org/cis1200/ServerModel.java:42-44 | true iff the nickname is registered |
| ServerModels.ServerModel.ExistingUserId | hw07_local/hw07_local_temp/src/main/java/org/cis1200/ServerModel.java:52-54 | true iff the id is registered |
| ServerModels.ServerModel.GetUserId | hw07_local/hw07_local_temp/src/main/java/org/cis1200/ServerModel.java:65-72 | the lookup, or a thrown exception for an unknown nickname |
| ServerModels.ServerModel.GetNickname | hw07_local/hw07_local_temp/src/main/java/org/cis1200/ServerModel.java:88-103 | the search loop finds the nickname registered to the id, or throws |
| ServerModels.ServerModel.GetRegisteredUsers | hw07_local/hw07_local_temp/src/main/java/org/cis1200/ServerModel.java:114-116 | the sorted registered nicknames |
| ServerModels.ServerModel.GetRegisteredChannels | hw07_local/hw07_local_temp/src/main/java/org/cis1200/ServerModel.java:127-129 | a new collection that holds the same records, in sum order |
| ServerModels.ServerModel.GetChannels | hw07_local/hw07_local_temp/src/main/java/org/cis1200/ServerModel.java:140-146 | the loop collects the sorted channel names |
| ServerModels.ServerModel.GetChannel | hw07_local/hw07_local_temp/src/main/java/org/cis1200/ServerModel.java:511-518 | the record with the name, or a thrown exception when there is none |
| ServerModels.ServerModel.ChannelExists | hw07_local/hw07_local_temp/src/main/java/org/cis1200/ServerModel.java:569-576 | true iff some channel has the name |
| ServerModels.ServerModel.GetUserIdsInChannel | hw07_local/hw07_local_temp/src/main/java/org/cis1200/ServerModel.java:161-169 | the sorted member ids, or a thrown exception for an unknown channel |
| ServerModels.ServerModel.GetUserNicknamesInChannel | hw07_local/hw07_local_temp/src/main/java/org/cis1200/ServerModel.java:182-190 | the sorted member nicknames, or a thrown exception for an unknown channel |
| ServerModels.ServerModel.GetOwner | hw07_local/hw07_local_temp/src/main/java/org/cis1200/ServerModel.java:202-210 | the owner's nickname, or a thrown exception for an unknown channel |
| ServerModels.ServerModel.SendResponseToEveryone | hw07_local/hw07_local_temp/src/main/java/org/cis1200/ServerModel.java:551-558 | a fresh set with one OKAY per id in the collection |
| ServerModels.ServerModel.SendResponseToMembers | hw07_local/hw07_local_temp/src/main/java/org/cis1200/ServerModel.java:530-538 | a fresh set with one OKAY per channel member |
| ServerModels.ServerModel.SendQuitToEveryone | hw07_local/hw07_local_temp/src/main/java/org/cis1200/ServerModel.java:307-310 | a fresh set with one QUIT per id |
| ServerModels.ServerModel.IsValidName | hw07_local/hw07_local_temp/src/main/java/org/cis1200/ServerModel.java:385-395 | the scan accepts exactly the non-empty names made of letters and digits |
| ServerModels.ServerModel.GenerateUniqueNickname | hw07_local/hw07_local_temp/src/main/java/org/cis1200/ServerModel.java:252-260 | the do-while loop returns "User"+N for the least N whose nickname is unused |
| ServerModels.ServerModel.RegisterUser | hw07_local/hw07_local_temp/src/main/java/org/cis1200/ServerModel.java:228-242 | the model stays valid; its new state and its reply are those of `ServerState.RegisterUser` |
| ServerModels.ServerModel.DeregisterUser | hw07_local/hw07_local_temp/src/main/java/org/cis1200/ServerModel.java:284-314 | the model stays valid; its new state and its QUIT set are those of `ServerState.DeregisterUser` |
| ServerModels.ServerModel.RemoveUser | hw07_local/hw07_local_temp/src/main/java/org/cis1200/ServerModel.java:288-304 | the nickname is removed, and the channel loop leaves exactly the deregistered channels and their collected ids |
| ServerModels.ServerModel.DeregisterFromChannels | hw07_local/hw07_local_temp/src/main/java/org/cis1200/ServerModel.java:292-304 | after the loop over the records in sum order, the channels are the deregistered ones and the ids collected are the notified ones |
| ServerModels.ServerModel.DeregisterRound | hw07_local/hw07_local_temp/src/main/java/org/cis1200/ServerModel.java:293-303 | one round advances the loop's progress by exactly one record |
| ServerModels.ServerModel.DeregisterFromChannel | hw07_local/hw07_local_temp/src/main/java/org/cis1200/ServerModel.java:293-303 | an owned channel is emptied of the user and removed; a joined channel loses the user; in both cases the remaining ids are collected |
| ServerModels.ServerModel.DropOwnedChannel | hw07_local/hw07_local_temp/src/main/java/org/cis1200/ServerModel.java:294-297 | the owned channel is removed, and its members other than the user are returned |
| ServerModels.ServerModel.LeaveJoinedChannel | hw07_local/hw07_local_temp/src/main/java/org/cis1200/ServerModel.java:298-302 | the user is removed from the channel, and nothing else changes |
| ServerModels.ServerModel.ChangeNickname | hw07_local/hw07_local_temp/src/main/java/org/cis1200/ServerModel.java:337-375 | the model stays valid; its new state and its reply are those of `ServerState.ChangeNickname` |
| ServerModels.ServerModel.ChangeNicknameAs | hw07_local/hw07_local_temp/src/main/java/org/cis1200/ServerModel.java:340-375 | after the nickname lookup: the two error checks, then the rename |
| ServerModels.ServerModel.RenameAndAnnounce | hw07_local/hw07_local_temp/src/main/java/org/cis1200/ServerModel.java:357-374 | the registry entry is renamed, every channel is renamed, and OKAY with the old name goes to the co-members and the sender |
| ServerModels.ServerModel.RenameUser | hw07_local/hw07_local_temp/src/main/java/org/cis1200/ServerModel.java:357-368 | the registry maps the new name to the id without the old name, and every channel is renamed |
| ServerModels.ServerModel.RenameInChannels | hw07_local/hw07_local_temp/src/main/java/org/cis1200/ServerModel.java:362-368 | the loop renames the user in every channel, and collects exactly the co-members |
| ServerModels.ServerModel.RenameRound | hw07_local/hw07_local_temp/src/main/java/org/cis1200/ServerModel.java:363-366 | one round advances the rename loop by exactly one record |
| ServerModels.ServerModel.RenameInChannel | hw07_local/hw07_local_temp/src/main/java/org/cis1200/ServerModel.java:363-366 | a channel that the user belongs to is renamed and its member ids are collected; any other channel is unchanged and nothing is collected |
| ServerModels.ServerModel.SendMessage | hw07_local/hw07_local_temp/src/main/java/org/cis1200/ServerModel.java:594-615 | the state is unchanged, and the reply is that of `ServerState.SendMessage` |
| ServerModels.ServerModel.CreateChannel | hw07_local/hw07_local_temp/src/main/java/org/cis1200/ServerModel.java:423-450 | the model stays valid; its new state and its reply are those of `ServerState.CreateChannel`, the sum collision included |
| ServerModels.ServerModel.CreateChannelAs | hw07_local/hw07_local_temp/src/main/java/org/cis1200/ServerModel.java:427-450 | after the nickname lookup: the two error checks, then adding the record |
| ServerModels.ServerModel.AddRecord | hw07_local/hw07_local_temp/src/main/java/org/cis1200/ServerModel.java:446 | `channels.add`: the record is stored under its sum unless that key is taken, in which case nothing changes |
| ServerModels.ServerModel.JoinChannel | hw07_local/hw07_local_temp/src/main/java/org/cis1200/ServerModel.java:478-500 | the model stays valid; its new state and its reply are those of `ServerState.JoinChannel` |
| ServerModels.ServerModel.JoinChannelAs | hw07_local/hw07_local_temp/src/main/java/org/cis1200/ServerModel.java:481-500 | after the nickname lookup: the existence check, then the join |
| ServerModels.ServerModel.JoinRecord | hw07_local/hw07_local_temp/src/main/java/org/cis1200/ServerModel.java:488-499 | the member is added, and the OKAY set plus the NAMES response are returned |
| ServerModels.ServerModel.AddMember | hw07_local/hw07_local_temp/src/main/java/org/cis1200/ServerModel.java:491 | the record gains the member, and no other channel changes |
| ServerModels.ServerModel.LeaveChannel | hw07_local/hw07_local_temp/src/main/java/org/cis1200/ServerModel.java:635-675 | the model stays valid; its new state and its reply are those of `ServerState.LeaveChannel` |
| ServerModels.ServerModel.LeaveChannelAs | hw07_local/hw07_local_temp/src/main/java/org/cis1200/ServerModel.java:639-675 | after the nickname lookup: the two error checks, then the leave |
| ServerModels.ServerModel.LeaveRecord | hw07_local/hw07_local_temp/src/main/java/org/cis1200/ServerModel.java:654-674 | the sender is removed, and the rest of the leave is carried out |
| ServerModels.ServerModel.LeaveRemainder | hw07_local/hw07_local_temp/src/main/java/org/cis1200/ServerModel.java:657-674 | an emptied channel is removed with one OKAY to the sender; otherwise a channel the sender owned is removed, and OKAY goes to the remaining members and the sender |
| ServerModels.ServerModel.LeaveEmptied | hw07_local/hw07_local_temp/src/main/java/org/cis1200/ServerModel.java:658-662 | the emptied channel is removed, and a single OKAY goes to the sender |
| ServerModels.ServerModel.LeaveShared | hw07_local/hw07_local_temp/src/main/java/org/cis1200/ServerModel.java:664-674 | the channel is removed iff the sender is its owner, and OKAY goes to the remaining members and the sender |
| ServerModels.ServerModel.DropIfOwnerLeaves | hw07_local/hw07_local_temp/src/main/java/org/cis1200/ServerModel.java:671-673 | the channel is removed iff the owner name is the sender's nickname |
| ServerModels.ServerModel.RemoveMember | hw07_local/hw07_local_temp/src/main/java/org/cis1200/ServerModel.java:655 | the record loses the member, and no other channel changes |
| ServerModels.ServerModel.RemoveRecord | hw07_local/hw07_local_temp/src/main/java/org/cis1200/ServerModel.java:659 | `channels.remove`, both where an emptied channel and where an owner's channel is dropped: exactly that record's key is removed |
| ServerModels.ServerModel.InviteUser | hw07_local/hw07_local_temp/src/main/java/org/cis1200/ServerModel.java:715-717 | returns `null` and changes nothing |
| ServerModels.ServerModel.KickUser | hw07_local/hw07_local_temp/src/main/java/org/cis1200/ServerModel.java:741-743 | returns `null` and changes nothing |
| ServerModels.FirstMatchIsGetNickname | hw07_local/hw07_local_temp/src/main/java/org/cis1200/ServerModel.java:88-103 | the first registry entry, in nickname order, whose id matches is the nickname `getNickname` returns |
| ServerModels.FirstMatchIsFindChannel | hw07_local/hw07_local_temp/src/main/java/org/cis1200/ServerModel.java:511-518 | the first record, in sum order, that has the name is the channel the search specifies |
| Dispatch.Lift | hw07_local/hw07_local_temp/src/main/java/org/cis1200/Command.java:54 | a response set or an exception, read as a possibly-`null` reply |
| Dispatch.UpdateServerModel | hw07_local/hw07_local_temp/src/main/java/org/cis1200/Command.java:54 | each command kind runs exactly its own operation; the model stays valid; the new state and the reply are those of `ServerState.Apply` |
| Dispatch.Handle | hw07_local/hw07_local_temp/src/main/java/org/cis1200/ServerBackend.java:237-283 | a registration, a disconnection or a request runs its operation; the model stays valid; the new state and the reply are those of `ServerState.Step` |

## Left out

- The backend's threads, queues, sockets, synchronised maps and shutdown (ServerBackend.java) are not modelled. Only its three kinds of task are kept, as `ServerState.Task`, `ServerState.Step` and `Dispatch.Handle`. Delivering the responses to connections is also not modelled.
- `CommandParser` is not part of this model. Commands are given as values, and no parse/print round-trip is claimed.
- `inviteUser` and `kickUser` are stubs that return `null`. They are modelled as stubs. The tests expect invite and kick behaviour that the code does not have, and that behaviour is not modelled.
- The invite-only flag is carried in `CREATE`'s text but, as in the code, no operation acts on it. Channel privacy is therefore not modelled.
- `ErrorCode`'s source is not part of this model. `ErrorCodes.Code` gives distinct placeholder numbers, and only their distinctness is used.
- `Character.isLetterOrDigit` is Unicode-aware in Java. `JavaText.IsLetterOrDigit` accepts only the ASCII letters and digits.
- A Dafny `char` is a Unicode code point, but a Java `char` is a UTF-16 code unit. So `JavaText.JavaCompare` and `Channels.CharSum` model `String.compareTo` and `getAscii` on code points. For a character outside the Basic Multilingual Plane, Java compares and sums the two surrogate units instead. Valid names are ASCII, so no reachable channel key or nickname depends on this difference.
- A `null` name (`isValidName(null)`) is not modelled, because Dafny strings cannot be null.
- The `toString` and `hashCode` of `Response` and `ResponseSet` are not modelled; they are debugging and hashing aids.
- User ids are unbounded integers rather than 32-bit ones. The server only compares and stores ids. The channel-name sum, where Java `int` overflow does matter, wraps explicitly.
- ResponseSets.ResponseSet.GetResponses: returns the sorted contents as a value. The Java method returns the live set. Its aliasing is not modelled, and neither is a caller changing that set.
- Channels.ChannelInfo.GetUserIds: returns a value, as does Channels.ChannelInfo.GetUserNames. A caller changing the result therefore cannot change the channel. That independence holds by construction here, while Java gets it from returning fresh `TreeSet` copies.
- ServerModels.ServerModel.GetRegisteredChannels: returns the records in sum order, as a sequence. The Java method returns a new `TreeSet` that holds the same records. Only the sequence's order and contents are modelled; the copy's own later changes are not.
- ServerModels.ServerModel.JoinChannelAs: the code calls `getNickname` three times. The state does not change between the calls, so the model looks the nickname up once and uses the result throughout.
- ServerModels.ServerModel.GetNickname: the search returns the first match in nickname order. The invariant makes the match unique, and `ServerProperties.NicknameIsUnique` states this.
- The `printf` logging is not modelled.
