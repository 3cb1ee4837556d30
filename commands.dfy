/** The client commands of the chat protocol (`Command` and its seven
    subclasses): immutable values carrying the sender's id, a canonical
    text form, and an equality that compares only that text. */
module Commands {

  /** One case per subclass; every case carries the sender's id. */
  datatype Command =
    | Nick(senderId: int, newNickname: string)
    | Create(senderId: int, channel: string, inviteOnly: bool)
    | Join(senderId: int, channel: string)
    | Mesg(senderId: int, channel: string, message: string)
    | Leave(senderId: int, channel: string)
    | Invite(senderId: int, channel: string, userToInvite: string)
    | Kick(senderId: int, channel: string, userToKick: string)

  // The static types of the `ServerModel` operations' parameters.
  type NicknameCommand = c: Command | c.Nick? witness Nick(0, "")
  type CreateCommand = c: Command | c.Create? witness Create(0, "", false)
  type JoinCommand = c: Command | c.Join? witness Join(0, "")
  type MessageCommand = c: Command | c.Mesg? witness Mesg(0, "", "")
  type LeaveCommand = c: Command | c.Leave? witness Leave(0, "")
  type InviteCommand = c: Command | c.Invite? witness Invite(0, "", "")
  type KickCommand = c: Command | c.Kick? witness Kick(0, "", "")

  /** `toString`, the wire form of each command. */
  function Text(c: Command): string
  {
    match c
    case Nick(_, n) => "NICK " + n
    case Create(_, ch, inviteOnly) => "CREATE " + ch + " " + (if inviteOnly then "1" else "0")
    case Join(_, ch) => "JOIN " + ch
    case Mesg(_, ch, m) => "MESG " + ch + " :" + m
    case Leave(_, ch) => "LEAVE " + ch
    case Invite(_, ch, u) => "INVITE " + ch + " " + u
    case Kick(_, ch, u) => "KICK " + ch + " " + u
  }

  /** `Command.equals`: the two texts are the same. */
  predicate Equals(a: Command, b: Command)
  {
    Text(a) == Text(b)
  }

  /** `getSenderId`. */
  function GetSenderId(c: Command): int
  {
    c.senderId
  }

  /** The two commands have the same kind and the same fields, except
      possibly the sender. */
  predicate SameUpToSender(a: Command, b: Command)
  {
    a.(senderId := 0) == b.(senderId := 0)
  }

  /** The channel field, where there is one, holds no space. */
  predicate ChannelWithoutSpace(c: Command)
  {
    c.Nick? || ' ' !in c.channel
  }

  /** Equality never looks at the sender: a command equals its copy sent by
      anyone else. */
  lemma EqualsIgnoresSender(c: Command, otherSender: int)
    ensures GetSenderId(c.(senderId := otherSender)) == otherSender
    ensures Equals(c, c.(senderId := otherSender))
  {
  }

  /** When no channel name holds a space, the text of a command determines
      its kind and all its fields, so `Equals` is equality up to the
      sender. */
  lemma TextDeterminesCommand(a: Command, b: Command)
    requires ChannelWithoutSpace(a) && ChannelWithoutSpace(b)
    ensures Equals(a, b) <==> SameUpToSender(a, b)
  {
    if Equals(a, b) {
      SameKind(a, b);
      match a
      case Nick(_, n) =>
        CancelPrefix("NICK ", n, b.newNickname);
      case Create(_, ch, f) =>
        CreateTextInjective(ch, f, b.channel, b.inviteOnly);
      case Join(_, ch) =>
        CancelPrefix("JOIN ", ch, b.channel);
      case Mesg(_, ch, m) =>
        MesgTextInjective(ch, m, b.channel, b.message);
      case Leave(_, ch) =>
        CancelPrefix("LEAVE ", ch, b.channel);
      case Invite(_, ch, u) =>
        PairTextInjective("INVITE ", ch, u, b.channel, b.userToInvite);
      case Kick(_, ch, u) =>
        PairTextInjective("KICK ", ch, u, b.channel, b.userToKick);
    }
  }

  /** The first letter of the text names the kind of command. */
  lemma SameKind(a: Command, b: Command)
    requires Equals(a, b)
    ensures a.Nick? == b.Nick? && a.Create? == b.Create? && a.Join? == b.Join?
    ensures a.Mesg? == b.Mesg? && a.Leave? == b.Leave? && a.Invite? == b.Invite?
    ensures a.Kick? == b.Kick?
  {
    assert Text(a)[0] == Text(b)[0];
  }

  lemma CreateTextInjective(ch1: string, f1: bool, ch2: string, f2: bool)
    requires Text(Create(0, ch1, f1)) == Text(Create(0, ch2, f2))
    ensures ch1 == ch2 && f1 == f2
  {
    var flag1 := if f1 then "1" else "0";
    var flag2 := if f2 then "1" else "0";
    assert "CREATE " + ch1 + " " + flag1 == "CREATE " + ((ch1 + " ") + flag1);
    assert "CREATE " + ch2 + " " + flag2 == "CREATE " + ((ch2 + " ") + flag2);
    CancelPrefix("CREATE ", (ch1 + " ") + flag1, (ch2 + " ") + flag2);
    CancelSuffix(ch1 + " ", flag1, ch2 + " ", flag2);
    CancelSuffix(ch1, " ", ch2, " ");
  }

  lemma MesgTextInjective(ch1: string, m1: string, ch2: string, m2: string)
    requires ' ' !in ch1 && ' ' !in ch2
    requires Text(Mesg(0, ch1, m1)) == Text(Mesg(0, ch2, m2))
    ensures ch1 == ch2 && m1 == m2
  {
    assert "MESG " + ch1 + " :" + m1 == "MESG " + (ch1 + " " + (":" + m1));
    assert "MESG " + ch2 + " :" + m2 == "MESG " + (ch2 + " " + (":" + m2));
    CancelPrefix("MESG ", ch1 + " " + (":" + m1), ch2 + " " + (":" + m2));
    SplitAtSpace(ch1, ":" + m1, ch2, ":" + m2);
    CancelPrefix(":", m1, m2);
  }

  lemma PairTextInjective(keyword: string, ch1: string, u1: string, ch2: string, u2: string)
    requires ' ' !in ch1 && ' ' !in ch2
    requires keyword + ch1 + " " + u1 == keyword + ch2 + " " + u2
    ensures ch1 == ch2 && u1 == u2
  {
    assert keyword + ch1 + " " + u1 == keyword + (ch1 + " " + u1);
    assert keyword + ch2 + " " + u2 == keyword + (ch2 + " " + u2);
    CancelPrefix(keyword, ch1 + " " + u1, ch2 + " " + u2);
    SplitAtSpace(ch1, u1, ch2, u2);
  }

  /** Without the space restriction the texts are ambiguous: two different
      kicks read the same on the wire and so are `equals`. */
  lemma SpaceInChannelMakesTextAmbiguous()
    ensures Equals(Kick(0, "a b", "c"), Kick(0, "a", "b c"))
    ensures !SameUpToSender(Kick(0, "a b", "c"), Kick(0, "a", "b c"))
  {
  }

  lemma CancelPrefix(p: string, x: string, y: string)
    requires p + x == p + y
    ensures x == y
  {
    assert x == (p + x)[|p|..];
    assert y == (p + y)[|p|..];
  }

  lemma CancelSuffix(x: string, q: string, y: string, r: string)
    requires x + q == y + r && |q| == |r|
    ensures x == y && q == r
  {
    assert x == (x + q)[..|x|];
    assert y == (y + r)[..|y|];
    assert q == (x + q)[|x|..];
    assert r == (y + r)[|y|..];
  }

  /** Splitting at the first space is unambiguous. */
  lemma SplitAtSpace(a1: string, b1: string, a2: string, b2: string)
    requires ' ' !in a1 && ' ' !in a2
    requires a1 + " " + b1 == a2 + " " + b2
    ensures a1 == a2 && b1 == b2
  {
    var s := a1 + " " + b1;
    assert s[|a1|] == ' ' && s[|a2|] == ' ';
    assert forall i :: 0 <= i < |a1| ==> s[i] == a1[i];
    assert forall i :: 0 <= i < |a2| ==> s[i] == a2[i];
    assert |a1| == |a2|;
    assert a1 == s[..|a1|] && a2 == s[..|a2|];
    assert b1 == s[|a1| + 1..] && b2 == s[|a2| + 1..];
  }
}
