/** A chat channel: its owner, its name and its members (id to nickname).
    `Channel` is the value the server state is specified over;
    `ChannelInfo` is the mutable record the server keeps and updates in
    place. */
module Channels {

  import opened SortedSeqs
  import opened JavaText

  datatype Channel = Channel(ownerId: int, ownerName: string, name: string, users: map<int, string>)

  /** `addUser`: `users.put(id, nick)`. */
  function WithUser(c: Channel, userId: int, userName: string): Channel
  {
    c.(users := c.users[userId := userName])
  }

  /** `deleteUser`: `users.remove(id)`. */
  function WithoutUser(c: Channel, userId: int): Channel
  {
    c.(users := c.users - {userId})
  }

  /** `updateNickName`: the owner name follows the owner id, the member
      entry is replaced only for a member. */
  function Renamed(c: Channel, userId: int, newName: string): Channel
  {
    c.(ownerName := if c.ownerId == userId then newName else c.ownerName,
       users := if userId in c.users then c.users[userId := newName] else c.users)
  }

  /** The nicknames of the members. */
  function Nicknames(users: map<int, string>): set<string>
  {
    set u | u in users :: users[u]
  }

  /** Sum of the character codes of s, as a mathematical integer. */
  function CharSum(s: string): int
  {
    if s == [] then 0 else CharSum(s[..|s| - 1]) + s[|s| - 1] as int
  }

  /** `getAscii`: the sum of the character codes in a Java `int`. The
      `TreeSet` of channels is ordered, and deduplicated, by this value. */
  function Ascii(s: string): int
  {
    Int32(CharSum(s))
  }

  lemma {:induction false} CharSumAppend(a: string, b: string)
    ensures CharSum(a + b) == CharSum(a) + CharSum(b)
    decreases |b|
  {
    if b == [] {
      assert a + b == a;
    } else {
      var b' := b[..|b| - 1];
      assert (a + b)[..|a + b| - 1] == a + b';
      CharSumAppend(a, b');
    }
  }

  /** Rearranged names collide: swapping two halves keeps the sum. */
  lemma AsciiOfSwapped(a: string, b: string)
    ensures Ascii(a + b) == Ascii(b + a)
  {
    CharSumAppend(a, b);
    CharSumAppend(b, a);
  }

  class ChannelInfo {
    const ownerId: int
    var ownerName: string
    const name: string
    var users: map<int, string>

    /** The channel this record currently describes. */
    function Value(): Channel
      reads this
    {
      Channel(ownerId, ownerName, name, users)
    }

    constructor (ownerId: int, ownerName: string, channelName: string, users: map<int, string>)
      ensures Value() == Channel(ownerId, ownerName, channelName, users)
    {
      this.ownerId := ownerId;
      this.ownerName := ownerName;
      this.name := channelName;
      this.users := users;
    }

    function GetOwner(): string
      reads this
    {
      ownerName
    }

    function GetOwnerID(): int
    {
      ownerId
    }

    function GetChannelName(): string
    {
      name
    }

    /** `getUserIds`: a sorted copy of the member ids. */
    function GetUserIds(): (ids: seq<int>)
      reads this
      ensures Sorted(IntLess, ids) && Elems(ids) == users.Keys && |ids| == |users|
    {
      SortedInts(users.Keys)
    }

    /** `getUserIds().isEmpty()`: no member is left. */
    method IsEmpty() returns (empty: bool)
      ensures empty <==> users.Keys == {}
    {
      var ids := GetUserIds();
      empty := |ids| == 0;
    }

    /** `getUserNames`: a sorted copy of the member nicknames. */
    function GetUserNames(): (names: seq<string>)
      reads this
      ensures Sorted(StrLess, names) && Elems(names) == Nicknames(users)
    {
      SortedStrings(Nicknames(users))
    }

    predicate UserInChannel(userId: int)
      reads this
    {
      userId in users
    }

    /** `deleteUser`: only that id leaves; the owner fields stay. */
    method DeleteUser(userId: int)
      modifies this
      ensures Value() == WithoutUser(old(Value()), userId)
      ensures !UserInChannel(userId)
      ensures forall u :: u in old(users) && u != userId ==> u in users && users[u] == old(users)[u]
    {
      users := users - {userId};
    }

    /** `addUser`: the id becomes a member under the given nickname; an
        existing member only has its nickname replaced. */
    method AddUser(userId: int, userName: string)
      modifies this
      ensures Value() == WithUser(old(Value()), userId, userName)
      ensures UserInChannel(userId) && users[userId] == userName
      ensures users.Keys == old(users).Keys + {userId}
      ensures forall u :: u in old(users) && u != userId ==> users[u] == old(users)[u]
    {
      users := users[userId := userName];
    }

    /** `updateNickName`: the owner name changes iff the id is the owner's;
        the id is renamed only if it is a member; no one else changes. */
    method UpdateNickName(userId: int, newName: string)
      modifies this
      ensures Value() == Renamed(old(Value()), userId, newName)
      ensures ownerName == (if ownerId == userId then newName else old(ownerName))
      ensures users.Keys == old(users).Keys
      ensures userId in users ==> users[userId] == newName
      ensures forall u :: u in users && u != userId ==> users[u] == old(users)[u]
    {
      if ownerId == userId {
        ownerName := newName;
      }
      if userId in users {
        users := users - {userId};
        users := users[userId := newName];
      }
    }

    /** `getAscii`: accumulates the character codes with `int` wrap-around. */
    static method GetAscii(str: string) returns (ascii: int)
      ensures ascii == Ascii(str)
    {
      ascii := 0;
      var i := 0;
      while i < |str|
        invariant 0 <= i <= |str|
        invariant ascii == Int32(CharSum(str[..i]))
      {
        assert str[..i + 1][..i] == str[..i];
        Int32OfSum(CharSum(str[..i]), str[i] as int);
        ascii := Int32(ascii + str[i] as int);
        i := i + 1;
      }
      assert str[..i] == str;
    }

    /** `compareTo`: `Integer.compare` of the two sums, so zero exactly
        when the sums agree, whatever the names. */
    method CompareTo(that: ChannelInfo) returns (r: int)
      ensures r == 0 <==> Ascii(name) == Ascii(that.name)
      ensures r < 0 <==> Ascii(name) < Ascii(that.name)
      ensures r > 0 <==> Ascii(name) > Ascii(that.name)
    {
      var mine := GetAscii(name);
      var theirs := GetAscii(that.GetChannelName());
      r := IntegerCompare(mine, theirs);
    }

    /** `equals`: same channel name. */
    predicate Equals(that: ChannelInfo)
    {
      this == that || name == that.GetChannelName()
    }
  }

  /** `compareTo` and `equals` disagree: two records with names "ab" and
      "ba" compare as equal but are not equal. */
  method CompareToIsCoarserThanEquals() returns (r: int, equal: bool)
    ensures r == 0 && !equal
  {
    var ab := new ChannelInfo(0, "User0", "ab", map[0 := "User0"]);
    var ba := new ChannelInfo(1, "User1", "ba", map[1 := "User1"]);
    AsciiOfSwapped("a", "b");
    assert "a" + "b" == "ab" && "b" + "a" == "ba";
    r := ab.CompareTo(ba);
    equal := ab.Equals(ba);
  }
}
