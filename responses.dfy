/** Server-to-client messages (`Response`): a recipient id and the exact
    text to deliver, built only by the factories below, and ordered by
    recipient and then by text. */
module Responses {

  import opened Basics
  import opened JavaText
  import opened SortedSeqs
  import opened Commands
  import opened ErrorCodes

  datatype Response = Response(recipientId: int, text: string)

  // ---------------------------------------------------------------------
  // Factories
  // ---------------------------------------------------------------------

  /** A new client learns its generated nickname. */
  function Connected(userId: int, userNickname: string): Response
  {
    Response(userId, ":" + userNickname + " CONNECT")
  }

  /** A client is told that another one disconnected. */
  function Disconnected(recipientId: int, senderNickname: string): Response
  {
    Response(recipientId, ":" + senderNickname + " QUIT")
  }

  /** A command succeeded: it is echoed with its sender's nickname. */
  function Okay(recipientId: int, senderNickname: string, command: Command): Response
  {
    Response(recipientId, ":" + senderNickname + " " + Text(command))
  }

  /** A command failed: the error goes back to whoever sent it. */
  function Error(command: Command, errorCode: ErrorCode): Response
  {
    Response(GetSenderId(command), ":$server ERROR " + NatToString(Code(errorCode)))
  }

  /** The NAMES response with a ready-made payload. */
  function NamesWithPayload(userId: int, userNickname: string, channelName: string,
                            payload: string): Response
  {
    Response(userId, ":" + userNickname + " NAMES " + channelName + " :" + payload)
  }

  // ---------------------------------------------------------------------
  // The NAMES response built from the members of a channel
  // ---------------------------------------------------------------------

  /** One member as listed: the owner is prefixed with '@'. */
  function Marked(member: string, owner: string): string
  {
    (if member == owner then "@" else "") + member
  }

  /** What the payload builder holds after appending each member of the
      ascending listing followed by a space. */
  function RawPayload(members: seq<string>, owner: string): string
  {
    if members == [] then ""
    else RawPayload(members[..|members| - 1], owner) + Marked(members[|members| - 1], owner) + " "
  }

  /** The NAMES response listing channelUsers, or the exception thrown when
      the owner is not among them. */
  function NamesOf(userId: int, userNickname: string, channelName: string,
                   channelUsers: set<string>, channelOwner: string): Result<Response>
  {
    if channelOwner !in channelUsers then Failure(IllegalArgument)
    else
      var members := SortedStrings(channelUsers);
      Success(NamesWithPayload(userId, userNickname, channelName, Trim(RawPayload(members, channelOwner))))
  }

  /** `Response.names`: walks the members in ascending order, appending
      each (the owner marked) and a space, then trims the result. */
  method Names(userId: int, userNickname: string, channelName: string,
               channelUsers: set<string>, channelOwner: string) returns (r: Result<Response>)
    ensures r == NamesOf(userId, userNickname, channelName, channelUsers, channelOwner)
  {
    if channelOwner !in channelUsers {
      return Failure(IllegalArgument);
    }
    var members := SortedStrings(channelUsers);
    var payload := "";
    var i := 0;
    while i < |members|
      invariant 0 <= i <= |members|
      invariant payload == RawPayload(members[..i], channelOwner)
    {
      var memberNickname := members[i];
      PayloadStep(members, i, channelOwner);
      if memberNickname == channelOwner {
        payload := payload + "@";
      }
      payload := payload + memberNickname;
      payload := payload + " ";
      i := i + 1;
    }
    assert members[..i] == members;
    assert payload == RawPayload(members, channelOwner);
    r := Success(NamesWithPayload(userId, userNickname, channelName, Trim(payload)));
  }

  lemma PayloadStep(members: seq<string>, i: nat, owner: string)
    requires i < |members|
    ensures members[i] == owner ==>
      RawPayload(members[..i + 1], owner) == RawPayload(members[..i], owner) + "@" + members[i] + " "
    ensures members[i] != owner ==>
      RawPayload(members[..i + 1], owner) == RawPayload(members[..i], owner) + members[i] + " "
  {
    assert members[..i + 1][..i] == members[..i];
  }

  /** Names in the form the server hands out: non-empty, and neither end is
      a character that `trim` strips. */
  predicate Tidy(x: string)
  {
    |x| > 0 && x[0] > ' ' && x[|x| - 1] > ' '
  }

  function MarkAll(members: seq<string>, owner: string): (r: seq<string>)
    ensures |r| == |members|
    ensures forall i :: 0 <= i < |members| ==> r[i] == Marked(members[i], owner)
  {
    if members == [] then [] else MarkAll(members[..|members| - 1], owner) + [Marked(members[|members| - 1], owner)]
  }

  /** The items separated by single spaces, with none at either end. */
  function JoinSpaced(items: seq<string>): string
  {
    if |items| == 0 then ""
    else if |items| == 1 then items[0]
    else JoinSpaced(items[..|items| - 1]) + " " + items[|items| - 1]
  }

  /** The payload lists the members in the order given, one space apart,
      the owner marked with '@', and nothing trailing. */
  lemma NamesPayloadShape(members: seq<string>, owner: string)
    requires forall i :: 0 <= i < |members| ==> Tidy(members[i])
    ensures Trim(RawPayload(members, owner)) == JoinSpaced(MarkAll(members, owner))
  {
    if members == [] {
    } else {
      RawIsJoinedPlusSpace(members, owner);
      var joined := JoinSpaced(MarkAll(members, owner));
      JoinSpacedTidy(MarkAll(members, owner));
      TrimTrailingSpace(joined);
    }
  }

  /** The two `names` factories agree: the member-set version yields the
      payload version applied to the listing described above. */
  lemma NamesOverloadsAgree(userId: int, userNickname: string, channelName: string,
                            channelUsers: set<string>, channelOwner: string)
    requires channelOwner in channelUsers
    requires forall m :: m in channelUsers ==> Tidy(m)
    ensures NamesOf(userId, userNickname, channelName, channelUsers, channelOwner)
         == Success(NamesWithPayload(userId, userNickname, channelName,
                                     JoinSpaced(MarkAll(SortedStrings(channelUsers), channelOwner))))
  {
    var members := SortedStrings(channelUsers);
    forall i | 0 <= i < |members| ensures Tidy(members[i]) {
      assert members[i] in Elems(members);
    }
    NamesPayloadShape(members, channelOwner);
  }

  lemma {:induction false} RawIsJoinedPlusSpace(members: seq<string>, owner: string)
    requires members != []
    ensures RawPayload(members, owner) == JoinSpaced(MarkAll(members, owner)) + " "
    decreases |members|
  {
    var n := |members|;
    var init := members[..n - 1];
    if n == 1 {
      assert init == [];
    } else {
      RawIsJoinedPlusSpace(init, owner);
      var marks := MarkAll(members, owner);
      assert marks[..n - 1] == MarkAll(init, owner);
    }
  }

  lemma {:induction false} JoinSpacedTidy(items: seq<string>)
    requires items != []
    requires forall i :: 0 <= i < |items| ==> Tidy(items[i])
    ensures Tidy(JoinSpaced(items))
    decreases |items|
  {
    if |items| > 1 {
      var init := items[..|items| - 1];
      JoinSpacedTidy(init);
      assert init[0] == items[0];
    }
  }

  lemma TrimTrailingSpace(x: string)
    requires Tidy(x)
    ensures Trim(x + " ") == x
  {
    assert TrimStart(x + " ") == x + " ";
    assert (x + " ")[..|x|] == x;
    assert TrimEnd(x + " ") == TrimEnd(x);
    assert TrimEnd(x) == x;
  }

  /** Marking keeps a tidy name tidy. */
  lemma MarkedTidy(member: string, owner: string)
    requires Tidy(member)
    ensures Tidy(Marked(member, owner))
  {
  }

  // ---------------------------------------------------------------------
  // Ordering and equality
  // ---------------------------------------------------------------------

  /** `compareTo`: by recipient id, then by text. */
  function CompareTo(a: Response, b: Response): int
  {
    var x := IntegerCompare(a.recipientId, b.recipientId);
    if x != 0 then x else JavaCompare(a.text, b.text)
  }

  /** The order of a `TreeSet<Response>`. */
  predicate Less(a: Response, b: Response)
  {
    CompareTo(a, b) < 0
  }

  /** `compareTo` is zero exactly when `equals` holds: same recipient and
      same text. */
  lemma CompareToConsistentWithEquals(a: Response, b: Response)
    ensures CompareTo(a, b) == 0 <==> a.recipientId == b.recipientId && a.text == b.text
    ensures CompareTo(a, b) == 0 <==> a == b
  {
    CompareZeroIffEqual(a.text, b.text);
  }

  lemma CompareToAntisymmetric(a: Response, b: Response)
    ensures CompareTo(a, b) == -CompareTo(b, a)
  {
    CompareAntisymmetric(a.text, b.text);
  }

  /** Recipient first, text second. */
  lemma LessIsLexicographic(a: Response, b: Response)
    ensures Less(a, b) <==> a.recipientId < b.recipientId
                            || (a.recipientId == b.recipientId && StrLess(a.text, b.text))
  {
  }

  lemma LessIsStrictOrder(S: set<Response>)
    ensures StrictOrderOn(Less, S)
  {
    forall x, y, z | x in S && y in S && z in S && Less(x, y) && Less(y, z)
      ensures Less(x, z)
    {
      if x.recipientId == y.recipientId == z.recipientId {
        StrLessTransitive(x.text, y.text, z.text);
      }
    }
    forall x, y | x in S && y in S
      ensures x == y || Less(x, y) || Less(y, x)
      ensures !Less(x, x)
    {
      StrLessTotal(x.text, y.text);
    }
  }

  // ---------------------------------------------------------------------
  // What collapses in a response set
  // ---------------------------------------------------------------------

  /** Two CONNECT responses are equal only for the same client and name. */
  lemma ConnectedInjective(i: int, n: string, j: int, m: string)
    ensures Connected(i, n) == Connected(j, m) <==> i == j && n == m
  {
    if Connected(i, n) == Connected(j, m) {
      DropEnds(":", n, " CONNECT", m);
    }
  }

  /** Two QUIT responses are equal only for the same recipient and name. */
  lemma DisconnectedInjective(i: int, n: string, j: int, m: string)
    ensures Disconnected(i, n) == Disconnected(j, m) <==> i == j && n == m
  {
    if Disconnected(i, n) == Disconnected(j, m) {
      DropEnds(":", n, " QUIT", m);
    }
  }

  /** Two OKAY responses about speakers whose names hold no space are
      equal exactly when they go to the same recipient, name the same
      speaker and echo `equals` commands (whoever sent them). */
  lemma OkayCollapsesEqualCommands(i: int, n: string, c: Command, j: int, m: string, d: Command)
    requires ' ' !in n && ' ' !in m
    ensures Okay(i, n, c) == Okay(j, m, d) <==> i == j && n == m && Equals(c, d)
  {
    if Okay(i, n, c) == Okay(j, m, d) {
      var t := Okay(i, n, c).text;
      assert t == ":" + (n + " " + Text(c));
      assert Okay(j, m, d).text == ":" + (m + " " + Text(d));
      CancelPrefix(":", n + " " + Text(c), m + " " + Text(d));
      SplitAtSpace(n, Text(c), m, Text(d));
    }
  }

  /** Two ERROR responses are equal exactly when they answer the same sender
      with the same code. */
  lemma ErrorInjective(c: Command, e: ErrorCode, d: Command, f: ErrorCode)
    ensures Error(c, e) == Error(d, f) <==> GetSenderId(c) == GetSenderId(d) && e == f
  {
    if Error(c, e) == Error(d, f) {
      CancelPrefix(":$server ERROR ", NatToString(Code(e)), NatToString(Code(f)));
      NatToStringInjective(Code(e), Code(f));
      CodeInjective(e, f);
    }
  }

  lemma DropEnds(p: string, x: string, q: string, y: string)
    requires p + x + q == p + y + q
    ensures x == y
  {
    assert x == (p + x + q)[|p|..|p| + |x|];
    assert |x| == |y|;
    assert y == (p + y + q)[|p|..|p| + |y|];
  }
}
