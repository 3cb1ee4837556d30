/** The protocol error codes carried by ERROR responses. */
module ErrorCodes {

  datatype ErrorCode =
    | InvalidName
    | NameAlreadyInUse
    | ChannelAlreadyExists
    | NoSuchChannel
    | UserNotInChannel
    | NoSuchUser
    | UserNotOwner
    | JoinPrivateChannel
    | InviteToPublicChannel

  /** `getCode`. The enum's source is not part of this model, so these
      numbers stand in for the real ones; nothing in the model relies on
      them beyond their being distinct. */
  function Code(e: ErrorCode): nat
  {
    match e
    case InvalidName => 0
    case NameAlreadyInUse => 1
    case ChannelAlreadyExists => 2
    case NoSuchChannel => 3
    case UserNotInChannel => 4
    case NoSuchUser => 5
    case UserNotOwner => 6
    case JoinPrivateChannel => 7
    case InviteToPublicChannel => 8
  }

  lemma CodeInjective(e: ErrorCode, f: ErrorCode)
    ensures Code(e) == Code(f) <==> e == f
  {
  }
}
