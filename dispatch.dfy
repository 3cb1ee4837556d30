/** `Command.updateServerModel`, and the backend's hand-off of a
    connection, a disconnection or a parsed command to the model. The
    answer is a response set, Java's `null`, or a thrown exception. */
module Dispatch {

  import opened Basics
  import opened Commands
  import opened ResponseSets
  import opened ServerState
  import opened ServerModels

  /** How an answer that may be `null` stands for a specified reply. */
  ghost predicate Answers(r: Result<Option<ResponseSet>>, reply: Reply)
    reads if r.Success? && r.value.Some? then {r.value.value} else {}
  {
    match reply
    case Sent(responses) => r.Success? && r.value.Some? && r.value.value.responses == responses
    case NoResponse => r == Success(None)
    case Thrown(e) => r == Failure(e)
  }

  /** A response set, or the exception, as an answer that is not `null`. */
  function Lift(r: Result<ResponseSet>): (a: Result<Option<ResponseSet>>)
    ensures a.Success? <==> r.Success?
    ensures r.Success? ==> a.value == Some(r.value)
    ensures r.Failure? ==> a.error == r.error
  {
    match r
    case Success(rs) => Success(Some(rs))
    case Failure(e) => Failure(e)
  }

  /** `updateServerModel`: each kind of command goes to its own operation,
      so the model moves as `Apply` says. */
  method UpdateServerModel(cmd: Command, model: ServerModel) returns (r: Result<Option<ResponseSet>>)
    requires model.Valid()
    modifies model, model.Objects()
    ensures model.Valid()
    ensures model.Abs() == Apply(old(model.Abs()), cmd).state
    ensures Answers(r, Apply(old(model.Abs()), cmd).reply)
    ensures r.Success? && r.value.Some? ==> fresh(r.value.value)
  {
    match cmd
    case Nick(_, _) =>
      var a := model.ChangeNickname(cmd);
      r := Lift(a);
    case Create(_, _, _) =>
      var a := model.CreateChannel(cmd);
      r := Lift(a);
    case Join(_, _) =>
      var a := model.JoinChannel(cmd);
      r := Lift(a);
    case Mesg(_, _, _) =>
      var a := model.SendMessage(cmd);
      r := Lift(a);
    case Leave(_, _) =>
      var a := model.LeaveChannel(cmd);
      r := Lift(a);
    case Invite(_, _, _) =>
      var a := model.InviteUser(cmd);
      r := Success(a);
    case Kick(_, _, _) =>
      var a := model.KickUser(cmd);
      r := Success(a);
  }

  /** One task from the backend: a new connection registers, a closed one
      deregisters, and a parsed command updates the model. */
  method Handle(task: Task, model: ServerModel) returns (r: Result<Option<ResponseSet>>)
    requires model.Valid()
    modifies model, model.Objects()
    ensures model.Valid()
    ensures model.Abs() == Step(old(model.Abs()), task).state
    ensures Answers(r, Step(old(model.Abs()), task).reply)
    ensures r.Success? && r.value.Some? ==> fresh(r.value.value)
  {
    match task
    case Registration(userId) =>
      var a := model.RegisterUser(userId);
      r := Lift(a);
    case Disconnection(userId) =>
      var a := model.DeregisterUser(userId);
      r := Lift(a);
    case Request(cmd) =>
      r := UpdateServerModel(cmd, model);
  }
}
