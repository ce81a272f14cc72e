/**
 `doDeleteFlow`: removing one flow segment from a switch by criteria, then
 its meter, and echoing the command.
 */
module FlowRemoval {
  import opened JavaStrings
  import opened SouthboundTypes

  /** The criteria of a `RemoveFlow`: the one it carries, or else a match on its cookie alone. */
  function RemovalCriteria(cmd: CommandData): (c: Criteria)
    requires cmd.RemoveFlow?
    ensures cmd.criteria.Some? ==> c == cmd.criteria.value
    ensures cmd.criteria.None? ==> c.cookie == Some(cmd.cookie)
    ensures cmd.criteria.None? ==> c.inPort.None? && c.inVlan.None? && c.priority.None? && c.outPort.None?
  {
    cmd.criteria.GetOr(CookieCriteria(cmd.cookie))
  }

  /**
   `doDeleteFlow`: rules go first, then the meter when the command names
   one, whatever the rule deletion returned; then the command is echoed.
   A switch failure becomes a DELETION_FAILURE for the flow.
   */
  function DeleteFlow(env: Env, msg: CommandMessage, replyTo: string, dest: Destination): (r: Run)
    requires msg.data.RemoveFlow?
    ensures var deleteRules := DeleteRulesByCriteria(msg.data.switchId, RemovalCriteria(msg.data));
            && |r.events| > 0 && r.events[0] == Call(deleteRules)
            && (forall m :: Call(DeleteMeter(msg.data.switchId, m)) in r.events <==>
                  msg.data.meterId == Some(m) && env.fails(deleteRules).None?)
            && (r.thrown.None? <==>
                  env.fails(deleteRules).None?
                  && (msg.data.meterId.Some? ==> env.fails(DeleteMeter(msg.data.switchId, msg.data.meterId.value)).None?))
            && (r.thrown.Some? ==>
                  && r.thrown.value.FlowCommand?
                  && r.thrown.value.flowId == msg.data.id
                  && r.thrown.value.errorType == DeletionFailure
                  && (env.fails(deleteRules).Some? ==> r.thrown.value.message == env.fails(deleteRules).value)
                  && (env.fails(deleteRules).None? ==>
                        && msg.data.meterId.Some?
                        && env.fails(DeleteMeter(msg.data.switchId, msg.data.meterId.value)) == Some(r.thrown.value.message)))
    ensures r.thrown.None? ==> Posts(r.events) == [Post(replyTo, Command(msg.(destination := Some(dest))))]
    ensures r.thrown.None? ==> r.events[|r.events| - 1] == Post(replyTo, Command(msg.(destination := Some(dest))))
    ensures r.thrown.Some? ==> Posts(r.events) == []
  {
    var cmd := msg.data;
    var deleteRules := DeleteRulesByCriteria(cmd.switchId, RemovalCriteria(cmd));
    var echo := Post(replyTo, Command(msg.(destination := Some(dest))));
    match env.fails(deleteRules)
    case Some(e) =>
      Run([Call(deleteRules)], Some(FlowCommand(cmd.id, DeletionFailure, e)))
    case None =>
      match cmd.meterId
      case None =>
        Run([Call(deleteRules), echo], None)
      case Some(m) =>
        var deleteMeter := DeleteMeter(cmd.switchId, m);
        match env.fails(deleteMeter)
        case Some(e) => Run([Call(deleteRules), Call(deleteMeter)], Some(FlowCommand(cmd.id, DeletionFailure, e)))
        case None =>
          assert Posts([Call(deleteMeter), echo]) == [echo];
          Run([Call(deleteRules), Call(deleteMeter), echo], None)
  }

  /** An empty list of removed rules is only logged: the run does not depend on what the deletions return. */
  lemma DeleteFlowIgnoresRemovedRules(env: Env, removed: DeviceCall -> seq<Cookie>, msg: CommandMessage,
                                      replyTo: string, dest: Destination)
    requires msg.data.RemoveFlow?
    ensures DeleteFlow(env.(removed := removed), msg, replyTo, dest) == DeleteFlow(env, msg, replyTo, dest)
  {
  }
}
