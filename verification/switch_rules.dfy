/**
 `doInstallSwitchRules` and `doDeleteSwitchRules`: installing or removing
 the default rules of a switch, or rules matching a criteria, and
 reporting the affected cookies.
 */
module SwitchRules {
  import opened JavaStrings
  import opened SouthboundTypes

  /** The call an install action makes and the cookies it reports; anything but the three single actions installs all defaults. */
  function InstallRulesPlan(dpid: string, action: Option<InstallRulesAction>): (DeviceCall, seq<Cookie>) {
    if action == Some(InstallDrop) then (InstallDropFlow(dpid), [DropRuleCookie])
    else if action == Some(InstallBroadcast) then (InstallVerificationRule(dpid, true), [VerificationBroadcastRuleCookie])
    else if action == Some(InstallUnicast) then (InstallVerificationRule(dpid, false), [VerificationUnicastRuleCookie])
    else (InstallDefaultRules(dpid), [DropRuleCookie, VerificationBroadcastRuleCookie, VerificationUnicastRuleCookie])
  }

  /** `doInstallSwitchRules`: one switch call, then exactly one reply on the reply topic. */
  function InstallSwitchRules(env: Env, msg: CommandMessage, replyTo: string, dest: Destination): (r: Run)
    requires msg.data.SwitchRulesInstall?
    ensures r.thrown.None? && |r.events| == 2
    ensures r.events[0] == Call(InstallRulesPlan(msg.data.switchId, msg.data.installAction).0)
    ensures var call := r.events[0].call;
            && (env.fails(call).None? ==>
                  r.events[1] == Post(replyTo, Info(SwitchRulesResponse(InstallRulesPlan(msg.data.switchId, msg.data.installAction).1),
                                                    Now, msg.correlationId, Some(dest))))
            && (env.fails(call).Some? ==>
                  r.events[1] == Post(replyTo, Error(ErrorData(CreationFailure, env.fails(call).value, msg.data.switchId),
                                                     Now, msg.correlationId, Some(dest))))
  {
    var (call, cookies) := InstallRulesPlan(msg.data.switchId, msg.data.installAction);
    var reply :=
      match env.fails(call)
      case None => Info(SwitchRulesResponse(cookies), Now, msg.correlationId, Some(dest))
      case Some(e) => Error(ErrorData(CreationFailure, e, msg.data.switchId), Now, msg.correlationId, Some(dest));
    Run([Call(call), Post(replyTo, reply)], None)
  }

  /** The reported cookies for each install action. */
  lemma InstallReportsFixedCookies(dpid: string, action: Option<InstallRulesAction>)
    ensures action == Some(InstallDrop) ==> InstallRulesPlan(dpid, action).1 == [DropRuleCookie]
    ensures action == Some(InstallBroadcast) ==> InstallRulesPlan(dpid, action).1 == [VerificationBroadcastRuleCookie]
    ensures action == Some(InstallUnicast) ==> InstallRulesPlan(dpid, action).1 == [VerificationUnicastRuleCookie]
    ensures action.None? || action == Some(InstallDefaults) ==>
              InstallRulesPlan(dpid, action) == (InstallDefaultRules(dpid), [DropRuleCookie, VerificationBroadcastRuleCookie, VerificationUnicastRuleCookie])
    ensures |InstallRulesPlan(dpid, action).1| == 1 <==> action.Some? && action.value != InstallDefaults
  {
  }

  /** The criteria a delete request ends up using: the three REMOVE_* actions replace the request's own. */
  function EffectiveCriteria(action: Option<DeleteRulesAction>, criteria: Option<Criteria>): (c: Option<Criteria>)
    ensures action.Some? && action.value.kind == RemoveDrop ==> c == Some(CookieCriteria(DropRuleCookie))
    ensures action.Some? && action.value.kind == RemoveBroadcast ==> c == Some(CookieCriteria(VerificationBroadcastRuleCookie))
    ensures action.Some? && action.value.kind == RemoveUnicast ==> c == Some(CookieCriteria(VerificationUnicastRuleCookie))
    ensures action.None? || action.value.kind.OtherDeleteAction? ==> c == criteria
  {
    match action
    case None => criteria
    case Some(a) =>
      match a.kind
      case RemoveDrop => Some(CookieCriteria(DropRuleCookie))
      case RemoveBroadcast => Some(CookieCriteria(VerificationBroadcastRuleCookie))
      case RemoveUnicast => Some(CookieCriteria(VerificationUnicastRuleCookie))
      case OtherDeleteAction(_) => criteria
  }

  /** Whether the action is present and has the given flag. */
  predicate Removes(action: Option<DeleteRulesAction>, nonDefault: bool) {
    action.Some? && (if nonDefault then action.value.nonDefaultRulesToBeRemoved else action.value.defaultRulesToBeRemoved)
  }

  predicate Reinstalls(action: Option<DeleteRulesAction>) {
    action.Some? && action.value.defaultRulesToBeInstalled
  }

  function When<T>(b: bool, s: seq<T>): seq<T> {
    if b then s else []
  }

  /** The deletion by criteria, when there is a criteria. */
  function ByCriteria(dpid: string, c: Option<Criteria>): seq<DeviceCall> {
    match c
    case Some(criteria) => [DeleteRulesByCriteria(dpid, criteria)]
    case None => []
  }

  /** The switch calls of `doDeleteSwitchRules`, in the order the code issues them. */
  function DeletePlan(dpid: string, action: Option<DeleteRulesAction>, criteria: Option<Criteria>): seq<DeviceCall> {
    var c := EffectiveCriteria(action, criteria);
    When(Removes(action, true), [DeleteAllNonDefaultRules(dpid)])
      + When(Removes(action, false), [DeleteDefaultRules(dpid)])
      + ByCriteria(dpid, c)
      + When(Reinstalls(action), [InstallDefaultRules(dpid)])
  }

  /** Default rules are reinstalled only after every deletion, and only when the action asks for it. */
  lemma ReinstallComesLast(dpid: string, action: Option<DeleteRulesAction>, criteria: Option<Criteria>)
    ensures var plan := DeletePlan(dpid, action, criteria);
            && (InstallDefaultRules(dpid) in plan <==> Reinstalls(action))
            && (Reinstalls(action) ==> plan[|plan| - 1] == InstallDefaultRules(dpid))
            && (forall i :: 0 <= i < |plan| - 1 ==> plan[i].ReturnsCookies())
  {
  }

  /** Without an action only the request's criteria is used. */
  lemma NullActionDeletesByCriteriaOnly(dpid: string, criteria: Option<Criteria>)
    ensures criteria.Some? ==> DeletePlan(dpid, None, criteria) == [DeleteRulesByCriteria(dpid, criteria.value)]
    ensures criteria.None? ==> DeletePlan(dpid, None, criteria) == []
  {
  }

  /** The fixed cookie each REMOVE_* action deletes is the one the matching INSTALL_* action reports. */
  lemma InstallAndRemoveNameTheSameRule(dpid: string, a: DeleteRulesAction, criteria: Option<Criteria>)
    requires !a.kind.OtherDeleteAction?
    ensures var install := match a.kind
              case RemoveDrop => InstallDrop
              case RemoveBroadcast => InstallBroadcast
              case _ => InstallUnicast;
            var reported := InstallRulesPlan(dpid, Some(install)).1;
            |reported| == 1 && EffectiveCriteria(Some(a), criteria) == Some(CookieCriteria(reported[0]))
  {
  }

  /** What a delete call returns, when it is issued. */
  function RemovedBy(env: Env, issued: bool, call: DeviceCall): seq<Cookie> {
    if issued then env.removed(call) else []
  }

  /** The reported cookies: non-default rules, then default rules, then those matching the criteria. */
  lemma CollectedInOrder(env: Env, dpid: string, action: Option<DeleteRulesAction>, criteria: Option<Criteria>)
    ensures var c := EffectiveCriteria(action, criteria);
            Collected(env, DeletePlan(dpid, action, criteria))
              == RemovedBy(env, Removes(action, true), DeleteAllNonDefaultRules(dpid))
                 + RemovedBy(env, Removes(action, false), DeleteDefaultRules(dpid))
                 + (if c.Some? then env.removed(DeleteRulesByCriteria(dpid, c.value)) else [])
  {
    var c := EffectiveCriteria(action, criteria);
    var a := When(Removes(action, true), [DeleteAllNonDefaultRules(dpid)]);
    var b := When(Removes(action, false), [DeleteDefaultRules(dpid)]);
    var d := ByCriteria(dpid, c);
    var e := When(Reinstalls(action), [InstallDefaultRules(dpid)]);
    CollectedAppend(env, a + b + d, e);
    CollectedAppend(env, a + b, d);
    CollectedAppend(env, a, b);
  }

  /** The reply of `doDeleteSwitchRules`: the removed cookies, or a DELETION_FAILURE naming the switch. */
  function DeleteReply(env: Env, msg: CommandMessage, dest: Destination, outcome: Run): Message
    requires msg.data.SwitchRulesDelete?
  {
    var plan := DeletePlan(msg.data.switchId, msg.data.deleteAction, msg.data.criteria);
    match outcome.thrown
    case None => Info(SwitchRulesResponse(Collected(env, plan)), Now, msg.correlationId, Some(dest))
    case Some(e) => Error(ErrorData(DeletionFailure, e.message, msg.data.switchId), Now, msg.correlationId, Some(dest))
  }

  /**
   `doDeleteSwitchRules`: the planned calls up to the first failure, then
   exactly one reply on the reply topic. Nothing escapes the handler.
   */
  function DeleteSwitchRules(env: Env, msg: CommandMessage, replyTo: string, dest: Destination): (r: Run)
    requires msg.data.SwitchRulesDelete?
    ensures var plan := DeletePlan(msg.data.switchId, msg.data.deleteAction, msg.data.criteria);
            var k := FirstFailure(env, plan);
            && r.thrown.None?
            && |r.events| >= 1
            && r.events[..|r.events| - 1] == Calls(Issued(env, plan))
            && Posts(r.events) == [r.events[|r.events| - 1]]
            && r.events[|r.events| - 1].Post? && r.events[|r.events| - 1].topic == replyTo
            && (k == |plan| ==> r.events[|r.events| - 1].message
                                  == Info(SwitchRulesResponse(Collected(env, plan)), Now, msg.correlationId, Some(dest)))
            && (k < |plan| ==> r.events[|r.events| - 1].message
                                 == Error(ErrorData(DeletionFailure, env.fails(plan[k]).value, msg.data.switchId),
                                          Now, msg.correlationId, Some(dest)))
  {
    var plan := DeletePlan(msg.data.switchId, msg.data.deleteAction, msg.data.criteria);
    var p := Perform(env, plan);
    PerformEvents(env, plan);
    PerformThrown(env, plan);
    var reply := Post(replyTo, DeleteReply(env, msg, dest, p));
    PostsOfCalls(Issued(env, plan));
    PostsAppend(p.events, [reply]);
    assert (p.events + [reply])[..|p.events|] == p.events;
    Run(p.events + [reply], None)
  }
}
