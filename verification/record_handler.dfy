/**
 `RecordHandler`: one Kafka record is parsed into a `CommandMessage`,
 dispatched on the class of its data, and any `FlowCommandException` that
 escapes the handler is turned into an error reply on the reply topic.
 */
module RecordHandler {
  import opened JavaStrings
  import opened SouthboundTypes
  import opened FlowInstall
  import opened FlowRemoval
  import opened SwitchRules
  import opened NetworkDump
  import opened BatchInstall

  /** The reply topic: the message's own for a `CommandWithReplyToMessage`, else the flow topic. */
  function ReplyTopic(topics: Topics, msg: CommandMessage): (t: string)
    ensures msg.replyTo.Some? ==> t == msg.replyTo.value
    ensures msg.replyTo.None? ==> t == topics.flow
  {
    msg.replyTo.GetOr(topics.flow)
  }

  /** `getDestinationForTopic`: NORTHBOUND exactly for the northbound topic, WFM_TRANSACTION for any other. */
  function DestinationFor(topics: Topics, topic: string): (d: Destination)
    ensures d == Northbound <==> topic == topics.northbound
    ensures d == WfmTransaction <==> topic != topics.northbound
  {
    if topics.northbound == topic then Northbound else WfmTransaction
  }

  /** A call that declares no checked exception: a failure escapes as an unchecked one. */
  function Query(env: Env, call: DeviceCall, next: Run): (r: Run)
    ensures |r.events| > 0 && r.events[0] == Call(call)
    ensures env.fails(call).Some? ==> r == Run([Call(call)], Some(Unchecked(env.fails(call).value)))
    ensures env.fails(call).None? ==> r.events[1..] == next.events && r.thrown == next.thrown
  {
    match env.fails(call)
    case Some(m) => Run([Call(call)], Some(Unchecked(m)))
    case None => Run([Call(call)] + next.events, next.thrown)
  }

  /** `doConnectMode`: set or read the mode, then report the resulting mode on the reply topic. */
  function ConnectMode(env: Env, msg: CommandMessage, replyTo: string, dest: Destination): (r: Run)
    requires msg.data.ConnectModeRequest?
    ensures env.fails(SetConnectMode(msg.data.mode)).None? ==>
              r == Run([Call(SetConnectMode(msg.data.mode)),
                        Post(replyTo, Info(ConnectModeResponse(env.connectMode(msg.data.mode)), Now, msg.correlationId, Some(dest)))],
                       None)
    ensures env.fails(SetConnectMode(msg.data.mode)).Some? ==> Posts(r.events) == [] && r.thrown.Some?
  {
    var mode := msg.data.mode;
    Query(env, SetConnectMode(mode),
          Run([Post(replyTo, Info(ConnectModeResponse(env.connectMode(mode)), Now, msg.correlationId, Some(dest)))], None))
  }

  /**
   `doDumpRulesRequest`: the switch's flow table, sent to the reply topic
   with the request's own timestamp and no destination.
   */
  function DumpRules(env: Env, msg: CommandMessage, replyTo: string): (r: Run)
    requires msg.data.DumpRulesRequest?
    ensures env.fails(DumpFlowTable(msg.data.switchId)).None? ==>
              r.thrown.None? && |r.events| == 2 && r.events[1]
                == Post(replyTo, Info(SwitchFlowEntries(msg.data.switchId, env.flowTable(msg.data.switchId)),
                                      At(msg.timestamp), msg.correlationId, None))
    ensures env.fails(DumpFlowTable(msg.data.switchId)).Some? ==> Posts(r.events) == [] && r.thrown.Some?
  {
    var sw := msg.data.switchId;
    Query(env, DumpFlowTable(sw),
          Run([Post(replyTo, Info(SwitchFlowEntries(sw, env.flowTable(sw)), At(msg.timestamp), msg.correlationId, None))], None))
  }

  /**
   `handleCommand`: the handler chosen by the class of the data. The
   checked `SwitchOperationException` never escapes it: every handler
   either answers it or turns it into a `FlowCommandException`.
   */
  function HandleCommand(env: Env, topics: Topics, msg: CommandMessage, replyTo: string, dest: Destination): (r: Run)
    ensures r.thrown.Some? ==> r.thrown.value.FlowCommand? || r.thrown.value.Unchecked?
    ensures r.thrown.Some? && r.thrown.value.FlowCommand? ==>
              msg.data.InstallFlowCommand? || msg.data.RemoveFlow? || msg.data.BatchInstallRequest?
  {
    match msg.data
    case DiscoverIsl(sw, port) => Query(env, SendDiscoveryMessage(sw, port), Run([], None))
    case DiscoverPath => Run([], None)
    case InstallFlowCommand(f) => if f.Supported() then ProcessFlow(env, msg, replyTo, dest) else Run([], None)
    case RemoveFlow(_, _, _, _, _) => DeleteFlow(env, msg, replyTo, dest)
    case NetworkCommand =>
      var r := NetworkDumpRun(env, topics, msg);
      NetworkDumpFraming(env, topics, msg);
      NetworkDumpSucceeds(env, topics, msg);
      r
    case SwitchRulesDelete(_, _, _) => DeleteSwitchRules(env, msg, replyTo, dest)
    case SwitchRulesInstall(_, _) => InstallSwitchRules(env, msg, replyTo, dest)
    case ConnectModeRequest(_) => ConnectMode(env, msg, replyTo, dest)
    case DumpRulesRequest(_) => DumpRules(env, msg, replyTo)
    case BatchInstallRequest(_, commands) => BatchSpec(env, commands)
    case PortsCommand(_) => PortsCommandRun(env, topics, msg)
    case UniFlowVerification(flowId) => Run([Verification(flowId, msg.correlationId)], None)
    case OtherCommand => Run([], None)
  }

  /** The error reply for a `FlowCommandException`: its type and message, for its flow. */
  function FlowErrorReply(topics: Topics, msg: CommandMessage, e: Exception): Event
    requires e.FlowCommand?
  {
    Post(ReplyTopic(topics, msg),
         Error(ErrorData(e.errorType, e.message, e.flowId), Now, msg.correlationId, Some(DestinationFor(topics, ReplyTopic(topics, msg)))))
  }

  /**
   `doControllerMsg`: handle the command; a `FlowCommandException` adds
   one error reply, anything else that escapes is only logged.
   */
  function DoControllerMsg(env: Env, topics: Topics, msg: CommandMessage): (events: seq<Event>)
    ensures var run := HandleCommand(env, topics, msg, ReplyTopic(topics, msg), DestinationFor(topics, ReplyTopic(topics, msg)));
            && |run.events| <= |events| <= |run.events| + 1
            && events[..|run.events|] == run.events
            && (|events| == |run.events| + 1 <==> run.thrown.Some? && run.thrown.value.FlowCommand?)
            && (|events| == |run.events| + 1 ==> events[|run.events|] == FlowErrorReply(topics, msg, run.thrown.value))
  {
    var replyTo := ReplyTopic(topics, msg);
    var run := HandleCommand(env, topics, msg, replyTo, DestinationFor(topics, replyTo));
    assert run.events[..|run.events|] == run.events;
    match run.thrown
    case Some(FlowCommand(_, _, _)) =>
      var error := FlowErrorReply(topics, msg, run.thrown.value);
      assert (run.events + [error])[..|run.events|] == run.events;
      run.events + [error]
    case _ => run.events
  }

  /**
   `parseRecord`: `parsed` is the outcome of reading the record's value as
   a `CommandMessage`, absent when it does not parse; a record that does
   not parse is logged and causes nothing.
   */
  function ParseRecord(env: Env, topics: Topics, parsed: Option<CommandMessage>): (events: seq<Event>)
    ensures parsed.None? ==> events == []
    ensures parsed.Some? ==> events == DoControllerMsg(env, topics, parsed.value)
  {
    match parsed
    case None => []
    case Some(msg) => DoControllerMsg(env, topics, msg)
  }

  /**
   A flow install whose meter id fits in an `int` posts exactly one message,
   on the reply topic with its destination: the echoed command when the
   switch accepted everything, else a CREATION_FAILURE for the flow.
   */
  lemma FlowInstallRepliesOnce(env: Env, topics: Topics, msg: CommandMessage)
    requires msg.data.InstallFlowCommand? && msg.data.flow.Supported()
    requires RequestedMeter(msg.data.flow).Some? ==> FitsInt(RequestedMeter(msg.data.flow).value)
    ensures var replyTo := ReplyTopic(topics, msg);
            var dest := DestinationFor(topics, replyTo);
            var posts := Posts(DoControllerMsg(env, topics, msg));
            var install := InstallFlowRun(env, msg.data.flow);
            && |posts| == 1
            && (install.thrown.None? ==> posts[0] == Post(replyTo, Command(msg.(destination := Some(dest)))))
            && (install.thrown.Some? ==>
                  && posts[0].Post? && posts[0].topic == replyTo
                  && posts[0].message.Error?
                  && posts[0].message.error.errorType == CreationFailure
                  && posts[0].message.error.errorDescription == msg.data.flow.id
                  && install.thrown.value.SwitchOperation?
                  && posts[0].message.error.errorMessage == install.thrown.value.message
                  && posts[0].message.correlationId == msg.correlationId
                  && posts[0].message.destination == Some(dest))
  {
    var replyTo := ReplyTopic(topics, msg);
    var dest := DestinationFor(topics, replyTo);
    var run := ProcessFlow(env, msg, replyTo, dest);
    var events := DoControllerMsg(env, topics, msg);
    if run.thrown.Some? {
      var error := FlowErrorReply(topics, msg, run.thrown.value);
      assert events == run.events + [error];
      PostsAppend(run.events, [error]);
    }
  }

  /** A meter id too large for an `int` ends the install with an unchecked exception: nothing is installed or posted. */
  lemma FlowInstallOverflowIsSilent(env: Env, topics: Topics, msg: CommandMessage)
    requires msg.data.InstallFlowCommand? && msg.data.flow.Supported()
    requires RequestedMeter(msg.data.flow).Some? && !FitsInt(RequestedMeter(msg.data.flow).value)
    ensures DoControllerMsg(env, topics, msg) == []
  {
  }

  /**
   The network dump and the port-status report never raise a
   `FlowCommandException`: what such a record causes is exactly what its
   handler does, so the handlers' framing and content lemmas hold for the
   record itself.
   */
  lemma DiscoveryCommandsPassThrough(env: Env, topics: Topics, msg: CommandMessage)
    ensures msg.data.NetworkCommand? ==> DoControllerMsg(env, topics, msg) == NetworkDumpRun(env, topics, msg).events
    ensures msg.data.PortsCommand? ==> DoControllerMsg(env, topics, msg) == PortsCommandRun(env, topics, msg).events
  {
  }

  /** Connect-mode and rule-dump requests: what the record causes is exactly what the handler does, replies included. */
  lemma SwitchQueriesPassThrough(env: Env, topics: Topics, msg: CommandMessage)
    ensures var replyTo := ReplyTopic(topics, msg);
            msg.data.ConnectModeRequest? ==>
              DoControllerMsg(env, topics, msg) == ConnectMode(env, msg, replyTo, DestinationFor(topics, replyTo)).events
    ensures msg.data.DumpRulesRequest? ==>
              DoControllerMsg(env, topics, msg) == DumpRules(env, msg, ReplyTopic(topics, msg)).events
  {
  }

  /**
   Commands that are never answered: an ISL discovery only asks the
   verification service to send one discovery packet, a flow verification
   only dispatches one verification, and a path discovery or a command of
   any other kind is only logged. None of them posts anything.
   */
  lemma UnansweredCommands(env: Env, topics: Topics, msg: CommandMessage)
    ensures msg.data.DiscoverIsl? ==>
              DoControllerMsg(env, topics, msg) == [Call(SendDiscoveryMessage(msg.data.switchId, msg.data.portNo))]
    ensures msg.data.UniFlowVerification? ==>
              DoControllerMsg(env, topics, msg) == [Verification(msg.data.flowId, msg.correlationId)]
    ensures msg.data.DiscoverPath? || msg.data.OtherCommand? ==> DoControllerMsg(env, topics, msg) == []
    ensures msg.data.InstallFlowCommand? && !msg.data.flow.Supported() ==> DoControllerMsg(env, topics, msg) == []
  {
  }

  /** A flow removal posts exactly one message: the echo, or a DELETION_FAILURE for the flow. */
  lemma RemoveFlowRepliesOnce(env: Env, topics: Topics, msg: CommandMessage)
    requires msg.data.RemoveFlow?
    ensures var replyTo := ReplyTopic(topics, msg);
            var dest := DestinationFor(topics, replyTo);
            var posts := Posts(DoControllerMsg(env, topics, msg));
            && |posts| == 1 && posts[0].Post? && posts[0].topic == replyTo
            && (posts[0].message.Command? || (posts[0].message.Error? && posts[0].message.error.errorType == DeletionFailure
                                              && posts[0].message.error.errorDescription == msg.data.id))
            && (posts[0].message.Command? ==> posts[0].message == Command(msg.(destination := Some(dest))))
  {
    var replyTo := ReplyTopic(topics, msg);
    var dest := DestinationFor(topics, replyTo);
    var run := DeleteFlow(env, msg, replyTo, dest);
    if run.thrown.Some? {
      var error := FlowErrorReply(topics, msg, run.thrown.value);
      assert DoControllerMsg(env, topics, msg) == run.events + [error];
      PostsAppend(run.events, [error]);
    }
  }

  /**
   A batch posts nothing unless an unsupported entry ends it, in which
   case its only post is one REQUEST_INVALID error for that entry's flow.
   */
  lemma BatchRepliesOnlyOnInvalidEntry(env: Env, topics: Topics, msg: CommandMessage)
    requires msg.data.BatchInstallRequest?
    ensures var run := BatchSpec(env, msg.data.flowCommands);
            var posts := Posts(DoControllerMsg(env, topics, msg));
            && (run.thrown.None? || run.thrown.value.Unchecked? ==> posts == [])
            && (run.thrown.Some? && run.thrown.value.FlowCommand? ==>
                  posts == [FlowErrorReply(topics, msg, run.thrown.value)]
                  && run.thrown.value.errorType == RequestInvalid)
  {
    var run := BatchSpec(env, msg.data.flowCommands);
    var replyTo := ReplyTopic(topics, msg);
    assert HandleCommand(env, topics, msg, replyTo, DestinationFor(topics, replyTo)) == run;
    BatchOnlyThrowsRequestInvalid(env, msg.data.flowCommands);
    if run.thrown.Some? && run.thrown.value.FlowCommand? {
      var error := FlowErrorReply(topics, msg, run.thrown.value);
      assert DoControllerMsg(env, topics, msg) == run.events + [error];
      PostsAppend(run.events, [error]);
      assert Posts([error]) == [error];
    }
  }

  /** The only `FlowCommandException` a batch can end with is the REQUEST_INVALID of an unsupported entry. */
  lemma {:induction false} BatchOnlyThrowsRequestInvalid(env: Env, commands: seq<InstallFlow>)
    ensures var run := BatchSpec(env, commands);
            run.thrown.Some? && run.thrown.value.FlowCommand? ==>
              run.thrown.value.errorType == RequestInvalid
              && run.thrown.value.message == UnsupportedBatchCommand
              && exists i :: 0 <= i < |commands| && !commands[i].Supported() && commands[i].id == run.thrown.value.flowId
    decreases |commands|
  {
    if |commands| > 0 {
      BatchOnlyThrowsRequestInvalid(env, commands[1..]);
      var first := BatchEntry(env, commands[0]);
      if first.thrown.None? {
        var rest := BatchSpec(env, commands[1..]);
        if rest.thrown.Some? && rest.thrown.value.FlowCommand? {
          var i :| 0 <= i < |commands[1..]| && !commands[1..][i].Supported() && commands[1..][i].id == rest.thrown.value.flowId;
          assert commands[i + 1] == commands[1..][i];
        }
      }
    }
  }

  /** Every reply a handler sends on the reply topic carries the destination chosen for that topic. */
  lemma RepliesCarryTopicDestination(env: Env, topics: Topics, msg: CommandMessage)
    requires msg.data.SwitchRulesInstall? || msg.data.SwitchRulesDelete?
    ensures var replyTo := ReplyTopic(topics, msg);
            var events := DoControllerMsg(env, topics, msg);
            && |events| > 0
            && events[|events| - 1].Post? && events[|events| - 1].topic == replyTo
            && events[|events| - 1].message.destination == Some(DestinationFor(topics, replyTo))
            && events[|events| - 1].message.correlationId == msg.correlationId
  {
  }
}
