/**
 The vocabulary of the southbound command handler of the Floodlight
 module: the commands it consumes, the messages it posts, the calls it
 makes on the switch manager, and the oracle answering those calls.

 A handler is modelled as a pure function from the oracle and the command
 to a `Run`: the events it caused, in order, and the exception it ended
 with, if any.
 */
module SouthboundTypes {
  import opened JavaStrings

  /** A rule cookie: the bit pattern of a Java `long`, read as unsigned. */
  type Cookie = int

  /** The cookies of the three default rules every switch carries. */
  const DropRuleCookie: Cookie := 0x8000_0000_0000_0001
  const VerificationBroadcastRuleCookie: Cookie := 0x8000_0000_0000_0002
  const VerificationUnicastRuleCookie: Cookie := 0x8000_0000_0000_0003

  /** The burst size every meter is installed with. */
  const MeterBurstSize: int := 1024

  /** `Math.toIntExact` succeeds exactly inside the 32-bit signed range. */
  predicate FitsInt(x: int) {
    -0x8000_0000 <= x < 0x8000_0000
  }

  datatype Destination = Northbound | WfmTransaction

  /** The Kafka topics the consumer context is configured with. */
  datatype Topics = Topics(flow: string, northbound: string, topoDisco: string, stats: string)

  datatype OutputVlanType = NoVlanChange | Push | Pop | Replace

  /** A `DeleteRulesCriteria`: every field may be left unset. */
  datatype Criteria = Criteria(cookie: Option<Cookie>, inPort: Option<int>, inVlan: Option<int>,
                               priority: Option<int>, outPort: Option<int>)

  /** `DeleteRulesCriteria.builder().cookie(c).build()`. */
  function CookieCriteria(c: Cookie): (r: Criteria)
    ensures r.cookie == Some(c)
    ensures r.inPort.None? && r.inVlan.None? && r.priority.None? && r.outPort.None?
  {
    Criteria(Some(c), None, None, None, None)
  }

  /** The `BaseInstallFlow` hierarchy; `OtherInstall` is any instance of none of the four subclasses. */
  datatype InstallFlow =
    | Ingress(id: string, cookie: Cookie, switchId: string, inputPort: int, outputPort: int,
              inputVlanId: int, transitVlanId: int, outputVlanType: OutputVlanType,
              bandwidth: int, meterId: Option<int>)
    | Egress(id: string, cookie: Cookie, switchId: string, inputPort: int, outputPort: int,
             transitVlanId: int, outputVlanId: int, outputVlanType: OutputVlanType)
    | Transit(id: string, cookie: Cookie, switchId: string, inputPort: int, outputPort: int,
              transitVlanId: int)
    | OneSwitch(id: string, cookie: Cookie, switchId: string, inputPort: int, outputPort: int,
                inputVlanId: int, outputVlanId: int, outputVlanType: OutputVlanType,
                bandwidth: int, meterId: Option<int>)
    | OtherInstall(id: string, cookie: Cookie, switchId: string)
  {
    predicate Supported() {
      !OtherInstall?
    }

    /** The flow kinds that can carry a meter. */
    predicate Meterable() {
      Ingress? || OneSwitch?
    }
  }

  datatype InstallRulesAction = InstallDrop | InstallBroadcast | InstallUnicast | InstallDefaults

  datatype DeleteRulesKind = RemoveDrop | RemoveBroadcast | RemoveUnicast | OtherDeleteAction(name: string)

  /** A `DeleteRulesAction` constant: which rules it names, and its three flags. */
  datatype DeleteRulesAction = DeleteRulesAction(kind: DeleteRulesKind, nonDefaultRulesToBeRemoved: bool,
                                                 defaultRulesToBeRemoved: bool, defaultRulesToBeInstalled: bool)

  /** One constructor per `CommandData` subclass the handler distinguishes. */
  datatype CommandData =
    | DiscoverIsl(switchId: string, portNo: int)
    | DiscoverPath
    | InstallFlowCommand(flow: InstallFlow)
    | RemoveFlow(id: string, cookie: Cookie, switchId: string, meterId: Option<int>, criteria: Option<Criteria>)
    | NetworkCommand
    | SwitchRulesDelete(switchId: string, deleteAction: Option<DeleteRulesAction>, criteria: Option<Criteria>)
    | SwitchRulesInstall(switchId: string, installAction: Option<InstallRulesAction>)
    | ConnectModeRequest(mode: Option<string>)
    | DumpRulesRequest(switchId: string)
    | BatchInstallRequest(switchId: string, flowCommands: seq<InstallFlow>)
    | PortsCommand(requester: string)
    | UniFlowVerification(flowId: string)
    | OtherCommand

  /**
   A `CommandMessage`; `replyTo` is set exactly when it is a
   `CommandWithReplyToMessage`.
   */
  datatype CommandMessage = CommandMessage(data: CommandData, timestamp: int, correlationId: string,
                                           destination: Option<Destination>, replyTo: Option<string>)

  /** A timestamp: the clock read when the message was built, or a copied value. */
  datatype Timestamp = Now | At(millis: int)

  datatype SwitchState = Activated | Added

  datatype PortChangeType = Up | Down

  datatype PortStatus = PortStatus(id: int, status: PortChangeType)

  /** A rule of a flow table dump, as the converter produces it. */
  datatype FlowEntry = FlowEntry(cookie: Cookie, tableId: int, priority: int)

  datatype InfoData =
    | SwitchRulesResponse(ruleIds: seq<Cookie>)
    | ConnectModeResponse(mode: string)
    | SwitchFlowEntries(switchId: string, flowEntries: seq<FlowEntry>)
    | NetworkSyncBegin
    | NetworkSyncEnd
    | SwitchInfo(switchId: string, state: SwitchState)
    | PortInfo(switchId: string, portNo: int, portState: PortChangeType)
    | SwitchPortStatus(switchId: string, ports: set<PortStatus>, requester: string)

  datatype ErrorType = CreationFailure | DeletionFailure | RequestInvalid

  datatype ErrorData = ErrorData(errorType: ErrorType, errorMessage: string, errorDescription: string)

  datatype Message =
    | Command(command: CommandMessage)
    | Info(data: InfoData, time: Timestamp, correlationId: string, destination: Option<Destination>)
    | Error(error: ErrorData, time: Timestamp, correlationId: string, destination: Option<Destination>)

  /** A call into the switch manager or another device-facing service. */
  datatype DeviceCall =
    | InstallMeter(dpid: string, bandwidth: int, burstSize: int, meterId: int)
    | InstallIngressFlow(dpid: string, flowId: string, cookie: Cookie, inputPort: int, outputPort: int,
                         inputVlanId: int, transitVlanId: int, outputVlanType: OutputVlanType, meterId: int)
    | InstallEgressFlow(dpid: string, flowId: string, cookie: Cookie, inputPort: int, outputPort: int,
                        transitVlanId: int, outputVlanId: int, outputVlanType: OutputVlanType)
    | InstallTransitFlow(dpid: string, flowId: string, cookie: Cookie, inputPort: int, outputPort: int,
                         transitVlanId: int)
    | InstallOneSwitchFlow(dpid: string, flowId: string, cookie: Cookie, inputPort: int, outputPort: int,
                           inputVlanId: int, outputVlanId: int, outputVlanType: OutputVlanType, meterId: int)
    | DeleteRulesByCriteria(dpid: string, criteria: Criteria)
    | DeleteMeter(dpid: string, meterId: int)
    | InstallDropFlow(dpid: string)
    | InstallVerificationRule(dpid: string, broadcast: bool)
    | InstallDefaultRules(dpid: string)
    | DeleteAllNonDefaultRules(dpid: string)
    | DeleteDefaultRules(dpid: string)
    | SetConnectMode(mode: Option<string>)
    | DumpFlowTable(dpid: string)
    | GetAllSwitchMap
    | SendDiscoveryMessage(dpid: string, port: int)
  {
    predicate IsMeterCall() {
      InstallMeter? || DeleteMeter?
    }

    /** The calls whose answer is a list of removed rule cookies. */
    predicate ReturnsCookies() {
      DeleteRulesByCriteria? || DeleteAllNonDefaultRules? || DeleteDefaultRules?
    }
  }

  /**
   A switch as the switch map presents it: its port numbers, the enabled
   ones, and the message of the exception reading its ports throws, if it does.
   */
  datatype SwitchView = SwitchView(dpid: string, active: bool, ports: seq<int>, enabled: seq<int>,
                                   portsError: Option<string>)

  /**
   The world outside the handler. `fails` answers whether a call throws
   (and with which message); `removed` is what a delete call returns;
   `switches` is the switch map in iteration order; `allocate` and
   `allocateFresh` are the two `MeterPool.allocate` overloads.
   */
  datatype Env = Env(
    fails: DeviceCall -> Option<string>,
    removed: DeviceCall -> seq<Cookie>,
    switches: seq<SwitchView>,
    connectMode: Option<string> -> string,
    flowTable: string -> seq<FlowEntry>,
    allocate: (string, string, int) -> int,
    allocateFresh: (string, string) -> int,
    isPhysicalPort: int -> bool)

  datatype Event =
    | Call(call: DeviceCall)
    | Allocate(switchId: string, flowId: string, requested: Option<int>, granted: int)
    | Post(topic: string, message: Message)
    | GuaranteedOrderOn(topic: string)
    | GuaranteedOrderOff(topic: string)
    | Verification(flowId: string, correlationId: string)

  /**
   What a handler can throw: the checked `SwitchOperationException` of the
   switch manager, a `FlowCommandException`, or an unchecked exception.
   */
  datatype Exception =
    | SwitchOperation(message: string)
    | FlowCommand(flowId: string, errorType: ErrorType, message: string)
    | Unchecked(message: string)

  datatype Run = Run(events: seq<Event>, thrown: Option<Exception>)

  /** The text of the `ArithmeticException` of `Math.toIntExact`. */
  const IntegerOverflow: string := "integer overflow"

  /** Runs `a`, then `b` only if `a` completed normally. */
  function Then(a: Run, b: Run): (r: Run)
    ensures a.thrown.Some? ==> r == a
    ensures a.thrown.None? ==> r.events == a.events + b.events && r.thrown == b.thrown
  {
    if a.thrown.Some? then a else Run(a.events + b.events, b.thrown)
  }

  function Calls(calls: seq<DeviceCall>): (r: seq<Event>)
    ensures |r| == |calls|
    ensures forall i :: 0 <= i < |calls| ==> r[i] == Call(calls[i])
  {
    seq(|calls|, i requires 0 <= i < |calls| => Call(calls[i]))
  }

  /** Index of the first call that throws, or `|calls|` when none does. */
  function FirstFailure(env: Env, calls: seq<DeviceCall>): (k: nat)
    ensures k <= |calls|
    ensures forall j :: 0 <= j < k ==> env.fails(calls[j]).None?
    ensures k < |calls| ==> env.fails(calls[k]).Some?
    decreases |calls|
  {
    if |calls| == 0 || env.fails(calls[0]).Some? then 0
    else
      var k := FirstFailure(env, calls[1..]);
      assert forall j :: 1 <= j < |calls| ==> calls[j] == calls[1..][j - 1];
      1 + k
  }

  /** The calls actually issued: those up to and including the first that throws. */
  function Issued(env: Env, calls: seq<DeviceCall>): (r: seq<DeviceCall>)
    ensures var k := FirstFailure(env, calls);
            r == calls[..if k < |calls| then k + 1 else k]
    decreases |calls|
  {
    if |calls| == 0 then []
    else if env.fails(calls[0]).Some? then
      assert calls[..1] == [calls[0]];
      [calls[0]]
    else
      var rest := Issued(env, calls[1..]);
      var k := FirstFailure(env, calls[1..]);
      assert calls[1..][..k] == calls[1..k + 1];
      assert k < |calls| - 1 ==> calls[..k + 2] == [calls[0]] + calls[1..][..k + 1];
      assert k == |calls| - 1 ==> calls[..k + 1] == calls == [calls[0]] + calls[1..];
      [calls[0]] + rest
  }

  /**
   Issues the calls in order. The first that throws ends the run with a
   `SwitchOperationException`; the calls after it are never issued.
   */
  function Perform(env: Env, calls: seq<DeviceCall>): Run
    decreases |calls|
  {
    if |calls| == 0 then Run([], None)
    else match env.fails(calls[0])
      case Some(m) => Run([Call(calls[0])], Some(SwitchOperation(m)))
      case None =>
        var rest := Perform(env, calls[1..]);
        Run([Call(calls[0])] + rest.events, rest.thrown)
  }

  /** `Perform` issues exactly the calls up to and including the first that throws. */
  lemma {:induction false} PerformEvents(env: Env, calls: seq<DeviceCall>)
    ensures Perform(env, calls).events == Calls(Issued(env, calls))
    decreases |calls|
  {
    if |calls| > 0 && env.fails(calls[0]).None? {
      PerformEvents(env, calls[1..]);
      var issued := Issued(env, calls[1..]);
      assert Issued(env, calls) == [calls[0]] + issued;
      assert Calls([calls[0]] + issued) == [Call(calls[0])] + Calls(issued);
    }
  }

  /** `Perform` completes exactly when no call throws, and otherwise ends with the first failure's message. */
  lemma {:induction false} PerformThrown(env: Env, calls: seq<DeviceCall>)
    ensures var k := FirstFailure(env, calls);
            && (Perform(env, calls).thrown.None? <==> k == |calls|)
            && (k < |calls| ==> Perform(env, calls).thrown == Some(SwitchOperation(env.fails(calls[k]).value)))
    decreases |calls|
  {
    if |calls| > 0 && env.fails(calls[0]).None? {
      PerformThrown(env, calls[1..]);
      var k := FirstFailure(env, calls[1..]);
      assert FirstFailure(env, calls) == k + 1;
      assert k < |calls| - 1 ==> calls[k + 1] == calls[1..][k];
    }
  }

  /** What a call returns when it succeeds: removed cookies for the delete calls, nothing otherwise. */
  function Returned(env: Env, call: DeviceCall): seq<Cookie> {
    if call.ReturnsCookies() then env.removed(call) else []
  }

  /** The cookies the calls return, concatenated in call order. */
  function Collected(env: Env, calls: seq<DeviceCall>): (r: seq<Cookie>)
    ensures |calls| == 1 ==> r == Returned(env, calls[0])
    decreases |calls|
  {
    if |calls| == 0 then [] else Returned(env, calls[0]) + Collected(env, calls[1..])
  }

  lemma {:induction false} CollectedAppend(env: Env, a: seq<DeviceCall>, b: seq<DeviceCall>)
    ensures Collected(env, a + b) == Collected(env, a) + Collected(env, b)
    decreases |a|
  {
    if |a| == 0 {
      assert a + b == b;
    } else {
      assert (a + b)[1..] == a[1..] + b;
      CollectedAppend(env, a[1..], b);
    }
  }

  /** The posts among the events, in order. */
  function Posts(events: seq<Event>): (r: seq<Event>)
    ensures |r| <= |events|
    ensures forall e :: e in r <==> e in events && e.Post?
    decreases |events|
  {
    if |events| == 0 then []
    else
      var rest := Posts(events[1..]);
      assert forall e :: e in events <==> e == events[0] || e in events[1..] by {
        assert events == [events[0]] + events[1..];
      }
      if events[0].Post? then [events[0]] + rest else rest
  }

  lemma {:induction false} PostsAppend(a: seq<Event>, b: seq<Event>)
    ensures Posts(a + b) == Posts(a) + Posts(b)
    decreases |a|
  {
    if |a| == 0 {
      assert a + b == b;
    } else {
      assert (a + b)[1..] == a[1..] + b;
      PostsAppend(a[1..], b);
    }
  }

  /** Device calls post nothing. */
  lemma {:induction false} PostsOfCalls(calls: seq<DeviceCall>)
    ensures Posts(Calls(calls)) == []
    decreases |calls|
  {
    if |calls| > 0 {
      assert Calls(calls) == [Call(calls[0])] + Calls(calls[1..]);
      PostsAppend([Call(calls[0])], Calls(calls[1..]));
      PostsOfCalls(calls[1..]);
    }
  }
}
