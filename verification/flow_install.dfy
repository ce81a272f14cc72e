/**
 Installing one flow segment on a switch (`install*Flow`), the meter that
 ingress and one-switch segments may carry, and the `doProcess*Flow`
 wrappers that acknowledge an install by echoing the command.
 */
module FlowInstall {
  import opened JavaStrings
  import opened SouthboundTypes

  /** The meter an install command asks for: a present, positive id on a flow kind that carries one. */
  function RequestedMeter(f: InstallFlow): (r: Option<int>)
    ensures r.Some? <==> f.Meterable() && f.meterId.Some? && f.meterId.value > 0
    ensures r.Some? ==> r.value == f.meterId.value
  {
    if f.Meterable() && f.meterId.Some? && f.meterId.value > 0 then f.meterId else None
  }

  /** The meter id obtained from the pool, with the event recording the request. */
  datatype Allocation = Allocation(run: Run, meterId: int)

  /**
   `allocateMeterId(meterId, switchId, flowId, cookie)`: a null id asks the
   pool for any free meter; a given id is narrowed to `int` first, which
   throws when it does not fit.
   */
  function AllocateMeterId(env: Env, meterId: Option<int>, switchId: string, flowId: string): (r: Allocation)
    ensures meterId.None? ==> r.meterId == env.allocateFresh(switchId, flowId)
    ensures meterId.Some? && FitsInt(meterId.value) ==> r.meterId == env.allocate(switchId, flowId, meterId.value)
    ensures meterId.Some? && !FitsInt(meterId.value) <==> r.run.thrown.Some?
    ensures r.run.thrown.Some? ==> r.run == Run([], Some(Unchecked(IntegerOverflow)))
    ensures r.run.thrown.None? ==> r.run.events == [Allocate(switchId, flowId, meterId, r.meterId)]
  {
    match meterId
    case None =>
      var id := env.allocateFresh(switchId, flowId);
      Allocation(Run([Allocate(switchId, flowId, None, id)], None), id)
    case Some(m) =>
      if FitsInt(m) then
        var id := env.allocate(switchId, flowId, m);
        Allocation(Run([Allocate(switchId, flowId, meterId, id)], None), id)
      else Allocation(Run([], Some(Unchecked(IntegerOverflow))), 0)
  }

  /** The switch-manager call that installs segment `f` with the given meter id (ignored by egress and transit). */
  function FlowCall(f: InstallFlow, meterId: int): (c: DeviceCall)
    requires f.Supported()
    ensures !c.IsMeterCall() && !c.ReturnsCookies()
  {
    match f
    case Ingress(id, cookie, sw, inPort, outPort, inVlan, transitVlan, vlanType, _, _) =>
      InstallIngressFlow(sw, id, cookie, inPort, outPort, inVlan, transitVlan, vlanType, meterId)
    case Egress(id, cookie, sw, inPort, outPort, transitVlan, outVlan, vlanType) =>
      InstallEgressFlow(sw, id, cookie, inPort, outPort, transitVlan, outVlan, vlanType)
    case Transit(id, cookie, sw, inPort, outPort, transitVlan) =>
      InstallTransitFlow(sw, id, cookie, inPort, outPort, transitVlan)
    case OneSwitch(id, cookie, sw, inPort, outPort, inVlan, outVlan, vlanType, _, _) =>
      InstallOneSwitchFlow(sw, id, cookie, inPort, outPort, inVlan, outVlan, vlanType, meterId)
  }

  /** The meter id the flow itself is installed with: the pool's answer when metered, else 0. */
  function MeterUsed(env: Env, f: InstallFlow): int {
    match RequestedMeter(f)
    case Some(m) => env.allocate(f.switchId, f.id, m)
    case None => 0
  }

  /**
   `installIngressFlow`, `installEgressFlow`, `installTransitFlow` and
   `installOneSwitchFlow`: an optional meter (pool request, then
   `installMeter`), then the flow rule itself.
   */
  function InstallFlowRun(env: Env, f: InstallFlow): (r: Run)
    requires f.Supported()
    // Unmetered: exactly the flow call, with meter id 0.
    ensures RequestedMeter(f).None? ==> r.events == [Call(FlowCall(f, 0))]
    ensures RequestedMeter(f).None? ==> forall i :: 0 <= i < |r.events| ==> !(r.events[i].Call? && r.events[i].call.IsMeterCall())
    // Metered with an id too large for `int`: nothing happens.
    ensures RequestedMeter(f).Some? && !FitsInt(RequestedMeter(f).value) ==> r == Run([], Some(Unchecked(IntegerOverflow)))
    // Metered: the pool is asked for the requested id, then the meter goes in with burst 1024.
    ensures RequestedMeter(f).Some? && FitsInt(RequestedMeter(f).value) ==>
              && |r.events| >= 2
              && r.events[0] == Allocate(f.switchId, f.id, RequestedMeter(f), MeterUsed(env, f))
              && r.events[1] == Call(InstallMeter(f.switchId, f.bandwidth, MeterBurstSize, MeterUsed(env, f)))
    // On success the last call installs the flow with the meter id used.
    ensures r.thrown.None? ==> |r.events| > 0 && r.events[|r.events| - 1] == Call(FlowCall(f, MeterUsed(env, f)))
    ensures r.thrown.Some? ==> r.thrown.value.SwitchOperation? || r.thrown.value == Unchecked(IntegerOverflow)
    ensures r.thrown.Some? && r.thrown.value.SwitchOperation? ==>
              |r.events| > 0 && r.events[|r.events| - 1].Call?
              && env.fails(r.events[|r.events| - 1].call) == Some(r.thrown.value.message)
    ensures Posts(r.events) == []
  {
    var plain := FlowCall(f, 0);
    match RequestedMeter(f)
    case None =>
      (match env.fails(plain)
       case Some(e) => Run([Call(plain)], Some(SwitchOperation(e)))
       case None => Run([Call(plain)], None))
    case Some(m) =>
      var a := AllocateMeterId(env, Some(m), f.switchId, f.id);
      if a.run.thrown.Some? then a.run
      else
        var meter := InstallMeter(f.switchId, f.bandwidth, MeterBurstSize, a.meterId);
        var flow := FlowCall(f, a.meterId);
        var head := a.run.events + [Call(meter)];
        assert Posts([Call(meter)]) == [];
        PostsAppend(a.run.events, [Call(meter)]);
        match env.fails(meter)
        case Some(e) => Run(head, Some(SwitchOperation(e)))
        case None =>
          assert Posts([Call(flow)]) == [];
          PostsAppend(head, [Call(flow)]);
          match env.fails(flow)
          case Some(e) => Run(head + [Call(flow)], Some(SwitchOperation(e)))
          case None => Run(head + [Call(flow)], None)
  }

  /**
   The switch calls of an install form one sequence that the first failing
   call ends with its `SwitchOperationException` (`PerformEvents`,
   `PerformThrown`): the flow call alone when unmetered, else `installMeter`
   and then the flow call, after the pool request.
   */
  lemma InstallFlowRunIsPerform(env: Env, f: InstallFlow)
    requires f.Supported()
    ensures RequestedMeter(f).None? ==> InstallFlowRun(env, f) == Perform(env, [FlowCall(f, 0)])
    ensures RequestedMeter(f).Some? && FitsInt(RequestedMeter(f).value) ==>
              InstallFlowRun(env, f)
                == Then(Run([Allocate(f.switchId, f.id, RequestedMeter(f), MeterUsed(env, f))], None),
                        Perform(env, [InstallMeter(f.switchId, f.bandwidth, MeterBurstSize, MeterUsed(env, f)),
                                      FlowCall(f, MeterUsed(env, f))]))
  {
    if RequestedMeter(f).None? {
      assert [FlowCall(f, 0)][1..] == [];
    } else if FitsInt(RequestedMeter(f).value) {
      var used := MeterUsed(env, f);
      var meter := InstallMeter(f.switchId, f.bandwidth, MeterBurstSize, used);
      var flow := FlowCall(f, used);
      var a := AllocateMeterId(env, RequestedMeter(f), f.switchId, f.id);
      assert a.meterId == used && a.run == Run([Allocate(f.switchId, f.id, RequestedMeter(f), used)], None);
      assert [meter, flow][1..] == [flow];
      assert [flow][1..] == [];
      var alloc := [Allocate(f.switchId, f.id, RequestedMeter(f), used)];
      if env.fails(meter).Some? {
        assert Perform(env, [meter, flow]) == Run([Call(meter)], Some(SwitchOperation(env.fails(meter).value)));
      } else {
        var rest := Perform(env, [flow]);
        assert Perform(env, [meter, flow]) == Run([Call(meter)] + rest.events, rest.thrown);
        assert Perform(env, [flow][1..]) == Run([], None);
        if env.fails(flow).None? {
          assert rest == Run([Call(flow)] + [], None);
        }
        assert alloc + ([Call(meter)] + [Call(flow)]) == alloc + [Call(meter)] + [Call(flow)];
        assert InstallFlowRun(env, f) == Run(alloc + [Call(meter)] + [Call(flow)], rest.thrown);
      }
    }
  }

  /**
   What a failing switch call does to an install: it ends the run with a
   `SwitchOperationException` carrying its message, and a failed
   `installMeter` stops the install before the flow call.
   */
  lemma InstallFlowFailures(env: Env, f: InstallFlow)
    requires f.Supported()
    ensures var r := InstallFlowRun(env, f);
            RequestedMeter(f).None? ==>
              (r.thrown.None? <==> env.fails(FlowCall(f, 0)).None?)
              && (r.thrown.Some? ==> r.thrown == Some(SwitchOperation(env.fails(FlowCall(f, 0)).value)))
    ensures var r := InstallFlowRun(env, f);
            var used := MeterUsed(env, f);
            var alloc := Allocate(f.switchId, f.id, RequestedMeter(f), used);
            RequestedMeter(f).Some? && FitsInt(RequestedMeter(f).value) ==>
              var meter := InstallMeter(f.switchId, f.bandwidth, MeterBurstSize, used);
              var flow := FlowCall(f, used);
              && (env.fails(meter).Some? ==> r == Run([alloc, Call(meter)], Some(SwitchOperation(env.fails(meter).value))))
              && (env.fails(meter).None? ==>
                    && r.events == [alloc, Call(meter), Call(flow)]
                    && (r.thrown.None? <==> env.fails(flow).None?)
                    && (r.thrown.Some? ==> r.thrown == Some(SwitchOperation(env.fails(flow).value))))
  {
  }

  /** No caller ever hands `allocateMeterId` a null id: the pool's any-meter overload is never asked. */
  lemma FreshMeterNeverRequested(env: Env, f: InstallFlow, i: int)
    requires f.Supported() && 0 <= i < |InstallFlowRun(env, f).events|
    ensures InstallFlowRun(env, f).events[i].Allocate? ==> InstallFlowRun(env, f).events[i].requested.Some?
  {
    var r := InstallFlowRun(env, f);
    if RequestedMeter(f).Some? && FitsInt(RequestedMeter(f).value) {
      assert forall j :: 1 <= j < |r.events| ==> r.events[j].Call?;
    }
  }

  /** Egress and transit segments never reach the meter pool or a meter call. */
  lemma PlainSegmentsAreUnmetered(env: Env, f: InstallFlow)
    requires f.Egress? || f.Transit?
    ensures InstallFlowRun(env, f) == Perform(env, [FlowCall(f, 0)])
    ensures forall i :: 0 <= i < |InstallFlowRun(env, f).events| ==> InstallFlowRun(env, f).events[i] == Call(FlowCall(f, 0))
  {
  }

  /**
   `doProcessIngressFlow` and its three siblings: install the segment, then
   echo the command with its destination set; a switch failure becomes a
   `FlowCommandException` of type CREATION_FAILURE for the flow.
   */
  function ProcessFlow(env: Env, msg: CommandMessage, replyTo: string, dest: Destination): (r: Run)
    requires msg.data.InstallFlowCommand? && msg.data.flow.Supported()
    ensures var install := InstallFlowRun(env, msg.data.flow);
            && |install.events| <= |r.events|
            && r.events[..|install.events|] == install.events
            && (r.thrown.None? <==> install.thrown.None?)
            && (install.thrown.None? ==> Posts(r.events) == [Post(replyTo, Command(msg.(destination := Some(dest))))])
            && (install.thrown.None? ==> r.events[|r.events| - 1] == Post(replyTo, Command(msg.(destination := Some(dest)))))
            && (install.thrown.Some? ==> Posts(r.events) == [])
            && (install.thrown.Some? && install.thrown.value.SwitchOperation? ==>
                  r.thrown == Some(FlowCommand(msg.data.flow.id, CreationFailure, install.thrown.value.message)))
            && (install.thrown.Some? && !install.thrown.value.SwitchOperation? ==> r.thrown == install.thrown)
  {
    var f := msg.data.flow;
    var install := InstallFlowRun(env, f);
    match install.thrown
    case None =>
      var echo := Post(replyTo, Command(msg.(destination := Some(dest))));
      PostsAppend(install.events, [echo]);
      assert (install.events + [echo])[..|install.events|] == install.events;
      Run(install.events + [echo], None)
    case Some(SwitchOperation(m)) =>
      assert install.events[..|install.events|] == install.events;
      Run(install.events, Some(FlowCommand(f.id, CreationFailure, m)))
    case Some(e) =>
      assert install.events[..|install.events|] == install.events;
      install
  }
}
