/**
 `doBatchInstall`: installing a list of flow segments on one switch, where
 a switch failure on one entry is only logged and an unsupported entry
 aborts the rest of the batch.
 */
module BatchInstall {
  import opened JavaStrings
  import opened SouthboundTypes
  import opened FlowInstall

  const UnsupportedBatchCommand: string := "Unsupported command for batch install."

  /** One iteration of the loop: install the entry, swallowing a `SwitchOperationException`. */
  function BatchEntry(env: Env, f: InstallFlow): (r: Run)
    ensures !f.Supported() ==> r == Run([], Some(FlowCommand(f.id, RequestInvalid, UnsupportedBatchCommand)))
    ensures f.Supported() ==> r.events == InstallFlowRun(env, f).events
    ensures f.Supported() ==> (r.thrown.Some? <==> InstallFlowRun(env, f).thrown.Some? && !InstallFlowRun(env, f).thrown.value.SwitchOperation?)
    ensures r.thrown.Some? ==> r.thrown.value.FlowCommand? || r.thrown.value.Unchecked?
    ensures Posts(r.events) == []
  {
    if !f.Supported() then Run([], Some(FlowCommand(f.id, RequestInvalid, UnsupportedBatchCommand)))
    else
      var install := InstallFlowRun(env, f);
      match install.thrown
      case Some(SwitchOperation(_)) => Run(install.events, None)
      case _ => install
  }

  /** The batch as a recursive reference: each entry in turn, stopping at the first exception that escapes. */
  function BatchSpec(env: Env, commands: seq<InstallFlow>): (r: Run)
    ensures Posts(r.events) == []
    ensures r.thrown.Some? ==> r.thrown.value.FlowCommand? || r.thrown.value.Unchecked?
    decreases |commands|
  {
    if |commands| == 0 then Run([], None)
    else
      var first := BatchEntry(env, commands[0]);
      var rest := BatchSpec(env, commands[1..]);
      PostsAppend(first.events, rest.events);
      Then(first, rest)
  }

  lemma ThenAssociative(a: Run, b: Run, c: Run)
    ensures Then(Then(a, b), c) == Then(a, Then(b, c))
  {
    if a.thrown.None? && b.thrown.None? {
      assert (a.events + b.events) + c.events == a.events + (b.events + c.events);
    }
  }

  /** A batch of two parts runs the first part, then the second if nothing escaped. */
  lemma {:induction false} BatchSpecAppend(env: Env, a: seq<InstallFlow>, b: seq<InstallFlow>)
    ensures BatchSpec(env, a + b) == Then(BatchSpec(env, a), BatchSpec(env, b))
    decreases |a|
  {
    if |a| == 0 {
      assert a + b == b;
      assert [] + BatchSpec(env, b).events == BatchSpec(env, b).events;
    } else {
      assert (a + b)[0] == a[0];
      assert (a + b)[1..] == a[1..] + b;
      BatchSpecAppend(env, a[1..], b);
      ThenAssociative(BatchEntry(env, a[0]), BatchSpec(env, a[1..]), BatchSpec(env, b));
    }
  }

  /** An unsupported entry throws REQUEST_INVALID for its flow; the entries after it are never tried. */
  lemma UnsupportedEntryEndsBatch(env: Env, before: seq<InstallFlow>, bad: InstallFlow, after: seq<InstallFlow>)
    requires !bad.Supported()
    requires BatchSpec(env, before).thrown.None?
    ensures BatchSpec(env, before + [bad] + after)
              == Run(BatchSpec(env, before).events, Some(FlowCommand(bad.id, RequestInvalid, UnsupportedBatchCommand)))
  {
    BatchSpecAppend(env, before + [bad], after);
    BatchSpecAppend(env, before, [bad]);
    assert BatchSpec(env, [bad]) == Run([], Some(FlowCommand(bad.id, RequestInvalid, UnsupportedBatchCommand)));
    assert BatchSpec(env, before).events + [] == BatchSpec(env, before).events;
  }

  /** A switch failure on one entry is logged and the batch goes on with the next entry. */
  lemma SwitchFailureIsIsolated(env: Env, f: InstallFlow, after: seq<InstallFlow>)
    requires f.Supported()
    requires InstallFlowRun(env, f).thrown.Some? && InstallFlowRun(env, f).thrown.value.SwitchOperation?
    ensures BatchSpec(env, [f] + after).events == InstallFlowRun(env, f).events + BatchSpec(env, after).events
    ensures BatchSpec(env, [f] + after).thrown == BatchSpec(env, after).thrown
  {
    assert ([f] + after)[1..] == after;
  }

  /**
   The loop of `doBatchInstall`, computing what the recursive reference
   describes. The request itself is not answered: the handler posts nothing.
   */
  method RunBatch(env: Env, msg: CommandMessage) returns (r: Run)
    requires msg.data.BatchInstallRequest?
    ensures r == BatchSpec(env, msg.data.flowCommands)
    ensures Posts(r.events) == []
  {
    var commands := msg.data.flowCommands;
    var events: seq<Event> := [];
    var thrown: Option<Exception> := None;
    var i := 0;
    while i < |commands| && thrown.None?
      invariant 0 <= i <= |commands|
      invariant thrown.None? ==> BatchSpec(env, commands) == Then(Run(events, None), BatchSpec(env, commands[i..]))
      invariant thrown.Some? ==> BatchSpec(env, commands) == Run(events, thrown)
      decreases |commands| - i
    {
      var step := BatchEntry(env, commands[i]);
      assert commands[i..][0] == commands[i] && commands[i..][1..] == commands[i + 1..];
      ThenAssociative(Run(events, None), step, BatchSpec(env, commands[i + 1..]));
      events := events + step.events;
      thrown := step.thrown;
      i := i + 1;
    }
    if thrown.None? {
      assert commands[i..] == [];
      assert events + [] == events;
    }
    r := Run(events, thrown);
  }
}
