/**
 `doNetworkDump` (the full switch and port dump sent to topology
 discovery) and `doPortsCommandDataRequest` (per-switch port status sent
 to the statistics topic).
 */
module NetworkDump {
  import opened JavaStrings
  import opened SouthboundTypes

  /** The elements of `s` satisfying `p`, in order. */
  function Filter(s: seq<int>, p: int -> bool): (r: seq<int>)
    ensures forall x :: x in r <==> x in s && p(x)
    decreases |s|
  {
    if |s| == 0 then []
    else
      assert forall x :: x in s <==> x == s[0] || x in s[1..] by {
        assert s == [s[0]] + s[1..];
      }
      (if p(s[0]) then [s[0]] else []) + Filter(s[1..], p)
  }

  /** `s` with repetitions dropped, keeping first occurrences: how a collected set is iterated here. */
  function Distinct(s: seq<int>): (r: seq<int>)
    ensures forall x :: x in r <==> x in s
    ensures forall i, j :: 0 <= i < j < |r| ==> r[i] != r[j]
    decreases |s|
  {
    if |s| == 0 then []
    else
      var front := s[..|s| - 1];
      assert forall x :: x in s <==> x in front || x == s[|s| - 1] by {
        assert s == front + [s[|s| - 1]];
      }
      var r := Distinct(front);
      if s[|s| - 1] in r then r else r + [s[|s| - 1]]
  }

  /** `buildSwitchInfoData`: an active switch is reported ACTIVATED, any other ADDED. */
  function SwitchRecord(sw: SwitchView): (d: InfoData)
    ensures d.SwitchInfo? && d.switchId == sw.dpid
    ensures d.state == Activated <==> sw.active
  {
    SwitchInfo(sw.dpid, if sw.active then Activated else Added)
  }

  /** `buildPort`: every dumped port is reported UP. */
  function PortRecord(sw: SwitchView, port: int): InfoData {
    PortInfo(sw.dpid, port, Up)
  }

  /** A message to topology discovery: stamped now, no destination. */
  function DiscoPost(topic: string, correlationId: string, data: InfoData): Event {
    Post(topic, Info(data, Now, correlationId, None))
  }

  predicate IsSwitchRecord(e: Event) {
    e.Post? && e.message.Info? && e.message.data.SwitchInfo?
  }

  predicate IsPortRecord(e: Event) {
    e.Post? && e.message.Info? && e.message.data.PortInfo?
  }

  predicate IsMarker(e: Event) {
    e.Post? && e.message.Info? && (e.message.data.NetworkSyncBegin? || e.message.data.NetworkSyncEnd?)
  }

  predicate IsOrderToggle(e: Event) {
    e.GuaranteedOrderOn? || e.GuaranteedOrderOff?
  }

  /** The first stream: one record per switch, in map order. */
  function SwitchPosts(topic: string, correlationId: string, switches: seq<SwitchView>): (r: seq<Event>)
    ensures |r| == |switches|
    ensures forall i :: 0 <= i < |r| ==> r[i] == DiscoPost(topic, correlationId, SwitchRecord(switches[i]))
  {
    seq(|switches|, i requires 0 <= i < |switches| => DiscoPost(topic, correlationId, SwitchRecord(switches[i])))
  }

  /** The ports of one switch that are dumped: enabled, physical, each once. */
  function DumpedPorts(env: Env, sw: SwitchView): (r: seq<int>)
    ensures forall p :: p in r <==> p in sw.enabled && env.isPhysicalPort(p)
  {
    Distinct(Filter(sw.enabled, env.isPhysicalPort))
  }

  function PortPostsOf(env: Env, topic: string, correlationId: string, sw: SwitchView): (r: seq<Event>)
    ensures |r| == |DumpedPorts(env, sw)|
    ensures forall i :: 0 <= i < |r| ==> r[i] == DiscoPost(topic, correlationId, PortRecord(sw, DumpedPorts(env, sw)[i]))
  {
    var ports := DumpedPorts(env, sw);
    seq(|ports|, i requires 0 <= i < |ports| => DiscoPost(topic, correlationId, PortRecord(sw, ports[i])))
  }

  /** A port the dump reports: physical and enabled on some switch of the map. */
  predicate Dumped(env: Env, switches: seq<SwitchView>, dpid: string, port: int) {
    exists i :: 0 <= i < |switches| && switches[i].dpid == dpid && port in switches[i].enabled && env.isPhysicalPort(port)
  }

  /** A port is dumped by a non-empty map exactly when the first switch or the rest of the map dumps it. */
  lemma DumpedUncons(env: Env, switches: seq<SwitchView>)
    requires |switches| > 0
    ensures forall dpid, port :: Dumped(env, switches, dpid, port) <==>
              (dpid == switches[0].dpid && port in switches[0].enabled && env.isPhysicalPort(port))
              || Dumped(env, switches[1..], dpid, port)
  {
    forall dpid, port | Dumped(env, switches, dpid, port)
      ensures (dpid == switches[0].dpid && port in switches[0].enabled && env.isPhysicalPort(port))
              || Dumped(env, switches[1..], dpid, port)
    {
      var i :| 0 <= i < |switches| && switches[i].dpid == dpid && port in switches[i].enabled && env.isPhysicalPort(port);
      if i > 0 {
        assert switches[1..][i - 1] == switches[i];
      }
    }
    forall dpid, port | Dumped(env, switches[1..], dpid, port)
      ensures Dumped(env, switches, dpid, port)
    {
      var i :| 0 <= i < |switches[1..]| && switches[1..][i].dpid == dpid && port in switches[1..][i].enabled && env.isPhysicalPort(port);
      assert switches[i + 1] == switches[1..][i];
    }
  }

  /** The port posts of one switch name exactly its enabled physical ports. */
  lemma PortPostsOfContents(env: Env, topic: string, correlationId: string, sw: SwitchView)
    ensures forall dpid, port :: DiscoPost(topic, correlationId, PortInfo(dpid, port, Up)) in PortPostsOf(env, topic, correlationId, sw) <==>
              dpid == sw.dpid && port in sw.enabled && env.isPhysicalPort(port)
  {
    var here := PortPostsOf(env, topic, correlationId, sw);
    var ports := DumpedPorts(env, sw);
    forall dpid, port | DiscoPost(topic, correlationId, PortInfo(dpid, port, Up)) in here
      ensures dpid == sw.dpid && port in ports
    {
      var i :| 0 <= i < |here| && here[i] == DiscoPost(topic, correlationId, PortInfo(dpid, port, Up));
    }
    forall port | port in ports
      ensures DiscoPost(topic, correlationId, PortInfo(sw.dpid, port, Up)) in here
    {
      var i :| 0 <= i < |ports| && ports[i] == port;
      assert here[i] == DiscoPost(topic, correlationId, PortInfo(sw.dpid, port, Up));
    }
  }

  /**
   The second stream: the dumped ports switch by switch. Reading the ports
   of a switch may throw, which ends the stream.
   */
  function PortPosts(env: Env, topic: string, correlationId: string, switches: seq<SwitchView>): (r: Run)
    ensures forall i :: 0 <= i < |r.events| ==>
              IsPortRecord(r.events[i]) && r.events[i] == DiscoPost(topic, correlationId, r.events[i].message.data)
              && r.events[i].message.data.portState == Up
    ensures r.thrown.None? <==> forall i :: 0 <= i < |switches| ==> switches[i].portsError.None?
    ensures r.thrown.Some? ==> r.thrown.value.Unchecked?
    ensures r.thrown.None? ==> forall dpid, port ::
              DiscoPost(topic, correlationId, PortInfo(dpid, port, Up)) in r.events <==> Dumped(env, switches, dpid, port)
    decreases |switches|
  {
    if |switches| == 0 then Run([], None)
    else
      var sw := switches[0];
      match sw.portsError
      case Some(m) => Run([], Some(Unchecked(m)))
      case None =>
        var here := PortPostsOf(env, topic, correlationId, sw);
        var rest := PortPosts(env, topic, correlationId, switches[1..]);
        assert forall i :: 1 <= i < |switches| ==> switches[i] == switches[1..][i - 1];
        DumpedUncons(env, switches);
        PortPostsOfContents(env, topic, correlationId, sw);
        Run(here + rest.events, rest.thrown)
  }

  /**
   `doNetworkDump`: with guaranteed order on for the discovery topic, the
   Begin marker, the switch map, every switch, every dumped port, the End
   marker; the `finally` block turns guaranteed order off on every path.
   */
  function NetworkDumpRun(env: Env, topics: Topics, msg: CommandMessage): Run {
    var t := topics.topoDisco;
    var corr := msg.correlationId;
    var head := [GuaranteedOrderOn(t), DiscoPost(t, corr, NetworkSyncBegin), Call(GetAllSwitchMap)];
    match env.fails(GetAllSwitchMap)
    case Some(e) => Run(head + [GuaranteedOrderOff(t)], Some(Unchecked(e)))
    case None =>
      var ports := PortPosts(env, t, corr, env.switches);
      var body := head + SwitchPosts(t, corr, env.switches) + ports.events;
      match ports.thrown
      case None => Run(body + [DiscoPost(t, corr, NetworkSyncEnd), GuaranteedOrderOff(t)], None)
      case Some(_) => Run(body + [GuaranteedOrderOff(t)], ports.thrown)
  }

  /** The framing holds on every path: order on first, Begin second, order off last, End just before it on success. */
  lemma NetworkDumpFraming(env: Env, topics: Topics, msg: CommandMessage)
    ensures var r := NetworkDumpRun(env, topics, msg);
            var t := topics.topoDisco;
            && |r.events| >= 4
            && r.events[0] == GuaranteedOrderOn(t)
            && r.events[1] == DiscoPost(t, msg.correlationId, NetworkSyncBegin)
            && r.events[|r.events| - 1] == GuaranteedOrderOff(t)
            && (forall i :: 0 < i < |r.events| - 1 ==> !IsOrderToggle(r.events[i]))
            && (r.thrown.None? ==> r.events[|r.events| - 2] == DiscoPost(t, msg.correlationId, NetworkSyncEnd))
  {
  }

  /** The dump succeeds exactly when the switch map and the ports of every switch in it can be read; a failure is unchecked. */
  lemma NetworkDumpSucceeds(env: Env, topics: Topics, msg: CommandMessage)
    ensures var r := NetworkDumpRun(env, topics, msg);
            && (r.thrown.None? <==> env.fails(GetAllSwitchMap).None? && forall i :: 0 <= i < |env.switches| ==> env.switches[i].portsError.None?)
            && (r.thrown.Some? ==> r.thrown.value.Unchecked?)
  {
  }

  /** The two markers appear nowhere else, and every message of the dump goes to the discovery topic. */
  lemma NetworkDumpMarkersAndTopic(env: Env, topics: Topics, msg: CommandMessage)
    ensures var r := NetworkDumpRun(env, topics, msg);
            && (forall i :: 0 <= i < |r.events| && r.events[i].Post? ==> r.events[i].topic == topics.topoDisco)
            && (forall i :: 0 <= i < |r.events| && IsMarker(r.events[i]) ==>
                  i == 1 || (i == |r.events| - 2 && r.thrown.None?))
  {
  }

  /** Every switch record is posted before any port record. */
  lemma SwitchesBeforePorts(env: Env, topics: Topics, msg: CommandMessage)
    ensures var r := NetworkDumpRun(env, topics, msg);
            forall i, j :: 0 <= i < |r.events| && 0 <= j < |r.events| && IsSwitchRecord(r.events[i]) && IsPortRecord(r.events[j]) ==> i < j
  {
  }

  /** A successful dump reports one record per switch, in map order, and exactly the physical enabled ports, each UP. */
  lemma NetworkDumpContents(env: Env, topics: Topics, msg: CommandMessage)
    requires NetworkDumpRun(env, topics, msg).thrown.None?
    ensures var r := NetworkDumpRun(env, topics, msg);
            var t := topics.topoDisco;
            && r.events[3..3 + |env.switches|] == SwitchPosts(t, msg.correlationId, env.switches)
            && (forall dpid, port :: DiscoPost(t, msg.correlationId, PortInfo(dpid, port, Up)) in r.events <==>
                  Dumped(env, env.switches, dpid, port))
            && (forall i :: 0 <= i < |r.events| && IsPortRecord(r.events[i]) ==> r.events[i].message.data.portState == Up)
  {
  }

  /** `PortStatus` set of one switch: physical ports, UP exactly when enabled. */
  function PortsStatus(env: Env, sw: SwitchView): (r: set<PortStatus>)
    ensures forall ps :: ps in r <==>
              ps.id in sw.ports && env.isPhysicalPort(ps.id) && (ps.status == Up <==> ps.id in sw.enabled)
  {
    var r := set p | p in sw.ports && env.isPhysicalPort(p) :: PortStatus(p, if p in sw.enabled then Up else Down);
    assert forall ps: PortStatus :: ps.id in sw.ports && env.isPhysicalPort(ps.id) && (ps.status == Up <==> ps.id in sw.enabled) ==> ps in r by {
      forall ps: PortStatus | ps.id in sw.ports && env.isPhysicalPort(ps.id) && (ps.status == Up <==> ps.id in sw.enabled)
        ensures ps in r
      {
        assert ps == PortStatus(ps.id, if ps.id in sw.enabled then Up else Down);
      }
    }
    r
  }

  /** The switches whose ports can be read, in map order. */
  function Readable(switches: seq<SwitchView>): (r: seq<SwitchView>)
    ensures forall sw :: sw in r <==> sw in switches && sw.portsError.None?
    decreases |switches|
  {
    if |switches| == 0 then []
    else
      assert forall sw :: sw in switches <==> sw == switches[0] || sw in switches[1..] by {
        assert switches == [switches[0]] + switches[1..];
      }
      (if switches[0].portsError.None? then [switches[0]] else []) + Readable(switches[1..])
  }

  /** The status report for one switch, on the stats topic, with the request's timestamp and no destination. */
  function StatusPost(env: Env, topics: Topics, msg: CommandMessage, sw: SwitchView): Event
    requires msg.data.PortsCommand?
  {
    Post(topics.stats, Info(SwitchPortStatus(sw.dpid, PortsStatus(env, sw), msg.data.requester),
                            At(msg.timestamp), msg.correlationId, None))
  }

  /** The loop over the switch map; a switch whose ports cannot be read is logged and skipped. */
  function StatusPosts(env: Env, topics: Topics, msg: CommandMessage, switches: seq<SwitchView>): (r: seq<Event>)
    requires msg.data.PortsCommand?
    ensures |r| == |Readable(switches)|
    ensures forall i :: 0 <= i < |r| ==> r[i] == StatusPost(env, topics, msg, Readable(switches)[i])
    decreases |switches|
  {
    if |switches| == 0 then []
    else
      var rest := StatusPosts(env, topics, msg, switches[1..]);
      match switches[0].portsError
      case None => [StatusPost(env, topics, msg, switches[0])] + rest
      case Some(_) => rest
  }

  /**
   `doPortsCommandDataRequest`: after reading the switch map, one status
   report per readable switch. No failure escapes the handler.
   */
  function PortsCommandRun(env: Env, topics: Topics, msg: CommandMessage): (r: Run)
    requires msg.data.PortsCommand?
    ensures r.thrown.None?
    ensures |r.events| >= 1 && r.events[0] == Call(GetAllSwitchMap)
    ensures env.fails(GetAllSwitchMap).Some? ==> r.events == [Call(GetAllSwitchMap)]
    ensures env.fails(GetAllSwitchMap).None? ==> |r.events| == 1 + |Readable(env.switches)|
    ensures env.fails(GetAllSwitchMap).None? ==> forall i :: 0 <= i < |Readable(env.switches)| ==>
              r.events[i + 1] == StatusPost(env, topics, msg, Readable(env.switches)[i])
  {
    match env.fails(GetAllSwitchMap)
    case Some(_) => Run([Call(GetAllSwitchMap)], None)
    case None =>
      var posts := StatusPosts(env, topics, msg, env.switches);
      var events := [Call(GetAllSwitchMap)] + posts;
      assert forall i :: 0 <= i < |posts| ==> events[i + 1] == posts[i];
      Run(events, None)
  }
}
