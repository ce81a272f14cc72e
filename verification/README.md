# open-kilda southbound command handling, in Dafny

This project models the southbound side of the open-kilda SDN controller
together with a few small pieces of logic from elsewhere in the repository.

The southbound side is the Floodlight module's `RecordHandler`. It reads
one Kafka record, parses it into a `CommandMessage` and dispatches on the
class of the command data. It then turns the command into calls on the
switch manager and posts replies to Kafka topics.

Each handler is a pure function. It takes an oracle for the outside world
(`Env`: which switch-manager call fails and with which message, what the
delete calls return, the switch map, the meter pool) and the command. It
returns a `Run`: the events the handler caused, in order, and the exception
it ended with, if any. The events are:

- device calls;
- meter-pool allocations;
- posted messages, each with its topic, correlation id and destination;
- guaranteed-order toggles;
- dispatched flow verifications.

The smaller pieces are:

- the metric lookups of the GUI's `IConstants.Metrics`;
- the GUI's `ActivityType` enum, with its id and name lookups and its set-once entity;
- the forward/reverse split of the ping topology's `PingProducer`;
- the link-equality check of the staging tests' `TopologyChecker`;
- the `FlowsResponse` message, with its non-null payload, equality and hash code.

Files:

- `southbound_types.dfy`: commands, messages, device calls, the oracle, runs, and the exception model.
  `Perform` issues calls until the first one that throws.
- `flow_install.dfy`: installing the four kinds of flow segment, meters, and the echo of an install.
- `flow_removal.dfy`: `doDeleteFlow`.
- `switch_rules.dfy`: installing and deleting a switch's default rules and rules chosen by criteria.
- `network_dump.dfy`: the network dump sent to topology discovery, and the port-status report.
- `batch_install.dfy`: batch install, as a recursive reference and as the loop that computes it.
- `record_handler.dfy`: reply topic and destination, dispatch, error replies, parsing, and the end-to-end reply lemmas.
- `java_strings.dfy`: the `String` behaviour the code relies on.
  This is `equalsIgnoreCase` with ASCII case folding, the `compareTo` order of a `TreeSet<String>`, and `split("_")[1]`.
- `metrics.dfy`, `activity_type.dfy`, `ping_producer.dfy`, `topology_checker.dfy`, `flows_response.dfy`: the smaller pieces.

## Behaviour worth knowing

The model follows the code; these are the places where the code's behaviour is easy to misread.

- **Meters.** `install*Flow` installs a meter only when `meterId` is present and positive.
  A null `meterId` means the flow is unmetered, even when it has a bandwidth.
  The any-meter branch of `allocateMeterId` is therefore never reached, as `FlowInstall.FreshMeterNeverRequested` shows.
- **REMOVE_\* actions.** REMOVE_DROP, REMOVE_BROADCAST and REMOVE_UNICAST overwrite the request's criteria, so the request's own criteria are not deleted (`SwitchRules.EffectiveCriteria`).
- **RemoveFlow reply.** A successful RemoveFlow echoes the command itself, not a list of removed cookies; an empty removal is only logged (`FlowRemoval.DeleteFlow`).
- **Unknown commands.** A command of an unknown kind is only logged, and nothing is posted (`RecordHandler.UnansweredCommands`).
- **Meter-id overflow.** A meter id that does not fit in an `int` makes `Math.toIntExact` throw `ArithmeticException`.
  `doControllerMsg` logs that exception and sends no reply (`RecordHandler.FlowInstallOverflowIsSilent`).

## Model

| member | source | states |
|---|---|---|
| RecordHandler.ReplyTopic | services/src/floodlight-modules/src/main/java/org/openkilda/floodlight/kafka/RecordHandler.java:105-110 | the reply topic is the message's own reply-to topic for a `CommandWithReplyToMessage`, otherwise the flow topic |
| RecordHandler.DestinationFor | services/src/floodlight-modules/src/main/java/org/openkilda/floodlight/kafka/RecordHandler.java:166-173 | the destination is NORTHBOUND exactly when the reply topic is the northbound topic, and WFM_TRANSACTION for every other topic |
| RecordHandler.DoControllerMsg | services/src/floodlight-modules/src/main/java/org/openkilda/floodlight/kafka/RecordHandler.java:103-123 | the handler's events are kept as they are; one error reply is added exactly when a `FlowCommandException` escapes, and it carries that exception's type, message and flow id; any other exception adds nothing |
| RecordHandler.HandleCommand | services/src/floodlight-modules/src/main/java/org/openkilda/floodlight/kafka/RecordHandler.java:125-164 | no `SwitchOperationException` escapes the dispatch; a `FlowCommandException` escapes only from flow install, flow removal and batch install |
| RecordHandler.ParseRecord | services/src/floodlight-modules/src/main/java/org/openkilda/floodlight/kafka/RecordHandler.java:677-697 | a record that does not parse causes nothing; a parsed record causes exactly what `doControllerMsg` does |
| RecordHandler.ConnectMode | services/src/floodlight-modules/src/main/java/org/openkilda/floodlight/kafka/RecordHandler.java:553-570 | on success: the connect-mode call, then one `ConnectModeResponse` carrying the mode the switch manager returned, on the reply topic; on failure: no post, and an exception escapes |
| RecordHandler.DumpRules | services/src/floodlight-modules/src/main/java/org/openkilda/floodlight/kafka/RecordHandler.java:572-589 | on success: one `SwitchFlowEntries` reply carrying the switch's flow table and the request's own timestamp, with no destination; on failure: no post |
| RecordHandler.FlowInstallRepliesOnce | services/src/floodlight-modules/src/main/java/org/openkilda/floodlight/kafka/RecordHandler.java:193-204 | a flow install posts exactly one message on the reply topic: the echoed command with its destination set, or a CREATION_FAILURE error naming the flow and carrying the switch's message, the correlation id and the destination |
| RecordHandler.FlowInstallOverflowIsSilent | services/src/floodlight-modules/src/main/java/org/openkilda/floodlight/kafka/RecordHandler.java:664-675 | a requested meter id outside the `int` range ends the install before anything is installed, and nothing is posted |
| RecordHandler.DiscoveryCommandsPassThrough | services/src/floodlight-modules/src/main/java/org/openkilda/floodlight/kafka/RecordHandler.java:145-158 | a network-dump or port-status record causes exactly what its handler does, so the dump's framing and contents and the port reports hold for the record itself |
| RecordHandler.SwitchQueriesPassThrough | services/src/floodlight-modules/src/main/java/org/openkilda/floodlight/kafka/RecordHandler.java:151-154 | a connect-mode or rule-dump record causes exactly what its handler does, including its single reply |
| RecordHandler.UnansweredCommands | services/src/floodlight-modules/src/main/java/org/openkilda/floodlight/kafka/RecordHandler.java:131-186 | an ISL discovery causes only the discovery call, a flow verification only the verification dispatch, and a path discovery, an unsupported install kind or an unknown command nothing at all; none posts a reply |
| RecordHandler.RemoveFlowRepliesOnce | services/src/floodlight-modules/src/main/java/org/openkilda/floodlight/kafka/RecordHandler.java:367-396 | a flow removal posts exactly one message on the reply topic: the echoed command, or a DELETION_FAILURE error naming the flow |
| RecordHandler.BatchRepliesOnlyOnInvalidEntry | services/src/floodlight-modules/src/main/java/org/openkilda/floodlight/kafka/RecordHandler.java:596-620 | a batch posts nothing unless an unsupported entry ends it; then it posts one error reply, of type REQUEST_INVALID |
| RecordHandler.BatchOnlyThrowsRequestInvalid | services/src/floodlight-modules/src/main/java/org/openkilda/floodlight/kafka/RecordHandler.java:612-615 | the only `FlowCommandException` a batch can end with is REQUEST_INVALID with the fixed text, for the id of an unsupported entry of the batch |
| RecordHandler.RepliesCarryTopicDestination | services/src/floodlight-modules/src/main/java/org/openkilda/floodlight/kafka/RecordHandler.java:446-551 | both switch-rule handlers end with a reply on the reply topic that carries the correlation id and the destination chosen for that topic |
| FlowInstall.AllocateMeterId | services/src/floodlight-modules/src/main/java/org/openkilda/floodlight/kafka/RecordHandler.java:664-675 | a given id is narrowed to `int` and passed to the pool, and the pool's answer is used; an id that does not fit throws before the pool is asked; a null id asks the pool for any meter |
| FlowInstall.InstallFlowRun | services/src/floodlight-modules/src/main/java/org/openkilda/floodlight/kafka/RecordHandler.java:211-237 | unmetered: only the flow call, with meter id 0, and no meter call; metered: the pool request, then `installMeter` with burst 1024 and the pool's id; on success the last call is the flow call with that id; an exception is a switch failure of the last call made, or the meter-id overflow; nothing is posted |
| FlowInstall.InstallFlowRunIsPerform | services/src/floodlight-modules/src/main/java/org/openkilda/floodlight/kafka/RecordHandler.java:211-237 | the install's switch calls form one sequence that the first failing call ends: the flow call alone when unmetered, else, after the pool request, `installMeter` then the flow call with the pool's id |
| FlowInstall.InstallFlowFailures | services/src/floodlight-modules/src/main/java/org/openkilda/floodlight/kafka/RecordHandler.java:211-237 | an unmetered install throws exactly when the flow call fails, with its message; a failed `installMeter` ends the install before the flow call; after a successful meter call the install throws exactly when the flow call fails |
| FlowInstall.FreshMeterNeverRequested | services/src/floodlight-modules/src/main/java/org/openkilda/floodlight/kafka/RecordHandler.java:667-670 | no install asks the pool for an arbitrary meter: every allocation passes a requested id |
| FlowInstall.PlainSegmentsAreUnmetered | services/src/floodlight-modules/src/main/java/org/openkilda/floodlight/kafka/RecordHandler.java:262-309 | egress and transit installs make exactly one call, the flow call with meter id 0, and never reach the meter pool |
| FlowInstall.ProcessFlow | services/src/floodlight-modules/src/main/java/org/openkilda/floodlight/kafka/RecordHandler.java:193-204 | the install's events come first; on success the only post is the command echoed with its destination, on the reply topic; a switch failure becomes a CREATION_FAILURE `FlowCommandException` for the flow, with the switch's message |
| FlowRemoval.RemovalCriteria | services/src/floodlight-modules/src/main/java/org/openkilda/floodlight/kafka/RecordHandler.java:377-378 | the command's own criteria if it has one, otherwise a criteria matching only the command's cookie |
| FlowRemoval.DeleteFlow | services/src/floodlight-modules/src/main/java/org/openkilda/floodlight/kafka/RecordHandler.java:367-396 | rules are deleted first; the meter is deleted exactly when the command names one and the rule deletion succeeded, whatever it removed; success echoes the command; a failure becomes a DELETION_FAILURE for the flow, with the failing call's message |
| FlowRemoval.DeleteFlowIgnoresRemovedRules | services/src/floodlight-modules/src/main/java/org/openkilda/floodlight/kafka/RecordHandler.java:379-383 | what the rule deletion returns, empty or not, does not change the run |
| SwitchRules.InstallSwitchRules | services/src/floodlight-modules/src/main/java/org/openkilda/floodlight/kafka/RecordHandler.java:446-486 | one switch call, then exactly one reply on the reply topic: the reported cookies, or a CREATION_FAILURE error carrying the switch id and the switch's message |
| SwitchRules.InstallReportsFixedCookies | services/src/floodlight-modules/src/main/java/org/openkilda/floodlight/kafka/RecordHandler.java:456-473 | INSTALL_DROP, INSTALL_BROADCAST and INSTALL_UNICAST each report their single rule cookie; any other action, including none, installs all default rules and reports the three cookies in order |
| SwitchRules.EffectiveCriteria | services/src/floodlight-modules/src/main/java/org/openkilda/floodlight/kafka/RecordHandler.java:502-517 | REMOVE_DROP, REMOVE_BROADCAST and REMOVE_UNICAST replace the request's criteria with the criteria for their fixed cookie; any other action, or none, keeps the request's criteria |
| SwitchRules.InstallAndRemoveNameTheSameRule | services/src/floodlight-modules/src/main/java/org/openkilda/floodlight/kafka/RecordHandler.java:456-517 | each REMOVE_\* action deletes the one cookie that the matching INSTALL_\* action reports |
| SwitchRules.ReinstallComesLast | services/src/floodlight-modules/src/main/java/org/openkilda/floodlight/kafka/RecordHandler.java:519-538 | default rules are reinstalled exactly when the action asks for it, and only after every deletion |
| SwitchRules.NullActionDeletesByCriteriaOnly | services/src/floodlight-modules/src/main/java/org/openkilda/floodlight/kafka/RecordHandler.java:530-533 | without an action, the only call is the deletion by the request's criteria, and there is none when there is no criteria |
| SwitchRules.CollectedInOrder | services/src/floodlight-modules/src/main/java/org/openkilda/floodlight/kafka/RecordHandler.java:519-533 | the reported cookies are those of the non-default deletion, then the default deletion, then the criteria deletion |
| SouthboundTypes.PerformEvents | services/src/floodlight-modules/src/main/java/org/openkilda/floodlight/kafka/RecordHandler.java:519-538 | a sequence of switch calls is issued in order up to and including the first one that fails, and no call after it is made |
| SouthboundTypes.PerformThrown | services/src/floodlight-modules/src/main/java/org/openkilda/floodlight/kafka/RecordHandler.java:519-538 | the sequence ends without an exception exactly when no call fails; otherwise the first failing call's message becomes the thrown switch-operation exception |
| SwitchRules.DeleteSwitchRules | services/src/floodlight-modules/src/main/java/org/openkilda/floodlight/kafka/RecordHandler.java:488-551 | the planned calls up to and including the first failure, then exactly one reply: the collected cookies, or a DELETION_FAILURE error carrying the switch id; nothing escapes |
| NetworkDump.SwitchRecord | services/src/floodlight-modules/src/main/java/org/openkilda/floodlight/kafka/RecordHandler.java:704-708 | a switch is reported ACTIVATED exactly when it is active, and ADDED otherwise |
| NetworkDump.Distinct | services/src/floodlight-modules/src/main/java/org/openkilda/floodlight/kafka/RecordHandler.java:430 | collecting a switch's port records into a set keeps each port once and loses none |
| NetworkDump.DumpedPorts | services/src/floodlight-modules/src/main/java/org/openkilda/floodlight/kafka/RecordHandler.java:426-431 | a switch's dumped ports are exactly its enabled physical ports |
| NetworkDump.PortPosts | services/src/floodlight-modules/src/main/java/org/openkilda/floodlight/kafka/RecordHandler.java:425-434 | every port post is a PortInfo with state UP; when every switch's ports can be read, the posted ports are exactly the enabled physical ports of the switches in the map; otherwise the stream ends in an exception |
| NetworkDump.NetworkDumpFraming | services/src/floodlight-modules/src/main/java/org/openkilda/floodlight/kafka/RecordHandler.java:411-443 | guaranteed order is switched on first and off last on every path, and toggled nowhere in between; the Begin marker comes second; on success the End marker comes just before the switch-off |
| NetworkDump.NetworkDumpSucceeds | services/src/floodlight-modules/src/main/java/org/openkilda/floodlight/kafka/RecordHandler.java:417-443 | the dump succeeds exactly when the switch map and the ports of every switch in it can be read; any failure is an unchecked exception |
| NetworkDump.NetworkDumpMarkersAndTopic | services/src/floodlight-modules/src/main/java/org/openkilda/floodlight/kafka/RecordHandler.java:411-443 | every message of the dump goes to the discovery topic, and the Begin and End markers appear nowhere but in their framing positions |
| NetworkDump.SwitchesBeforePorts | services/src/floodlight-modules/src/main/java/org/openkilda/floodlight/kafka/RecordHandler.java:419-434 | every switch record is posted before any port record |
| NetworkDump.NetworkDumpContents | services/src/floodlight-modules/src/main/java/org/openkilda/floodlight/kafka/RecordHandler.java:417-434 | a successful dump posts one record per switch, in map order, and exactly the enabled physical ports, each UP |
| NetworkDump.PortsStatus | services/src/floodlight-modules/src/main/java/org/openkilda/floodlight/kafka/RecordHandler.java:632-639 | a switch's port-status set holds exactly its physical ports, each UP exactly when it is enabled |
| NetworkDump.Readable | services/src/floodlight-modules/src/main/java/org/openkilda/floodlight/kafka/RecordHandler.java:626-653 | the switches reported are exactly those whose ports can be read |
| NetworkDump.StatusPosts | services/src/floodlight-modules/src/main/java/org/openkilda/floodlight/kafka/RecordHandler.java:626-653 | one status report per readable switch, in map order |
| NetworkDump.PortsCommandRun | services/src/floodlight-modules/src/main/java/org/openkilda/floodlight/kafka/RecordHandler.java:622-657 | after reading the switch map: one report on the stats topic per readable switch, or nothing when the map cannot be read; no exception escapes |
| BatchInstall.BatchEntry | services/src/floodlight-modules/src/main/java/org/openkilda/floodlight/kafka/RecordHandler.java:603-618 | an unsupported entry throws REQUEST_INVALID with the fixed text; a supported entry runs its install, and a switch failure in it is swallowed |
| BatchInstall.BatchSpec | services/src/floodlight-modules/src/main/java/org/openkilda/floodlight/kafka/RecordHandler.java:601-619 | a batch posts nothing, and can end only with a `FlowCommandException` or an unchecked exception |
| BatchInstall.BatchSpecAppend | services/src/floodlight-modules/src/main/java/org/openkilda/floodlight/kafka/RecordHandler.java:601-619 | a batch split in two runs the first part, then the second part only if nothing escaped the first |
| BatchInstall.UnsupportedEntryEndsBatch | services/src/floodlight-modules/src/main/java/org/openkilda/floodlight/kafka/RecordHandler.java:612-615 | after a clean prefix, an unsupported entry ends the batch with REQUEST_INVALID for that entry's flow; later entries are never tried |
| BatchInstall.SwitchFailureIsIsolated | services/src/floodlight-modules/src/main/java/org/openkilda/floodlight/kafka/RecordHandler.java:616-618 | a switch failure on one entry is dropped, and the batch continues with the next entry |
| BatchInstall.RunBatch | services/src/floodlight-modules/src/main/java/org/openkilda/floodlight/kafka/RecordHandler.java:596-620 | the loop computes exactly the recursive reference, and posts nothing |
| Metrics.MatchingSpec | services/src/openkilda-gui/src/main/java/org/openkilda/constants/IConstants.java:172-176 | the display tags of the metrics whose tag equals the key ignoring case: each one present, none other, and the result is empty exactly when nothing matches |
| Metrics.MatchingAppend | services/src/openkilda-gui/src/main/java/org/openkilda/constants/IConstants.java:172-176 | the matches of a table split in two are the matches of the first part followed by those of the second, so results keep declaration order |
| Metrics.FlowValueOver | services/src/openkilda-gui/src/main/java/org/openkilda/constants/IConstants.java:152-162 | `flowValue` is the list of matching display tags, in table order, with every entry doubled: position `j` holds the `j / 2`-th match |
| Metrics.LookupsEmptyWithoutMatch | services/src/openkilda-gui/src/main/java/org/openkilda/constants/IConstants.java:152-178 | `flowValue` and `switchValue` are empty exactly when no tag equals the prefixed key |
| Metrics.SwitchValueBits | services/src/openkilda-gui/src/main/java/org/openkilda/constants/IConstants.java:108-111 | `switchValue("bits")` is the receive counter, then the transmit counter |
| Metrics.ListHasEachDisplayTagOnce | services/src/openkilda-gui/src/main/java/org/openkilda/constants/IConstants.java:180-186 | `list()` holds every metric's display tag, with no repeats |
| Metrics.TagsOver | services/src/openkilda-gui/src/main/java/org/openkilda/constants/IConstants.java:188-195 | `tags()` is strictly sorted and holds exactly the second `_`-field of the tags; it is undefined when some tag has no such field |
| Metrics.TagsDefined | services/src/openkilda-gui/src/main/java/org/openkilda/constants/IConstants.java:90-126 | every tag of the table has a second field, so `tags()` never throws |
| JavaStrings.Insert | services/src/openkilda-gui/src/main/java/org/openkilda/constants/IConstants.java:189-192 | adding to a `TreeSet` keeps it strictly sorted and adds exactly the new element |
| JavaStrings.SecondFieldAt | services/src/openkilda-gui/src/main/java/org/openkilda/constants/IConstants.java:191-192 | for a tag with one `_` that is not last, `split("_")[1]` is the text after the `_` |
| ActivityTypes.IdsFollowDeclarationOrder | services/src/openkilda-gui/src/main/java/org/openkilda/log/constants/ActivityType.java:7-26 | there are twenty constants, and the ids run 1 to 20 in declaration order |
| ActivityTypes.IdsDistinct | services/src/openkilda-gui/src/main/java/org/openkilda/log/constants/ActivityType.java:7-26 | two constants have the same id exactly when they are the same constant |
| ActivityTypes.FindById | services/src/openkilda-gui/src/main/java/org/openkilda/log/constants/ActivityType.java:94-99 | the scan returns a constant of the list that has the id, or null exactly when no constant of the list has it |
| ActivityTypes.GetActivityById | services/src/openkilda-gui/src/main/java/org/openkilda/log/constants/ActivityType.java:92-101 | a constant is returned exactly for ids 1 to 20, and it has the requested id |
| ActivityTypes.SetActivityTypeEntity | services/src/openkilda-gui/src/main/java/org/openkilda/log/constants/ActivityType.java:63-67 | the entity is written only while unset, and a null argument leaves it unset; no other constant changes |
| ActivityTypes.SetOnce | services/src/openkilda-gui/src/main/java/org/openkilda/log/constants/ActivityType.java:63-67 | once an entity is set, any later sequence of calls leaves it unchanged |
| ActivityTypes.FindByName | services/src/openkilda-gui/src/main/java/org/openkilda/log/constants/ActivityType.java:77-82 | the scan stops at the first constant whose entity is unset (a `NullPointerException`) or whose entity name equals the argument ignoring case |
| ActivityTypes.GetActivityByNameFindsFirst | services/src/openkilda-gui/src/main/java/org/openkilda/log/constants/ActivityType.java:75-84 | a found constant has the smallest id among the constants whose entity names match |
| ActivityTypes.GetActivityByNameNotFound | services/src/openkilda-gui/src/main/java/org/openkilda/log/constants/ActivityType.java:75-84 | the result is null exactly when every entity is set and none has the name |
| ActivityTypes.GetActivityByNameTotal | services/src/openkilda-gui/src/main/java/org/openkilda/log/constants/ActivityType.java:75-84 | once every entity is set, the lookup never throws |
| PingProducer.GetUnidirectionalFlow | services/wfm/src/main/java/org/openkilda/wfm/topology/ping/bolt/PingProducer.java:60-73 | FORWARD selects the forward flow, REVERSE the reverse flow, and a null direction throws `IllegalArgumentException` |
| PingProducer.Produce | services/wfm/src/main/java/org/openkilda/wfm/topology/ping/bolt/PingProducer.java:47-52 | the context is copied with only its ping changed, to a ping of the chosen direction's flow |
| PingProducer.Emit | services/wfm/src/main/java/org/openkilda/wfm/topology/ping/bolt/PingProducer.java:54-58 | the payload pairs the ping context with the tuple's command context, and a mistyped context field throws |
| PingProducer.HandleInput | services/wfm/src/main/java/org/openkilda/wfm/topology/ping/bolt/PingProducer.java:39-45 | exactly two payloads, FORWARD then REVERSE, each carrying the input's command context and the input context with only the ping changed; a mistyped field means nothing is emitted |
| TopologyChecker.IsIslEqual | services/src/atdd-staging/src/main/java/org/openkilda/atdd/staging/steps/helpers/TopologyChecker.java:44-51 | a path shorter than two nodes throws; otherwise the answer is true exactly when both switch ids match ignoring case and both ports match exactly |
| TopologyChecker.OnlyFirstTwoNodesCount | services/src/atdd-staging/src/main/java/org/openkilda/atdd/staging/steps/helpers/TopologyChecker.java:45-46 | path nodes after the first two never change the answer |
| TopologyChecker.SwitchIdCaseIgnored | services/src/atdd-staging/src/main/java/org/openkilda/atdd/staging/steps/helpers/TopologyChecker.java:47-50 | changing the case of a reported switch id keeps the answer |
| TopologyChecker.ReversedLinkDoesNotMatch | services/src/atdd-staging/src/main/java/org/openkilda/atdd/staging/steps/helpers/TopologyChecker.java:47-50 | a matched link reported in the other direction does not match, unless both ends of the definition are the same |
| TopologyChecker.Matches | services/src/atdd-staging/src/main/java/org/openkilda/atdd/staging/steps/helpers/TopologyChecker.java:98-101 | the matcher gives the answer of `isIslEqual` for a link; it throws `ClassCastException` for another object, and fails with a null pointer (or an index error) otherwise |
| FlowsResponses.Create | services/src/messaging/src/main/java/org/bitbucket/openkilda/messaging/info/flow/FlowsResponse.java:44-47 | a response is built exactly for a non-null payload, which `getPayload` then returns |
| FlowsResponses.SetPayload | services/src/messaging/src/main/java/org/bitbucket/openkilda/messaging/info/flow/FlowsResponse.java:63-68 | a null payload throws and leaves the object unchanged; otherwise `getPayload` returns the new payload |
| FlowsResponses.SetGetRoundTrip | services/src/messaging/src/main/java/org/bitbucket/openkilda/messaging/info/flow/FlowsResponse.java:54-68 | setting a payload and then setting back the payload read before restores the object |
| FlowsResponses.Equals | services/src/messaging/src/main/java/org/bitbucket/openkilda/messaging/info/flow/FlowsResponse.java:92-102 | equal exactly when the other object is a `FlowsResponse` with an equal payload |
| FlowsResponses.EqualsIsEquivalence | services/src/messaging/src/main/java/org/bitbucket/openkilda/messaging/info/flow/FlowsResponse.java:92-102 | equality is reflexive, symmetric and transitive, and never holds for null |
| FlowsResponses.ListHashIsWrappedPolynomial | services/src/messaging/src/main/java/org/bitbucket/openkilda/messaging/info/flow/FlowsResponse.java:84-86 | the 32-bit list hash is the polynomial hash with base 31, wrapped to 32 bits |
| FlowsResponses.HashCode | services/src/messaging/src/main/java/org/bitbucket/openkilda/messaging/info/flow/FlowsResponse.java:84-86 | the hash code is a 32-bit value congruent to 31 plus the polynomial hash of the payload |
| FlowsResponses.EqualsImpliesSameHash | services/src/messaging/src/main/java/org/bitbucket/openkilda/messaging/info/flow/FlowsResponse.java:84-101 | equal responses have equal hash codes |
| FlowsResponses.EmptyPayloadHash | services/src/messaging/src/main/java/org/bitbucket/openkilda/messaging/info/flow/FlowsResponse.java:84-86 | the hash code of an empty payload is 32 |

## Left out

- **Kafka.** Posting, the producer and the consumer are not modelled. A post is an event, and a failed post is not modelled.
  Enabling and disabling guaranteed order are marker events.
- **JSON parsing.** Parsing a record with `MAPPER` is a parameter of `ParseRecord`: the parsed message, or none.
- **Other plumbing.** Not modelled: the thread-local correlation context, logging, and the thread pools that run handlers concurrently.
- **Timestamps.** `System.currentTimeMillis()` is the marker `Now`. A timestamp copied from the request is kept as a value.
- **The meter pool.** Its internals are not part of this model. The two `allocate` overloads are oracle functions, and each allocation is an event.
  The pool is shared between handler threads; that sharing is not modelled.
- **The switch manager.** It is an oracle: which call fails and with which message, and what the delete calls return.
  `connectMode`, `dumpFlowTable`, `getAllSwitchMap` and the discovery call do not declare `SwitchOperationException`, so their failures are unchecked exceptions.
- **Switch ids.** `DatapathId.of` is not modelled: a switch id is used as given, and a malformed id does not throw.
- **Foreign conversions.**
  - `IOFSwitchConverter` is reduced to the switch id and state.
  - `OFFlowStatsConverter` is folded into the flow-table oracle.
  - `VerificationDispatchCommand` is one verification event.
  - `SwitchEventCollector.isPhysicalPort` is an oracle predicate.
- **Iteration order.** The switch map is iterated in the order the oracle lists it.
  The set of port records built for one switch in the network dump is iterated in first-occurrence order.
- **Error replies.** `FlowCommandException.makeErrorResponse` is not part of this model.
  The error reply is taken to carry the exception's error type, its message and the flow id, in that order.
- **Pipeline helpers.** `getContext` comes from a base bolt that is not part of this model. It is given the same cast-failure rule as `getPingContext`.
- **Flows in a payload.** `Flow.equals` is value equality. `Flow.hashCode` is a parameter of the hash functions.
- **Display.** `toString` and the Hamcrest `describeTo` methods are not modelled.
- RecordHandler.FlowInstallRepliesOnce: requires the requested meter id to fit in an `int`, because an id that does not fit posts nothing. `RecordHandler.FlowInstallOverflowIsSilent` states that case.
- RecordHandler.ConnectMode: on failure it states only that nothing is posted and that an exception escapes. The exception's message is not stated.
- RecordHandler.DumpRules: on failure it states only that nothing is posted and that an exception escapes.
- ActivityTypes.GetActivityByName: its own contract states only soundness. First match, not-found and totality are the three lemmas that follow it.
- PingProducer.GetUnidirectionalFlow: the null direction cannot come from `produce`, whose callers pass only the two constants. It is modelled for completeness.
- Metrics.MatchingSpec: case-insensitive comparison folds ASCII letters only. Java's `equalsIgnoreCase` also folds other letters through `Character.toUpperCase` and `toLowerCase` (for example 'ı' and 'I', 'ſ' and 'S', the Kelvin sign and 'k', 'É' and 'é'), so a key spelled with such letters matches in Java and not in the model.
- Metrics.LookupsEmptyWithoutMatch: the same ASCII-only folding; a lookup key such as "bıts" is empty in the model but not in Java.
- ActivityTypes.FindByName: the same ASCII-only folding of activity names.
- TopologyChecker.IsIslEqual: the same ASCII-only folding of switch ids.
- **Null strings.** String arguments are never null in the model. In Java, `switchValue(null)` throws a `NullPointerException`, and `flowValue(null)` looks up the tag "Flow_null" and returns an empty list.
- **Reply topic.** A `CommandWithReplyToMessage` whose `replyTo` is null is not distinguished from a plain `CommandMessage`: `replyTo` is `None` in both cases, so the model answers on the flow topic where Java posts to a null topic.
