/**
 The `PingProducer` bolt of the ping topology: for each incoming tuple it
 takes the bidirectional flow out of the ping context and emits one ping
 context per direction, forward first, each paired with the tuple's
 command context.
 */
module PingProducer {

  /** One direction of a flow; its content is opaque here. */
  datatype Flow = Flow(flowId: string, srcSwitch: string, dstSwitch: string)

  datatype BidirectionalFlow = BidirectionalFlow(forward: Flow, reverse: Flow)

  datatype FlowDirection = Forward | Reverse

  datatype Ping = Ping(flow: Flow)

  /** A `PingContext`; `rest` stands for its other fields, copied verbatim by `toBuilder()`. */
  datatype PingContext = PingContext(flow: BidirectionalFlow, ping: PingField, rest: string)

  /** A nullable `Ping` field. */
  datatype PingField = NoPing | SomePing(value: Ping)

  datatype CommandContext = CommandContext(correlationId: string)

  /** A tuple field as `getValueByField` returns it: the expected type, or something else. */
  datatype Field<T> = Typed(value: T) | Mistyped

  datatype Tuple = Tuple(ping: Field<PingContext>, context: Field<CommandContext>)

  datatype Failure = IllegalArgument | Pipeline(field: string)

  datatype Outcome<T> = Emitted(value: T) | Thrown(failure: Failure)

  /** One emitted `Values(pingContext, commandContext)`. */
  datatype Payload = Payload(pingContext: PingContext, commandContext: CommandContext)

  /** A `FlowDirection` argument: one of the two constants, or null. */
  datatype DirectionArg = Given(direction: FlowDirection) | NullDirection

  /** `getUnidirectionalFlow(flow, direction)`; a null direction is the only value outside the two constants. */
  function GetUnidirectionalFlow(flow: BidirectionalFlow, direction: DirectionArg): (r: Outcome<Flow>)
    ensures direction == Given(Forward) ==> r == Emitted(flow.forward)
    ensures direction == Given(Reverse) ==> r == Emitted(flow.reverse)
    ensures direction == NullDirection ==> r == Thrown(IllegalArgument)
  {
    match direction
    case Given(Forward) => Emitted(flow.forward)
    case Given(Reverse) => Emitted(flow.reverse)
    case NullDirection => Thrown(IllegalArgument)
  }

  /** `produce(pingContext, direction)`: a copy of the context whose `ping` is the chosen direction's flow. */
  function Produce(ctx: PingContext, direction: FlowDirection): (r: PingContext)
    ensures r.flow == ctx.flow && r.rest == ctx.rest
    ensures r.ping == SomePing(Ping(if direction == Forward then ctx.flow.forward else ctx.flow.reverse))
  {
    match GetUnidirectionalFlow(ctx.flow, Given(direction))
    case Emitted(f) => ctx.(ping := SomePing(Ping(f)))
    case Thrown(_) => ctx
  }

  /** `getPingContext(input)`: a field of another type is reported as a `PipelineException`. */
  function GetPingContext(input: Tuple): Outcome<PingContext> {
    match input.ping
    case Typed(c) => Emitted(c)
    case Mistyped => Thrown(Pipeline("ping"))
  }

  /** `getContext(input)` of the base bolt, with the same failure rule. */
  function GetContext(input: Tuple): Outcome<CommandContext> {
    match input.context
    case Typed(c) => Emitted(c)
    case Mistyped => Thrown(Pipeline("context"))
  }

  /** `emit(input, pingContext)`. */
  function Emit(input: Tuple, ctx: PingContext): (r: Outcome<Payload>)
    ensures input.context.Typed? ==> r == Emitted(Payload(ctx, input.context.value))
    ensures input.context.Mistyped? ==> r.Thrown?
  {
    match GetContext(input)
    case Emitted(cc) => Emitted(Payload(ctx, cc))
    case Thrown(e) => Thrown(e)
  }

  /**
   `handleInput(input)`: the payloads emitted, in order. A failure while
   reading either field throws before the first emit, so nothing is emitted.
   */
  function HandleInput(input: Tuple): (r: Outcome<seq<Payload>>)
    ensures r.Emitted? <==> input.ping.Typed? && input.context.Typed?
    ensures r.Emitted? ==> |r.value| == 2
    ensures r.Emitted? ==> r.value[0].pingContext.ping == SomePing(Ping(input.ping.value.flow.forward))
    ensures r.Emitted? ==> r.value[1].pingContext.ping == SomePing(Ping(input.ping.value.flow.reverse))
    ensures r.Emitted? ==> forall i :: 0 <= i < 2 ==>
              r.value[i].commandContext == input.context.value
              && r.value[i].pingContext.(ping := input.ping.value.ping) == input.ping.value
  {
    match GetPingContext(input)
    case Thrown(e) => Thrown(e)
    case Emitted(ctx) =>
      match Emit(input, Produce(ctx, Forward))
      case Thrown(e) => Thrown(e)
      case Emitted(first) =>
        match Emit(input, Produce(ctx, Reverse))
        case Thrown(e) => Thrown(e)
        case Emitted(second) => Emitted([first, second])
  }
}
