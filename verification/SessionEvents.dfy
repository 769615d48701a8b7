/** Session log events (sessionlog/event.go, eventdata.go, surfaceop.go). */
module SessionEvents {
  import opened Outcomes
  import opened LlmContent

  /** The core event types; the union is open, so every other type is an extension. */
  datatype EventType =
    | TurnStart | TurnEnd | StepStart | StepEnd
    | UserMessage | AssistantChunk | AssistantMessage
    | ToolCall | ToolResult
    | TodoWrite | RequestHeader | RequestContext | EndSeed
    | Extension(name: string)

  /** How an event enters the surface. */
  datatype SurfaceOp = AppendOp | ReplaceOp(start: int, end: int)

  datatype ToolError = ToolError(name: string, code: string)

  datatype TurnEndReason = InterruptedTurnEnd | OtherTurnEnd(kind: string, raw: string)

  /** The incremental chunks that storage rows pack, and every other stream chunk. */
  datatype Chunk =
    | TextDelta(index: int, text: string)
    | ReasoningDelta(index: int, text: string)
    | ToolCallDelta(index: int, id: CallId, name: Option<string>, argumentsDelta: string)
    | OtherChunk(raw: string)

  /**
    A payload after decoding. An event whose payload is not the variant its type asks for
    stands for bytes that do not decode as that type.
  */
  datatype Payload =
    | TurnStartData(turn: int)
    | TurnEndData(turn: int, reason: TurnEndReason)
    | StepData(turn: int, step: int)
    | ChunkData(turn: int, step: int, chunk: Chunk)
    | AssistantData(turn: int, step: int, message: Message)
    | ToolCallData(turn: int, step: int, callId: CallId)
    | ToolResultData(turn: int, step: int, message: Message, error: Option<ToolError>, meta: Option<string>)
    | RawData(raw: string)

  datatype Event = Event(
    kind: EventType,
    seqNo: int,
    time: int,
    data: Payload,
    ignorable: bool,
    surfaceOp: Option<SurfaceOp>,
    sources: Option<seq<int>>
  )

  /** The sentinel errors of the package. */
  datatype LogError = SurfaceViolation | TraceViolation | MalformedValue

  predicate SurfaceEligible(kind: EventType) {
    kind.UserMessage? || kind.AssistantMessage? || kind.ToolResult?
  }

  predicate OnSurface(event: Event) {
    SurfaceEligible(event.kind) && event.surfaceOp.Some?
  }

  predicate Replaces(event: Event) {
    OnSurface(event) && event.surfaceOp.value.ReplaceOp?
  }
}
