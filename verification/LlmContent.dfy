/** Content blocks and messages (llm/content.go, llm/message.go), as typed values. */
module LlmContent {
  import opened Outcomes

  type CallId = string

  /** The discriminating tag of a block; open, so a string. */
  type BlockType = string

  const TEXT_TYPE: BlockType := "text"
  const REASONING_TYPE: BlockType := "reasoning"
  const IMAGE_TYPE: BlockType := "image"
  const TOOL_CALL_TYPE: BlockType := "tool-call"
  const TOOL_RESULT_TYPE: BlockType := "tool-result"

  datatype ImageRef = ImageRef(id: string, bytes: int)

  datatype Block =
    | TextBlock(text: string)
    | ReasoningBlock(text: string)
    | ImageBlock(attachment: ImageRef)
    | ToolCallBlock(id: CallId, name: string, arguments: string)
    | ToolResultBlock(toolCallId: CallId, content: seq<Block>, isError: bool)
    | UnknownBlock(kind: BlockType, raw: string)
  {
    function Type(): BlockType {
      match this
      case TextBlock(_) => TEXT_TYPE
      case ReasoningBlock(_) => REASONING_TYPE
      case ImageBlock(_) => IMAGE_TYPE
      case ToolCallBlock(_, _, _) => TOOL_CALL_TYPE
      case ToolResultBlock(_, _, _) => TOOL_RESULT_TYPE
      case UnknownBlock(kind, _) => kind
    }
  }

  datatype Role = SystemRole | UserRole | AssistantRole

  /** Where a message comes from; every origin but a tool call is opaque here. */
  datatype Source = NoSource | ToolSource(callId: CallId) | OtherSource(kind: string, raw: string)

  datatype Message = Message(id: string, role: Role, source: Source, content: seq<Block>) {
    /** The single tool-result block of a well-formed tool message. */
    function ToolResult(): Option<Block> {
      if role == UserRole && source.ToolSource? && |content| == 1 && content[0].ToolResultBlock?
      then Some(content[0])
      else None
    }
  }
}
