/** Chat messages as the prompt builder and the history compactor handle them. */
module Messages {
  import opened Options

  datatype Role = System | User | Assistant | Tool

  /** A content block: its type, its text and whether it carries a cache marker. */
  datatype Block = Block(isText: bool, text: string, cached: bool)

  datatype Content = Absent | Text(text: string) | Multipart(blocks: seq<Block>)

  datatype FunctionCall = FunctionCall(name: string, arguments: string)

  datatype ToolCall = ToolCall(id: string, function_: Option<FunctionCall>)

  datatype Message = Message(role: Role, content: Content, toolCalls: seq<ToolCall>, toolCallId: string)
}
