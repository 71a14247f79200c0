/**
 * The earlier `/ask` handler of components/index.js: its own one-line
 * prompt templates, a looser input check, no connection probe, and the raw
 * model output passed straight back to the client.
 */
module LegacyServer {
  import opened Text
  import opened Request
  import opened Backend

  /** The five task names this handler knows; anything else, `convert` included, falls to `default`. */
  predicate IsLegacyTask(k: TaskKind) {
    k == Write || k == Debug || k == Explain || k == Refactor || k == Test
  }

  /** The first line of the template for a code task, which the snippet follows after a blank line. */
  function Heading(k: TaskKind): string
    requires k == Debug || k == Explain || k == Refactor || k == Test
  {
    match k
    case Debug => "Debug the following code and explain what's wrong:"
    case Explain => "Explain what this code does in detail:"
    case Refactor => "Refactor the following code to make it more efficient and readable:"
    case Test => "Write unit tests for the following code:"
  }

  /** The template chosen by `taskType` converts the values it embeds without throwing. */
  predicate LegacyRenders(taskType: Field, codeSnippet: Field, instruction: Field) {
    var k := ParseTask(taskType);
    && (k == Write ==> Converts(instruction))
    && (IsLegacyTask(k) && k != Write ==> Converts(codeSnippet))
  }

  /**
   * `buildPrompt(taskType, codeSnippet, instruction)`.  The result is a value
   * of any type: the `default` case hands back the instruction itself.
   */
  function LegacyPrompt(taskType: Field, codeSnippet: Field, instruction: Field): (prompt: Field)
    requires LegacyRenders(taskType, codeSnippet, instruction)
  {
    var k := ParseTask(taskType);
    if k == Write then
      Text("Write a " + Show(instruction) + " function in JavaScript. Only provide the code without explanations.")
    else if IsLegacyTask(k) then
      Text(Heading(k) + "\n\n" + Show(codeSnippet))
    else instruction
  }

  /**
   * A code task's prompt is a heading fixed by the task, ending in a blank
   * line, followed by the snippet whole; the instruction is not read.
   */
  lemma CodePromptEndsWithSnippet(taskType: Field, codeSnippet: Field, instruction: Field)
    requires IsLegacyTask(ParseTask(taskType)) && ParseTask(taskType) != Write && Converts(codeSnippet)
    ensures LegacyPrompt(taskType, codeSnippet, instruction).Text?
    ensures LegacyPrompt(taskType, Text(""), instruction).Text?
    ensures var h := LegacyPrompt(taskType, Text(""), instruction).s;
      && LegacyPrompt(taskType, codeSnippet, instruction) == Text(h + Show(codeSnippet))
      && |h| >= 2 && h[|h| - 2..] == "\n\n"
    ensures var p := LegacyPrompt(taskType, codeSnippet, instruction).s;
      |Show(codeSnippet)| <= |p| && p[|p| - |Show(codeSnippet)|..] == Show(codeSnippet)
    ensures LegacyPrompt(taskType, codeSnippet, instruction) == LegacyPrompt(taskType, codeSnippet, Missing)
  {
    var h := Heading(ParseTask(taskType)) + "\n\n";
    var c := Show(codeSnippet);
    assert LegacyPrompt(taskType, Text(""), instruction) == Text(h + "");
    assert h + "" == h;
    assert LegacyPrompt(taskType, codeSnippet, instruction) == Text(h + c);
    assert (h + c)[|h + c| - |c|..] == c;
  }

  /** Any task this handler does not name, `convert` included, sends the instruction as it came. */
  lemma OtherTasksSendInstruction(taskType: Field, codeSnippet: Field, instruction: Field)
    requires !IsLegacyTask(ParseTask(taskType))
    ensures LegacyPrompt(taskType, codeSnippet, instruction) == instruction
  {
  }

  /** `convert` has no template here. */
  lemma ConvertIsDefault(taskType: Field, codeSnippet: Field, instruction: Field)
    requires taskType == Text("convert")
    ensures LegacyPrompt(taskType, codeSnippet, instruction) == instruction
  {
    ParseTaskName(Convert);
  }

  /** The `write` prompt names the instruction and always asks for JavaScript, ignoring the snippet. */
  lemma WritePromptShape(taskType: Field, codeSnippet: Field, instruction: Field)
    requires taskType == Text("write") && Converts(instruction)
    ensures LegacyPrompt(taskType, codeSnippet, instruction) ==
      Text("Write a " + Show(instruction) + " function in JavaScript. Only provide the code without explanations.")
    ensures LegacyPrompt(taskType, codeSnippet, instruction) == LegacyPrompt(taskType, Missing, instruction)
  {
    ParseTaskName(Write);
  }

  const MissingParameters: Reply :=
    Reply(400, Failure("Missing required parameters: taskType or instruction", Missing))

  /**
   * One request: what was posted to the generation endpoint (if anything)
   * and the handler's reply.  The reply is `None` when the template throws:
   * that happens before the `try`, so the handler sends nothing itself and
   * the client gets whatever Express makes of the rejected handler.
   */
  datatype LegacyExchange = LegacyExchange(sent: Option<Generation>, reply: Option<Reply>)

  /** The generation call's outcome as this handler turns it into a reply. */
  function LegacyHandleCall(call: CallOutcome): (r: Reply)
  {
    match call
    case Answered(data, response) =>
      if Truthy(data) && Truthy(response) then Reply(200, Answer(response))
      else Reply(500, Failure("Unexpected response format from LLM", data))
    case Threw(e) =>
      if e.response.Some? then
        Reply(e.response.value.status, Failure("LLM API error", Or(e.response.value.data, Text(e.message))))
      else if e.requested then
        Reply(503, Failure("No response from LLM API",
                           Text("Check if Ollama is running at http://localhost:11434/api/generate")))
      else Reply(500, Failure("Failed to communicate with LLM", Text(e.message)))
  }

  /** The body after the destructuring defaults `taskType = 'default'`, `codeSnippet = ''`, `instruction = ''`. */
  function Defaulted(body: AskBody): (d: AskBody)
    ensures !Truthy(d.taskType) ==> !body.taskType.Missing? && d.taskType == body.taskType
    ensures Truthy(d.instruction) <==> Truthy(body.instruction)
  {
    AskBody(WithDefault(body.taskType, "default"), WithDefault(body.codeSnippet, ""), WithDefault(body.instruction, ""))
  }

  /** The request passes the 400 check on line 33. */
  predicate Accepted(body: AskBody) {
    var d := Defaulted(body);
    Truthy(d.taskType) || Truthy(d.instruction)
  }

  /** `POST /ask` of components/index.js. */
  function LegacyAsk(body: AskBody, call: CallOutcome): (x: LegacyExchange)
  {
    var d := Defaulted(body);
    if !Accepted(body) then LegacyExchange(None, Some(MissingParameters))
    else if !LegacyRenders(d.taskType, d.codeSnippet, d.instruction) then LegacyExchange(None, None)
    else
      var prompt := LegacyPrompt(d.taskType, d.codeSnippet, d.instruction);
      LegacyExchange(Some(Generation(ModelName, prompt, false)), Some(LegacyHandleCall(call)))
  }

  /**
   * The 400 needs both fields falsy after the defaults: an absent `taskType`
   * becomes `'default'` and so never triggers it, while `null` or `""` can.
   */
  lemma RejectedExactly(body: AskBody, call: CallOutcome)
    ensures LegacyAsk(body, call).reply == Some(MissingParameters) <==>
      !body.taskType.Missing? && !Truthy(body.taskType) && !Truthy(body.instruction)
    ensures LegacyAsk(body, call).reply == Some(MissingParameters) ==> LegacyAsk(body, call).sent.None?
  {
  }

  /**
   * A template that cannot convert the value it embeds (the instruction for
   * `write`, the snippet for a code task) throws: nothing is posted and the
   * handler sends no reply of its own.
   */
  lemma EscapesExactly(body: AskBody, call: CallOutcome)
    ensures LegacyAsk(body, call).reply.None? <==>
      Accepted(body) && !LegacyRenders(Defaulted(body).taskType, Defaulted(body).codeSnippet, Defaulted(body).instruction)
    ensures LegacyAsk(body, call).reply.None? ==> LegacyAsk(body, call).sent.None?
  {
  }

  /** Something is posted exactly when the request is accepted and its template converts; it is the built prompt, for the fixed model, not streamed. */
  lemma WhatIsPosted(body: AskBody, call: CallOutcome)
    ensures var d := Defaulted(body);
      LegacyAsk(body, call).sent.Some? <==> Accepted(body) && LegacyRenders(d.taskType, d.codeSnippet, d.instruction)
    ensures var d := Defaulted(body);
      LegacyAsk(body, call).sent.Some? ==>
        LegacyAsk(body, call).sent == Some(Generation("deepseek-r1:14b", LegacyPrompt(d.taskType, d.codeSnippet, d.instruction), false))
  {
  }

  /** With no `taskType`, the missing instruction becomes the empty prompt `""`, which is still posted. */
  lemma EmptyRequestPostsEmptyPrompt(body: AskBody, call: CallOutcome)
    requires body == AskBody(Missing, Missing, Missing)
    ensures LegacyAsk(body, call).sent == Some(Generation(ModelName, Text(""), false))
  {
  }

  /**
   * An answer reaches the client exactly when the call returned a truthy body
   * with a truthy `response`, and then it is that value untouched.
   */
  lemma AnswerIsRaw(body: AskBody, call: CallOutcome)
    ensures (LegacyAsk(body, call).reply.Some? && LegacyAsk(body, call).reply.value.body.Answer?) <==>
      LegacyAsk(body, call).sent.Some? && call.Answered? && Truthy(call.data) && Truthy(call.response)
    ensures LegacyAsk(body, call).reply.Some? && LegacyAsk(body, call).reply.value.body.Answer? ==>
      LegacyAsk(body, call).reply == Some(Reply(200, Answer(call.response)))
  {
    RejectedIsFailure(body, call);
  }

  lemma RejectedIsFailure(body: AskBody, call: CallOutcome)
    ensures LegacyAsk(body, call).sent.None? && LegacyAsk(body, call).reply.Some? ==>
      LegacyAsk(body, call).reply.value.body.Failure?
  {
  }

  /** A posted request whose answer has a falsy body or a falsy `response` gets a 500 with the body as details. */
  lemma UnexpectedFormatIs500(body: AskBody, d: Field, r: Field)
    requires LegacyAsk(body, Answered(d, r)).sent.Some? && (!Truthy(d) || !Truthy(r))
    ensures LegacyAsk(body, Answered(d, r)).reply == Some(Reply(500, Failure("Unexpected response format from LLM", d)))
  {
  }

  /** An HTTP error reply from the backend is forwarded with its own status and its body as the details. */
  lemma ForwardsBackendStatus(b: BackendReply, e: ErrorInfo)
    requires e.response == Some(b)
    ensures LegacyHandleCall(Threw(e)).status == b.status
    ensures LegacyHandleCall(Threw(e)).body == Failure("LLM API error", if Truthy(b.data) then b.data else Text(e.message))
  {
  }

  /** Without a backend reply, a request that went out is a 503 and anything else a 500. */
  lemma NoReplyStatuses(e: ErrorInfo)
    requires e.response.None?
    ensures LegacyHandleCall(Threw(e)).status == (if e.requested then 503 else 500)
    ensures LegacyHandleCall(Threw(e)).body.Failure?
  {
  }
}
