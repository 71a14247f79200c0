/**
 * The `/ask` handler of server.js and its start-up model check.
 *
 * The handler is a decision table over what it reads from the request body
 * and what its two HTTP calls report: the connection probe
 * (`GET /api/tags`) and the generation call (`POST /api/generate`).  Both
 * calls are given as their outcomes; `Ask` says which of them is made,
 * what is posted, and which reply goes back to the client.
 */
module Server {
  import opened Text
  import opened Request
  import opened Backend
  import ResponseCleaner
  import PromptBuilder

  // ---------------------------------------------------------------------
  // Replies
  // ---------------------------------------------------------------------

  const CannotConnect: Reply :=
    Reply(503, Failure("Could not connect to Ollama. Make sure Ollama is running on your machine.",
                       Text("Run \"ollama serve\" in your terminal to start Ollama.")))

  const TimedOut: Reply :=
    Reply(504, Failure("Connection to Ollama timed out",
                       Text("The request took too long to complete. Check if Ollama is running properly.")))

  const ModelMissing: Reply :=
    Reply(404, Failure("Model not found in Ollama",
                       Text("Run \"ollama pull deepseek-r1:14b\" to download the model.")))

  const InstructionRequired: Reply := Reply(400, Failure("Instruction is required", Missing))

  const NoResponse: Reply := Reply(500, Failure("No response from LLM API", Missing))

  /** What V8 says when `instruction.match` is called on a value that is not a string. */
  const InstructionNotString: string := "instruction.match is not a function"

  /** What V8 says when `response.replace` is called on a value that is not a string. */
  const ResponseNotString: string := "response.replace is not a function"

  /** What V8 says when a template literal meets a value with no string conversion. */
  const NotPrimitive: string := "Cannot convert object to primitive value"

  /** The `catch` block of `/ask`: the first test that fits the error decides the reply. */
  function ServerCatch(e: ErrorInfo): (r: Reply)
  {
    if e.code == Some("ECONNREFUSED") then CannotConnect
    else if e.code == Some("ETIMEDOUT") || e.code == Some("ESOCKETTIMEDOUT") then TimedOut
    else if e.response.Some? && e.response.value.status == 404 then ModelMissing
    else if e.response.Some? && e.response.value.status == 400 then
      Reply(400, Failure("Bad request to Ollama API",
                         Or(e.response.value.dataError, Text("Check your prompt and model configuration."))))
    else
      Reply(500, Failure("Failed to communicate with the server", Or(Text(e.message), Text("Unknown error occurred"))))
  }

  /** A refused connection outranks everything else, a timeout everything but a refusal. */
  lemma ServerCatchPrecedence(e: ErrorInfo)
    ensures ServerCatch(e).status == 503 <==> e.code == Some("ECONNREFUSED")
    ensures ServerCatch(e).status == 504 <==> e.code == Some("ETIMEDOUT") || e.code == Some("ESOCKETTIMEDOUT")
    ensures ServerCatch(e).status == 404 <==>
      && e.code != Some("ECONNREFUSED") && e.code != Some("ETIMEDOUT") && e.code != Some("ESOCKETTIMEDOUT")
      && e.response.Some? && e.response.value.status == 404
    ensures ServerCatch(e).status == 400 <==>
      && e.code != Some("ECONNREFUSED") && e.code != Some("ETIMEDOUT") && e.code != Some("ESOCKETTIMEDOUT")
      && e.response.Some? && e.response.value.status == 400
  {
  }

  /** The catch block always answers with an error body whose `details` is present and truthy. */
  lemma ServerCatchExplains(e: ErrorInfo)
    ensures ServerCatch(e).status in {400, 404, 500, 503, 504}
    ensures ServerCatch(e).body.Failure? && Truthy(ServerCatch(e).body.details)
  {
  }

  /** A refused connection during the generation call reads exactly like a failed probe. */
  lemma RefusedIsCannotConnect(e: ErrorInfo)
    ensures ServerCatch(e) == CannotConnect <==> e.code == Some("ECONNREFUSED")
  {
  }

  /**
   * A 400 from the backend passes on its own `error` text when it has a
   * truthy one.  The error may carry any code but the three connection
   * codes (axios sets `ERR_BAD_REQUEST` on a 4xx).
   */
  lemma BadRequestDetails(e: ErrorInfo, b: BackendReply)
    requires e.code != Some("ECONNREFUSED") && e.code != Some("ETIMEDOUT") && e.code != Some("ESOCKETTIMEDOUT")
    requires e.response == Some(b) && b.status == 400
    ensures Truthy(b.dataError) ==> ServerCatch(e).body == Failure("Bad request to Ollama API", b.dataError)
    ensures !Truthy(b.dataError) ==>
      ServerCatch(e).body == Failure("Bad request to Ollama API", Text("Check your prompt and model configuration."))
  {
  }

  /**
   * axios reports its own `timeout: 30000` with code `ECONNABORTED`, which no
   * test of the catch block names: it ends in the generic 500 with its message.
   */
  lemma AbortedCallIs500(e: ErrorInfo)
    requires e.code == Some("ECONNABORTED") && e.response.None? && e.message != ""
    ensures ServerCatch(e) == Reply(500, Failure("Failed to communicate with the server", Text(e.message)))
  {
  }

  /** An error the handler's own code throws ends in the generic 500 with its message. */
  lemma OwnTypeErrorIs500(message: string)
    requires message != ""
    ensures ServerCatch(TypeError(message)) == Reply(500, Failure("Failed to communicate with the server", Text(message)))
  {
  }

  // ---------------------------------------------------------------------
  // The handler
  // ---------------------------------------------------------------------

  /**
   * One `/ask` request: whether the probe was made, what was posted to the
   * generation endpoint (if anything), and the reply.
   */
  datatype Exchange = Exchange(probed: bool, sent: Option<Generation>, reply: Reply)

  /** The generation call's outcome as the handler turns it into a reply. */
  function HandleCall(call: CallOutcome): (r: Reply)
  {
    match call
    case Threw(e) => ServerCatch(e)
    case Answered(data, response) =>
      if !Truthy(data) || !Truthy(response) then NoResponse
      else if !response.Text? then ServerCatch(TypeError(ResponseNotString))
      else Reply(200, Answer(Text(ResponseCleaner.CleanResponse(response.s))))
  }

  /**
   * The handler gets as far as the probe: the instruction is a non-empty
   * string, the chosen template converts the snippet, and the log line
   * `${taskType}` converts the task type.
   */
  predicate Prepared(body: AskBody) {
    && body.instruction.Text? && body.instruction.s != ""
    && PromptBuilder.Renders(body.taskType, body.codeSnippet)
    && Converts(body.taskType)
  }

  /**
   * `POST /ask`.  `probe` is what the probe would report and `call` what the
   * generation call would return or throw; each is consulted only when the
   * handler gets that far.
   */
  function Ask(body: AskBody, probe: Probe, call: CallOutcome): (x: Exchange)
  {
    if !Truthy(body.instruction) then Exchange(false, None, InstructionRequired)
    else if !body.instruction.Text? then Exchange(false, None, ServerCatch(TypeError(InstructionNotString)))
    else if !PromptBuilder.Renders(body.taskType, body.codeSnippet) || !Converts(body.taskType) then
      Exchange(false, None, ServerCatch(TypeError(NotPrimitive)))
    else if probe == Unreachable then Exchange(true, None, CannotConnect)
    else
      var prompt := PromptBuilder.BuildPrompt(body.taskType, body.codeSnippet, body.instruction.s);
      Exchange(true, Some(Generation(ModelName, Text(prompt), false)), HandleCall(call))
  }

  /** The 400 is given exactly when the instruction is falsy, and then nothing else happens. */
  lemma InstructionChecked(body: AskBody, probe: Probe, call: CallOutcome)
    ensures Ask(body, probe, call).reply == InstructionRequired <==> !Truthy(body.instruction)
    ensures !Truthy(body.instruction) ==> !Ask(body, probe, call).probed && Ask(body, probe, call).sent.None?
  {
  }

  /**
   * The probe is made once the prompt is built and logged, which needs a
   * non-empty string instruction; any other truthy value fails inside the
   * prompt builder with a 500.
   */
  lemma ProbeAfterPrompt(body: AskBody, probe: Probe, call: CallOutcome)
    ensures Ask(body, probe, call).probed <==> Prepared(body)
    ensures Truthy(body.instruction) && !body.instruction.Text? ==>
      Ask(body, probe, call).reply == Reply(500, Failure("Failed to communicate with the server", Text(InstructionNotString)))
  {
  }

  /**
   * A snippet the chosen code template cannot convert, or a task type the
   * log line cannot, throws before the probe: a 500 with V8's message, and
   * nothing is posted.
   */
  lemma UnconvertibleIs500(body: AskBody, probe: Probe, call: CallOutcome)
    requires body.instruction.Text? && body.instruction.s != ""
    requires !PromptBuilder.Renders(body.taskType, body.codeSnippet) || !Converts(body.taskType)
    ensures Ask(body, probe, call) ==
      Exchange(false, None, Reply(500, Failure("Failed to communicate with the server",
                                               Text("Cannot convert object to primitive value"))))
  {
  }

  /** A failed probe stops the request before anything is posted. */
  lemma UnreachableSendsNothing(body: AskBody, call: CallOutcome)
    requires Prepared(body)
    ensures Ask(body, Unreachable, call) == Exchange(true, None, CannotConnect)
  {
  }

  /** Something is posted exactly when the probe succeeds, and it is the built prompt for the fixed model. */
  lemma WhatIsSent(body: AskBody, probe: Probe, call: CallOutcome)
    ensures Ask(body, probe, call).sent.Some? <==> Prepared(body) && probe == Reachable
    ensures Ask(body, probe, call).sent.Some? ==>
      Ask(body, probe, call).sent ==
        Some(Generation("deepseek-r1:14b",
                        Text(PromptBuilder.BuildPrompt(body.taskType, body.codeSnippet, body.instruction.s)),
                        false))
  {
  }

  /**
   * A 200 is given exactly when the call answered with a truthy body whose
   * `response` is a non-empty string; the client then gets that string
   * cleaned, which is never empty.
   */
  lemma SuccessExactly(body: AskBody, probe: Probe, call: CallOutcome)
    ensures Ask(body, probe, call).reply.status == 200 <==>
      && Prepared(body) && probe == Reachable
      && call.Answered? && Truthy(call.data) && call.response.Text? && call.response.s != ""
    ensures Ask(body, probe, call).reply.status == 200 ==>
      Ask(body, probe, call).reply.body == Answer(Text(ResponseCleaner.CleanResponse(call.response.s)))
      && ResponseCleaner.CleanResponse(call.response.s) != ""
  {
    var x := Ask(body, probe, call);
    if x.reply.status == 200 {
      SuccessShape(body, probe, call);
    }
    if Prepared(body) && probe == Reachable {
      HandleCallStatus(call);
    }
  }

  lemma SuccessShape(body: AskBody, probe: Probe, call: CallOutcome)
    requires Ask(body, probe, call).reply.status == 200
    ensures Prepared(body) && probe == Reachable
    ensures Ask(body, probe, call).reply == HandleCall(call)
  {
    if !Truthy(body.instruction) || !body.instruction.Text? || probe == Unreachable {
      ServerCatchExplains(TypeError(InstructionNotString));
    }
    ServerCatchExplains(TypeError(NotPrimitive));
  }

  /** The generation call's outcome gives a 200 exactly when it carries a usable answer. */
  lemma HandleCallStatus(call: CallOutcome)
    ensures HandleCall(call).status == 200 <==>
      call.Answered? && Truthy(call.data) && call.response.Text? && call.response.s != ""
    ensures HandleCall(call).status == 200 ==>
      HandleCall(call).body == Answer(Text(ResponseCleaner.CleanResponse(call.response.s)))
  {
    match call
    case Threw(e) =>
      ServerCatchExplains(e);
    case Answered(data, response) =>
      if Truthy(data) && Truthy(response) && !response.Text? {
        ServerCatchExplains(TypeError(ResponseNotString));
      }
  }

  /** Every reply has one of six statuses, and only a 200 carries an answer. */
  lemma ReplyStatuses(body: AskBody, probe: Probe, call: CallOutcome)
    ensures Ask(body, probe, call).reply.status in {200, 400, 404, 500, 503, 504}
    ensures Ask(body, probe, call).reply.body.Answer? <==> Ask(body, probe, call).reply.status == 200
  {
    ServerCatchExplains(TypeError(InstructionNotString));
    ServerCatchExplains(TypeError(ResponseNotString));
    ServerCatchExplains(TypeError(NotPrimitive));
    match call
    case Threw(e) => ServerCatchExplains(e);
    case Answered(_, _) =>
  }

  /** An answer with a falsy body or without a truthy `response` is a 500 with no details. */
  lemma EmptyAnswerIs500(body: AskBody, data: Field, response: Field)
    requires Prepared(body)
    requires !Truthy(data) || !Truthy(response)
    ensures Ask(body, Reachable, Answered(data, response)).reply == Reply(500, Failure("No response from LLM API", Missing))
  {
  }

  /** A refused generation call and a failed probe give the client the same reply. */
  lemma RefusalLooksUnreachable(body: AskBody, call: CallOutcome, e: ErrorInfo)
    requires e.code == Some("ECONNREFUSED")
    ensures Ask(body, Reachable, Threw(e)).reply == Ask(body, Unreachable, call).reply
  {
  }

  // ---------------------------------------------------------------------
  // The start-up model check
  // ---------------------------------------------------------------------

  /** `name.split(':')[0]`: the text before the first colon, or all of it. */
  function BeforeColon(name: string): (r: string)
    ensures r <= name && ':' !in r
    ensures |r| < |name| ==> name[|r|] == ':'
  {
    if name == [] || name[0] == ':' then []
    else [name[0]] + BeforeColon(name[1..])
  }

  /** A name with a tag, `base:tag`, splits to its base. */
  lemma {:induction false} BeforeColonOfTagged(base: string, tag: string)
    requires ':' !in base
    ensures BeforeColon(base + ":" + tag) == base
  {
    if base == [] {
      assert base + ":" + tag == [':'] + tag;
    } else {
      assert (base + ":" + tag)[1..] == base[1..] + ":" + tag;
      BeforeColonOfTagged(base[1..], tag);
    }
  }

  /** How `models.some(...)` ends: it found the model, ran out of entries, or threw. */
  datatype Lookup = Present | Absent | Fault

  /** One entry's test: `m.name === model || m.name.split(':')[0] === model`. */
  predicate NameMatches(name: Field, model: string) {
    name.Text? && (name.s == model || BeforeColon(name.s) == model)
  }

  /**
   * `models.some(...)` over the entries' `name` properties, in order.  Since
   * `model` is a string, `===` fails for a name that is not one, and the
   * `split` call on it then throws.
   */
  function FindModel(names: seq<Field>, model: string): (r: Lookup)
  {
    if names == [] then Absent
    else if NameMatches(names[0], model) then Present
    else if !names[0].Text? then Fault
    else FindModel(names[1..], model)
  }

  /** Every entry before index `i` has a string name. */
  predicate NamesBefore(names: seq<Field>, i: nat)
    requires i <= |names|
  {
    forall j :: 0 <= j < i ==> names[j].Text?
  }

  /** Every entry before index `i` has a string name that does not match. */
  predicate MissesBefore(names: seq<Field>, model: string, i: nat)
    requires i <= |names|
  {
    forall j :: 0 <= j < i ==> names[j].Text? && !NameMatches(names[j], model)
  }

  /**
   * The scan stops at the first entry that matches or is not a string: it
   * reports the model present exactly when a matching entry comes before
   * any non-string, and throws exactly when a non-string comes before any
   * match.
   */
  lemma FindModelSpec(names: seq<Field>, model: string)
    ensures FindModel(names, model) == Present <==>
      exists i :: 0 <= i < |names| && NameMatches(names[i], model) && NamesBefore(names, i)
    ensures FindModel(names, model) == Fault <==>
      exists i :: 0 <= i < |names| && !names[i].Text? && MissesBefore(names, model, i)
  {
    if FindModel(names, model) == Present {
      var i := PresentWitness(names, model);
    }
    forall i | 0 <= i < |names| && NameMatches(names[i], model) && NamesBefore(names, i)
      ensures FindModel(names, model) == Present
    {
      PresentAt(names, model, i);
    }
    if FindModel(names, model) == Fault {
      var i := FaultWitness(names, model);
    }
    forall i | 0 <= i < |names| && !names[i].Text? && MissesBefore(names, model, i)
      ensures FindModel(names, model) == Fault
    {
      FaultAt(names, model, i);
    }
  }

  lemma {:induction false} PresentWitness(names: seq<Field>, model: string) returns (i: nat)
    requires FindModel(names, model) == Present
    ensures i < |names| && NameMatches(names[i], model) && NamesBefore(names, i)
  {
    if NameMatches(names[0], model) {
      i := 0;
    } else {
      var k := PresentWitness(names[1..], model);
      i := k + 1;
      forall j | 0 <= j < i ensures names[j].Text? {
        if j > 0 {
          assert names[j] == names[1..][j - 1];
        }
      }
    }
  }

  lemma {:induction false} PresentAt(names: seq<Field>, model: string, i: nat)
    requires i < |names| && NameMatches(names[i], model) && NamesBefore(names, i)
    ensures FindModel(names, model) == Present
  {
    if i > 0 && !NameMatches(names[0], model) {
      forall j | 0 <= j < i - 1 ensures names[1..][j].Text? {
        assert names[1..][j] == names[j + 1];
      }
      PresentAt(names[1..], model, i - 1);
    }
  }

  lemma {:induction false} FaultWitness(names: seq<Field>, model: string) returns (i: nat)
    requires FindModel(names, model) == Fault
    ensures i < |names| && !names[i].Text? && MissesBefore(names, model, i)
  {
    if !names[0].Text? {
      i := 0;
    } else {
      var k := FaultWitness(names[1..], model);
      i := k + 1;
      forall j | 0 <= j < i ensures names[j].Text? && !NameMatches(names[j], model) {
        if j > 0 {
          assert names[j] == names[1..][j - 1];
        }
      }
    }
  }

  lemma {:induction false} FaultAt(names: seq<Field>, model: string, i: nat)
    requires i < |names| && !names[i].Text? && MissesBefore(names, model, i)
    ensures FindModel(names, model) == Fault
  {
    if i > 0 {
      forall j | 0 <= j < i - 1 ensures names[1..][j].Text? && !NameMatches(names[1..][j], model) {
        assert names[1..][j] == names[j + 1];
      }
      FaultAt(names[1..], model, i - 1);
    }
  }

  /**
   * `checkModelAvailability(model)`.  `tags` is the list of entry names the
   * tags endpoint returned (empty when `models` is absent), or `None` when
   * the request failed; a failure and a throwing scan both mean "not
   * available".
   */
  function ModelAvailable(tags: Option<seq<Field>>, model: string): bool
  {
    tags.Some? && FindModel(tags.value, model) == Present
  }

  /**
   * An entry named `model` itself, or `model:tag` for an untagged `model`,
   * makes it available, provided no entry before it lacks a string name.
   */
  lemma AvailableByNameOrBase(names: seq<Field>, model: string, tag: string, i: nat)
    requires i < |names| && NamesBefore(names, i)
    requires names[i] == Text(model) || (':' !in model && names[i] == Text(model + ":" + tag))
    ensures ModelAvailable(Some(names), model)
  {
    if names[i] != Text(model) {
      BeforeColonOfTagged(model, tag);
    }
    assert NameMatches(names[i], model);
    FindModelSpec(names, model);
  }

  /** A tagged model name (`deepseek-r1:14b`) is matched only by an entry with exactly that name. */
  lemma TaggedNeedsExactName(name: Field, model: string)
    requires ':' in model
    ensures NameMatches(name, model) <==> name == Text(model)
  {
  }
}
