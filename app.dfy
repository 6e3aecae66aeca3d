/**
  The application session: the task list, the combined prompt, the
  generated code, the active view, the busy flags and the log, changed by
  the handlers of the file upload, prompt edit, approval toggle, generate
  and execute actions. Log entries keep the message and the kind; their
  timestamps are left out.
 */
module App {
  import Wrappers
  import opened Text
  import opened Tasks
  import GeminiService

  datatype LogType = Info | Success | Error | System

  datatype LogEntry = LogEntry(message: string, kind: LogType)

  datatype ViewType = Spec | Prompt | Code | Driver | Output | Converted

  datatype FileItem = FileItem(name: string, view: ViewType, available: bool)

  const InvalidFileMessage: string := "Invalid file type. Please upload a .xlsx file."
  const NoApprovedMessage: string := "Please approve at least one derivation task before generating code."
  const PromptSentMessage: string := "Combined prompt created for approved tasks. Sending to Gemini."
  const GeneratedMessage: string := "R code generated successfully."
  const NoCodeMessage: string := "No code to execute. Please generate code first."
  const SimulatingMessage: string := "Simulating R code execution..."

  function ProcessedMessage(fileName: string): string {
    "Specification file processed: " + fileName
  }

  function CreatedMessage(count: nat): string {
    NatToString(count) + " derivation tasks created from spec. Review and approve them to proceed."
  }

  function ToggleMessage(task: DerivationTask): string {
    "Task for '" + task.variable + "' " + (if task.isApproved then "approved" else "unapproved") + "."
  }

  /** `error instanceof Error ? error.message : String(error)`. */
  function ErrorText(thrown: GeminiService.Thrown): (r: string)
    ensures thrown.ErrorObject? ==> r == thrown.message
    ensures thrown.OtherValue? ==> r == thrown.rendered
  {
    match thrown
    case ErrorObject(message) => message
    case OtherValue(rendered) => rendered
  }

  function FailedMessage(thrown: GeminiService.Thrown): string {
    "Code generation failed: " + ErrorText(thrown)
  }

  /**
    The failure entry `handleGenerate` logs for each way `generateRCode`
    fails: the missing key, an `Error` from the provider, or any other value.
   */
  lemma FailureLogText(apiKey: Wrappers.Option<string>, reply: GeminiService.ProviderReply)
    requires GeminiService.GenerateRCode(apiKey, reply).Failure?
    ensures !GeminiService.KeyConfigured(apiKey) ==>
      FailedMessage(GeminiService.GenerateRCode(apiKey, reply).error)
        == "Code generation failed: " + GeminiService.MissingKeyMessage
    ensures GeminiService.KeyConfigured(apiKey) && reply.Threw? && reply.thrown.ErrorObject? ==>
      FailedMessage(GeminiService.GenerateRCode(apiKey, reply).error)
        == "Code generation failed: " + GeminiService.ApiErrorPrefix + reply.thrown.message
    ensures GeminiService.KeyConfigured(apiKey) && reply.Threw? && reply.thrown.OtherValue? ==>
      FailedMessage(GeminiService.GenerateRCode(apiKey, reply).error)
        == "Code generation failed: " + GeminiService.UnknownErrorMessage
    ensures GeminiService.KeyConfigured(apiKey) ==> reply.Threw?
  {
    if GeminiService.KeyConfigured(apiKey) && reply.Threw? && reply.thrown.ErrorObject? {
      assert "Code generation failed: " + (GeminiService.ApiErrorPrefix + reply.thrown.message)
        == "Code generation failed: " + GeminiService.ApiErrorPrefix + reply.thrown.message;
    }
  }

  class Session {
    var logs: seq<LogEntry>
    var tasks: seq<DerivationTask>
    var aiPrompt: string
    var generatedCode: string
    var activeView: ViewType
    var isLoading: bool
    var isExecuting: bool
    /** The template of `createFinalPrompt`, fixed when the session starts. */
    const template: PromptTemplate

    /** The stored prompt is either empty or the template around a non-empty list. */
    ghost predicate Valid()
      reads this
    {
      aiPrompt == "" || IsCombinedPrompt(template, aiPrompt)
    }

    constructor ()
      ensures Valid()
      ensures template == FinalTemplate
      ensures logs == [] && tasks == [] && aiPrompt == "" && generatedCode == ""
      ensures activeView == Spec && !isLoading && !isExecuting
    {
      logs, tasks, aiPrompt, generatedCode := [], [], "", "";
      activeView, isLoading, isExecuting := Spec, false, false;
      template := FinalTemplate;
    }

    /** The three file entries and whether each can be opened. */
    function Files(): (r: seq<FileItem>)
      reads this
      ensures |r| == 3
      ensures r[0].name == "spec_tasks.md" && r[0].view == Spec && (r[0].available <==> tasks != [])
      ensures r[1].name == "final_prompt.txt" && r[1].view == Prompt && (r[1].available <==> aiPrompt != "")
      ensures r[2].name == "generate_code.R" && r[2].view == Code && (r[2].available <==> generatedCode != "")
      ensures Valid() && r[1].available ==> IsCombinedPrompt(template, aiPrompt)
    {
      [ FileItem("spec_tasks.md", Spec, |tasks| > 0),
        FileItem("final_prompt.txt", Prompt, aiPrompt != ""),
        FileItem("generate_code.R", Code, generatedCode != "") ]
    }

    /** Generate is enabled exactly when generating would send a non-empty combined prompt. */
    function GenerateEnabled(): (r: bool)
      reads this
      ensures r <==> HasApproved(tasks)
      ensures r <==> CombinedPrompt(template, tasks) != ""
    {
      FinalPromptContents(template, tasks);
      |tasks| > 0 && exists i :: 0 <= i < |tasks| && tasks[i].isApproved
    }

    /** Execute is enabled exactly when there is code. */
    function ExecuteEnabled(): (r: bool)
      reads this
      ensures r <==> generatedCode != ""
    {
      generatedCode != ""
    }

    /** `handleFileChange`: only a `.xlsx` name replaces the tasks; anything else only logs an error. */
    method FileChange(file: Wrappers.Option<string>, rows: seq<SpecRow>)
      requires Valid()
      modifies this`logs, this`tasks, this`activeView, this`aiPrompt, this`generatedCode
      ensures Valid()
      ensures file.None? ==>
        logs == old(logs) && tasks == old(tasks) && aiPrompt == old(aiPrompt)
        && generatedCode == old(generatedCode) && activeView == old(activeView)
      ensures file.Some? && EndsWith(file.value, ".xlsx") ==>
        && tasks == IngestRows(rows)
        && activeView == Spec && aiPrompt == "" && generatedCode == ""
        && logs == old(logs) + [LogEntry(ProcessedMessage(file.value), Success),
                                LogEntry(CreatedMessage(|rows|), System)]
      ensures file.Some? && !EndsWith(file.value, ".xlsx") ==>
        && logs == old(logs) + [LogEntry(InvalidFileMessage, Error)]
        && tasks == old(tasks) && aiPrompt == old(aiPrompt)
        && generatedCode == old(generatedCode) && activeView == old(activeView)
    {
      if file.Some? {
        if EndsWith(file.value, ".xlsx") {
          LoadSpec(file.value, rows);
        } else {
          logs := logs + [LogEntry(InvalidFileMessage, Error)];
        }
      }
    }

    /** The accepted branch of `handleFileChange`: a fresh task list and a cleared prompt and code. */
    method LoadSpec(name: string, rows: seq<SpecRow>)
      modifies this`logs, this`tasks, this`activeView, this`aiPrompt, this`generatedCode
      ensures Valid()
      ensures tasks == IngestRows(rows)
      ensures activeView == Spec && aiPrompt == "" && generatedCode == ""
      ensures logs == old(logs) + [LogEntry(ProcessedMessage(name), Success),
                                   LogEntry(CreatedMessage(|rows|), System)]
    {
      logs := logs + [LogEntry(ProcessedMessage(name), Success)];
      var newTasks := IngestRows(rows);
      tasks := newTasks;
      activeView := Spec;
      aiPrompt := "";
      generatedCode := "";
      logs := logs + [LogEntry(CreatedMessage(|newTasks|), System)];
    }

    /** `handlePromptChange`: only the tasks change, keyed by id. */
    method PromptChange(id: int, newPrompt: string)
      requires Valid()
      modifies this`tasks
      ensures Valid()
      ensures tasks == UpdatePrompt(old(tasks), id, newPrompt)
    {
      tasks := UpdatePrompt(tasks, id, newPrompt);
    }

    /**
      `handleApproveToggle`: the matching tasks flip approval, and one log entry
      is added when the id exists, naming the first matching task's new state.
     */
    method ApproveToggle(id: int)
      requires Valid()
      modifies this`tasks, this`logs
      ensures Valid()
      ensures tasks == ToggleApproval(old(tasks), id)
      ensures FindById(tasks, id).None? ==> logs == old(logs)
      ensures FindById(tasks, id).Some? ==>
        logs == old(logs) + [LogEntry(ToggleMessage(FindById(tasks, id).value), Info)]
      ensures |logs| == |old(logs)| + 1 <==> exists i :: 0 <= i < |old(tasks)| && old(tasks)[i].id == id
      ensures FindById(tasks, id).Some? ==>
        FindById(tasks, id).value.isApproved == !FindById(old(tasks), id).value.isApproved
    {
      var newTasks := ToggleApproval(tasks, id);
      ToggleFindsFlipped(tasks, id);
      var changed := FindById(newTasks, id);
      if changed.Some? {
        logs := logs + [LogEntry(ToggleMessage(changed.value), Info)];
      }
      tasks := newTasks;
    }

    /**
      The part of `handleGenerate` before the backend call: with no approved
      task it only logs an error; otherwise it stores the combined prompt,
      shows it, marks the session busy and returns the prompt to send.
     */
    method GenerateStart() returns (sent: Wrappers.Option<string>)
      requires Valid()
      modifies this`aiPrompt, this`activeView, this`logs, this`isLoading
      ensures Valid()
      ensures !HasApproved(tasks) ==>
        && sent.None?
        && logs == old(logs) + [LogEntry(NoApprovedMessage, Error)]
        && aiPrompt == old(aiPrompt) && activeView == old(activeView) && isLoading == old(isLoading)
      ensures HasApproved(tasks) ==>
        && sent == Wrappers.Some(CombinedPrompt(template, tasks))
        && aiPrompt == CombinedPrompt(template, tasks) && aiPrompt != ""
        && activeView == Prompt && isLoading
        && logs == old(logs) + [LogEntry(PromptSentMessage, System)]
    {
      ApprovedEmptyIff(tasks);
      if |Approved(tasks)| == 0 {
        logs := logs + [LogEntry(NoApprovedMessage, Error)];
        sent := Wrappers.None;
        return;
      }
      var finalPrompt := CombinedPrompt(template, tasks);
      FinalPromptContents(template, tasks);
      FinalPromptShape(template, tasks);
      aiPrompt := finalPrompt;
      activeView := Prompt;
      logs := logs + [LogEntry(PromptSentMessage, System)];
      isLoading := true;
      sent := Wrappers.Some(finalPrompt);
    }

    /**
      The part of `handleGenerate` after the backend call settles: success
      stores the code and shows it, failure logs the message and returns to
      the prompt view with the old code kept; either way the session is no
      longer busy.
     */
    method GenerateFinish(outcome: Wrappers.Result<string, GeminiService.Thrown>)
      requires Valid()
      modifies this`generatedCode, this`activeView, this`logs, this`isLoading
      ensures Valid()
      ensures !isLoading
      ensures outcome.Success? ==>
        && generatedCode == outcome.value && activeView == Code
        && logs == old(logs) + [LogEntry(GeneratedMessage, Success)]
      ensures outcome.Failure? ==>
        && generatedCode == old(generatedCode) && activeView == Prompt
        && logs == old(logs) + [LogEntry(FailedMessage(outcome.error), Error)]
    {
      match outcome {
        case Success(code) =>
          generatedCode := code;
          logs := logs + [LogEntry(GeneratedMessage, Success)];
          activeView := Code;
        case Failure(thrown) =>
          logs := logs + [LogEntry(FailedMessage(thrown), Error)];
          activeView := Prompt;
      }
      isLoading := false;
    }

    /**
      `handleGenerate` as a whole, with the backend being `generateRCode` for
      the given key and provider reply.
     */
    method Generate(apiKey: Wrappers.Option<string>, reply: GeminiService.ProviderReply)
      requires Valid()
      modifies this`aiPrompt, this`generatedCode, this`activeView, this`logs, this`isLoading
      ensures Valid()
      ensures !old(HasApproved(tasks)) ==>
        && logs == old(logs) + [LogEntry(NoApprovedMessage, Error)]
        && aiPrompt == old(aiPrompt) && generatedCode == old(generatedCode)
        && activeView == old(activeView) && isLoading == old(isLoading)
      ensures old(HasApproved(tasks)) ==>
        && aiPrompt == CombinedPrompt(template, tasks)
        && !isLoading
        && (GeminiService.GenerateRCode(apiKey, reply).Success? ==>
              generatedCode == GeminiService.GenerateRCode(apiKey, reply).value
              && IsTrimmed(generatedCode) && activeView == Code)
        && (GeminiService.GenerateRCode(apiKey, reply).Failure? ==>
              generatedCode == old(generatedCode) && activeView == Prompt)
      ensures old(HasApproved(tasks)) ==>
        var r := GeminiService.GenerateRCode(apiKey, reply);
        logs == old(logs) + [LogEntry(PromptSentMessage, System),
                             if r.Success? then LogEntry(GeneratedMessage, Success)
                             else LogEntry(FailedMessage(r.error), Error)]
    {
      var sent := GenerateStart();
      if sent.Some? {
        var outcome := GeminiService.GenerateRCode(apiKey, reply);
        GenerateFinish(outcome);
      }
    }

    /** The guard of `handleExecute`: without code it only logs an error. */
    method Execute()
      requires Valid()
      modifies this`isExecuting, this`logs
      ensures Valid()
      ensures generatedCode == "" ==> logs == old(logs) + [LogEntry(NoCodeMessage, Error)] && isExecuting == old(isExecuting)
      ensures generatedCode != "" ==> logs == old(logs) + [LogEntry(SimulatingMessage, System)] && isExecuting
    {
      if generatedCode == "" {
        logs := logs + [LogEntry(NoCodeMessage, Error)];
        return;
      }
      isExecuting := true;
      logs := logs + [LogEntry(SimulatingMessage, System)];
    }

    /** The code editor's change handler replaces the code. */
    method EditGeneratedCode(code: string)
      requires Valid()
      modifies this`generatedCode
      ensures Valid()
      ensures generatedCode == code
    {
      generatedCode := code;
    }

    /** The file explorer's selection handler switches the view. */
    method SelectView(view: ViewType)
      requires Valid()
      modifies this`activeView
      ensures Valid()
      ensures activeView == view
    {
      activeView := view;
    }
  }

  /**
    After a toggle, the first task with the id is the first one before the
    toggle with its approval flipped; so the log names the new state.
   */
  lemma {:induction false} ToggleFindsFlipped(tasks: seq<DerivationTask>, id: int)
    ensures FindById(ToggleApproval(tasks, id), id).Some? <==> FindById(tasks, id).Some?
    ensures FindById(tasks, id).Some? ==>
      FindById(ToggleApproval(tasks, id), id).value
        == FindById(tasks, id).value.(isApproved := !FindById(tasks, id).value.isApproved)
    decreases |tasks|
  {
    if tasks != [] && tasks[0].id != id {
      ToggleFindsFlipped(tasks[1..], id);
      assert ToggleApproval(tasks, id)[1..] == ToggleApproval(tasks[1..], id);
    }
  }
}
