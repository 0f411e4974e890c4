/** The editing screen's state machine (App.tsx): one `ImageState` record, updated by the
    file reader's completion, the instruction field, the submit button, and the retry and
    reset buttons. Each update is a record copy that changes some fields and keeps the rest. */
module App {
  import opened Wrappers
  import opened Types
  import opened GeminiService

  /** The state the screen starts in: no images, empty instruction, idle, no error. */
  function Initial(): (s: ImageState)
    ensures s.original.None? && s.edited.None? && s.prompt == [] && !s.isProcessing && s.error.None?
  {
    ImageState(None, None, "", false, None)
  }

  /** JavaScript truthiness of a `string | null`: neither null nor empty. */
  predicate Truthy(x: Option<string>) {
    x.Some? && x.value != []
  }

  /** The condition `handleEdit` checks before doing anything. */
  predicate HasOriginal(s: ImageState) {
    Truthy(s.original)
  }

  /** The submit button is disabled when there is no image or a request is in flight. */
  predicate SubmitEnabled(s: ImageState) {
    !(!HasOriginal(s) || s.isProcessing)
  }

  // ---------------------------------------------------------------------------
  // The record updates
  // ---------------------------------------------------------------------------

  /** The file reader finished: what it produced replaces the old image (a read that failed or
      was aborted produced nothing, so the image becomes null), the previous result and error
      are cleared; instruction and processing flag are kept. */
  function FileLoaded(s: ImageState, result: Option<string>): (r: ImageState)
    ensures r.original == result && r.edited.None? && r.error.None?
    ensures r.prompt == s.prompt && r.isProcessing == s.isProcessing
  {
    s.(original := result, edited := None, error := None)
  }

  /** The instruction field changed: the text is stored verbatim, nothing else changes. */
  function PromptTyped(s: ImageState, text: string): (r: ImageState)
    ensures r.prompt == text
    ensures r.original == s.original && r.edited == s.edited
    ensures r.isProcessing == s.isProcessing && r.error == s.error
  {
    s.(prompt := text)
  }

  /** A request is about to be sent: processing, error cleared, all else kept. */
  function EditStarted(s: ImageState): (r: ImageState)
    ensures r.isProcessing && r.error.None?
    ensures r.original == s.original && r.edited == s.edited && r.prompt == s.prompt
  {
    s.(isProcessing := true, error := None)
  }

  /** The request returned an image: it becomes the edited image and processing ends. */
  function EditSucceeded(s: ImageState, uri: string): (r: ImageState)
    ensures r.edited == Some(uri) && !r.isProcessing
    ensures r.original == s.original && r.prompt == s.prompt && r.error == s.error
  {
    s.(edited := Some(uri), isProcessing := false)
  }

  /** The request threw: its message becomes the error and processing ends. */
  function EditFailed(s: ImageState, message: string): (r: ImageState)
    ensures r.error == Some(message) && !r.isProcessing
    ensures r.original == s.original && r.edited == s.edited && r.prompt == s.prompt
  {
    s.(error := Some(message), isProcessing := false)
  }

  /** The request settled with `outcome`. */
  function EditSettled(s: ImageState, outcome: Result<string>): ImageState {
    match outcome
    case Success(uri) => EditSucceeded(s, uri)
    case Failure(message) => EditFailed(s, message)
  }

  /** "Edit the spell": only the edited image is dropped, to try again with the same image
      and instruction. */
  function Retry(s: ImageState): (r: ImageState)
    ensures r.edited.None?
    ensures r.original == s.original && r.prompt == s.prompt
    ensures r.isProcessing == s.isProcessing && r.error == s.error
  {
    s.(edited := None)
  }

  /** "New summoning": every field back to its initial value. */
  function Reset(s: ImageState): (r: ImageState)
    ensures r == Initial()
  {
    ImageState(None, None, "", false, None)
  }

  // ---------------------------------------------------------------------------
  // Events and traces
  // ---------------------------------------------------------------------------

  /** What the user (and the browser) can do. A submission carries the configured API key and
      the service that answers the request. */
  datatype Event =
    | FileRead(result: Option<string>)
    | PromptChanged(text: string)
    | Submitted(apiKey: Option<string>, service: Request -> Reply)
    | RetryClicked
    | ResetClicked

  /** `handleEdit` as a whole: nothing without an image, otherwise start, call, settle. */
  function Submit(s: ImageState, apiKey: Option<string>, service: Request -> Reply): ImageState {
    if !HasOriginal(s) then s
    else
      var started := EditStarted(s);
      EditSettled(started, EditOutcome(apiKey, s.original.value, s.prompt, service))
  }

  function Step(s: ImageState, e: Event): ImageState {
    match e
    case FileRead(result) => FileLoaded(s, result)
    case PromptChanged(text) => PromptTyped(s, text)
    case Submitted(apiKey, service) => Submit(s, apiKey, service)
    case RetryClicked => Retry(s)
    case ResetClicked => Reset(s)
  }

  /** The state after the events happen in order. */
  function Run(s: ImageState, events: seq<Event>): ImageState
    decreases |events|
  {
    if events == [] then s else Run(Step(s, events[0]), events[1..])
  }

  /** What holds between events: no request in flight, an edited image only beside a
      usable original and always a PNG data URI, and an error always says something. */
  predicate Consistent(s: ImageState) {
    && !s.isProcessing
    && (s.edited.Some? ==> HasOriginal(s) && PngDataUriPrefix <= s.edited.value)
    && (s.error.Some? ==> s.error.value != [])
  }

  // ---------------------------------------------------------------------------
  // Properties
  // ---------------------------------------------------------------------------

  /** Reset restores the initial state whatever came before, and the initial state is not
      ready to submit. */
  lemma {:induction false} ResetIsInitial(s: ImageState)
    ensures Step(s, ResetClicked) == Initial()
    ensures Consistent(Initial()) && !SubmitEnabled(Initial())
  {
  }

  /** Submitting without a usable image changes nothing, and the service is never asked. */
  lemma {:induction false} SubmitWithoutImageIsNoOp(s: ImageState, apiKey: Option<string>, service: Request -> Reply)
    requires !HasOriginal(s)
    ensures Step(s, Submitted(apiKey, service)) == s
  {
  }

  /** A successful submission shows the returned image, keeps image and instruction, and
      clears the error; a failed one keeps the previous edited image and stores the message. */
  lemma {:induction false} SubmitOutcome(s: ImageState, apiKey: Option<string>, service: Request -> Reply)
    requires HasOriginal(s)
    ensures var r := Step(s, Submitted(apiKey, service));
      var outcome := EditOutcome(apiKey, s.original.value, s.prompt, service);
      && r.original == s.original && r.prompt == s.prompt && !r.isProcessing
      && (outcome.Success? ==> r.edited == Some(outcome.value) && r.error.None?)
      && (outcome.Failure? ==> r.edited == s.edited && r.error == Some(outcome.message))
  {
  }

  /** Without an API key a submission ends with the missing-key error and no edited image
      appears. */
  lemma {:induction false} SubmitWithoutKey(s: ImageState, apiKey: Option<string>, service: Request -> Reply)
    requires HasOriginal(s) && !KeyPresent(apiKey)
    ensures Step(s, Submitted(apiKey, service)).error == Some(MissingKeyMessage)
    ensures Step(s, Submitted(apiKey, service)).edited == s.edited
  {
  }

  /** Between events no request is in flight, so the button is enabled exactly when there
      is a usable image, and a disabled button there means a submission would change nothing;
      while a request is in flight the button is disabled. */
  lemma {:induction false} SubmitGuard(s: ImageState)
    ensures !s.isProcessing ==> (SubmitEnabled(s) <==> HasOriginal(s))
    ensures !SubmitEnabled(EditStarted(s))
    ensures !SubmitEnabled(s) && !s.isProcessing ==>
      forall apiKey, service :: Step(s, Submitted(apiKey, service)) == s
  {
  }

  /** Retry after a success brings back the screen as it was before the submission, ready to
      send the same image and instruction again. */
  lemma {:induction false} RetryResubmits(s: ImageState, apiKey: Option<string>, service: Request -> Reply)
    requires Consistent(s) && HasOriginal(s) && s.edited.None? && s.error.None?
    requires EditOutcome(apiKey, s.original.value, s.prompt, service).Success?
    ensures Step(Step(s, Submitted(apiKey, service)), RetryClicked) == s
  {
  }

  /** Every event keeps the state consistent. */
  lemma {:induction false} StepKeepsConsistent(s: ImageState, e: Event)
    requires Consistent(s)
    ensures Consistent(Step(s, e))
  {
    if e.Submitted? && HasOriginal(s) {
      OutcomeShape(e.apiKey, s.original.value, s.prompt, e.service);
    }
  }

  /** Any sequence of events keeps the state consistent. */
  lemma {:induction false} RunKeepsConsistent(s: ImageState, events: seq<Event>)
    requires Consistent(s)
    ensures Consistent(Run(s, events))
    decreases |events|
  {
    if events != [] {
      StepKeepsConsistent(s, events[0]);
      RunKeepsConsistent(Step(s, events[0]), events[1..]);
    }
  }

  /** Every state the screen can reach from the start is consistent. */
  lemma {:induction false} ReachableIsConsistent(events: seq<Event>)
    ensures Consistent(Run(Initial(), events))
  {
    ResetIsInitial(Initial());
    RunKeepsConsistent(Initial(), events);
  }

  // ---------------------------------------------------------------------------
  // The component's state cell
  // ---------------------------------------------------------------------------

  /** The component with its one mutable state cell; each handler replaces the record. */
  class Session {
    var state: ImageState

    constructor ()
      ensures state == Initial()
    {
      state := ImageState(None, None, "", false, None);
    }

    /** The file reader's completion handler, with the data URI the reader produced, or None
        when the read failed or was aborted. */
    method LoadFile(result: Option<string>)
      modifies this
      ensures state == FileLoaded(old(state), result)
    {
      state := state.(original := result, edited := None, error := None);
    }

    /** The instruction field's change handler. */
    method TypePrompt(text: string)
      modifies this
      ensures state == PromptTyped(old(state), text)
    {
      state := state.(prompt := text);
    }

    /** The first half of `handleEdit`: return when there is no image, otherwise mark the
        request as in flight, which disables the submit button. */
    method BeginEdit() returns (proceed: bool)
      modifies this
      ensures proceed == HasOriginal(old(state))
      ensures state == if proceed then EditStarted(old(state)) else old(state)
      ensures proceed ==> !SubmitEnabled(state)
    {
      if state.original.None? || state.original.value == "" {
        return false;
      }
      state := state.(isProcessing := true, error := None);
      return true;
    }

    /** The second half of `handleEdit`: store the image or the message and end processing. */
    method CompleteEdit(outcome: Result<string>)
      modifies this
      ensures state == EditSettled(old(state), outcome)
    {
      match outcome
      case Success(uri) =>
        state := state.(edited := Some(uri), isProcessing := false);
      case Failure(message) =>
        state := state.(error := Some(message), isProcessing := false);
    }

    /** `handleEdit`: returns the request the service received, None when it was not asked. */
    method HandleEdit(apiKey: Option<string>, service: Request -> Reply) returns (sent: Option<Request>)
      modifies this
      ensures state == Submit(old(state), apiKey, service)
      ensures sent == if HasOriginal(old(state)) && KeyPresent(apiKey)
        then Some(BuildRequest(old(state).original.value, old(state).prompt)) else None
    {
      var image := state.original;
      var prompt := state.prompt;
      var proceed := BeginEdit();
      if !proceed {
        return None;
      }
      var outcome;
      sent, outcome := EditImage(apiKey, image.value, prompt, service);
      CompleteEdit(outcome);
    }

    /** The retry button. */
    method RetryEdit()
      modifies this
      ensures state == Retry(old(state))
    {
      state := state.(edited := None);
    }

    /** The reset button. */
    method ResetAll()
      modifies this
      ensures state == Initial()
    {
      state := ImageState(None, None, "", false, None);
    }
  }
}
