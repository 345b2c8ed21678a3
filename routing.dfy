/**
 * `chat_or_complete`: one request to the local LLM server, routed to the
 * `/v1/chat/completions` endpoint, to the `/v1/completions` endpoint, or to
 * the first and then the second ("auto"), with the error reporting of each
 * path.
 *
 * The two HTTP calls are parameters: `chat(system, user)` and
 * `complete(prompt)` give the outcome of a call, either the text of the first
 * choice or the exception it raises. An exception is an HTTP error (a
 * `requests.exceptions.HTTPError`) or any other error, with its text.
 */
module Routing {
  import opened Text

  datatype Fault = HttpError(message: string) | OtherError(message: string)

  /** What one endpoint call gives: a text (possibly empty) or an exception. */
  datatype Outcome = Ok(text: string) | Fails(fault: Fault)

  /** An exception leaving `chat_or_complete`: a new `ValueError`, or an
      endpoint's own exception raised again. */
  datatype CallError = ValueError(message: string) | Raised(fault: Fault)

  datatype Reply = Answer(text: string) | Error(err: CallError)

  /** The `api_mode_key` the settings offer. */
  datatype ApiMode = Auto | Chat | Completions

  /** A request as sent: to the chat endpoint with both prompts, or to the
      completions endpoint with a single merged prompt. */
  datatype Request = ChatRequest(system: string, user: string) | CompletionRequest(prompt: string)

  /** The single prompt sent to `/v1/completions`. */
  function MergedPrompt(system: string, user: string): string
  {
    "### System:\n" + system + "\n\n### User:\n" + user + "\n\n### Assistant:\n"
  }

  /** `f"{last_error}"`, where no error prints as "None". */
  function FaultText(last: Option<Fault>): string
  {
    match last
    case None => "None"
    case Some(f) => f.message
  }

  /** The `ValueError` of a chat HTTP error in "chat" mode. */
  function ChatFailedMessage(e: string): string
  {
    "Erreur API chat/completions: " + e + "."
  }

  /** The `ValueError` of a completions HTTP error: it names both endpoints. */
  function BothFailedMessage(last: Option<Fault>, e: string): string
  {
    "\U{00C9}chec des deux endpoints API.\n- /v1/chat/completions: " + FaultText(last)
      + "\n- /v1/completions: " + e + "\n\nV\U{00E9}rifiez LM Studio et le Context Length."
  }

  /** The `ValueError` of another completions error after a chat error. */
  function AggregatedMessage(last: Fault, e: string): string
  {
    "\U{00C9}chec chat (" + last.message + ") et completions (" + e + ")"
  }

  // ---------------------------------------------------------------------------
  // The routing as a decision table
  // ---------------------------------------------------------------------------

  /** What the completions step gives, once the chat step (if any) left
      `last` as its error. */
  function AfterCompletions(last: Option<Fault>, x: Outcome): Reply
  {
    match x
    case Ok(t) =>
      if t != "" then Answer(t)
      else if last.Some? then Error(Raised(last.value))
      else Answer("")
    case Fails(HttpError(e)) => Error(ValueError(BothFailedMessage(last, e)))
    case Fails(f) =>
      if last.Some? then Error(ValueError(AggregatedMessage(last.value, f.message)))
      else Error(Raised(f))
  }

  /** The reply of `chat_or_complete` for each mode, given the chat outcome `c`
      and the completions outcome `x`. */
  function Routed(mode: ApiMode, c: Outcome, x: Outcome): Reply
  {
    match mode
    case Chat =>
      (match c
       case Ok(t) => Answer(t)
       case Fails(HttpError(e)) => Error(ValueError(ChatFailedMessage(e)))
       case Fails(f) => Error(Raised(f)))
    case Completions => AfterCompletions(None, x)
    case Auto =>
      if c.Ok? && c.text != "" then Answer(c.text)
      else AfterCompletions(if c.Fails? then Some(c.fault) else None, x)
  }

  // ---------------------------------------------------------------------------
  // chat_or_complete
  // ---------------------------------------------------------------------------

  /** `chat_or_complete`: tries the endpoints the mode allows, in order, keeping
      the chat error in `last_error` for the completions step. `requests` lists
      the calls made. */
  method ChatOrComplete(system: string, user: string, mode: ApiMode,
                        chat: (string, string) -> Outcome, complete: string -> Outcome)
    returns (reply: Reply, requests: seq<Request>)
    ensures reply == Routed(mode, chat(system, user), complete(MergedPrompt(system, user)))
    ensures mode == Chat ==> requests == [ChatRequest(system, user)]
    ensures mode == Completions ==> requests == [CompletionRequest(MergedPrompt(system, user))]
    ensures mode == Auto ==>
      requests == [ChatRequest(system, user)]
                  + (if chat(system, user).Ok? && chat(system, user).text != "" then []
                     else [CompletionRequest(MergedPrompt(system, user))])
  {
    var lastError: Option<Fault> := None;
    requests := [];
    if mode == Auto || mode == Chat {
      requests := requests + [ChatRequest(system, user)];
      var c := chat(system, user);
      match c {
        case Ok(result) =>
          if result != "" {
            return Answer(result), requests;
          }
        case Fails(f) =>
          lastError := Some(f);
          if mode == Chat {
            if f.HttpError? {
              return Error(ValueError(ChatFailedMessage(f.message))), requests;
            }
            return Error(Raised(f)), requests;
          }
      }
    }
    if mode == Auto || mode == Completions {
      var merged := MergedPrompt(system, user);
      requests := requests + [CompletionRequest(merged)];
      var x := complete(merged);
      match x {
        case Ok(result) =>
          if result != "" {
            return Answer(result), requests;
          }
        case Fails(f) =>
          if f.HttpError? {
            return Error(ValueError(BothFailedMessage(lastError, f.message))), requests;
          }
          if lastError.Some? {
            return Error(ValueError(AggregatedMessage(lastError.value, f.message))), requests;
          }
          return Error(Raised(f)), requests;
      }
    }
    if lastError.Some? {
      return Error(Raised(lastError.value)), requests;
    }
    return Answer(""), requests;
  }

  // ---------------------------------------------------------------------------
  // Properties of the routing
  // ---------------------------------------------------------------------------

  /** A non-empty answer is the text of an endpoint the mode allows: the chat
      endpoint outside "completions" mode, the completions endpoint outside
      "chat" mode. */
  lemma AnswerComesFromAllowedEndpoint(mode: ApiMode, c: Outcome, x: Outcome)
    requires Routed(mode, c, x).Answer? && Routed(mode, c, x).text != ""
    ensures var t := Routed(mode, c, x).text;
      (mode != Completions && c == Ok(t)) || (mode != Chat && x == Ok(t))
  {
  }

  /** In "auto" mode a non-empty chat text wins, whatever completions would
      have given. */
  lemma AutoPrefersChat(c: Outcome, x: Outcome)
    requires c.Ok? && c.text != ""
    ensures Routed(Auto, c, x) == Answer(c.text)
  {
  }

  /** The empty answer comes only from endpoints that all answered with an
      empty text: no error is ever turned into "". */
  lemma EmptyAnswerOnlyFromEmptyTexts(mode: ApiMode, c: Outcome, x: Outcome)
    ensures Routed(mode, c, x) == Answer("") <==>
      (mode != Completions ==> c == Ok("")) && (mode != Chat ==> x == Ok(""))
  {
  }

  /** Whenever every endpoint the mode tries fails, the call fails. */
  lemma FailuresAreNeverSwallowed(mode: ApiMode, c: Outcome, x: Outcome)
    requires mode != Completions ==> c.Fails?
    requires mode != Chat ==> x.Fails?
    ensures Routed(mode, c, x).Error?
  {
  }

  /** The error that surfaces, by mode and cause: a chat HTTP error in "chat"
      mode and any completions HTTP error become `ValueError`s; another
      completions error after a chat error becomes the aggregated
      `ValueError`; a lone non-HTTP error is raised again as it was. */
  lemma ErrorKinds(mode: ApiMode, c: Outcome, x: Outcome)
    ensures mode == Chat && c.Fails? && c.fault.HttpError? ==>
      Routed(mode, c, x) == Error(ValueError(ChatFailedMessage(c.fault.message)))
    ensures mode == Chat && c.Fails? && c.fault.OtherError? ==>
      Routed(mode, c, x) == Error(Raised(c.fault))
    ensures mode != Chat && !(mode == Auto && c.Ok? && c.text != "") && x.Fails? && x.fault.HttpError? ==>
      Routed(mode, c, x).Error? && Routed(mode, c, x).err.ValueError?
    ensures mode == Auto && c.Fails? && x.Fails? && x.fault.OtherError? ==>
      Routed(mode, c, x) == Error(ValueError(AggregatedMessage(c.fault, x.fault.message)))
    ensures mode == Completions && x.Fails? && x.fault.OtherError? ==>
      Routed(mode, c, x) == Error(Raised(x.fault))
  {
  }

  /** In "auto" mode an error of the chat endpoint is forgiven when the
      completions endpoint answers, and raised again when it answers with
      nothing. */
  lemma AutoFallsBack(c: Outcome, x: Outcome)
    requires c.Fails? && x.Ok?
    ensures x.text != "" ==> Routed(Auto, c, x) == Answer(x.text)
    ensures x.text == "" ==> Routed(Auto, c, x) == Error(Raised(c.fault))
  {
  }
}
