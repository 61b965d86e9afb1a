/** The submission controller of App.tsx: the page's state (the selected
    style, the input mode, the input text, the last output, the loading flag
    and the error banner) and `handleSubmit`. The rewrite service is an
    oracle. `handleSubmit` awaits it, so it is modelled as two steps: the
    click, which sends the request, and the arrival of the reply, with
    `Some(content)` for a result and `None` where `transformContent` throws.
    The state is kept as a value, `Page`, with one function per step; the
    `App` class below holds the same fields and its methods are proved to
    make exactly those transitions. */
module Submission {
  import opened JsText
  import opened Types

  /** The banner text shown when the rewrite fails. */
  const TransformFailedMessage := "We encountered an issue transforming your content. Please try again or check your input."

  /** The arguments of one `transformContent` call. */
  datatype Request = Request(input: string, mode: InputMode, promptModifier: string)

  /** The page's state, with the log of requests sent and the number of
      replies received. */
  datatype Page = Page(
    selectedStyle: PublicationStyle,
    mode: InputMode,
    inputText: string,
    output: Option<GeneratedContent>,
    isLoading: bool,
    error: Option<string>,
    requests: seq<Request>,
    replies: nat)

  /** A request is in flight exactly while the page is loading. */
  predicate Valid(p: Page) {
    |p.requests| == p.replies + (if p.isLoading then 1 else 0)
  }

  /** The initial `useState` values: the first style of the catalogue, text
      mode, no input, no output, not loading, no error. */
  function Initial(): (p: Page)
    ensures Valid(p) && p.selectedStyle == Publications[0] && p.selectedStyle.id == "economist"
    ensures p.mode == Text && p.inputText == "" && p.output.None? && !p.isLoading && p.error.None?
  {
    Page(Publications[0], Text, "", None, false, None, [], 0)
  }

  /** The click on submit: input that trims to nothing is ignored; otherwise
      the page starts loading, clears the error and sends the input, the
      mode and the selected style's prompt modifier. */
  function AfterSubmit(p: Page): (q: Page)
    ensures Trim(p.inputText) == "" ==> q == p
    ensures Trim(p.inputText) != "" ==>
      && q.isLoading && q.error.None?
      && |q.requests| == |p.requests| + 1 && q.requests[..|p.requests|] == p.requests
      && q.requests[|p.requests|] == Request(p.inputText, p.mode, p.selectedStyle.promptModifier)
    ensures q.(isLoading := p.isLoading, error := p.error, requests := p.requests) == p
  {
    if Trim(p.inputText) == "" then p
    else p.(isLoading := true, error := None,
      requests := p.requests + [Request(p.inputText, p.mode, p.selectedStyle.promptModifier)])
  }

  /** The reply: a result replaces the output; a failure sets the fixed
      message and keeps the previous output; loading ends either way. */
  function AfterReply(p: Page, result: Option<GeneratedContent>): (q: Page)
    ensures !q.isLoading && q.replies == p.replies + 1
    ensures result.Some? ==> q.output == result && q.error == p.error
    ensures result.None? ==> q.output == p.output && q.error == Some(TransformFailedMessage)
    ensures q.(output := p.output, error := p.error, isLoading := p.isLoading, replies := p.replies) == p
  {
    match result
    case Some(content) => p.(output := Some(content), isLoading := false, replies := p.replies + 1)
    case None => p.(error := Some(TransformFailedMessage), isLoading := false, replies := p.replies + 1)
  }

  /** Input that is empty or only whitespace changes nothing and sends
      nothing; any other input is sent, with the error cleared and loading
      set, before the reply. */
  lemma SubmitIgnoresBlankInput(p: Page)
    ensures Blank(p.inputText) ==> AfterSubmit(p) == p
    ensures !Blank(p.inputText) ==> var q := AfterSubmit(p);
      && q.isLoading && q.error.None? && q.output == p.output
      && q.requests == p.requests + [Request(p.inputText, p.mode, p.selectedStyle.promptModifier)]
  {
    TrimEmptyIffBlank(p.inputText);
  }

  /** A successful round: the result is shown and the banner stays clear. */
  lemma SubmitSucceeds(p: Page, content: GeneratedContent)
    requires !Blank(p.inputText)
    ensures var q := AfterReply(AfterSubmit(p), Some(content));
      q.output == Some(content) && q.error.None? && !q.isLoading
  {
    SubmitIgnoresBlankInput(p);
  }

  /** A failed round: the banner shows the message and the previous output
      stays on screen. */
  lemma SubmitFails(p: Page)
    requires !Blank(p.inputText)
    ensures var q := AfterReply(AfterSubmit(p), None);
      q.output == p.output && q.error == Some(TransformFailedMessage) && !q.isLoading
  {
    SubmitIgnoresBlankInput(p);
  }

  /** Submitting while idle and receiving the reply keep one request per
      reply; the submit button is disabled while loading, so a submit never
      starts a second request. */
  lemma SubmitKeepsValid(p: Page, result: Option<GeneratedContent>)
    requires Valid(p) && !p.isLoading
    ensures Valid(AfterSubmit(p))
    ensures AfterSubmit(p).isLoading ==> Valid(AfterReply(AfterSubmit(p), result))
  {
    SubmitIgnoresBlankInput(p);
  }

  /** The page as an object: each `useState` pair a field. */
  class App {
    var selectedStyle: PublicationStyle
    var mode: InputMode
    var inputText: string
    var output: Option<GeneratedContent>
    var isLoading: bool
    var error: Option<string>
    var requests: seq<Request>
    var replies: nat

    function Snapshot(): Page
      reads this
    {
      Page(selectedStyle, mode, inputText, output, isLoading, error, requests, replies)
    }

    constructor ()
      ensures Snapshot() == Initial()
    {
      selectedStyle := Publications[0];
      mode := Text;
      inputText := "";
      output := None;
      isLoading := false;
      error := None;
      requests := [];
      replies := 0;
    }

    /** `setSelectedStyle`, from the style selector. */
    method SetSelectedStyle(style: PublicationStyle)
      modifies this
      ensures Snapshot() == old(Snapshot()).(selectedStyle := style)
    {
      selectedStyle := style;
    }

    /** `setMode`, from the input section's tabs. */
    method SetMode(m: InputMode)
      modifies this
      ensures Snapshot() == old(Snapshot()).(mode := m)
    {
      mode := m;
    }

    /** `setInputText`, from the input field. */
    method SetInputText(text: string)
      modifies this
      ensures Snapshot() == old(Snapshot()).(inputText := text)
    {
      inputText := text;
    }

    /** `handleSubmit` up to the awaited call; returns the request it sends,
        if any. The button that calls it is disabled while loading. */
    method HandleSubmit() returns (sent: Option<Request>)
      requires !isLoading
      modifies this
      ensures Snapshot() == AfterSubmit(old(Snapshot()))
      ensures sent.Some? <==> !Blank(old(inputText))
      ensures sent.Some? ==> sent.value == Request(old(inputText), old(mode), old(selectedStyle.promptModifier))
    {
      TrimEmptyIffBlank(inputText);
      if Trim(inputText) == "" {
        return None;
      }
      isLoading := true;
      error := None;
      var request := Request(inputText, mode, selectedStyle.promptModifier);
      requests := requests + [request];
      sent := Some(request);
    }

    /** `handleSubmit` from the awaited call on: the `try`, `catch` and
        `finally` with the service's outcome. */
    method ReceiveReply(result: Option<GeneratedContent>)
      requires isLoading
      modifies this
      ensures Snapshot() == AfterReply(old(Snapshot()), result)
    {
      if result.Some? {
        output := result;
      } else {
        error := Some(TransformFailedMessage);
      }
      isLoading := false;
      replies := replies + 1;
    }
  }
}
