/**
 * The `/process` handler end to end: normalise the dictation, build the
 * prompts, call the language model, extract the generated text, derive the
 * title and store the report. Every failure becomes an error result and no
 * report is stored.
 */
module Pipeline {
  import opened Wrappers
  import opened Text
  import opened Normalizer
  import opened Prompt
  import opened Extraction
  import opened ReportRecord
  import opened TemplateStore

  /** The request body: the dictated text and an optional template name. */
  datatype Request = Request(text: string, templateName: Option<string>)

  /** What the model call does: raise (network, authentication or rate-limit
      errors) or return a reply, possibly an unusable one. */
  datatype ProviderReply = Raised(message: string) | Returned(reply: Option<Response>)

  /** The model call, given the system prompt and the user prompt. */
  type Provider = (string, string) -> ProviderReply

  /** Why a request produced no report. */
  datatype PipelineError = MissingApiKey | ProviderFailed(message: string) | BadResponse(reason: ExtractError)

  /** The handler's JSON answer: the generated text and the new report's id,
      or an error. */
  datatype Outcome = Processed(processedText: string, reportId: nat) | Error(error: PipelineError)

  /** Everything the handler computes before it stores the report. */
  datatype Draft = Draft(normalized: string, processed: string, title: string)

  /** The user prompt for a request: a request without a template name, or
      naming one that is not stored, gets the prompt with no instruction. */
  function RequestPrompt(templates: map<string, string>, req: Request): (r: string)
    ensures req.templateName.None? || req.templateName.value !in templates ==>
      r == UserPrompt(Normalize(req.text), "")
  {
    var instruction := TemplateInstruction(templates, req.templateName);
    if req.templateName.None? || req.templateName.value !in templates then
      NoInstruction(templates, req.templateName);
      UserPrompt(Normalize(req.text), instruction)
    else
      UserPrompt(Normalize(req.text), instruction)
  }

  lemma NoInstruction(templates: map<string, string>, name: Option<string>)
    requires name.None? || name.value !in templates
    ensures TemplateInstruction(templates, name) == ""
  {
    if name.Some? {
      UnknownTemplateIgnored(templates, name.value);
    }
  }

  /** The handler as a function of the key's presence, the stored templates
      and the model's behaviour. */
  function Run(apiKey: bool, templates: map<string, string>, provider: Provider, req: Request): (r: Result<Draft, PipelineError>)
    ensures r.Success? ==> r.value.normalized == Normalize(req.text) && 0 < |r.value.title| <= MaxTitle
  {
    if !apiKey then Failure(MissingApiKey)
    else
      match provider(SystemPrompt(), RequestPrompt(templates, req))
      case Raised(message) => Failure(ProviderFailed(message))
      case Returned(reply) =>
        match Extract(reply)
        case Failure(e) => Failure(BadResponse(e))
        case Success(processed) => Success(Draft(Normalize(req.text), processed, Title(processed)))
  }

  /** A request fails exactly when the key is missing, the model call raises,
      or the reply is absent or has no content; otherwise the generated text
      is the in-order concatenation of the reply's block texts. */
  lemma RunCases(apiKey: bool, templates: map<string, string>, provider: Provider, req: Request)
    ensures var reply := provider(SystemPrompt(), RequestPrompt(templates, req));
      Run(apiKey, templates, provider, req).Failure? <==>
        !apiKey || reply.Raised? || reply.reply.None? ||
        reply.reply.value.content.None? || reply.reply.value.content.value == []
    ensures var reply := provider(SystemPrompt(), RequestPrompt(templates, req));
      Run(apiKey, templates, provider, req).Success? ==>
        Run(apiKey, templates, provider, req).value.processed == Texts(reply.reply.value.content.value)
  {
  }

  /** A template name that is not stored is ignored: the request behaves as
      one without a template. */
  lemma UnknownTemplateIgnoredInRun(apiKey: bool, templates: map<string, string>, provider: Provider, text: string, name: string)
    requires name !in templates
    ensures Run(apiKey, templates, provider, Request(text, Some(name))) == Run(apiKey, templates, provider, Request(text, None))
  {
    UnknownTemplateIgnored(templates, name);
  }

  /** A reply whose blocks carry no text is accepted: the report text is
      empty and the title is the default one. */
  lemma TextlessReply(templates: map<string, string>, provider: Provider, req: Request, blocks: seq<Block>)
    requires blocks != [] && forall i :: 0 <= i < |blocks| ==> blocks[i].text.None?
    requires provider(SystemPrompt(), RequestPrompt(templates, req)) == Returned(Some(Response(Some(blocks))))
    ensures Run(true, templates, provider, req) == Success(Draft(Normalize(req.text), "", DefaultTitle))
  {
    BlocksWithoutText(blocks);
    TitleDefault("");
  }

  /** The handler's steps up to the report row, with its two loops: the
      normaliser and the extraction of the block texts. */
  method Handle(apiKey: bool, templates: map<string, string>, provider: Provider, req: Request)
    returns (r: Result<Draft, PipelineError>)
    ensures r == Run(apiKey, templates, provider, req)
  {
    if !apiKey {
      return Failure(MissingApiKey);
    }
    var text := NormalizeText(req.text);
    var instruction := TemplateInstruction(templates, req.templateName);
    var user := UserPrompt(text, instruction);
    assert user == RequestPrompt(templates, req);
    var answer := provider(SystemPrompt(), user);
    if answer.Raised? {
      return Failure(ProviderFailed(answer.message));
    }
    var checked := Extract(answer.reply);
    if checked.Failure? {
      return Failure(BadResponse(checked.error));
    }
    var processed := ExtractText(answer.reply.value.content.value);
    r := Success(Draft(text, processed, Title(processed)));
  }

  /** The stored reports. */
  class ReportTable {
    var reports: seq<Report>
    var nextId: nat

    /** Ids are assigned in increasing order and below the next id. */
    ghost predicate Valid()
      reads this
    {
      (forall i :: 0 <= i < |reports| ==> reports[i].id < nextId) &&
      (forall i, j :: 0 <= i < j < |reports| ==> reports[i].id < reports[j].id)
    }

    constructor()
      ensures Valid() && reports == [] && nextId == 1
    {
      reports := [];
      nextId := 1;
    }

    /** `POST /process` against the given template table. On success one
        report is appended, holding the normalised dictation, the generated
        text, its title and the requested template name as given; on any
        failure nothing is stored. */
    method ProcessText(apiKey: bool, templates: map<string, string>, provider: Provider, req: Request) returns (out: Outcome)
      requires Valid()
      modifies this
      ensures Valid()
      ensures Run(apiKey, templates, provider, req).Failure? ==>
        out == Error(Run(apiKey, templates, provider, req).error) &&
        reports == old(reports) && nextId == old(nextId)
      ensures Run(apiKey, templates, provider, req).Success? ==>
        var d := Run(apiKey, templates, provider, req).value;
        out == Processed(d.processed, old(nextId)) && nextId == old(nextId) + 1 &&
        reports == old(reports) + [Report(old(nextId), d.title, d.normalized, d.processed, req.templateName)]
    {
      var r := Handle(apiKey, templates, provider, req);
      out := Record(r, req.templateName);
    }

    /** Storing the outcome of a request: a draft becomes a new report with the
        next id; an error is returned and nothing is stored. */
    method Record(r: Result<Draft, PipelineError>, templateName: Option<string>) returns (out: Outcome)
      requires Valid()
      modifies this
      ensures Valid()
      ensures r.Failure? ==> out == Error(r.error) && reports == old(reports) && nextId == old(nextId)
      ensures r.Success? ==>
        out == Processed(r.value.processed, old(nextId)) && nextId == old(nextId) + 1 &&
        reports == old(reports) + [Report(old(nextId), r.value.title, r.value.normalized, r.value.processed, templateName)]
    {
      if r.Failure? {
        return Error(r.error);
      }
      var report := Report(nextId, r.value.title, r.value.normalized, r.value.processed, templateName);
      ghost var before := reports;
      reports := reports + [report];
      nextId := nextId + 1;
      forall i | 0 <= i < |reports| ensures reports[i].id < nextId {
        if i < |before| { assert reports[i] == before[i]; }
      }
      forall i, j | 0 <= i < j < |reports| ensures reports[i].id < reports[j].id {
        assert reports[i] == before[i];
        if j < |before| { assert reports[j] == before[j]; }
      }
      out := Processed(r.value.processed, report.id);
    }
  }
}
