/** The web layer around the pipeline: `process_email` (validation of the
    request body, the stages in order, the classification, the persisted
    record and the response) and the filename checks of `process_file`.
    Flask, the Supabase client and the PDF reader are not modelled: the
    request body and `EMAIL_USER` are parameters, the record handed to
    `save_analysis` is an output. */
module App {
  import opened Text
  import opened Values
  import opened TextCleaning
  import opened NlpProcessor
  import opened GeminiService

  // ---------------------------------------------------------------------
  // Responses

  /** What an endpoint answers: a status with a JSON body, or the 500 reply
      the outer `except` builds from an exception (its text `str(e)` is not
      modelled). */
  datatype Response = Response(status: int, body: Json) | ServerError

  /** A 400 reply `{"error": message}`. */
  function BadRequest(message: string): Response {
    Response(400, JObject(map["error" := JString(message)]))
  }

  const NoTextMessage: string := "No text provided"

  const NoUserMessage: string := "Usu\U{e1}rio n\U{e3}o identificado. Configure seu email."

  lemma MessagesDiffer()
    ensures BadRequest(NoTextMessage) != BadRequest(NoUserMessage)
  {
    assert |NoTextMessage| == 16;
    assert BadRequest(NoTextMessage).body.fields["error"] == JString(NoTextMessage);
  }

  // ---------------------------------------------------------------------
  // Validation of the request body

  /** `w` occurs in `s` starting at index `i`. */
  predicate OccursAt(w: string, s: string, i: nat) {
    i + |w| <= |s| && s[i..i + |w|] == w
  }

  /** `w` occurs in `s` as a contiguous piece. */
  predicate IsSubstring(w: string, s: string) {
    exists i: nat | i <= |s| :: OccursAt(w, s, i)
  }

  /** Python's `'text' in data` for a decoded body: a key of an object, an
      element of a list, a piece of a string; `None` where it raises
      `TypeError` (numbers, booleans, `null`). */
  function HasTextKey(data: Json): Option<bool> {
    match data
    case JObject(fields) => Some("text" in fields)
    case JArray(items) => Some(JString("text") in items)
    case JString(s) => Some(IsSubstring("text", s))
    case _ => None
  }

  /** `dict.get(key, default)`. */
  function Get(fields: map<string, Json>, key: string, default: Json): Json {
    if key in fields then fields[key] else default
  }

  /** `data.get('email_user') or os.getenv("EMAIL_USER")`. */
  function UserOf(fromBody: Json, envUser: Option<string>): Json {
    if Truthy(fromBody) then fromBody
    else match envUser
      case None => JNull
      case Some(u) => JString(u)
  }

  /** A request that passed validation: the values bound to `text`,
      `subject`, `sender` and `user_email`. */
  datatype Request = Request(text: Json, subject: Json, sender: Json, user: Json)

  datatype Validation = Rejected(response: Response) | Accepted(request: Request)

  /** The checks of `process_email` before any processing. `body` is `None`
      when `request.get_json()` raises. */
  function Validate(body: Option<Json>, envUser: Option<string>): Validation {
    match body
    case None => Rejected(ServerError)
    case Some(data) =>
      if !Truthy(data) then Rejected(BadRequest(NoTextMessage))
      else match HasTextKey(data)
        case None => Rejected(ServerError)
        case Some(found) =>
          if !found then Rejected(BadRequest(NoTextMessage))
          // `data['text']` on a list or a string raises TypeError
          else if !data.JObject? then Rejected(ServerError)
          else
            var f := data.fields;
            var user := UserOf(Get(f, "email_user", JNull), envUser);
            if !Truthy(user) then Rejected(BadRequest(NoUserMessage))
            else Accepted(Request(f["text"], Get(f, "subject", JString("Manual Input")),
                                  Get(f, "sender", JString("User")), user))
  }

  // ---------------------------------------------------------------------
  // Stages, record and response

  /** The three texts of the pipeline. */
  datatype Stages = Stages(cleaned: string, noStopwords: string, stemmed: string)

  /** The stages as `process_email` chains them. */
  function RunStages(p: Processor, text: string): Stages {
    var cleaned := CleanText(p.tables, text);
    var noStopwords := RemoveStopwords(p, cleaned);
    Stages(cleaned, noStopwords, ApplyStemming(p, noStopwords))
  }

  /** JSON strings for a list of strings, one per string, in order. */
  function Strings(ws: seq<string>): (r: seq<Json>)
    ensures |r| == |ws|
    ensures forall i :: 0 <= i < |r| ==> r[i] == JString(ws[i])
  {
    if ws == [] then [] else [JString(ws[0])] + Strings(ws[1..])
  }

  const ResponseKeys: set<string> := {
    "original_text", "cleaned_text", "text_no_stopwords", "stemmed_text", "stems", "gemini_analysis"
  }

  /** The success body of `process_email`. */
  function ResponseBody(text: string, st: Stages, analysis: Analysis): Json {
    JObject(map[
      "original_text" := JString(text),
      "cleaned_text" := JString(st.cleaned),
      "text_no_stopwords" := JString(st.noStopwords),
      "stemmed_text" := JString(st.stemmed),
      "stems" := JArray(Strings(Split(st.stemmed))),
      "gemini_analysis" := JObject(analysis)])
  }

  /** `{**analysis, "subject": subject, "sender": sender}`: the analysis
      with the two metadata keys added, replacing same-named entries. */
  function RecordToSave(analysis: Analysis, subject: Json, sender: Json): (r: map<string, Json>)
    ensures r.Keys == analysis.Keys + {"subject", "sender"}
    ensures r["subject"] == subject && r["sender"] == sender
    ensures forall k :: k in analysis && k != "subject" && k != "sender" ==> r[k] == analysis[k]
  {
    analysis["subject" := subject]["sender" := sender]
  }

  /** The arguments of `supabase.save_analysis`. Persistence failures are
      swallowed inside that call, so they never reach the response. */
  datatype Saved = Saved(originalText: string, record: map<string, Json>, user: Json)

  /** What `process_email` answers and what it hands to persistence. */
  datatype Handled = Handled(response: Response, saved: Option<Saved>)

  /** `process_email` as a specification, for a service with the given
      client flag, candidates and prompt template. */
  function Outcome(p: Processor, hasClient: bool, models: seq<string>, tpl: PromptTemplate,
                   generate: (string, string) -> Reply, body: Option<Json>, envUser: Option<string>): Handled
  {
    match Validate(body, envUser)
    case Rejected(r) => Handled(r, None)
    case Accepted(req) =>
      // `clean_text` calls `text.lower()`, which only a string has
      if !req.text.JString? then Handled(ServerError, None)
      else
        var text := req.text.s;
        var st := RunStages(p, text);
        var analysis := Classify(hasClient, models, Prompt(tpl, text, st.stemmed), generate);
        Handled(Response(200, ResponseBody(text, st, analysis)),
                Some(Saved(text, RecordToSave(analysis, req.subject, req.sender), req.user)))
  }

  /** The outcome of a validated request whose text is a string. */
  lemma OutcomeOfAccepted(p: Processor, hasClient: bool, models: seq<string>, tpl: PromptTemplate,
                          generate: (string, string) -> Reply, body: Option<Json>, envUser: Option<string>,
                          req: Request, text: string)
    requires Validate(body, envUser) == Accepted(req) && req.text == JString(text)
    ensures var st := RunStages(p, text);
      var analysis := Classify(hasClient, models, Prompt(tpl, text, st.stemmed), generate);
      Outcome(p, hasClient, models, tpl, generate, body, envUser)
      == Handled(Response(200, ResponseBody(text, st, analysis)),
                 Some(Saved(text, RecordToSave(analysis, req.subject, req.sender), req.user)))
  {
  }

  /** `process_email`. `calls` are the generation calls the service made. */
  method ProcessEmail(p: Processor, service: GeminiService, body: Option<Json>, envUser: Option<string>,
                      generate: (string, string) -> Reply)
    returns (response: Response, saved: Option<Saved>, ghost calls: seq<(string, string)>)
    requires service.Valid()
    ensures Handled(response, saved)
         == Outcome(p, service.hasClient, service.availableModels, service.template, generate, body, envUser)
    ensures saved.None? ==> calls == []
    ensures forall i, j :: 0 <= i < j < |calls| ==> calls[i].0 != calls[j].0
    ensures saved.Some? ==> forall i :: 0 <= i < |calls| ==>
      calls[i].1 == Prompt(service.template, saved.value.originalText, Preprocess(p, saved.value.originalText))
  {
    calls := [];
    saved := None;
    var v := Validate(body, envUser);
    if v.Rejected? {
      response := v.response;
    } else {
      var req := v.request;
      if !req.text.JString? {
        response := ServerError;
        return;
      }
      var text := req.text.s;
      var cleaned := CleanText(p.tables, text);
      var noStopwords := RemoveStopwords(p, cleaned);
      var stemmed := ApplyStemming(p, noStopwords);
      assert stemmed == Preprocess(p, text);
      var analysis;
      analysis, calls := service.AnalyzeEmail(stemmed, text, generate);
      var record := RecordToSave(analysis, req.subject, req.sender);
      saved := Some(Saved(text, record, req.user));
      response := Response(200, ResponseBody(text, Stages(cleaned, noStopwords, stemmed), analysis));
      OutcomeOfAccepted(p, service.hasClient, service.availableModels, service.template, generate, body, envUser, req, text);
    }
  }

  // ---------------------------------------------------------------------
  // What process_email promises

  /** A 400 reply comes only from validation, and a rejected request saves
      nothing. */
  lemma BadRequestOnlyFromValidation(p: Processor, hasClient: bool, models: seq<string>, tpl: PromptTemplate,
                                     generate: (string, string) -> Reply, body: Option<Json>,
                                     envUser: Option<string>, message: string)
    ensures Outcome(p, hasClient, models, tpl, generate, body, envUser).response == BadRequest(message)
        <==> Validate(body, envUser) == Rejected(BadRequest(message))
    ensures Validate(body, envUser).Rejected? ==> Outcome(p, hasClient, models, tpl, generate, body, envUser).saved.None?
  {
    var v := Validate(body, envUser);
    if v.Accepted? && v.request.text.JString? {
      OutcomeOfAccepted(p, hasClient, models, tpl, generate, body, envUser, v.request, v.request.text.s);
    }
  }

  /** The reply is 400 "No text provided" exactly when the body was read
      and is falsy or has no 'text'; nothing is then saved. A body that
      could not be read gets the 500 reply instead. */
  lemma NoTextRejected(p: Processor, hasClient: bool, models: seq<string>, tpl: PromptTemplate,
                       generate: (string, string) -> Reply, body: Option<Json>, envUser: Option<string>)
    ensures var h := Outcome(p, hasClient, models, tpl, generate, body, envUser);
      h.response == BadRequest(NoTextMessage)
      <==> body.Some? && (!Truthy(body.value) || HasTextKey(body.value) == Some(false))
    ensures var h := Outcome(p, hasClient, models, tpl, generate, body, envUser);
      h.response == BadRequest(NoTextMessage) ==> h.saved.None?
  {
    BadRequestOnlyFromValidation(p, hasClient, models, tpl, generate, body, envUser, NoTextMessage);
    MessagesDiffer();
  }

  /** `data.get('email_user') or os.getenv("EMAIL_USER")` is truthy exactly
      when one of the two is. */
  lemma UserTruthy(fromBody: Json, envUser: Option<string>)
    ensures Truthy(UserOf(fromBody, envUser)) <==> Truthy(fromBody) || Present(envUser)
  {
  }

  /** The reply is 400 with the unidentified-user message exactly when the
      body is an object with 'text' and neither its `email_user` nor
      `EMAIL_USER` is a truthy value; nothing is then saved or classified. */
  lemma NoUserRejected(p: Processor, hasClient: bool, models: seq<string>, tpl: PromptTemplate,
                       generate: (string, string) -> Reply, body: Option<Json>, envUser: Option<string>)
    ensures var h := Outcome(p, hasClient, models, tpl, generate, body, envUser);
      h.response == BadRequest(NoUserMessage)
      <==> && body.Some? && body.value.JObject?
           && body.value.fields != map[] && "text" in body.value.fields
           && !Truthy(Get(body.value.fields, "email_user", JNull)) && !Present(envUser)
    ensures var h := Outcome(p, hasClient, models, tpl, generate, body, envUser);
      h.response == BadRequest(NoUserMessage) ==> h.saved.None?
  {
    BadRequestOnlyFromValidation(p, hasClient, models, tpl, generate, body, envUser, NoUserMessage);
    MessagesDiffer();
    if body.Some? && body.value.JObject? {
      UserTruthy(Get(body.value.fields, "email_user", JNull), envUser);
    }
  }

  /** `subject` and `sender` fall back to 'Manual Input' and 'User'; the
      user is the body's `email_user` when truthy, else `EMAIL_USER`. */
  lemma DefaultsApplied(fields: map<string, Json>, envUser: Option<string>)
    requires Validate(Some(JObject(fields)), envUser).Accepted?
    ensures var req := Validate(Some(JObject(fields)), envUser).request;
      && req.text == fields["text"]
      && req.subject == (if "subject" in fields then fields["subject"] else JString("Manual Input"))
      && req.sender == (if "sender" in fields then fields["sender"] else JString("User"))
      && (if "email_user" in fields && Truthy(fields["email_user"]) then req.user == fields["email_user"]
          else Present(envUser) && req.user == JString(envUser.value))
  {
  }

  /** The stages are `preprocess` with no flag, with stop-word removal, and
      with both flags: cleaning, then stop-word removal, then stemming. */
  lemma StagesArePreprocess(p: Processor, text: string)
    ensures RunStages(p, text).cleaned == Preprocess(p, text, false, false)
    ensures RunStages(p, text).noStopwords == Preprocess(p, text, true, false)
    ensures RunStages(p, text).stemmed == Preprocess(p, text)
  {
    PreprocessStages(p, text);
  }

  /** A request with a string text is answered 200 whatever the analysis (an
      "erro" one included); the analysis is the classification of the prompt
      built from the original text and the fully preprocessed text; the record
      saved is the analysis with `subject` and `sender`, under the user. */
  lemma AcceptedRequest(p: Processor, hasClient: bool, models: seq<string>, tpl: PromptTemplate,
                        generate: (string, string) -> Reply, body: Option<Json>, envUser: Option<string>)
    requires Validate(body, envUser).Accepted? && Validate(body, envUser).request.text.JString?
    ensures var req := Validate(body, envUser).request;
      var text, h := req.text.s, Outcome(p, hasClient, models, tpl, generate, body, envUser);
      var stemmed := Preprocess(p, text);
      var analysis := Classify(hasClient, models, Prompt(tpl, text, stemmed), generate);
      && h.response == Response(200, ResponseBody(text, RunStages(p, text), analysis))
      && h.saved == Some(Saved(text, RecordToSave(analysis, req.subject, req.sender), req.user))
  {
    var req := Validate(body, envUser).request;
    OutcomeOfAccepted(p, hasClient, models, tpl, generate, body, envUser, req, req.text.s);
    StagesArePreprocess(p, req.text.s);
  }

  /** The success body has exactly the six keys, quotes the original text and
      carries the three stage texts and the analysis unchanged. */
  lemma ResponseBodyShape(text: string, st: Stages, analysis: Analysis)
    ensures var b := ResponseBody(text, st, analysis);
      && b.fields.Keys == ResponseKeys
      && b.fields["original_text"] == JString(text)
      && b.fields["cleaned_text"] == JString(st.cleaned)
      && b.fields["text_no_stopwords"] == JString(st.noStopwords)
      && b.fields["stemmed_text"] == JString(st.stemmed)
      && b.fields["gemini_analysis"] == JObject(analysis)
  {
  }

  /** The reply is a 200 exactly when validation passes and the text is a
      string; every other outcome is a 400 or a 500 and saves nothing. */
  lemma SuccessIff(p: Processor, hasClient: bool, models: seq<string>, tpl: PromptTemplate,
                   generate: (string, string) -> Reply, body: Option<Json>, envUser: Option<string>)
    ensures var h := Outcome(p, hasClient, models, tpl, generate, body, envUser);
      (h.response.Response? && h.response.status == 200)
      <==> Validate(body, envUser).Accepted? && Validate(body, envUser).request.text.JString?
    ensures var h := Outcome(p, hasClient, models, tpl, generate, body, envUser);
      h.saved.Some? <==> h.response.Response? && h.response.status == 200
  {
  }

  /** `stems` is `stemmed_text.split()`: the whitespace-separated words, none
      empty, in order. */
  lemma StemsAreWords(text: string, st: Stages, analysis: Analysis)
    ensures var stems := ResponseBody(text, st, analysis).fields["stems"];
      && stems.JArray? && |stems.items| == |Split(st.stemmed)|
      && forall i :: 0 <= i < |stems.items| ==> stems.items[i] == JString(Split(st.stemmed)[i]) && IsWord(Split(st.stemmed)[i])
  {
    SplitWords(st.stemmed);
  }

  /** When every stem is a word, `stems` lists the stems of the tokens of the
      stop-word-free text, one per token. */
  lemma StemsAreStemmedTokens(p: Processor, text: string, analysis: Analysis)
    requires var tokens := p.tokenize(RemoveStopwords(p, CleanText(p.tables, text)));
      forall i :: 0 <= i < |tokens| ==> IsWord(p.stem(tokens[i]))
    ensures ResponseBody(text, RunStages(p, text), analysis).fields["stems"]
         == JArray(Strings(StemTokens(p.stem, p.tokenize(RunStages(p, text).noStopwords))))
  {
    ApplyStemmingSplits(p, RunStages(p, text).noStopwords);
  }

  // ---------------------------------------------------------------------
  // process_file

  /** The outcome of the checks of `process_file`: a 400 with a message, or
      on to the PDF reader. */
  datatype UploadCheck = UploadRejected(message: string) | ReadPdf

  /** The checks of `process_file` on the `file` part and its filename. */
  function CheckUpload(hasFilePart: bool, filename: string): (r: UploadCheck)
    ensures r == ReadPdf <==> hasFilePart && EndsWith(filename, ".pdf")
  {
    if !hasFilePart then UploadRejected("No file provided")
    else if filename == "" then UploadRejected("No file selected")
    else if EndsWith(filename, ".pdf") then ReadPdf
    else UploadRejected("Unsupported file format")
  }

  /** Each rejection carries the message of the first check that fails; the
      extension test is case-sensitive, so ".PDF" is rejected. */
  lemma UploadMessages(hasFilePart: bool, filename: string)
    ensures !hasFilePart ==> CheckUpload(hasFilePart, filename) == UploadRejected("No file provided")
    ensures hasFilePart && filename == "" ==> CheckUpload(hasFilePart, filename) == UploadRejected("No file selected")
    ensures hasFilePart && filename != "" && !EndsWith(filename, ".pdf")
            ==> CheckUpload(hasFilePart, filename) == UploadRejected("Unsupported file format")
    ensures hasFilePart && EndsWith(filename, ".PDF") ==> CheckUpload(hasFilePart, filename) != ReadPdf
  {
    if hasFilePart && EndsWith(filename, ".PDF") {
      assert filename[|filename| - 3] == 'P';
    }
  }
}
