/** `GeminiService`: the ordered list of candidate models built at
    construction, and `analyze_email`, which tries the candidates one after
    the other until one returns a JSON object. The client call together with
    `json.loads` is an oracle `generate(model, prompt)`. */
module GeminiService {
  import opened Text
  import opened Values

  // ---------------------------------------------------------------------
  // Candidate models

  /** The default models, most preferred first. */
  const DefaultModels: seq<string> := [
    "gemini-3-pro-preview",
    "gemini-3-flash-preview",
    "gemini-2.5-pro",
    "gemini-2.5-flash",
    "gemini-2.0-flash",
    "gemini-1.5-pro",
    "gemini-1.5-flash"
  ]

  predicate NoDuplicates(s: seq<string>) {
    forall i, j :: 0 <= i < j < |s| ==> s[i] != s[j]
  }

  /** `s` without the occurrences of `x`, the rest in order. */
  function Without(s: seq<string>, x: string): (r: seq<string>)
    ensures x !in r
    ensures forall y :: y in r <==> y in s && y != x
    ensures |r| <= |s|
  {
    if s == [] then []
    else Without(s[..|s| - 1], x) + (if s[|s| - 1] == x then [] else [s[|s| - 1]])
  }

  /** The candidate list: the override named by `GEMINI_MODEL` first when it
      is set and non-empty, then every default that is not the override. */
  function Candidates(envModel: Option<string>): seq<string> {
    if Present(envModel) then [envModel.value] + Without(DefaultModels, envModel.value)
    else DefaultModels
  }

  lemma DefaultModelsDistinct()
    ensures NoDuplicates(DefaultModels)
    ensures |DefaultModels| == 7
  {
    var d := DefaultModels;
    assert d[0][7] == '3' && d[1][7] == '3' && d[2][7] == '2' && d[3][7] == '2';
    assert d[4][7] == '2' && d[5][7] == '1' && d[6][7] == '1';
    assert d[0][9] == 'p' && d[1][9] == 'f' && d[2][11] == 'p' && d[3][11] == 'f';
    assert d[4][9] == '0' && d[5][11] == 'p' && d[6][11] == 'f';
    assert |d[2]| == 14 && |d[3]| == 16 && |d[4]| == 16;
  }

  /** Removing an element from a list without duplicates keeps it without
      duplicates and shortens it by one when the element was there. */
  lemma {:induction false} WithoutDistinct(s: seq<string>, x: string)
    requires NoDuplicates(s)
    ensures NoDuplicates(Without(s, x))
    ensures |Without(s, x)| == if x in s then |s| - 1 else |s|
  {
    if s != [] {
      var init, last := s[..|s| - 1], s[|s| - 1];
      assert NoDuplicates(init);
      WithoutDistinct(init, x);
      assert last !in init;
      assert x in s <==> x in init || x == last;
    }
  }

  /** The candidate list has no duplicates; it holds the seven defaults and,
      when the override is not one of them, the override as an eighth. */
  lemma CandidatesShape(envModel: Option<string>)
    ensures NoDuplicates(Candidates(envModel))
    ensures forall m :: m in DefaultModels ==> m in Candidates(envModel)
    ensures Present(envModel) ==> Candidates(envModel)[0] == envModel.value
    ensures |Candidates(envModel)| == if Present(envModel) && envModel.value !in DefaultModels then 8 else 7
  {
    DefaultModelsDistinct();
    if Present(envModel) {
      var ov := envModel.value;
      WithoutDistinct(DefaultModels, ov);
      var rest := Without(DefaultModels, ov);
      assert ov !in rest;
      var c := [ov] + rest;
      assert forall i :: 1 <= i < |c| ==> c[i] == rest[i - 1];
    }
  }

  /** The candidate list after the first `i` of `defaults` were considered. */
  function CandidatesAfter(defaults: seq<string>, envModel: Option<string>, i: nat): seq<string>
    requires i <= |defaults|
  {
    if Present(envModel) then [envModel.value] + Without(defaults[..i], envModel.value)
    else defaults[..i]
  }

  lemma WithoutStep(s: seq<string>, x: string, i: nat)
    requires i < |s|
    ensures Without(s[..i + 1], x) == Without(s[..i], x) + (if s[i] == x then [] else [s[i]])
  {
    assert s[..i + 1][..i] == s[..i];
  }

  /** Considering one more default appends it exactly when it is not yet in
      the list. */
  lemma CandidatesStep(defaults: seq<string>, envModel: Option<string>, i: nat)
    requires NoDuplicates(defaults) && i < |defaults|
    ensures CandidatesAfter(defaults, envModel, i + 1)
         == CandidatesAfter(defaults, envModel, i)
            + (if defaults[i] in CandidatesAfter(defaults, envModel, i) then [] else [defaults[i]])
  {
    var m := defaults[i];
    assert m !in defaults[..i];
    if Present(envModel) {
      WithoutStep(defaults, envModel.value, i);
    } else {
      assert defaults[..i + 1] == defaults[..i] + [m];
    }
  }

  /** The candidate-list part of `GeminiService.__init__`: the override
      first, then each default not already in the list. */
  method BuildCandidates(envModel: Option<string>) returns (models: seq<string>)
    ensures models == Candidates(envModel)
  {
    models := [];
    if Present(envModel) {
      models := models + [envModel.value];
    }
    DefaultModelsDistinct();
    for i := 0 to |DefaultModels|
      invariant models == CandidatesAfter(DefaultModels, envModel, i)
    {
      var m := DefaultModels[i];
      CandidatesStep(DefaultModels, envModel, i);
      if m !in models {
        models := models + [m];
      }
    }
    assert DefaultModels[..|DefaultModels|] == DefaultModels;
  }

  // ---------------------------------------------------------------------
  // Results and the prompt

  /** What one call of the client followed by `json.loads` gives: an
      exception with its message, or the decoded JSON value. */
  datatype Reply = Raised(message: string) | Parsed(value: Json)

  /** A result dictionary of `analyze_email`. */
  type Analysis = map<string, Json>

  const NotConfiguredMessage: string := "Erro: Chave de API do Gemini n\U{e3}o configurada."

  const FailureReasoning: string := "Falha de conex\U{e3}o com m\U{fa}ltiplos modelos IA"

  /** The result when the service has no client. */
  const NotConfigured: Analysis := map[
    "classification" := JString("erro"),
    "suggested_response" := JString(NotConfiguredMessage)]

  /** Python's `str()` of `last_error`, which is `None` until a failure. */
  function ErrorText(lastError: Option<string>): string {
    match lastError
    case None => "None"
    case Some(e) => e
  }

  const FailureMessagePrefix: string := "Falha em todos os modelos tentados ("

  const FailureMessageMiddle: string := "). \U{da}ltimo erro: "

  function FailureMessage(tried: seq<string>, lastError: Option<string>): string {
    FailureMessagePrefix + Join(", ", tried) + FailureMessageMiddle + ErrorText(lastError)
  }

  /** The result when every candidate failed. */
  function AllFailed(tried: seq<string>, lastError: Option<string>): Analysis {
    map[
      "classification" := JString("erro"),
      "suggested_response" := JString(FailureMessage(tried, lastError)),
      "reasoning" := JString(FailureReasoning)]
  }

  const PromptHead: string :=
    "\n"
    + "        Voc\U{ea} \U{e9} um assistente de triagem de emails inteligente.\n"
    + "        \n"
    + "        Analise o seguinte email:\n"
    + "        \n"
    + "        TEXTO ORIGINAL:\n"
    + "        \""

  const PromptMiddle: string := "\"\n        \n        TEXTO PROCESSADO (NLP):\n        \""

  const PromptTail: string :=
    "\"\n"
    + "        \n"
    + "        Tarefa:\n"
    + "        1. Classifique o email como 'produtivo' (requer "
    + "a\U{e7}\U{e3}o humana, resposta, ou \U{e9} importante) ou 'improdutivo' "
    + "(spam, promo\U{e7}\U{f5}es, notifica\U{e7}\U{f5}es autom\U{e1}ticas, agradecimentos "
    + "simples sem necessidade de follow-up).\n"
    + "        2. Se for 'produtivo', sugira uma resposta profissional "
    + "e direta. Se for 'improdutivo', a resposta pode ser null "
    + "ou uma breve justificativa.\n"
    + "        \n"
    + "        Retorne a resposta EXATAMENTE no formato JSON abaixo:\n"
    + "        {\n"
    + "            \"classification\": \"produtivo\" | \"improdutivo\",\n"
    + "            \"suggested_response\":String | null,\n"
    + "            \"reasoning\": \"Breve explica\U{e7}\U{e3}o da classifica\U{e7}\U{e3}o\"\n"
    + "        }\n"
    + "        "

  /** The fixed text of the prompt around the two quoted texts. */
  datatype PromptTemplate = PromptTemplate(head: string, middle: string, tail: string)

  /** The template of the f-string in `analyze_email`. */
  const SourceTemplate: PromptTemplate := PromptTemplate(PromptHead, PromptMiddle, PromptTail)

  /** The prompt of `analyze_email` for a template. */
  function Prompt(tpl: PromptTemplate, originalText: string, processedText: string): string {
    tpl.head + originalText + tpl.middle + processedText + tpl.tail
  }

  /** The prompt quotes the original text and then the processed text, each
      verbatim at a fixed place after the template's head and middle. */
  lemma PromptEmbedsTexts(tpl: PromptTemplate, originalText: string, processedText: string)
    ensures var p, h, o, m := Prompt(tpl, originalText, processedText), |tpl.head|, |originalText|, |tpl.middle|;
      && |p| == h + o + m + |processedText| + |tpl.tail|
      && p[..h] == tpl.head
      && p[h..h + o] == originalText
      && p[h + o..h + o + m] == tpl.middle
      && p[h + o + m..h + o + m + |processedText|] == processedText
      && p[h + o + m + |processedText|..] == tpl.tail
  {
    var h, o, m, q, t := tpl.head, originalText, tpl.middle, processedText, tpl.tail;
    var p := h + o + m + q + t;
    assert forall i :: 0 <= i < |o| ==> p[|h| + i] == o[i];
    assert forall i :: 0 <= i < |m| ==> p[|h| + |o| + i] == m[i];
    assert forall i :: 0 <= i < |q| ==> p[|h| + |o| + |m| + i] == q[i];
  }

  // ---------------------------------------------------------------------
  // One attempt

  /** Python's message for `result['model_used'] = ...` on a decoded value
      that is not a dictionary. */
  function AssignmentError(v: Json): string
    requires !v.JObject?
  {
    match v
    case JArray(_) => "list indices must be integers or slices, not str"
    case JString(_) => "'str' object does not support item assignment"
    case JInt(_) => "'int' object does not support item assignment"
    case JFloat(_) => "'float' object does not support item assignment"
    case JBool(_) => "'bool' object does not support item assignment"
    case JNull => "'NoneType' object does not support item assignment"
  }

  /** Whether the attempt with `model` returns: the reply decodes to an
      object, so the `model_used` assignment succeeds. */
  predicate Succeeds(generate: (string, string) -> Reply, model: string, prompt: string) {
    var reply := generate(model, prompt);
    reply.Parsed? && reply.value.JObject?
  }

  /** The message `str(e)` of the exception a failed attempt raised. */
  function FailureOf(generate: (string, string) -> Reply, model: string, prompt: string): string
    requires !Succeeds(generate, model, prompt)
  {
    match generate(model, prompt)
    case Raised(message) => message
    case Parsed(v) => AssignmentError(v)
  }

  /** The returned dictionary of a successful attempt: the decoded object
      with `model_used` set to the candidate. */
  function Tagged(generate: (string, string) -> Reply, model: string, prompt: string): (r: Analysis)
    requires Succeeds(generate, model, prompt)
    ensures r.Keys == generate(model, prompt).value.fields.Keys + {"model_used"}
    ensures r["model_used"] == JString(model)
    ensures forall k :: k in r && k != "model_used" ==> r[k] == generate(model, prompt).value.fields[k]
  {
    generate(model, prompt).value.fields["model_used" := JString(model)]
  }

  /** The body of the `try` in the fallback loop: one generation call, the
      decoding of its reply and the `model_used` assignment; on failure the
      message `str(e)` of the exception. */
  method TryModel(generate: (string, string) -> Reply, modelName: string, prompt: string)
    returns (ok: bool, result: Analysis, error: string)
    ensures ok == Succeeds(generate, modelName, prompt)
    ensures ok ==> result == Tagged(generate, modelName, prompt)
    ensures !ok ==> error == FailureOf(generate, modelName, prompt)
  {
    var reply := generate(modelName, prompt);
    match reply
    case Raised(message) =>
      return false, map[], message;
    case Parsed(value) =>
      if value.JObject? {
        var decoded := value.fields;
        decoded := decoded["model_used" := JString(modelName)];
        return true, decoded, "";
      } else {
        return false, map[], AssignmentError(value);
      }
  }

  // ---------------------------------------------------------------------
  // The whole fallback, as a specification

  /** The index of the first candidate that succeeds, `|models|` when none
      does. */
  function FirstSuccess(generate: (string, string) -> Reply, models: seq<string>, prompt: string): (k: nat)
    ensures k <= |models|
    ensures forall j :: 0 <= j < k ==> !Succeeds(generate, models[j], prompt)
    ensures k < |models| ==> Succeeds(generate, models[k], prompt)
  {
    if models == [] then 0
    else if Succeeds(generate, models[0], prompt) then 0
    else 1 + FirstSuccess(generate, models[1..], prompt)
  }

  /** What `analyze_email` returns. */
  function Classify(hasClient: bool, models: seq<string>, prompt: string, generate: (string, string) -> Reply): Analysis {
    if !hasClient then NotConfigured
    else
      var k := FirstSuccess(generate, models, prompt);
      if k < |models| then Tagged(generate, models[k], prompt)
      else if models == [] then AllFailed([], None)
      else AllFailed(models, Some(FailureOf(generate, models[|models| - 1], prompt)))
  }

  /** How many generation calls `analyze_email` makes: none without a
      client, up to and including the first success, else one per candidate. */
  function CallCount(hasClient: bool, models: seq<string>, prompt: string, generate: (string, string) -> Reply): nat {
    if !hasClient then 0
    else
      var k := FirstSuccess(generate, models, prompt);
      if k < |models| then k + 1 else |models|
  }

  // ---------------------------------------------------------------------
  // The service object

  class GeminiService {
    var apiKey: Option<string>
    var hasClient: bool
    var availableModels: seq<string>
    /** The prompt text around the quoted e-mail, the same for every call. */
    const template: PromptTemplate

    /** A client exists exactly when the key is set and non-empty; then the
        candidates are distinct and seven or eight, otherwise there are none. */
    ghost predicate Valid()
      reads this
    {
      && hasClient == Present(apiKey)
      && (hasClient ==> NoDuplicates(availableModels) && 7 <= |availableModels| <= 8)
      && (!hasClient ==> availableModels == [])
    }

    /** `GeminiService.__init__(api_key)` with `GEMINI_API_KEY` and
        `GEMINI_MODEL` read from the environment. */
    constructor(apiKeyArg: Option<string>, envApiKey: Option<string>, envModel: Option<string>)
      ensures apiKey == if Present(apiKeyArg) then apiKeyArg else envApiKey
      ensures hasClient == Present(apiKey)
      ensures availableModels == if hasClient then Candidates(envModel) else []
      ensures template == SourceTemplate
      ensures Valid()
    {
      template := SourceTemplate;
      var key := if Present(apiKeyArg) then apiKeyArg else envApiKey;
      apiKey := key;
      if Present(key) {
        hasClient := true;
        var models := BuildCandidates(envModel);
        availableModels := models;
        CandidatesShape(envModel);
      } else {
        hasClient := false;
        availableModels := [];
      }
    }

    /** `GeminiService.analyze_email`. The prompt is built once; the
        candidates are tried in order, each at most once, and `calls` records
        every generation call with the prompt it was given. */
    method AnalyzeEmail(processedText: string, originalText: string, generate: (string, string) -> Reply)
      returns (result: Analysis, ghost calls: seq<(string, string)>)
      requires NoDuplicates(availableModels)
      ensures result == Classify(hasClient, availableModels, Prompt(template, originalText, processedText), generate)
      ensures |calls| == CallCount(hasClient, availableModels, Prompt(template, originalText, processedText), generate)
      ensures forall i :: 0 <= i < |calls| ==> calls[i] == (availableModels[i], Prompt(template, originalText, processedText))
      ensures forall i, j :: 0 <= i < j < |calls| ==> calls[i].0 != calls[j].0
    {
      calls := [];
      if !hasClient {
        return NotConfigured, calls;
      }
      var prompt := Prompt(template, originalText, processedText);
      var lastError: Option<string> := None;
      var triedModels: seq<string> := [];
      for i := 0 to |availableModels|
        invariant triedModels == availableModels[..i]
        invariant |calls| == i
        invariant forall j :: 0 <= j < i ==> calls[j] == (availableModels[j], prompt)
        invariant forall j :: 0 <= j < i ==> !Succeeds(generate, availableModels[j], prompt)
        invariant i == 0 ==> lastError == None
        invariant i > 0 ==> lastError == Some(FailureOf(generate, availableModels[i - 1], prompt))
      {
        var modelName := availableModels[i];
        calls := calls + [(modelName, prompt)];
        var ok, payload, error := TryModel(generate, modelName, prompt);
        if ok {
          result := payload;
          SuccessAt(availableModels, prompt, generate, i);
          CallsAreDistinct(availableModels, prompt, calls);
          return;
        }
        lastError := Some(error);
        triedModels := triedModels + [modelName];
      }
      assert triedModels == availableModels;
      result := AllFailed(triedModels, lastError);
      AllCandidatesFail(availableModels, prompt, generate, lastError);
      CallsAreDistinct(availableModels, prompt, calls);
    }
  }

  /** The first success is at `i` when the candidates before it fail and it
      succeeds. */
  lemma FirstSuccessAt(generate: (string, string) -> Reply, models: seq<string>, prompt: string, i: nat)
    requires i < |models| && Succeeds(generate, models[i], prompt)
    requires forall j :: 0 <= j < i ==> !Succeeds(generate, models[j], prompt)
    ensures FirstSuccess(generate, models, prompt) == i
  {
    var k := FirstSuccess(generate, models, prompt);
    if k < i {
    } else if k > i {
    }
  }

  /** A success at `i` after failures only decides the result and the
      number of calls. */
  lemma SuccessAt(models: seq<string>, prompt: string, generate: (string, string) -> Reply, i: nat)
    requires i < |models| && Succeeds(generate, models[i], prompt)
    requires forall j :: 0 <= j < i ==> !Succeeds(generate, models[j], prompt)
    ensures Classify(true, models, prompt, generate) == Tagged(generate, models[i], prompt)
    ensures CallCount(true, models, prompt, generate) == i + 1
  {
    FirstSuccessAt(generate, models, prompt, i);
  }

  // ---------------------------------------------------------------------
  // What analyze_email promises

  /** Without a client the result holds only the error classification and
      the fixed message, and no call is made. */
  lemma NotConfiguredResult(models: seq<string>, prompt: string, generate: (string, string) -> Reply)
    ensures Classify(false, models, prompt, generate).Keys == {"classification", "suggested_response"}
    ensures Classify(false, models, prompt, generate)["classification"] == JString("erro")
    ensures Classify(false, models, prompt, generate)["suggested_response"] == JString(NotConfiguredMessage)
    ensures CallCount(false, models, prompt, generate) == 0
  {
  }

  /** The first candidate that returns an object wins: its payload is
      returned unvalidated, with `model_used` overwritten by the candidate,
      and no later candidate is called. */
  lemma FirstSuccessWins(models: seq<string>, prompt: string, generate: (string, string) -> Reply, i: nat)
    requires i < |models| && Succeeds(generate, models[i], prompt)
    requires forall j :: 0 <= j < i ==> !Succeeds(generate, models[j], prompt)
    ensures var r, payload := Classify(true, models, prompt, generate), generate(models[i], prompt).value.fields;
      && r["model_used"] == JString(models[i])
      && r.Keys == payload.Keys + {"model_used"}
      && (forall k :: k in payload && k != "model_used" ==> r[k] == payload[k])
    ensures CallCount(true, models, prompt, generate) == i + 1
  {
    FirstSuccessAt(generate, models, prompt, i);
  }

  /** Whatever classification a successful payload carries is returned
      as it is, whether or not it is one of the two the prompt asks for. */
  lemma ClassificationNotValidated(models: seq<string>, prompt: string, generate: (string, string) -> Reply, i: nat, c: Json)
    requires i < |models| && Succeeds(generate, models[i], prompt)
    requires forall j :: 0 <= j < i ==> !Succeeds(generate, models[j], prompt)
    requires "classification" in generate(models[i], prompt).value.fields
    requires generate(models[i], prompt).value.fields["classification"] == c
    ensures Classify(true, models, prompt, generate)["classification"] == c
  {
    FirstSuccessAt(generate, models, prompt, i);
  }

  /** When every candidate fails, all of them were tried in order, and the
      result is the summary built from the whole list and the error of the
      last candidate (`None` when there are no candidates). */
  lemma AllCandidatesFail(models: seq<string>, prompt: string, generate: (string, string) -> Reply, lastError: Option<string>)
    requires forall j :: 0 <= j < |models| ==> !Succeeds(generate, models[j], prompt)
    requires models == [] ==> lastError == None
    requires models != [] ==> lastError == Some(FailureOf(generate, models[|models| - 1], prompt))
    ensures Classify(true, models, prompt, generate) == AllFailed(models, lastError)
    ensures CallCount(true, models, prompt, generate) == |models|
  {
    assert FirstSuccess(generate, models, prompt) == |models|;
  }

  /** The summary result: the error classification, the message naming the
      tried models separated by ", " and the last error, and the fixed
      reasoning. */
  lemma AllFailedShape(tried: seq<string>, lastError: string)
    ensures AllFailed(tried, Some(lastError)).Keys == {"classification", "suggested_response", "reasoning"}
    ensures AllFailed(tried, Some(lastError))["classification"] == JString("erro")
    ensures AllFailed(tried, Some(lastError))["suggested_response"]
         == JString(FailureMessagePrefix + Join(", ", tried) + FailureMessageMiddle + lastError)
    ensures AllFailed(tried, Some(lastError))["reasoning"] == JString(FailureReasoning)
  {
  }

  /** A JSON value that is not an object makes the attempt fail, with the
      message of the failed item assignment. */
  lemma NonObjectFails(generate: (string, string) -> Reply, model: string, prompt: string)
    requires generate(model, prompt).Parsed? && !generate(model, prompt).value.JObject?
    ensures !Succeeds(generate, model, prompt)
    ensures FailureOf(generate, model, prompt) == AssignmentError(generate(model, prompt).value)
  {
  }

  /** With distinct candidates, calls that follow the list name distinct
      models. */
  lemma CallsAreDistinct(models: seq<string>, prompt: string, calls: seq<(string, string)>)
    requires NoDuplicates(models)
    requires |calls| <= |models|
    requires forall i :: 0 <= i < |calls| ==> calls[i] == (models[i], prompt)
    ensures forall i, j :: 0 <= i < j < |calls| ==> calls[i].0 != calls[j].0
  {
  }
}
