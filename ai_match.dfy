/** The `POST /ai/match` handler (app/routers/ai_match.py): load the target,
    prefilter candidates, ask the model, validate and normalise its reply.
    The model call, `json.loads` and Python's `str()` on non-string values are
    supplied by the caller as functions. */
module AiMatch {
  import opened Wrappers
  import opened Json
  import opened Profiles
  import opened Prefilter
  import opened Normalize

  /** The query parameters of the endpoint. */
  datatype MatchRequest = MatchRequest(
    targetId: int,
    mode: string,
    topK: int,
    sameCity: bool,
    maxCandidates: int)

  /** What the endpoint's query validation admits before the handler runs. */
  predicate ValidRequest(req: MatchRequest) {
    req.mode in {"similarity", "complementarity", "goal_alignment"}
    && 1 <= req.topK <= 20
    && 1 <= req.maxCandidates <= 200
  }

  /** The arguments of `build_user_prompt`; the prompt text sent with the fixed
      system prompt is a function of these alone. */
  datatype PromptInput = PromptInput(
    target: Payload,
    candidates: seq<Payload>,
    mode: string,
    topK: int,
    onlineRadiusKm: int,
    language: string)

  /** How a call ends: the returned dict, or the exception it raises. */
  datatype Outcome =
    | Matched(body: map<string, Json>)
    | TargetNotFound
    | LlmCallFailed(error: string)
    | InvalidJson(error: string)
    | InvalidStructure
    | Unhandled

  /** The HTTP status of an outcome; an uncaught exception is a 500. */
  function Status(o: Outcome): int {
    match o
    case Matched(_) => 200
    case TargetNotFound => 404
    case LlmCallFailed(_) => 502
    case InvalidJson(_) => 502
    case InvalidStructure => 502
    case Unhandled => 500
  }

  function Payloads(ps: seq<Profile>): seq<Payload> {
    seq(|ps|, k requires 0 <= k < |ps| => ProfileToDict(ps[k]))
  }

  /** The reply when no candidate qualifies. */
  function EmptyBody(req: MatchRequest): map<string, Json> {
    map["target_id" := JInt(req.targetId), "mode" := JStr(req.mode), "results" := JArr([])]
  }

  /** What the handler sends to the model, or None when it does not call it. */
  function LlmRequest(store: seq<Profile>, req: MatchRequest): Option<PromptInput>
    requires ValidRequest(req)
  {
    match Lookup(store, req.targetId)
    case None => None
    case Some(target) =>
      var cands := Candidates(store, target, req.targetId, req.sameCity, req.maxCandidates);
      if cands == [] then None
      else Some(PromptInput(ProfileToDict(target), Payloads(cands), req.mode, req.topK, 50, "ru"))
  }

  /** The handler from the model's reply on: parse, shape check, normalise. */
  function Interpret(reply: Result<string, string>, parse: string -> Result<Json, string>,
                     req: MatchRequest, show: Json -> string): Outcome
    requires ValidRequest(req)
  {
    match reply
    case Failure(e) => LlmCallFailed(e)
    case Success(raw) =>
      match parse(raw)
      case Failure(e) => InvalidJson(e)
      case Success(data) =>
        if !WellShaped(data) then InvalidStructure
        else match NormalizedBody(data.fields, req.targetId, req.mode, req.topK, show)
          case None => Unhandled
          case Some(body) => Matched(body)
  }

  /** The outcome of one call of the handler. */
  function MatchOutcome(store: seq<Profile>, req: MatchRequest,
                        llm: PromptInput -> Result<string, string>,
                        parse: string -> Result<Json, string>,
                        show: Json -> string): Outcome
    requires ValidRequest(req)
  {
    if Lookup(store, req.targetId).None? then TargetNotFound
    else match LlmRequest(store, req)
      case None => Matched(EmptyBody(req))
      case Some(prompt) => Interpret(llm(prompt), parse, req, show)
  }

  /** `ai_match`. `asked` is the request sent to the model, None when the
      model is not called. */
  method Match(store: seq<Profile>, req: MatchRequest,
               llm: PromptInput -> Result<string, string>,
               parse: string -> Result<Json, string>,
               show: Json -> string) returns (outcome: Outcome, asked: Option<PromptInput>)
    requires ValidRequest(req)
    ensures asked == LlmRequest(store, req)
    ensures outcome == MatchOutcome(store, req, llm, parse, show)
  {
    var found := Lookup(store, req.targetId);
    if found.None? {
      return TargetNotFound, None;
    }
    var target := found.value;
    var cands := Candidates(store, target, req.targetId, req.sameCity, req.maxCandidates);
    if cands == [] {
      return Matched(EmptyBody(req)), None;
    }
    var prompt := PromptInput(ProfileToDict(target), Payloads(cands), req.mode, req.topK, 50, "ru");
    assert LlmRequest(store, req) == Some(prompt);
    asked := Some(prompt);
    outcome := HandleReply(llm(prompt), parse, req, show);
  }

  /** The handler's statements from the model call on. */
  method HandleReply(reply: Result<string, string>, parse: string -> Result<Json, string>,
                     req: MatchRequest, show: Json -> string) returns (outcome: Outcome)
    requires ValidRequest(req)
    ensures outcome == Interpret(reply, parse, req, show)
  {
    if reply.Failure? {
      return LlmCallFailed(reply.error);
    }
    var parsed := parse(reply.value);
    if parsed.Failure? {
      return InvalidJson(parsed.error);
    }
    var data := parsed.value;
    if !WellShaped(data) {
      return InvalidStructure;
    }
    var ok, body := NormalizeInPlace(data.fields, req.targetId, req.mode, req.topK, show);
    if !ok {
      return Unhandled;
    }
    return Matched(body);
  }

  /** An unknown target is a 404, decided before any query or model call. */
  lemma UnknownTarget(store: seq<Profile>, req: MatchRequest,
                      llm: PromptInput -> Result<string, string>,
                      parse: string -> Result<Json, string>, show: Json -> string)
    requires ValidRequest(req)
    requires forall p :: p in store ==> p.id != req.targetId
    ensures LlmRequest(store, req) == None
    ensures MatchOutcome(store, req, llm, parse, show) == TargetNotFound
    ensures Status(MatchOutcome(store, req, llm, parse, show)) == 404
  {
  }

  /** When no profile qualifies the reply is `{target_id, mode, results: []}`,
      the model is not called, and so its behaviour does not matter. */
  lemma NoCandidates(store: seq<Profile>, req: MatchRequest, target: Profile,
                     llm1: PromptInput -> Result<string, string>,
                     llm2: PromptInput -> Result<string, string>,
                     parse: string -> Result<Json, string>, show: Json -> string)
    requires ValidRequest(req)
    requires Lookup(store, req.targetId) == Some(target)
    requires forall p :: p in store ==> !Qualifies(p, target, req.targetId, req.sameCity)
    ensures LlmRequest(store, req) == None
    ensures MatchOutcome(store, req, llm1, parse, show) == Matched(EmptyBody(req))
    ensures MatchOutcome(store, req, llm1, parse, show) == MatchOutcome(store, req, llm2, parse, show)
  {
  }

  /** The model is called exactly when the target exists and some profile
      qualifies, and it is sent the target's payload, as many qualifying
      payloads as the cap lets through, the request's mode and `top_k`, a 50 km radius and the language "ru". */
  lemma WhatTheModelIsAsked(store: seq<Profile>, req: MatchRequest)
    requires ValidRequest(req)
    ensures LlmRequest(store, req).Some? <==>
      Lookup(store, req.targetId).Some? &&
      exists p :: p in store && Qualifies(p, Lookup(store, req.targetId).value, req.targetId, req.sameCity)
    ensures LlmRequest(store, req).Some? ==>
      var prompt := LlmRequest(store, req).value;
      var target := Lookup(store, req.targetId).value;
      target.id == req.targetId
      && prompt.target == ProfileToDict(target)
      && 1 <= |prompt.candidates| <= req.maxCandidates
      && |prompt.candidates| == Min(req.maxCandidates, |Qualifying(store, target, req.targetId, req.sameCity)|)
      && (forall k :: 0 <= k < |prompt.candidates| ==>
            exists p :: p in store && Qualifies(p, target, req.targetId, req.sameCity)
                        && prompt.candidates[k] == ProfileToDict(p))
      && prompt.mode == req.mode && prompt.topK == req.topK
      && prompt.onlineRadiusKm == 50 && prompt.language == "ru"
  {
    match Lookup(store, req.targetId)
    case None =>
    case Some(target) =>
      var cands := Candidates(store, target, req.targetId, req.sameCity, req.maxCandidates);
      if cands != [] {
        var prompt := LlmRequest(store, req).value;
        forall k | 0 <= k < |prompt.candidates|
          ensures exists p :: p in store && Qualifies(p, target, req.targetId, req.sameCity)
                              && prompt.candidates[k] == ProfileToDict(p)
        {
          assert cands[k] in store && prompt.candidates[k] == ProfileToDict(cands[k]);
        }
      }
  }

  /** A failed model call, a reply that is not JSON, and JSON of the wrong
      shape each end in a 502 and never in a reply. */
  lemma ModelFailuresAre502(store: seq<Profile>, req: MatchRequest,
                            llm: PromptInput -> Result<string, string>,
                            parse: string -> Result<Json, string>, show: Json -> string)
    requires ValidRequest(req)
    requires LlmRequest(store, req).Some?
    ensures var reply := llm(LlmRequest(store, req).value);
      var outcome := MatchOutcome(store, req, llm, parse, show);
      (reply.Failure? ==> outcome == LlmCallFailed(reply.error))
      && (reply.Success? && parse(reply.value).Failure? ==>
            outcome == InvalidJson(parse(reply.value).error))
      && (reply.Success? && parse(reply.value).Success? && !WellShaped(parse(reply.value).value) ==>
            outcome == InvalidStructure)
      && (reply.Failure? || parse(reply.value).Failure? || !WellShaped(parse(reply.value).value) ==>
            Status(outcome) == 502 && !outcome.Matched?)
  {
  }

  /** A reply in which one of the first `top_k` results is not an object makes
      the rationale loop raise: an unhandled 500, not a 502. */
  lemma NonObjectResultIsUnhandled(store: seq<Profile>, req: MatchRequest,
                                   llm: PromptInput -> Result<string, string>,
                                   parse: string -> Result<Json, string>, show: Json -> string,
                                   k: nat)
    requires ValidRequest(req)
    requires LlmRequest(store, req).Some?
    requires llm(LlmRequest(store, req).value).Success?
    requires parse(llm(LlmRequest(store, req).value).value).Success?
    requires WellShaped(parse(llm(LlmRequest(store, req).value).value).value)
    requires var items := parse(llm(LlmRequest(store, req).value).value).value.fields["results"].items;
      k < req.topK && k < |items| && !items[k].JObj?
    ensures MatchOutcome(store, req, llm, parse, show) == Unhandled
    ensures Status(MatchOutcome(store, req, llm, parse, show)) == 500
  {
    var reply := llm(LlmRequest(store, req).value);
    assert MatchOutcome(store, req, llm, parse, show) == Interpret(reply, parse, req, show);
    var data := parse(reply.value).value.fields;
    assert k < Min(req.topK, |data["results"].items|);
    assert NormalizedBody(data, req.targetId, req.mode, req.topK, show).None?;
  }

  /** Every reply carries the request's `target_id` and `mode`, at most
      `top_k` results, and no list-valued rationale. */
  lemma ReplyEnforcesRequest(store: seq<Profile>, req: MatchRequest,
                             llm: PromptInput -> Result<string, string>,
                             parse: string -> Result<Json, string>, show: Json -> string)
    requires ValidRequest(req)
    requires MatchOutcome(store, req, llm, parse, show).Matched?
    ensures var body := MatchOutcome(store, req, llm, parse, show).body;
      "target_id" in body && body["target_id"] == JInt(req.targetId)
      && "mode" in body && body["mode"] == JStr(req.mode)
      && "results" in body && body["results"].JArr?
      && |body["results"].items| <= req.topK
      && forall k :: 0 <= k < |body["results"].items| ==>
           body["results"].items[k].JObj?
           && ("rationale" in body["results"].items[k].fields ==>
                 !body["results"].items[k].fields["rationale"].JArr?)
  {
    var body := MatchOutcome(store, req, llm, parse, show).body;
    if LlmRequest(store, req).Some? {
      var data := parse(llm(LlmRequest(store, req).value).value).value.fields;
      var out := NormalizedBody(data, req.targetId, req.mode, req.topK, show).value;
      assert body == out;
      forall k | 0 <= k < |body["results"].items|
        ensures body["results"].items[k].JObj?
        ensures "rationale" in body["results"].items[k].fields ==>
                  !body["results"].items[k].fields["rationale"].JArr?
      {
        var r := data["results"].items[k].fields;
        assert body["results"].items[k] == JObj(NormalizeResult(r, show));
      }
    }
  }

  /** A reply from the model's output keeps the model's list order: result k
      is the model's result k, normalised, for k below `min(top_k, len)`, and
      every key other than `target_id`, `mode` and `results` is the model's. */
  lemma ReplyKeepsModelOutput(store: seq<Profile>, req: MatchRequest,
                              llm: PromptInput -> Result<string, string>,
                              parse: string -> Result<Json, string>, show: Json -> string)
    requires ValidRequest(req)
    requires LlmRequest(store, req).Some?
    requires MatchOutcome(store, req, llm, parse, show).Matched?
    ensures var data := parse(llm(LlmRequest(store, req).value).value).value.fields;
      var body := MatchOutcome(store, req, llm, parse, show).body;
      var items := data["results"].items;
      |body["results"].items| == Min(req.topK, |items|)
      && (forall k :: 0 <= k < |body["results"].items| ==>
            items[k].JObj? && body["results"].items[k] == JObj(NormalizeResult(items[k].fields, show)))
      && (forall key :: key in data && key != "target_id" && key != "mode" && key != "results" ==>
            key in body && body[key] == data[key])
  {
  }
}
