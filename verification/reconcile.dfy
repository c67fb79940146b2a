/** The reconcile flow of `EnsureILMPolicy`: classify the fetch, create the
    policy when it is definitely missing, otherwise compare the stored
    thresholds with the rendered ones and overwrite the policy when stale.
    The remote GET and PUT are not modelled: their outcomes are inputs. */
module Reconcile {
  import opened Base
  import opened Json
  import opened Policy

  const StatusOK: int := 200
  const StatusNotFound: int := 404

  /** Errors returned to the caller. `External` stands for an error value
      produced outside this file (the transport, the JSON decoder,
      `parseResponseError`, `checkResponseError`), returned unchanged;
      `ClientError` is the one error this file builds itself. */
  datatype Error =
    | External(description: string)
    | ClientError(statusCode: int, errorType: string, reason: string)

  /** The Elasticsearch error envelope `{status, error: {type, reason}}`. */
  datatype ErrorEnvelope = ErrorEnvelope(status: int, errorType: string, reason: string)

  /** An HTTP response, described by what the helpers this file calls make
      of it: `envelope` is what `parseResponseError` yields, `checked` what
      `checkResponseError` yields, `body` what decoding the body into a
      `stringMap` yields. */
  datatype Response = Response(
    status: int,
    envelope: Result<ErrorEnvelope, Error>,
    checked: Option<Error>,
    body: Result<Object, Error>)

  /** The outcome of `ILM.GetLifecycle`: a transport error or a response. */
  datatype Fetch = FetchFailed(err: Error) | Fetched(res: Response)

  /** The outcome of `ILM.PutLifecycle`: a transport error, or a response
      together with what `checkResponseError` makes of it. */
  datatype Put = PutFailed(err: Error) | PutDone(checked: Option<Error>)

  /** A PUT this run issues: the policy name and the document sent. */
  datatype PutRequest = PutRequest(policy: string, doc: Object)

  /** What the fetch result leads to. */
  datatype Step = Fail(err: Error) | Create | Compare(body: Result<Object, Error>) | Done

  /** The observable effect of `createILMPolicy` / `checkUpdateILMPolicy`. */
  datatype Effect = Effect(put: Option<PutRequest>, err: Option<Error>)

  /** One `EnsureILMPolicy` call: the policy fetched, the PUT issued if any,
      and the error returned (None for nil). */
  datatype Run = Run(fetched: string, put: Option<PutRequest>, err: Option<Error>)

  /** The three threshold strings read from a fetched policy. */
  datatype Settings = Settings(rolloverSize: string, rolloverAge: string, deleteAge: string)

  /** A definite "policy not found": HTTP 404 whose own envelope also says 404. */
  predicate DefiniteNotFound(fetch: Fetch) {
    && fetch.Fetched?
    && fetch.res.status == StatusNotFound
    && fetch.res.envelope.Ok?
    && fetch.res.envelope.value.status == StatusNotFound
  }

  /** The error a PUT outcome hands back to the caller. */
  function PutError(put: Put): (err: Option<Error>) {
    match put
    case PutFailed(e) => Some(e)
    case PutDone(checked) => checked
  }

  /** Every error value the caller's collaborators could produce in one run. */
  function InputErrors(fetch: Fetch, put: Put): (errs: set<Error>) {
    var fromFetch :=
      match fetch
      case FetchFailed(e) => {e}
      case Fetched(res) =>
        (if res.envelope.Err? then {res.envelope.error} else {}) +
        (if res.checked.Some? then {res.checked.value} else {}) +
        (if res.body.Err? then {res.body.error} else {});
    fromFetch + (if PutError(put).Some? then {PutError(put).value} else {})
  }

  /** The `ClientError` built from an error envelope. */
  function EnvelopeError(env: ErrorEnvelope): (err: Error) {
    ClientError(env.status, env.errorType, env.reason)
  }

  /** The status-classification branches of `EnsureILMPolicy`. */
  function Classify(fetch: Fetch): (step: Step)
    ensures fetch.FetchFailed? ==> step == Fail(fetch.err)
    ensures step.Create? <==> DefiniteNotFound(fetch)
    ensures fetch.Fetched? && fetch.res.status == StatusNotFound && fetch.res.envelope.Err? ==>
      step == Fail(fetch.res.envelope.error)
    ensures
      (&& fetch.Fetched? && fetch.res.status == StatusNotFound && fetch.res.envelope.Ok?
       && fetch.res.envelope.value.status != StatusNotFound) ==>
      var env := fetch.res.envelope.value;
      step == Fail(EnvelopeError(env))
    ensures fetch.Fetched? && fetch.res.status != StatusNotFound && fetch.res.checked.Some? ==>
      step == Fail(fetch.res.checked.value)
    ensures step.Compare? <==> fetch.Fetched? && fetch.res.status == StatusOK && fetch.res.checked.None?
    ensures step.Compare? ==> step.body == fetch.res.body
    ensures step.Done? <==>
      fetch.Fetched? && fetch.res.status != StatusOK && fetch.res.status != StatusNotFound &&
      fetch.res.checked.None?
  {
    match fetch
    case FetchFailed(e) => Fail(e)
    case Fetched(res) =>
      if res.status == StatusNotFound then
        match res.envelope
        case Err(e) => Fail(e)
        case Ok(env) =>
          if env.status == StatusNotFound then Create
          else Fail(EnvelopeError(env))
      else if res.checked.Some? then Fail(res.checked.value)
      else if res.status == StatusOK then Compare(res.body)
      else Done
  }

  /** `createILMPolicy(name)`: PUT the rendered policy under `PolicyName(name)`. */
  function CreatePolicy(name: string, put: Put): (e: Effect)
    ensures e.put.Some? && e.put.value.policy == PolicyName(name)
    ensures e.put.value.doc == RenderPolicy(RolloverSize, RolloverAge, DeleteAge)
    ensures e.err == PutError(put)
  {
    Effect(Some(PutRequest(PolicyName(name), RenderPolicy(RolloverSize, RolloverAge, DeleteAge))), PutError(put))
  }

  /** The schema-tolerant reads of `checkUpdateILMPolicy`, as the chain of
      `GetMap`/`GetString` calls the Go code makes. */
  function ExistingSettings(m: Object, policy: string): (s: Settings) {
    var policyMap := GetMap(m, policy);
    var phases := GetMap(GetMap(policyMap, "policy"), "phases");
    var rollover := GetMap(GetMap(GetMap(phases, "hot"), "actions"), "rollover");
    Settings(
      GetString(rollover, "max_size"),
      GetString(rollover, "max_age"),
      GetString(GetMap(phases, "delete"), "min_age"))
  }

  /** The tolerant reads return exactly what strict navigation finds below the
      entry `policy` of the fetched object, and "" wherever a level is missing
      or has the wrong type. */
  lemma ExistingSettingsAgreeWithLookup(m: Object, policy: string)
    ensures ExistingSettings(m, policy) == Settings(
      StringAt(Obj(m), [policy] + RolloverPath + ["max_size"]),
      StringAt(Obj(m), [policy] + RolloverPath + ["max_age"]),
      StringAt(Obj(m), [policy] + DeletePath + ["min_age"]))
  {
    var phasesPath := [policy, "policy", "phases"];
    var phases := GetMap(GetMap(GetMap(m, policy), "policy"), "phases");
    assert phasesPath[1..] == ["policy", "phases"] && phasesPath[1..][1..] == ["phases"];
    assert GetPath(m, phasesPath) == GetPath(GetMap(m, policy), ["policy", "phases"]);
    assert GetPath(GetMap(m, policy), ["policy", "phases"]) == GetPath(GetMap(GetMap(m, policy), "policy"), ["phases"]);
    assert GetPath(m, phasesPath) == phases;
    assert [policy] + RolloverPath == phasesPath + ["hot", "actions", "rollover"];
    assert [policy] + DeletePath == phasesPath + ["delete"];
    GetPathConcat(m, phasesPath, ["hot", "actions", "rollover"]);
    GetPathConcat(m, phasesPath, ["delete"]);
    ReadAgreesWithLookup(m, [policy] + RolloverPath, "max_size");
    ReadAgreesWithLookup(m, [policy] + RolloverPath, "max_age");
    ReadAgreesWithLookup(m, [policy] + DeletePath, "min_age");
  }

  /** Round trip: reading a rendered policy back through the accessor gives
      the rendered strings for non-zero thresholds and "" for zero ones. */
  lemma ReadBackRendered(policy: string, rolloverSize: int, rolloverAge: int, deleteAge: int)
    ensures ExistingSettings(map[policy := Obj(RenderPolicy(rolloverSize, rolloverAge, deleteAge))], policy) ==
      Settings(
        if rolloverSize != 0 then RenderSize(rolloverSize) else "",
        if rolloverAge != 0 then RenderDays(rolloverAge) else "",
        if deleteAge != 0 then RenderDays(deleteAge) else "")
  {
    var m := map[policy := Obj(RenderPolicy(rolloverSize, rolloverAge, deleteAge))];
    ExistingSettingsAgreeWithLookup(m, policy);
    LookupConcat(Obj(m), [policy], RolloverPath + ["max_size"]);
    LookupConcat(Obj(m), [policy], RolloverPath + ["max_age"]);
    LookupConcat(Obj(m), [policy], DeletePath + ["min_age"]);
    assert ([policy] + RolloverPath + ["max_size"]) == [policy] + (RolloverPath + ["max_size"]);
    assert ([policy] + RolloverPath + ["max_age"]) == [policy] + (RolloverPath + ["max_age"]);
    assert ([policy] + DeletePath + ["min_age"]) == [policy] + (DeletePath + ["min_age"]);
    RenderRolloverFields(rolloverSize, rolloverAge, deleteAge);
    RenderDeleteFields(rolloverSize, rolloverAge, deleteAge);
  }

  /** An object without the entry `policy` reads as three empty strings. */
  lemma MissingEntryReadsEmpty(m: Object, policy: string)
    requires policy !in m
    ensures ExistingSettings(m, policy) == Settings("", "", "")
  {
  }

  /** The settings differ from "300gb" / "30d" / "90d" in at least one field. */
  predicate Stale(s: Settings) {
    s.rolloverSize != "300gb" || s.rolloverAge != "30d" || s.deleteAge != "90d"
  }

  /** `checkUpdateILMPolicy(name, body)`: reads the entry under
      `PolicyName(name)` and overwrites the policy iff a field is stale. */
  function CheckUpdate(name: string, body: Result<Object, Error>, put: Put): (e: Effect)
    ensures body.Err? ==> e == Effect(None, Some(body.error))
    ensures body.Ok? ==> (e.put.Some? <==> Stale(ExistingSettings(body.value, PolicyName(name))))
    ensures e.put.Some? ==> e == CreatePolicy(name, put)
    ensures e.put.None? && body.Ok? ==> e.err.None?
  {
    match body
    case Err(err) => Effect(None, Some(err))
    case Ok(m) =>
      var existing := ExistingSettings(m, PolicyName(name));
      RenderedConstants();
      if existing.rolloverSize != RenderSize(RolloverSize)
         || existing.rolloverAge != RenderDays(RolloverAge)
         || existing.deleteAge != RenderDays(DeleteAge)
      then CreatePolicy(name, put)
      else Effect(None, None)
  }

  /** `EnsureILMPolicy(name)` as written: the already-suffixed policy name is
      handed to `checkUpdateILMPolicy`, which suffixes it again. */
  function Ensure(name: string, fetch: Fetch, put: Put): (r: Run)
    ensures r.fetched == PolicyName(name)
    ensures r.put.Some? <==>
      || DefiniteNotFound(fetch)
      || (&& Classify(fetch).Compare?
          && fetch.res.body.Ok?
          && Stale(ExistingSettings(fetch.res.body.value, PolicyName(PolicyName(name)))))
    ensures r.put.Some? ==> r.put.value.doc == RenderPolicy(RolloverSize, RolloverAge, DeleteAge)
    ensures r.put.Some? ==> r.err == PutError(put)
    ensures DefiniteNotFound(fetch) ==> r.put.value.policy == PolicyName(name)
    ensures Classify(fetch).Compare? && r.put.Some? ==> r.put.value.policy == PolicyName(PolicyName(name))
    ensures Classify(fetch).Fail? ==> r == Run(PolicyName(name), None, Some(Classify(fetch).err))
    ensures Classify(fetch).Done? ==> r == Run(PolicyName(name), None, None)
    ensures Classify(fetch).Compare? ==>
      var e := CheckUpdate(PolicyName(name), fetch.res.body, put);
      r == Run(PolicyName(name), e.put, e.err)
    ensures Classify(fetch).Compare? && fetch.res.body.Err? ==> r == Run(PolicyName(name), None, Some(fetch.res.body.error))
    ensures Classify(fetch).Compare? && r.put.None? ==> fetch.res.body.Err? || r.err.None?
    ensures r.err.Some? ==>
      || r.err.value in InputErrors(fetch, put)
      || (fetch.Fetched? && fetch.res.envelope.Ok? && r.err.value == EnvelopeError(fetch.res.envelope.value))
  {
    var policy := PolicyName(name);
    match Classify(fetch)
    case Fail(e) => Run(policy, None, Some(e))
    case Create =>
      var e := CreatePolicy(name, put);
      Run(policy, e.put, e.err)
    case Compare(body) =>
      var e := CheckUpdate(policy, body, put);
      Run(policy, e.put, e.err)
    case Done => Run(policy, None, None)
  }

  /** `EnsureILMPolicy` with the logical name handed to the update check, so
      that the entry read and the policy overwritten are the one fetched. */
  function EnsureIntended(name: string, fetch: Fetch, put: Put): (r: Run)
    ensures r.fetched == PolicyName(name)
    ensures r.put.Some? ==> r.put.value == PutRequest(PolicyName(name), RenderPolicy(RolloverSize, RolloverAge, DeleteAge))
    ensures r.put.Some? <==>
      || DefiniteNotFound(fetch)
      || (&& Classify(fetch).Compare?
          && fetch.res.body.Ok?
          && Stale(ExistingSettings(fetch.res.body.value, PolicyName(name))))
    ensures r.put.Some? ==> r.err == PutError(put)
    ensures Classify(fetch).Fail? ==> r == Run(PolicyName(name), None, Some(Classify(fetch).err))
    ensures Classify(fetch).Done? ==> r == Run(PolicyName(name), None, None)
    ensures Classify(fetch).Compare? ==>
      var e := CheckUpdate(name, fetch.res.body, put);
      r == Run(PolicyName(name), e.put, e.err)
    ensures Classify(fetch).Compare? && fetch.res.body.Err? ==> r == Run(PolicyName(name), None, Some(fetch.res.body.error))
    ensures Classify(fetch).Compare? && r.put.None? ==> fetch.res.body.Err? || r.err.None?
  {
    var policy := PolicyName(name);
    match Classify(fetch)
    case Fail(e) => Run(policy, None, Some(e))
    case Create =>
      var e := CreatePolicy(name, put);
      Run(policy, e.put, e.err)
    case Compare(body) =>
      var e := CheckUpdate(name, body, put);
      Run(policy, e.put, e.err)
    case Done => Run(policy, None, None)
  }

  /** The fixed policy, as rendered and stored, reads back as current. */
  lemma RenderedPolicyIsCurrent(policy: string)
    ensures !Stale(ExistingSettings(map[policy := Obj(RenderPolicy(RolloverSize, RolloverAge, DeleteAge))], policy))
  {
    ReadBackRendered(policy, RolloverSize, RolloverAge, DeleteAge);
    RenderedConstants();
  }

  /** The key the as-written update check reads, and the policy it would
      overwrite: the logical name suffixed twice, never the fetched policy. */
  lemma UpdateKeyIsSuffixedTwice(name: string)
    ensures PolicyName(PolicyName(name)) == name + "-ilm-policy-ilm-policy"
    ensures PolicyName(PolicyName(name)) != PolicyName(name)
  {
    assert |PolicyName(PolicyName(name))| == |PolicyName(name)| + 11;
  }
}
