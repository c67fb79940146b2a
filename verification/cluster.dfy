/** A simulated cluster: a store of lifecycle policies. Its GET answers with
    the stored policy nested under its own name, or with a 404 error envelope
    of status 404; an accepted PUT replaces the named policy. It is the
    reference the reconcile flow is run against to state convergence and
    idempotence; it models nothing else of Elasticsearch. */
module Cluster {
  import opened Base
  import opened Json
  import opened Policy
  import opened Reconcile

  /** Policy name -> stored policy document (`{"policy": {...}}`). */
  type Store = map<string, Object>

  /** `GET _ilm/policy/<policy>`: 200 with the document nested under its own
      name, or Elasticsearch's own 404 envelope when the policy is missing. */
  function Get(store: Store, policy: string): (f: Fetch)
    ensures policy in store ==> Classify(f) == Compare(Ok(map[policy := Obj(store[policy])]))
    ensures policy !in store ==> Classify(f).Create?
  {
    if policy in store then
      Fetched(Response(StatusOK, Err(External("no error envelope")), None, Ok(map[policy := Obj(store[policy])])))
    else
      Fetched(Response(
        StatusNotFound,
        Ok(ErrorEnvelope(StatusNotFound, "resource_not_found_exception", "Lifecycle policy not found: " + policy)),
        Some(External("404 Not Found")),
        Err(External("not a policy document"))))
  }

  /** An accepted PUT. */
  const Accepted: Put := PutDone(None)

  /** The store after a run: an accepted PUT replaces the whole named policy. */
  function Apply(store: Store, run: Run): (after: Store)
    ensures run.put.None? || run.err.Some? ==> after == store
    ensures run.put.Some? && run.err.None? ==>
      && after.Keys == store.Keys + {run.put.value.policy}
      && after[run.put.value.policy] == run.put.value.doc
  {
    if run.put.Some? && run.err.None? then store[run.put.value.policy := run.put.value.doc] else store
  }

  /** The document the bootstrap code maintains. */
  function Desired(): (doc: Object) {
    RenderPolicy(RolloverSize, RolloverAge, DeleteAge)
  }

  /** A missing policy is created under its name with the rendered document. */
  lemma EnsureCreatesMissingPolicy(store: Store, name: string)
    requires PolicyName(name) !in store
    ensures var run := Ensure(name, Get(store, PolicyName(name)), Accepted);
      && run.put == Some(PutRequest(PolicyName(name), Desired()))
      && run.err.None?
      && Apply(store, run) == store[PolicyName(name) := Desired()]
  {
  }

  /** As written, a fetched policy is never read back: the update check looks
      for the twice-suffixed name, finds nothing, and overwrites a policy of
      that twice-suffixed name, whatever the stored policy holds. */
  lemma EnsureAsWrittenRewritesWrongPolicy(store: Store, name: string, put: Put)
    requires PolicyName(name) in store
    ensures Ensure(name, Get(store, PolicyName(name)), put).put ==
      Some(PutRequest(name + "-ilm-policy-ilm-policy", Desired()))
  {
    var policy := PolicyName(name);
    UpdateKeyIsSuffixedTwice(name);
    MissingEntryReadsEmpty(map[policy := Obj(store[policy])], PolicyName(policy));
  }

  /** Counterexample to idempotence for the code as written: after a first
      run creates the policy, a second run against the now-current cluster
      still issues a PUT, aimed at `<name>-ilm-policy-ilm-policy`. */
  lemma EnsureAsWrittenNotIdempotent(name: string)
    ensures var first := Ensure(name, Get(map[], PolicyName(name)), Accepted);
      var store := Apply(map[], first);
      && store == map[PolicyName(name) := Desired()]
      && Ensure(name, Get(store, PolicyName(name)), Accepted).put ==
         Some(PutRequest(name + "-ilm-policy-ilm-policy", Desired()))
  {
    var first := Ensure(name, Get(map[], PolicyName(name)), Accepted);
    EnsureCreatesMissingPolicy(map[], name);
    EnsureAsWrittenRewritesWrongPolicy(Apply(map[], first), name, Accepted);
  }

  /** With the corrected name, a policy already holding the desired
      thresholds is left alone: no PUT and no error. */
  lemma EnsureIntendedLeavesCurrentPolicy(store: Store, name: string, put: Put)
    requires PolicyName(name) in store
    requires !Stale(ExistingSettings(map[PolicyName(name) := Obj(store[PolicyName(name)])], PolicyName(name)))
    ensures EnsureIntended(name, Get(store, PolicyName(name)), put) == Run(PolicyName(name), None, None)
  {
  }

  /** With the corrected name, one run with an accepted PUT returns nil and
      leaves the cluster holding the policy with current thresholds. */
  lemma EnsureIntendedConverges(store: Store, name: string)
    ensures var policy := PolicyName(name);
      var after := Apply(store, EnsureIntended(name, Get(store, policy), Accepted));
      && EnsureIntended(name, Get(store, policy), Accepted).err.None?
      && policy in after
      && !Stale(ExistingSettings(map[policy := Obj(after[policy])], policy))
  {
    var policy := PolicyName(name);
    var first := EnsureIntended(name, Get(store, policy), Accepted);
    if first.put.Some? {
      assert Apply(store, first)[policy] == Desired();
      RenderedPolicyIsCurrent(policy);
    }
  }

  /** With the corrected name, a second run right after the first changes
      nothing: no PUT and no error. */
  lemma EnsureIntendedIdempotent(store: Store, name: string)
    ensures var policy := PolicyName(name);
      var after := Apply(store, EnsureIntended(name, Get(store, policy), Accepted));
      EnsureIntended(name, Get(after, policy), Accepted) == Run(policy, None, None)
  {
    var policy := PolicyName(name);
    EnsureIntendedConverges(store, name);
    EnsureIntendedLeavesCurrentPolicy(Apply(store, EnsureIntended(name, Get(store, policy), Accepted)), name, Accepted);
  }

  /** A stale threshold (e.g. a stored "100gb" rollover size) makes the
      corrected flow overwrite the policy with the one rendering "300gb". */
  lemma EnsureIntendedRewritesStalePolicy(store: Store, name: string)
    requires PolicyName(name) in store
    requires ExistingSettings(map[PolicyName(name) := Obj(store[PolicyName(name)])], PolicyName(name)).rolloverSize == "100gb"
    ensures var after := Apply(store, EnsureIntended(name, Get(store, PolicyName(name)), Accepted));
      ExistingSettings(map[PolicyName(name) := Obj(after[PolicyName(name)])], PolicyName(name)).rolloverSize == "300gb"
  {
    ReadBackRendered(PolicyName(name), RolloverSize, RolloverAge, DeleteAge);
    RenderedConstants();
  }
}
