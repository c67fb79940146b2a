# ILM policy bootstrap — a Dafny model

This project models the bootstrap code that makes sure an index lifecycle
management (ILM) policy exists on an Elasticsearch cluster and holds the
thresholds the fleet server expects. The code is `EnsureILMPolicy` and its
helpers in `internal/pkg/testing/esutil/ilm.go`. It works in four steps:

- It derives the policy name `<name>-ilm-policy`.
- It fetches that policy and classifies the response:
  - a transport error is returned;
  - a definite 404 leads to creating the policy;
  - a 404 routed from somewhere else, or any other error response, is returned as an error;
  - a 200 leads to a comparison.
- The comparison reads `max_size`, `max_age` and `min_age` out of the fetched
  document. It uses a schema-tolerant accessor (`stringMap.GetMap` /
  `GetString`) and compares the strings with `"300gb"`, `"30d"` and `"90d"`.
  If any of them differs, it overwrites the policy.
- The policy document is rendered from three integer thresholds. A subtree is
  present only when its threshold is non-zero.

Modules (one per concern):

- `Base`: `Option` and `Result`.
- `Text`: Go's `strconv.Itoa` (`Itoa`), its inverse `ParseInt`, and suffix stripping.
- `Json`: decoded documents as a `Value` tree, the tolerant accessor
  (`GetMap`, `GetString`, chained as `GetPath`), and a strict reference
  navigation `Lookup` that the accessor is proved against.
- `Policy`: the constants, `PolicyName`, `RenderSize`, `RenderDays` and
  `RenderPolicy`, with their inverses and the shape of the rendered tree.
- `Reconcile`: `Classify`, `CreatePolicy`, `ExistingSettings`, `CheckUpdate`,
  `Ensure` (as written) and `EnsureIntended` (corrected, see Findings).
- `Cluster`: a simulated policy store. Its GET answers with the stored policy
  nested under its own name, or with a 404 envelope of status 404; an accepted
  PUT replaces the named policy. Convergence and idempotence are stated against it.

The remote GET and PUT are not modelled as code. Their outcomes are inputs to
`Ensure`: `Fetch` is a transport error or a response, and `Put` is a transport
error or a response. A response is described by what the helpers the file
calls make of it. `stringMap`, `ClientError`, `parseResponseError` and
`checkResponseError` are not part of this model; they are defined elsewhere
in the package. Their behaviour is taken only from how `ilm.go` uses them:
- `GetMap` returns the child object or an empty one.
- `GetString` returns the string or `""`.
- `parseResponseError` yields an envelope `{status, error: {type, reason}}` or an error.
- `checkResponseError` yields nil or an error.

## Model

| member | source | states |
|---|---|---|
| Policy.PolicyName | internal/pkg/testing/esutil/ilm.go:164-166 | the policy name is the logical name followed by exactly `-ilm-policy` |
| Policy.BaseNameOfPolicyName | internal/pkg/testing/esutil/ilm.go:164-166 | stripping `-ilm-policy` from a derived policy name recovers the logical name |
| Policy.PolicyNameInjective | internal/pkg/testing/esutil/ilm.go:164-166 | two logical names give the same policy name iff they are equal |
| Text.NatDigits | internal/pkg/testing/esutil/ilm.go:211 | decimal digits are non-empty, all digits, with a leading zero only for zero |
| Text.ParseItoa | internal/pkg/testing/esutil/ilm.go:211 | parsing the `strconv.Itoa` rendering of any integer, negative ones included, gives back that integer |
| Text.ItoaInjective | internal/pkg/testing/esutil/ilm.go:211 | two integers render to the same decimal string iff they are equal |
| Policy.ParseRenderSize | internal/pkg/testing/esutil/ilm.go:210-212 | a rendered size is a decimal integer followed by `gb`, and parsing it gives back the size |
| Policy.ParseRenderDays | internal/pkg/testing/esutil/ilm.go:214-216 | a rendered age is a decimal integer followed by `d`, and parsing it gives back the age |
| Policy.RenderSizeInjective | internal/pkg/testing/esutil/ilm.go:210-212 | equal size strings mean equal sizes, so the string comparison of the update check compares sizes |
| Policy.RenderDaysInjective | internal/pkg/testing/esutil/ilm.go:214-216 | equal day strings mean equal ages |
| Policy.RenderedConstants | internal/pkg/testing/esutil/ilm.go:31-33 | the fixed thresholds 300, 30 and 90 render as `"300gb"`, `"30d"` and `"90d"` |
| Policy.RenderPolicy | internal/pkg/testing/esutil/ilm.go:168-208 | the document holds only `policy`, which holds only `phases`; `phases` has no keys besides `hot` and `delete`; `hot` exists iff the rollover size or age is non-zero; `delete` exists iff the delete age is non-zero |
| Policy.RenderRollover | internal/pkg/testing/esutil/ilm.go:178-191 | `hot.actions.rollover` exists iff a rollover threshold is non-zero, and its key set is then exactly `max_size` (if the size is non-zero) plus `max_age` (if the age is non-zero) |
| Policy.RenderPhaseShapes | internal/pkg/testing/esutil/ilm.go:178-200 | when present, `hot` holds only `actions`, which holds only `rollover`; `delete` holds only `min_age` and `actions`, which holds only `delete` |
| Policy.RenderRolloverFields | internal/pkg/testing/esutil/ilm.go:182-187 | `max_size` exists iff the size is non-zero and then equals its rendering; the same holds for `max_age` and the age |
| Policy.RenderDeleteFields | internal/pkg/testing/esutil/ilm.go:193-200 | `delete.min_age` exists iff the delete age is non-zero and equals its rendering, and `delete.actions.delete` is then an empty object |
| Policy.RenderAllZeroIsTemplate | internal/pkg/testing/esutil/ilm.go:22-29 | with all thresholds zero the rendered document is exactly the template `{policy:{phases:{}}}` |
| Json.GetPathAgreesWithLookup | internal/pkg/testing/esutil/ilm.go:115-118 | a chain of `GetMap` calls gives the object strictly found on that path, or the empty object when any level is missing or not an object |
| Json.ReadAgreesWithLookup | internal/pkg/testing/esutil/ilm.go:120-122 | `GetMap(...).GetString(k)` gives the string strictly stored at the path, and `""` in every other case; it never fails |
| Reconcile.ExistingSettingsAgreeWithLookup | internal/pkg/testing/esutil/ilm.go:115-122 | the three strings the update check extracts are the ones strictly stored under the looked-up entry, or `""` |
| Reconcile.MissingEntryReadsEmpty | internal/pkg/testing/esutil/ilm.go:115-122 | a response without the looked-up entry reads as three empty strings |
| Reconcile.ReadBackRendered | internal/pkg/testing/esutil/ilm.go:117-122 | reading a rendered policy back through the accessor gives the rendered strings for non-zero thresholds and `""` for zero ones |
| Reconcile.RenderedPolicyIsCurrent | internal/pkg/testing/esutil/ilm.go:124-130 | the policy the code itself renders is never judged stale |
| Reconcile.Classify | internal/pkg/testing/esutil/ilm.go:48-100 | transport error is returned; 404 with unparsable body returns the parse error; 404 with envelope 404 creates; 404 with any other envelope status returns a `ClientError` with that status, type and reason; another error response returns the `checkResponseError` error; only 200 compares; any other status is done |
| Reconcile.CreatePolicy | internal/pkg/testing/esutil/ilm.go:145-162 | the PUT goes to `PolicyName` of its argument, sends the 300/30/90 rendering, and its result is the transport error or the `checkResponseError` result |
| Reconcile.CheckUpdate | internal/pkg/testing/esutil/ilm.go:105-143 | a decode error is returned with no PUT; otherwise a PUT is issued iff one extracted string differs from `"300gb"` / `"30d"` / `"90d"`, read under `PolicyName` of its argument; with no PUT it returns nil |
| Reconcile.UpdateKeyIsSuffixedTwice | internal/pkg/testing/esutil/ilm.go:95-115 | the key the update check reads is `<name>-ilm-policy-ilm-policy`, never the fetched policy name |
| Reconcile.Ensure | internal/pkg/testing/esutil/ilm.go:37-103 | exactly one GET of `PolicyName(name)`; a PUT happens iff the fetch is a definite 404 or a 200 whose twice-suffixed entry is stale; every PUT sends the rendered 300/30/90 document, to `PolicyName(name)` on create and to the twice-suffixed name on update; on a 200 the result is exactly that of the update check: the decode error with no PUT, nil when nothing is stale, else the PUT's error; errors come unchanged from the inputs or are the built `ClientError` |
| Reconcile.EnsureIntended | internal/pkg/testing/esutil/ilm.go:37-103 | the same flow with the update check given the logical name: every PUT targets the fetched policy and happens iff it is missing or stale; the same error results as `Reconcile.Ensure` on every branch (transport, parse, `ClientError`, decode, PUT error; nil when done or current) |
| Cluster.EnsureCreatesMissingPolicy | internal/pkg/testing/esutil/ilm.go:55-73 | against a cluster without the policy, one run creates it under its name with the rendered document and returns nil |
| Cluster.EnsureAsWrittenRewritesWrongPolicy | internal/pkg/testing/esutil/ilm.go:94-142 | as written, whenever the policy exists a run PUTs the rendered document to `<name>-ilm-policy-ilm-policy`, whatever the stored policy holds |
| Cluster.EnsureAsWrittenNotIdempotent | internal/pkg/testing/esutil/ilm.go:37-146 | as written, a second run after a successful create still issues a PUT |
| Cluster.EnsureIntendedLeavesCurrentPolicy | internal/pkg/testing/esutil/ilm.go:128-142 | corrected: a stored policy with current thresholds yields no PUT and nil |
| Cluster.EnsureIntendedConverges | internal/pkg/testing/esutil/ilm.go:37-143 | corrected: one run with an accepted PUT returns nil and leaves the cluster holding the policy with current thresholds |
| Cluster.EnsureIntendedIdempotent | internal/pkg/testing/esutil/ilm.go:37-143 | corrected: a second run right after the first issues no PUT and returns nil |
| Cluster.EnsureIntendedRewritesStalePolicy | internal/pkg/testing/esutil/ilm.go:124-140 | corrected: a stored `"100gb"` rollover size is overwritten by a policy reading `"300gb"` |

## Findings

| source | as written | input that shows it | evidently intended | confidence | as-written member | corrected member |
|---|---|---|---|---|---|---|
| internal/pkg/testing/esutil/ilm.go:95 | `EnsureILMPolicy` passes the already-suffixed `policy` to `checkUpdateILMPolicy`. That function suffixes it again, both for the lookup (line 106, 115) and, through `createILMPolicy`, for the PUT (line 140, 146). | name `n` with `n-ilm-policy` already stored with 300gb/30d/90d: the GET answers `{"n-ilm-policy": {...}}`; the check reads key `n-ilm-policy-ilm-policy`, finds `""` three times, and PUTs policy `n-ilm-policy-ilm-policy` | read the fetched entry `n-ilm-policy`, and overwrite only that policy, only when it is stale; a second run is a no-op | high; not executed | Cluster.EnsureAsWrittenNotIdempotent | Reconcile.EnsureIntended |

`Reconcile.Ensure` keeps the code as written; `Reconcile.EnsureIntended` is
the corrected flow. The convergence lemmas of `Cluster`
(`EnsureIntendedConverges`, `EnsureIntendedIdempotent`,
`EnsureIntendedRewritesStalePolicy`) are stated about the corrected flow. The
idempotence they prove is what the code's own comment at `ilm.go:93` intends
("Check the settings and if they need to be updated": the fetched policy is the
one to check and update), and the code as written does not provide it.

## Left out

- The Elasticsearch client calls `ILM.GetLifecycle` and `ILM.PutLifecycle`, the HTTP transport and `res.Body.Close`: external I/O, so their outcomes are the inputs `Fetch` and `Put`.
- zerolog logging: side effects only, never affects control flow.
- Byte-level JSON (the `json.Unmarshal` of the template, `json.Marshal`, `json.NewDecoder`), key order and whitespace: documents are trees, and a decode failure is an error value in the response.
- JSON numbers are modelled as integers, not floating point: the code never reads one.
- `mustRender` and its panic: the template and the rendered tree always encode, so rendering is total.
- `stringMap`, `ClientError`, `parseResponseError` and `checkResponseError` internals: defined elsewhere in the package and known only through their use in this file.
- `context.Context` cancellation and races between concurrent runs: these belong to the transport and the callers.
- Go's `int` is 64-bit. The thresholds are modelled as unbounded integers, and `Itoa` agrees with `strconv.Itoa` on the 64-bit range.
- The `Cluster` store is a reference for stating convergence. It is not a model of Elasticsearch beyond answering the GET with the policy nested under its name, or with a 404 envelope of status 404.
