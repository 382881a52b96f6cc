# Kobe: verified models of the teardown authority, sandbox contracts and session transport

Kobe leases short-lived Kubernetes clusters and sandboxes. This project models the decision logic
whose mistakes would be expensive and proves what it promises, over every input and every run:

* **Teardown authority** (`Cel`, `ExpressionText`, `ExpressionSource`, `AuthorityExpressions`,
  `AuthorityTexts`, `SourceStrings`, `NameVariants`, `PolicyValidation`, `AuthorityRuns`, `RawNames`,
  `Firewall`, `Startup`). The operator requires a fixed set of CEL expressions in an installed admission
  policy and accepts at startup only a policy whose texts contain them up to white space. Expressions are
  trees with an error-aware evaluator, and texts as the operator spells them, string by string. Each
  expression is shown equivalent to a plain statement about the request, and accepting a text by its
  normal form is shown to fix its meaning, exactly for names without raw white space; what acceptance is
  still worth for other names is stated too. From "startup accepted this policy", whatever else the policy
  holds, follow safety and causality over whole runs of requests by arbitrary users.
* **Reading the texts back** (`CelReader`, `CelOperands`, `SolidTexts`, `CelRoundTrip`,
  `CompilerExists`). A recursive-descent reader of CEL's operators, with their precedence, and of the forms
  the texts use gives every text the operator can spell the meaning of its expression. It is a compiler of
  the kind the other results assume, so their main statements are repeated for it without assumptions.
* **Sandbox contracts** (`Decimal`, `Quantity`, `QuantityExact`, `ResourceTotals`, `SecretFiles`,
  `Provenance`, `Lifecycle`). The quantity parser's loop over checked 128-bit arithmetic is exact;
  ceilings compare exact sums; recorded identities only grow; expiry is always readiness plus
  runtime plus granted extensions.
* **Lease binding** (`LeaseBinding`). Access and teardown decide over one snapshot of the API server
  and exclude each other; a binding whose object is gone never resolves again.
* **Session transport** (`TicketHub`, `BlobFraming`). A mutable ticket map with eager garbage
  collection refines a history of mints and claims; length-prefixed framing round-trips.
* **RBAC revocation** (`Rbac`). Splitting rules removes exactly one permission over an unbounded
  universe of permissions.

Where the original works by loops and updates, so does the model (methods with loops in
`AuthorityExpressions`, `Quantity`, `ResourceTotals`, `SecretFiles`, `Provenance` and `Rbac`; classes
in `TicketHub` and `BlobFraming`), each proved against a specification function. Everything else is
functions on values.

`dafny verify dfyconfig.toml` checks the whole project.

## What the model assumes of the environment

* The API server files objects by name, gives each created object a fresh UID, keeps an object's UID
  on update, keeps metadata on a status write, only stamps an object that still has finalizers when
  asked to delete it, and removes a stamped object when its last finalizer goes.
* A policy is evaluated on a request when one of its resource rules matches and no exclusion does; a
  failing or non-evaluating expression denies under failure policy `Fail`. Selectors, match
  conditions and parameters may exempt any request: their verdict is an arbitrary boolean.
* Requests that reach a proof-bearing resource do so in the API version the policy names.
* The server's CEL compiler is an arbitrary function. A plain text (no comment, no raw, byte or
  triple-quoted literal) reaches it as its program, with runs of CEL white space between tokens
  counted as one, and not at all if other white space stands there; any other text reaches it as it
  is. It gives the texts the operator itself spells the meaning of their expressions (`Reads`).
  For the firewall it does so for all names, and it reads a text that ends in some other string literal
  as the expression over some name, or not at all (`FirewallReader`). `CompilerExists.RequiredAreRead`,
  `CompilerExists.ChartIsRead` and `CompilerExists.FirewallIsRead` show these met by a reader written out
  from CEL's grammar; what is left to assume is that the server agrees with it on these texts.
* Clocks do not run backwards.

## Where code and documentation part

* The retention rule the operator requires at startup is not among the expressions the chart
  renders, which carry a quarantine override. `AuthorityRuns.ChartPolicyRefusedAtStartup` shows
  startup refuses every policy built from the chart's expressions, so the two sets are treated as two
  policies, each with its own causality theorem.
* `read_blob` documents a clean end only before any bytes. The code reports one after one to three
  bytes of a length prefix too: `BlobFraming.CleanEndIffNoPrefix`.
* `revokeVerb` documents that a wildcard rule is refused. A list holding both the wildcard and the
  exact name is accepted and grants on, and a target that is itself a wildcard is accepted too.
  `Rbac.RemovesExactlyIffClean` gives the exact condition for every target.
* `release_requested` and the policy's annotation test differ on an empty UID with an empty
  annotation, and only there: `AuthorityExpressions.ReleaseTestsAgree`.
* Comparing texts up to white space fixes the program of a plain text exactly when the text keeps raw
  white space out of its literals (`ExpressionText.NormalizedEqualitySoundIffClean`). The identity
  contract does not exclude it from names. `RawNames.StartupEnforcesIff` gives the exact
  condition on the authority's name, `RawNames.ChartEnforcesIff` that on both names of the chart's set,
  and `Startup.RawWhitePassesStartup` the failing family.
* The firewall's texts are compared in the same way, and its two names may hold raw white space too.
  `Firewall.FirewallRefusesExactly` says for all names what every accepted policy refuses: with raw
  white space in the control plane's name nothing, with some in the namespace only what is forbidden
  whatever the namespace is called. `Firewall.RawControlPlanePasses` and `Firewall.RawNamespacePasses`
  are the failing families; `Startup.RawControlPlanePassesStartup` and
  `Startup.RawNamespacePassesStartup` show that startup lets them by.
* The identity firewall is documented as keeping the control plane from using the authority identity.
  Its coverage lists Deployments but not `deployments/scale`: `Firewall.ScaleSlipsThrough` is that
  input, and `Firewall.FirewallRefusesExactly` says which requests every accepted policy refuses.
* Target provenance is documented as checking every present reference; replacement Pods are never
  checked: `Provenance.ReplacementPodsUnchecked`, with `Provenance.MalformedPodIsReleaseSafe` as input.

## Model

| member | source | states |
|---|---|---|
| AuthorityExpressions.BuildRequiredExpressions | src/receipt_authority.rs:257-311 | The operator's pushes, field list by field list, build exactly the specified expression sequence; what it contains is in `SourceStrings.RequiredStrings`, what it protects in `AuthorityRuns.RequiredProtectsByName` and `AuthorityRuns.OtherFieldsFree`. |
| AuthorityExpressions.UnchangedStatusFieldMeaning | src/receipt_authority.rs:234-239 | The rule holds exactly when the request is elsewhere, by the authority, a deletion, or keeps the field: absent on creation, present with the same value or absent on both sides of an update; errors in evaluation included. |
| AuthorityExpressions.AuthorityCannotChangeMeaning | src/receipt_authority.rs:241-252 | The mirror rule holds exactly when the request is not the authority's or keeps the lifecycle field. |
| AuthorityExpressions.EvidenceOnlyByAuthorityMeaning | src/receipt_authority.rs:259-261 | Teardown evidence is written by the authority alone, and the rule refuses nothing else. |
| AuthorityExpressions.AuthorityWritesStatusOnlyMeaning | src/receipt_authority.rs:262-264 | On leases and instances the authority is confined to the status subresource, exactly; an omitted subresource counts as refusal. |
| AuthorityExpressions.ConnectTokenReciprocalMeaning | src/receipt_authority.rs:298-302 | The rule holds exactly when creation and binding of the connect token are reciprocal field by field and, where they are compared, both are objects; on schema-typed objects the latter is no condition. |
| AuthorityExpressions.TokenIdentityMeaning | src/receipt_authority.rs:298-302 | The identity comparison holds exactly when apiVersion, kind, name, uid and optional namespace agree. |
| AuthorityExpressions.AbsenceUnchangedMeaning | src/receipt_authority.rs:303-305 | The AllocationAbsent conditions of a lease are kept, exactly, unless the authority writes or the lease is deleted. |
| AuthorityExpressions.RetentionKeptMeaning | src/receipt_authority.rs:306-309 | The rule holds exactly when an update drops the retention finalizer only with the acknowledgement on record and kept, and drops nothing from an object whose finalizers cannot be read. |
| AuthorityExpressions.RetentionKeptOrReleasedMeaning | hack/test-agent-sandbox-chart.ts:403 | The chart's variant holds exactly when that does, or the control plane acts on a release of a quarantined lease. |
| AuthorityExpressions.QuarantineOverrideMeaning | hack/test-agent-sandbox-chart.ts:403 | The override holds exactly for the control plane on a Quarantined lease whose release annotation equals its own UID. |
| AuthorityExpressions.ReleaseGrantedByOperatorMeaning | hack/test-agent-sandbox-chart.ts:404-407 | The rule holds exactly when neither Kobe identity introduces or changes a release annotation, nor writes an object whose annotations cannot be read. |
| AuthorityExpressions.ReleaseTestsAgree | src/quarantine.rs:47-58 | The policy's annotation test agrees with the controller's release test if and only if UID and annotation are not both the empty string; an object without a UID included. |
| PolicyValidation.CoverageMatches | src/receipt_authority.rs:330-378 | A rule that covers a line of coverage, in the operator's reading, matches every request inside it, in the server's reading. |
| PolicyValidation.AcceptedPolicyEnforced | src/receipt_authority.rs:106-228 | Whatever else an accepted policy holds and whatever selectors would exempt, every covered request it admits satisfies what the server compiles from every required text, for every compiler, when the texts are plain, closed and clean. |
| PolicyValidation.AcceptedSetEnforced | src/receipt_authority.rs:106-228 | The same, read as expressions, for a compiler that reads the operator's own texts as meant. |
| PolicyValidation.StartupEnforces | src/receipt_authority.rs:106-228 | When startup accepts and the authority's name holds no raw white space, every proof-bearing request the policy admits satisfies every required expression. |
| PolicyValidation.ChartEnforces | hack/test-agent-sandbox-chart.ts:386-408 | The same for the chart's texts under startup's checks, when neither Kobe name holds raw white space; the converse is in `RawNames.ChartEnforcesIff`. |
| PolicyValidation.ProofRequestCovered | src/receipt_authority.rs:125-159 | Every request on evidence, leases, instances and their status is inside the required coverage. |
| PolicyValidation.MinimalPolicyAccepted | src/receipt_authority.rs:682-702 | A policy made of the required rules and of any texts with the required normal forms is accepted, for any coverage; which others are is in `PolicyValidation.Verdict`. |
| PolicyValidation.Verdict | src/receipt_authority.rs:106-228 | The verdict in full, on every policy and binding: accepted if and only if the policy is sound by its fields (its name, failure policy Fail, no parameters, conditions, exclusions or selectors, no Exact match policy, each line of coverage spanned by one rule, each text said), observed, and bound; otherwise the first of these three that fails is blamed. |
| PolicyValidation.WidenedStaysAccepted | src/receipt_authority.rs:106-228 | An accepted policy stays accepted with any further rules and validations, and with any match policy but Exact. |
| PolicyValidation.AuthorityLine | src/receipt_authority.rs:125-159 | A rule spans the operator's line exactly when it names Kobe's group and version, no object names and no scope, all three changes, evidence, leases, instances and both status subresources. |
| PolicyValidation.StartupVerdict | src/receipt_authority.rs:106-228 | That verdict for the authority's own coverage and texts. |
| PolicyValidation.MissingCoverageRefused | src/receipt_authority.rs:757-793 | No line of required coverage is dispensable: every policy whose rules leave one uncovered is refused as invalid. |
| PolicyValidation.MissingTextRefused | src/receipt_authority.rs:848-861 | Nor is a required text: every policy without one of its normal form is refused as invalid. |
| AuthorityRuns.RequiredIsExact | src/receipt_authority.rs:257-311 | On typed requests the whole required set passes if and only if the request respects the authority fences, over protected fields listed by name, and retention. |
| AuthorityRuns.RequiredProtectsByName | src/receipt_authority.rs:265-297 | Whatever passes the required set and is no deletion keeps the five proof fields of a lease and the two of an instance unless the authority writes, and the four lifecycle fields of a lease and the three of an instance when it does, each by name. |
| AuthorityRuns.OtherFieldsFree | src/receipt_authority.rs:257-311 | The required set restricts nothing else: no required expression answers differently for requests that differ in any other status field alone. |
| AuthorityRuns.ListsByName | src/receipt_authority.rs:265-297 | The four field lists hold exactly the fields that the named fences list. |
| AuthorityRuns.ChartIsExact | hack/test-agent-sandbox-chart.ts:386-408 | The same equivalence for the chart's set, with the operator's release in place of strict retention. |
| AuthorityRuns.CommonIsExact | src/receipt_authority.rs:257-305 | The expressions both sets share say exactly who may change what, with CEL out of the picture. |
| AuthorityRuns.StepSeparatesAuthority | src/receipt_authority.rs:234-311 | Under every policy that enforces the shared expressions, on every step of every run: proof fields and AllocationAbsent change only by the authority, lifecycle fields only by others, evidence only by the authority, and the authority neither adds nor removes a lease or instance. |
| AuthorityRuns.ProofHasAuthorityAuthor | src/receipt_authority.rs:234-288 | Under every such policy, every proof on a live object was written by the authority, through status, to that very UID, earlier in the run. |
| AuthorityRuns.LifecycleHasOtherAuthor | src/receipt_authority.rs:241-297 | Under every such policy, every lifecycle field of a live object was written by somebody other than the authority, to that very UID. |
| AuthorityRuns.TokensStayReciprocal | src/receipt_authority.rs:298-302 | Under every such policy, in every state of every run each live lease has reciprocal connect-token creation and binding. |
| AuthorityRuns.NoDeadRun | src/receipt_authority.rs:257-311 | No stored object of any run is marked for deletion with no finalizer left. |
| AuthorityRuns.RetentionOutlivesAcknowledgement | src/receipt_authority.rs:306-309 | Causality under every policy that enforces the required set: a lease that ever carried the retention finalizer keeps it and stays stored, unless the authority acknowledged that very UID earlier in the run. |
| AuthorityRuns.GrantHasOperatorAuthor | hack/test-agent-sandbox-chart.ts:404-407 | Under every policy that enforces the chart's set, every release annotation on a live lease was introduced to that UID by a user that is neither Kobe identity. |
| AuthorityRuns.ChartRetentionOutlivesRelease | hack/test-agent-sandbox-chart.ts:386-408 | Causality under every policy that enforces the chart's set: retention goes only after the authority's acknowledgement, or through the control plane on a Quarantined lease released under its own UID by an outside operator. |
| AuthorityRuns.AcceptedChartRetains | hack/test-agent-sandbox-chart.ts:386-408 | That causality for every policy startup's checks accept with the chart's texts, when neither Kobe name holds raw white space. |
| AuthorityRuns.ChartPolicyRefusedAtStartup | src/receipt_authority.rs:161-192 | Startup refuses every policy whose texts all read as texts of the chart's set. |
| AuthorityTexts.ChartReadsApart | hack/test-agent-sandbox-chart.ts:386-408 | No text of the chart, for any names, has the normal form of the retention rule startup requires. |
| RawNames.RawWhiteAcceptsAnother | src/receipt_authority.rs:161-171 | For every name with raw white space, an accepted policy and an admitted request by another account that writes teardown evidence. |
| RawNames.StartupEnforcesIff | src/receipt_authority.rs:106-171 | Acceptance at startup means enforcement of the required set if and only if the authority's name holds no raw white space. |
| RawNames.ChartEnforcesIff | hack/test-agent-sandbox-chart.ts:386-408 | Under startup's checks with the chart's texts, acceptance means enforcement if and only if neither Kobe name holds raw white space. |
| RawNames.RawAuthorityEscapesChart | hack/test-agent-sandbox-chart.ts:386-408 | For every authority name with raw white space, an accepted policy that does not enforce the chart's set. |
| RawNames.RawControlPlaneEscapesChart | hack/test-agent-sandbox-chart.ts:404-407 | The same for every control-plane name with raw white space, unless both identities are one. |
| NameVariants.VariantCompilesAsLiteral | src/receipt_authority.rs:161-171 | Whatever the name a required text ends with, an accepted text compiles, for every compiler, as the same code before one string literal, or not at all. |
| Firewall.IdentityRoundTrip | src/receipt_authority.rs:100-104 | Parsing a ServiceAccount username succeeds with a namespace and name if and only if it is their formatting and both are non-empty and colon-free. |
| Firewall.ContractMeaning | src/receipt_authority.rs:78-98 | The identity contract holds if and only if names are not blank, policies differ, the authority is an account of its namespace and the control plane an account of another. |
| Firewall.CoveredIffListed | src/receipt_authority.rs:402-487 | A request is inside the firewall's coverage exactly when its group, version, verb and kind are among the ones listed by name. |
| Firewall.FirewallLines | src/receipt_authority.rs:402-487 | The rules of an accepted firewall policy span the coverage exactly when, for each of ten lines given by name, one rule takes all its kinds and verbs. |
| Firewall.FirewallVerdict | src/receipt_authority.rs:384-549 | The verdict on every firewall policy and binding, as for the authority's own. |
| Firewall.FirewallMeaning | src/receipt_authority.rs:313-328 | The three firewall expressions together refuse exactly the control plane's requests on the authority namespace, its contents and cluster RBAC. |
| Firewall.ForbiddenRefused | src/receipt_authority.rs:384-549 | For all names, an accepted firewall policy admits no control-plane request it promises to refuse: covered and forbidden, or, when the namespace holds raw white space, forbidden under any namespace, as long as the control plane's name holds none. |
| Firewall.LineRuleMatchesWithin | src/receipt_authority.rs:330-378 | The rule made for a line of coverage matches, in the server's reading, exactly the requests inside it. |
| Firewall.FirewallRefusesExactly | src/receipt_authority.rs:384-549 | For all names, every accepted firewall policy refuses a control-plane request if and only if the control plane's name holds no raw white space, the request is covered, and it is forbidden, under any namespace if the configured one holds raw white space. |
| Firewall.RawControlPlanePasses | src/receipt_authority.rs:384-549 | For every control-plane name with raw white space, an accepted policy that admits any given request of the control plane. |
| Firewall.RawNamespacePasses | src/receipt_authority.rs:384-549 | For every namespace with raw white space, an accepted policy that admits any given request not forbidden under every namespace. |
| Firewall.ScaleSlipsThrough | src/receipt_authority.rs:384-549 | For every control plane and namespace, an accepted policy that admits the control plane's update of a Deployment's scale in the authority namespace. |
| Firewall.ProtectedChangedByOthers | src/receipt_authority.rs:380-549 | In any run of any requests and for all names, a protected object that has changed was reached by a step the control plane did not make, or that the firewall does not promise to refuse; with clear names, one outside the coverage. |
| Firewall.ControlPlaneAloneChangesNothing | src/receipt_authority.rs:380-549 | Under every accepted policy, a run of covered control-plane requests leaves every shielded object unchanged: all protected ones with clear names, cluster RBAC if only the control plane's name is clear. |
| Firewall.ControlPlaneAloneIff | src/receipt_authority.rs:313-549 | Being shielded is exact: a protected object that some covered control-plane request names is shielded if and only if no run of such requests under any accepted policy changes it. |
| Firewall.AuthorityNeverFirewalled | src/receipt_authority.rs:313-328 | Under the identity contract the firewall expressions pass every request of the authority. |
| Startup.ProofsComeFromTheStartedAuthority | src/receipt_authority.rs:34-76 | After a successful startup, with a name without raw white space, every proof in every run was written by the account that passed startup, which lives in the authority namespace and is not the control plane. |
| Startup.StartedRunsSeparateAuthority | src/receipt_authority.rs:34-76 | After it, on every step of every run: proofs change only by the authority, lifecycle fields only by others, evidence only by the authority, and the authority adds and removes no lease or instance. |
| Startup.StartedRunsRetain | src/receipt_authority.rs:34-76 | After it, a lease that ever carried the retention finalizer keeps it and stays stored, unless the authority acknowledged that very lease earlier. |
| Startup.AuthorityOutOfReach | src/receipt_authority.rs:34-76 | After it, for all names, whatever changes of the authority namespace, its contents or cluster RBAC over any run was reached by somebody other than the control plane, or by a request the firewall does not promise to refuse; with clear names, one outside its coverage. |
| Startup.StartupSucceedsOnMinimal | src/receipt_authority.rs:34-76 | On policies with the required texts and nothing else, startup succeeds exactly when the identity contract holds and the caller is the authority. |
| Startup.StartupSucceedsIff | src/receipt_authority.rs:34-104 | On every cluster startup succeeds if and only if the two accounts are kept apart as the contract says, the caller is the authority, and both policies are sound, observed and bound. |
| Startup.ContractAdmitsRawWhite | src/receipt_authority.rs:78-104 | The identity contract admits names with a blank in them, of the authority and of the control plane. |
| Startup.RawWhitePassesStartup | src/receipt_authority.rs:34-76 | For every contract whose authority name holds raw white space, a cluster that passes startup and lets another account write teardown evidence. |
| Startup.RawControlPlanePassesStartup | src/receipt_authority.rs:34-76 | For every contract whose control-plane name holds raw white space, a cluster that passes startup and whose firewall admits any given request of the control plane. |
| Startup.RawNamespacePassesStartup | src/receipt_authority.rs:34-76 | For every contract whose namespace holds raw white space, a cluster that passes startup and whose firewall admits any given request not forbidden under every namespace. |
| ExpressionText.NormalizeIsCollapsed | src/receipt_authority.rs:230-232 | Splitting into words and joining with blanks is one left-to-right collapse of white space. |
| ExpressionText.NormalFormIsItsWords | src/receipt_authority.rs:230-232 | Two texts have one normal form exactly when they are made of the same words. |
| ExpressionText.NormalizedEqualityIsSound | src/receipt_authority.rs:161-171 | Texts with equal normal forms are the same program when the required one is plain, closed and keeps white space out of literals; the other one is plain then too. |
| ExpressionText.NormalizedEqualitySoundIffClean | src/receipt_authority.rs:161-171 | For plain, closed texts that condition on literals is also necessary. |
| ExpressionText.QuotedIsOneLiteral | src/receipt_authority.rs:235 | A JSON-quoted name is one closed literal whatever the name, plain unless a literal prefix stands before it, and free of white space exactly when the name has none that JSON keeps raw. |
| ExpressionText.QuotedDecodes | src/receipt_authority.rs:235 | Quoting is undone by reading the literal as JSON, for every name. |
| ExpressionText.CommentsAreNotPlain | src/receipt_authority.rs:230-232 | Normalisation loses the line break that ends a comment; texts with a comment are not plain. |
| ExpressionText.DoubledNameReadsAlike | src/receipt_authority.rs:230-264 | Repeating raw white space in a name leaves the normal form of the text around it unchanged. |
| ExpressionSource.SourceTextSoundIff | src/receipt_authority.rs:234-328 | Every text the operator spells is plain and closed, and its comparison up to white space fixes its program if and only if none of its configured names holds raw white space. |
| ExpressionSource.AcceptedTextCompilesAlike | src/receipt_authority.rs:161-171 | For every compiler, a text accepted in place of a plain, closed, clean one compiles to the same expression or not at all. |
| AuthorityTexts.RequiredTextsFirm | src/receipt_authority.rs:234-311 | Every required text is plain, closed and clean when the authority's name holds no raw white space. |
| AuthorityTexts.ChartTextsFirm | hack/test-agent-sandbox-chart.ts:386-408 | The same for the chart's texts over both Kobe names. |
| SourceStrings.RequiredStrings | src/receipt_authority.rs:234-311 | The required expressions are spelled, in order, as the very strings the operator formats, for every name. |
| SourceStrings.ChartStrings | hack/test-agent-sandbox-chart.ts:386-408 | The same for the chart's strings. |
| SourceStrings.FirewallStrings | src/receipt_authority.rs:313-328 | The same for the three strings of the firewall. |
| CelRoundTrip.ReaderReads | src/receipt_authority.rs:234-328 | Reading a text with the written-out reader gives the meaning of its expression, for every expression in the operator's fragment, whatever its shape, depth and names. |
| CelRoundTrip.ExprReads | src/receipt_authority.rs:234-328 | The reader takes exactly the spelled expression off the front of a text, in front of anything that ends an expression, with conjunctions nested to the left. |
| CelRoundTrip.ReadKeepsMeaning | src/receipt_authority.rs:234-328 | Nesting conjunctions to the left changes no verdict and no error. |
| CelRoundTrip.EndingCompiles | src/receipt_authority.rs:313-328 | A rule that ends in any other string literal reads as that rule over some name, or not at all. |
| CompilerExists.RequiredAreRead | src/receipt_authority.rs:234-311 | What the authority's results assume of a compiler is met for the required set. |
| CompilerExists.ChartIsRead | hack/test-agent-sandbox-chart.ts:386-408 | And for the chart's. |
| CompilerExists.FirewallIsRead | src/receipt_authority.rs:313-328 | And what the firewall's results assume, for all names. |
| CompilerExists.AcceptedMeansEnforcedIff | src/receipt_authority.rs:106-228 | With no assumption on compilers: acceptance at startup means enforcement of the required set for exactly the names without raw white space. |
| CompilerExists.AcceptedChartMeansEnforcedIff | hack/test-agent-sandbox-chart.ts:386-408 | The same for the chart's set and both Kobe names. |
| CompilerExists.AcceptedFirewallRefusesExactly | src/receipt_authority.rs:384-549 | The same for the firewall: for all names, what every accepted policy refuses the control plane. |
| Quantity.ScanMantissa | src/sandbox.rs:843-867 | The loop reads integer and fraction digits as one number, finds the suffix, and gives up exactly when 128-bit or 32-bit counters would overflow. |
| Quantity.ParseQuantityNanos | src/sandbox.rs:834-915 | The parser as it runs computes the specified result on every string; what that result denotes is in `QuantityExact.QuantityIsExact`. |
| QuantityExact.QuantityIsExact | src/sandbox.rs:834-921 | Every notation (digits, point, digits, and a binary unit, a metric unit or a signed power of ten, each with a value of its own apart from the parser's tables) is accepted if and only if checked arithmetic carries it and it is in range, and is then the least whole nanounit at or above the rational it denotes. |
| QuantityExact.AcceptedIsWritten | src/sandbox.rs:834-903 | Every accepted string is the writing of such a notation, which is returned. |
| QuantityExact.SuffixReads | src/sandbox.rs:872-903 | The parser's tables give the n-th binary unit 1024 to the n, each metric unit its power of ten, and an exponent its signed number when that fits 32 bits. |
| QuantityExact.ReadSuffixIsProper | src/sandbox.rs:872-903 | The tables read no other suffix. |
| QuantityExact.SplitUnique | src/sandbox.rs:843-872 | No string has two readings as digits, point, digits and suffix. |
| QuantityExact.SpellingsAgree | src/sandbox.rs:834-921 | Accepted notations compare as the rationals they denote: equal values give equal numbers, larger ones never smaller numbers. |
| QuantityExact.BinaryAccepted | src/sandbox.rs:873-886 | A binary suffix is accepted exactly when numerator and denominator fit 128 bits and the value is in range. |
| QuantityExact.DecimalAccepted | src/sandbox.rs:886-915 | A decimal suffix or exponent is accepted exactly when its scaling fits and the value is in range. |
| ResourceTotals.ContainerLimitsMeaning | src/sandbox.rs:655-708 | A container passes exactly when all six amounts are valid and no request exceeds its limit in nanounits. |
| ResourceTotals.ErrorsNameTheFault | src/sandbox.rs:655-708 | The error of a container is true of it: the missing, invalid or exceeded amount it names, with that value. |
| ResourceTotals.AggregateResourceLimits | src/sandbox.rs:655-725 | The running totals are the sums of limits; a failure truly names the fault of the first unsound container or the first total that no longer fits. |
| ResourceTotals.AggregateIgnoresOrder | src/sandbox.rs:655-725 | Success and totals are the same for every reordering of the containers. |
| ResourceTotals.TotalsAreSums | src/sandbox.rs:655-725 | Totals are the exact sums of limits; bytes are their least whole number at or above, and millicores lose nothing in rounding. |
| ResourceTotals.OverflowUnreachable | src/sandbox.rs:709-714 | With up to 2^35 containers aggregation fails only on an unsound container. |
| ResourceTotals.CeilingComparesExactSums | src/sandbox.rs:728-760 | A ceiling admits a template if and only if it is valid and the exact sums of limits are at most the exact ceiling. |
| ResourceTotals.CeilingMeaning | src/sandbox.rs:728-751 | A ceiling parses exactly when both amounts are valid, to their exact values, and an error names the first that is not. |
| ResourceTotals.CeilingMonotone | src/sandbox.rs:753-760 | Raising a ceiling never withdraws an admission. |
| SecretFiles.ProjectSecretFiles | src/sandbox.rs:418-481 | The maps filled in a loop yield one volume per distinct Secret, its items in key order, and one mount per file, as specified. |
| SecretFiles.RenderProjection | src/sandbox.rs:436-480 | The second half of the projection names volumes by position, lists their items in key order and makes mounts by file. |
| SecretFiles.ListInOrder | src/sandbox.rs:444-455 | Walking an ordered map lists exactly its entries in increasing key order. |
| SecretFiles.MountReachesItsFile | src/sandbox.rs:418-481 | Each mount names exactly one volume, which projects the file's Secret, and exactly one of its items, whose key is the file's key. |
| SecretFiles.ItemsNumberedWithoutGaps | src/sandbox.rs:425-435 | A volume's items are exactly the keys the files take from its Secret, in key order, with paths numbered from zero without gaps by first appearance. |
| SecretFiles.DistinctKeepsOrder | src/sandbox.rs:425-430 | Secrets, and so volumes, are numbered by where they first appear. |
| Provenance.ValidTargetMeaning | src/sandbox.rs:1093-1300 | The chain of validations accepts exactly the well-formed targets, stated per field by apiVersion, kind, namespace and generation, and an error names a fault the target has. |
| Provenance.ScopeAndCredentialMeaning | src/sandbox.rs:1093-1250 | Scope per placement and the all-or-nothing kubeconfig credential, each exactly, with truthful errors. |
| Provenance.TableMeaning | src/sandbox.rs:1093-1300 | The loop over optional references passes exactly when each field that is present names an object of its own shape, and blames a field that does not. |
| Provenance.PlacementMeaning | src/sandbox.rs:1076-1091 | A placement is valid exactly when it is management, or names a ClusterPool of the operator's namespace with UID and generation. |
| Provenance.RecordMeaning | src/sandbox.rs:925-940 | The first placement that fits is recorded as proposed; after that only the same one is accepted. |
| Provenance.ReplacementPodsUnchecked | src/sandbox.rs:1093-1250 | Validation never depends on replacement Pods. |
| Provenance.ReleaseSafetyIgnoresPods | src/sandbox.rs:954-990 | Nor does release safety depend on them. |
| Provenance.MalformedPodIsReleaseSafe | src/sandbox.rs:954-990 | A status with an empty replacement Pod reference that is release-safe. |
| Provenance.MergeAppendOnly | src/sandbox.rs:1315-1326 | The loop computes the append-only merge. |
| Provenance.AppendOnlyMeaning | src/sandbox.rs:1315-1326 | The merge keeps what was there as a prefix and adds each new reference exactly once. |
| Provenance.MergeSucceedsIff | src/sandbox.rs:996-1074 | A merge succeeds with a result exactly so: placement and proposal validate, and with nothing on record the result is the proposal; otherwise what is recorded validates, namespaces agree, every recorded field is repeated, and the result is the proposal with append-only Pods. |
| Provenance.MergeExtends | src/sandbox.rs:996-1074 | The result of a merge extends what was known, validates, and holds every proposed Pod. |
| Provenance.MergeErrors | src/sandbox.rs:996-1074 | Every error of a merge says something true of what was on record or proposed. |
| Provenance.MergeRetryIsIdentity | src/sandbox.rs:992-1074 | Merging the same proposal, or the result itself, again changes nothing. |
| Provenance.RunOnlyGrows | src/sandbox.rs:925-1074 | Over every run of accepted and refused writes, recorded placement and identities form an increasing chain. |
| Provenance.FirstWritesAreRecorded | src/sandbox.rs:925-1074 | At every point of every run, the first fitting placement and then the first well-formed target are recorded exactly as proposed. |
| Provenance.RunKeepsFirstPlacement | src/sandbox.rs:925-940 | After every run the placement on record is the first fitting one that was ever proposed, and none if none was. |
| Provenance.ReleaseSafeMeaning | src/sandbox.rs:954-990 | A status is release-safe exactly with one valid placement and a well-formed target that fits that placement alone. |
| Provenance.ReleaseErrors | src/sandbox.rs:942-990 | Why a status is not release-safe, case by case. |
| Provenance.ReleaseSafetyPersists | src/sandbox.rs:954-1074 | Release safety is never lost over any run, with the same placement and every identity it rested on. |
| Lifecycle.BeginSucceedsIff | src/sandbox.rs:1387-1438 | Provisioning begins exactly from Pending under the deadline on record, or repeats unchanged from Provisioning. |
| Lifecycle.ReadySucceedsIff | src/sandbox.rs:1443-1500 | Readiness is accepted exactly up to the deadline, with the derived expiry in range; a Ready lease accepts only its own. |
| Lifecycle.BeginErrors | src/sandbox.rs:1387-1438 | Why beginning fails, case by case. |
| Lifecycle.ReadyErrors | src/sandbox.rs:1443-1500 | Why readiness is refused, case by case. |
| Lifecycle.TransitionMeaning | src/sandbox.rs:1504-1549 | For every pair of phases, whether the one may follow the other, and the error if not. |
| Lifecycle.ExtendSucceedsIff | src/api/sandbox.rs:5007-5206 | An extension is granted exactly when the lease is Ready and unexpired, the seconds are positive, the budget has one left or an idle window applies, and the new expiry is under the pool's and the policy's ceilings and representable; it then moves expiry by its seconds and counts once. |
| Lifecycle.RunRespectsCeilings | src/api/sandbox.rs:5007-5206 | After every run, an expiry that was ever extended is under the ceiling that stood at its last extension. |
| Lifecycle.RunKeepsBudget | src/api/sandbox.rs:5007-5206 | Without an idle window no run grants more extensions than the most any of its requests allowed. |
| Lifecycle.RunStaysConsistent | src/sandbox.rs:1383-1549 | Over every run expiry is readiness plus runtime plus granted extensions, and readiness is no later than the deadline. |
| Lifecycle.RunProgresses | src/sandbox.rs:1383-1549 | Between any two points of a run the deadline and readiness are written once, extensions only add, teardown is never undone and a clean terminal status is final. |
| Lifecycle.RunEntersPhases | src/sandbox.rs:1504-1549 | Ready is entered only from Provisioning in time, Released and Expired only from Releasing with cleanup verified, Provisioning only from Pending. |
| Lifecycle.TeardownStaysReachable | src/sandbox.rs:1504-1549 | Whatever a run did, a lease not yet ended can be quarantined, and can end in two steps exactly when cleanup is verified. |
| Lifecycle.BeginRetryIsIdentity | src/sandbox.rs:1404-1438 | A repeated begin is the identity. |
| Lifecycle.ReadyRetryIsIdentity | src/sandbox.rs:1443-1500 | A repeated ready pass is the identity, after any number of extensions in between. |
| LeaseBinding.ResolveFailsClosed | src/lease_binding.rs:148-318 | Resolution grants a tuple if and only if every reciprocal fact holds, the binding is well shaped field by field and the pool's exact reference is among the instance's owners, with no order between the checks. |
| LeaseBinding.ShapeMeaning | src/lease_binding.rs:411-479 | A binding passes the shape check exactly when it has an id of 1 to 128 bytes, named objects with UIDs, a generation of at least one, digests of hexadecimal digits of the right lengths, a backend that dispatches, a manifest that agrees or none where none is needed, and the connect token a receipt requires. |
| LeaseBinding.OwnerMeaning | src/lease_binding.rs:263-280 | An instance is owned by the pool exactly when its owners hold the reference to that ClusterPool by name and UID. |
| LeaseBinding.RefusalsAreTrue | src/lease_binding.rs:148-318 | A refusal is true: the reason it gives is a fact of the snapshot. |
| LeaseBinding.BareObjectsRefused | src/lease_binding.rs:164-318 | Objects without a status grant nothing, and the lease is refused as not bound or without binding. |
| LeaseBinding.AccessExcludesTeardown | src/lease_binding.rs:148-409 | An instance a tenant can reach is refused teardown as still bound. |
| LeaseBinding.TeardownExcludesAccess | src/lease_binding.rs:345-409 | An instance whose teardown is permitted is reachable by no lease name and UID. |
| LeaseBinding.ExclusiveTenancy | src/lease_binding.rs:164-318 | Two resolutions that reach one instance, in any modes, are for one lease and agree entirely. |
| LeaseBinding.AccessImpliesLifecycle | src/lease_binding.rs:164-318 | What Access grants, Lifecycle grants identically. |
| LeaseBinding.TeardownRefusals | src/lease_binding.rs:345-409 | Teardown refuses exactly a binding of another object, a failed lookup, or a live lease with the same binding, each under its own error. |
| LeaseBinding.AccessAntitoneInTime | src/lease_binding.rs:186-205 | With objects fixed, access that holds now held at every earlier instant. |
| LeaseBinding.TeardownClearsAtExpiry | src/lease_binding.rs:345-409 | A still-bound refusal holds at exactly the instants before one expiry, and teardown is permitted from then on. |
| LeaseBinding.TeardownMonotoneInTime | src/lease_binding.rs:345-409 | Permitted teardown stays permitted as time passes. |
| LeaseBinding.DeletionClosesAccessOnly | src/lease_binding.rs:237-242 | Starting deletion of an instance closes both resolve modes on it and leaves the teardown verdict alone. |
| LeaseBinding.GoneForGood | src/lease_binding.rs:164-311 | With fresh UIDs, a UID that is gone is never live again in any later state. |
| LeaseBinding.UidFence | src/lease_binding.rs:164-311 | Once the lease, instance or pool behind a resolved binding is gone, that binding never resolves again under any name, UID or mode. |
| LeaseBinding.TeardownStaysOpen | src/lease_binding.rs:345-409 | Once the lease behind an instance's binding is gone, teardown is permitted in every later readable state, whoever takes the name. |
| TicketHub.IrohSessionHub.Mint | src/iroh_transport.rs:274-291 | Minting is the run model's mint step, keeps the map in agreement with history, and appends the mint. |
| TicketHub.IrohSessionHub.Claim | src/iroh_transport.rs:293-298 | A claim answers what history promises, spends the promise, and is the run model's claim step. |
| TicketHub.IrohSessionHub.GcLocked | src/iroh_transport.rs:300-303 | Collection keeps exactly the tickets under thirty seconds old with their waiters, and loses nothing that history still promises. |
| TicketHub.OutstandingMeaning | src/iroh_transport.rs:273-304 | A ticket is outstanding exactly when some mint of it is followed by no mint and no successful claim of it. |
| TicketHub.ClaimRefinesHistory | src/iroh_transport.rs:273-304 | After every ordered run, however collections fell, the next claim answers the outstanding mint under thirty seconds old and nothing else. |
| TicketHub.ClaimsNeverExceedMints | src/iroh_transport.rs:273-304 | Successful claims plus the outstanding ticket never exceed mints, collisions included. |
| TicketHub.WinnerHasMint | src/iroh_transport.rs:293-298 | Each winning claim answers an earlier mint of that ticket with nothing touching it in between. |
| TicketHub.WaitersAreSingleUse | src/iroh_transport.rs:273-304 | With distinct waiters per mint, no waiter is handed out twice in any run. |
| BlobFraming.Writer.WriteBlob | src/iroh_transport.rs:306-322 | Appends exactly one frame, or nothing when the blob is too large. |
| BlobFraming.FrameLayout | src/iroh_transport.rs:306-322 | On the wire a blob is four bytes that count it, the most significant first, and its own bytes. |
| BlobFraming.Reader.ReadBlob | src/iroh_transport.rs:324-344 | Consumes the stream as the frame reader specifies, on streams that end and on streams that fail. |
| BlobFraming.CleanEndIffNoPrefix | src/iroh_transport.rs:324-334 | The end is reported as clean exactly when fewer than four bytes are left, as with one or three. |
| BlobFraming.FaultsAreReported | src/iroh_transport.rs:324-344 | A failing stream never looks cleanly ended, its failure is reported exactly in place of an end, and blobs it carries whole are read. |
| BlobFraming.FrameReadsBack | src/iroh_transport.rs:306-344 | A written blob reads back with the rest untouched if and only if it is not empty. |
| BlobFraming.RoundTrip | src/iroh_transport.rs:306-344 | Reading to the end returns the sequence of blobs that was written. |
| BlobFraming.UniquelyDecodable | src/iroh_transport.rs:306-344 | Two sequences of readable blobs with one encoding are equal. |
| BlobFraming.ReadsOnlyWhatIsThere | src/iroh_transport.rs:324-344 | On arbitrary bytes, the blobs read are exactly frames the stream starts with. |
| BlobFraming.TruncationYieldsPrefix | src/iroh_transport.rs:324-344 | Every truncation yields the blobs that survive whole; the end counts as clean exactly with fewer than four bytes left over. |
| Rbac.RevokeVerb | hack/e2e.ts:2559-2609 | The loop refuses exactly when some rule grants the target only through a wildcard, and otherwise returns the split rules and the count. |
| Rbac.SplitExact | hack/e2e.ts:2588-2606 | The split of a pattern-free rule grants what the rule granted minus the target. |
| Rbac.RevocationExact | hack/e2e.ts:2543-2609 | On rules that grant the target by name alone, the grants afterwards are the grants before minus the target. |
| Rbac.RemovesExactlyIffClean | hack/e2e.ts:2543-2609 | For every target: the revocation succeeds and removes exactly the target if and only if, for a concrete one, no rule granting it holds a pattern that grants it too, and for a pattern, nothing grants it. |
| Rbac.GrantedPatternInexact | hack/e2e.ts:2637-2646 | A granted target that is itself a pattern is never revoked exactly. |
| Rbac.WildcardBesideNameStillGrants | hack/e2e.ts:2580-2586 | A concrete rule list that is accepted and still grants the target afterwards. |
| Rbac.WildcardTargetTakesMore | hack/e2e.ts:2570-2578 | One such target: revoking all verbs of Deployments takes a named verb the target does not name. |
| Rbac.CleanPreserved | hack/e2e.ts:2588-2606 | Revoking one target keeps the rules clean for any other. |
| Rbac.RevokeAll | hack/e2e.ts:2796-2806 | The loop over targets succeeds exactly when each is accepted and granted at its turn, and then returns the folded rules. |
| Rbac.FoldExact | hack/e2e.ts:2796-2806 | Folding over targets removes exactly their permissions. |
| Rbac.FoldIgnoresOrder | hack/e2e.ts:2796-2806 | Any reordering of the targets leaves the same grants. |
| Rbac.FoldSucceedsIff | hack/e2e.ts:2796-2806 | On clean rules the fold gets through exactly when every target is granted to begin with and none repeats. |
| Rbac.CountMeaning | hack/e2e.ts:2559-2609 | The count is positive exactly when the rules grant the target to somebody. |

## Left out

- CEL's full grammar and its type checker: expressions are trees with comprehension macros in the two forms used, `CelReader` reads those and the logical, relational and conditional operators, and that the server's compiler agrees with it on the policies' texts is an assumption.
- ExpressionText.QuotedDecodes: reading back stops short of surrogate pairs, which quoting never writes.
- What the server makes of texts with comments, raw, byte or triple-quoted literals: nothing is claimed, and no accepted text is one.
- The chart pins its policy with a weaker structural test than startup; the results for the chart's set assume startup's structural checks with the chart's texts.
- Conversion between API versions under an equivalent match policy.
- Lifecycle.RunStaysConsistent: RFC 3339 text is an injective encoding of instants; leap seconds are not modelled.
- Lifecycle.ExtendSucceedsIff: which policy's terms apply to the caller, how a duration is spelled, and the conflict check of the final write are not modelled; the terms and the seconds are parameters, the count is unbounded, and which refusal comes first is not distinguished.
- LeaseBinding.ResolveFailsClosed: a creation manifest's validity and digest, and a pool's backend provenance, are opaque verdicts carried by the objects.
- TicketHub.IrohSessionHub.Mint: the ticket is a parameter, not random bytes; the mutex is represented by methods running one at a time; delivery on the channel is not modelled.
- Rendering of Pods, warm pools and claims, metrics, certificates, CRD generation, HTTP serving, leader election, relay configuration and the rest of the test harness: input and output, or straight-line projection that would add only easy members.
- The reconcile loops around these operations are not modelled; their writes appear as arbitrary steps of the runs.
