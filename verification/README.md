# Verification of the solution runtime

A Dafny model of the parts of the runtime that decide something: who is issued a
Work Context and when, what of a module's answer reaches a page, what is published
and checked and run, how far a declaration may reach, how a stream ends, and what an
error may tell a client. Every statement below is proved for all inputs, all
declarations and all interleavings; nothing here runs the runtime.

Run `dafny verify dfyconfig.toml` in this directory.

| Part | Files |
|---|---|
| The Work Context cache: one request's concurrent, expiring, refusal-keeping cache, as the methods that change it and as a transition system of its callers | `WorkContextCache.dfy`, `ResolveProtocol.dfy`, `ResolveInvariants.dfy`, `ResolveGuarantees.dfy`, `AskKey.dfy`, `Renewal.dfy`, `Viewer.dfy` |
| Field masks: the laws of an allowlist on values, the trie it is built into, and pruning a message tree in place | `MaskLaws.dfy`, `FieldMasks.dfy`, `MessageTrees.dfy` |
| Schema definitions: the walk over a cyclic descriptor graph into one shared table, and which JSON the result admits | `SchemaWalk.dfy`, `SchemaMeaning.dfy` |
| The interface document, the router and dispatch: rows, names, which published row a request can reach, and in which order a request is answered | `Casing.dfy`, `Routes.dfy`, `Operations.dfy`, `Interface.dfy`, `Artifact.dfy`, `Mux.dfy`, `Serving.dfy`, `Dispatch.dfy` |
| Consumed modules and the contract: which declarations resolve, and what a ceiling allows | `Passthrough.dfy`, `StreamBounds.dfy`, `Ceiling.dfy`, `Contract.dfy`, `Frozen.dfy` |
| One relayed stream, racing its timer | `StreamRelay.dfy` |
| Scrubbing error results | `ErrorScrub.dfy` |
| Shared: option and result types, dotted names, lists sorted by name | `Wrappers.dfy`, `Text.dfy` |

Code that changes state in place is modelled in place: the cache and its pending
issues, the mask trie, the messages being pruned and cloned, the definition table and
the frozen declarations are classes, arrays and fields, each method proved against a
function of its inputs or of the state before. A footprint is kept as a flat ghost map
or set beside the objects. Concurrency is a transition system whose steps are the
atomic ones of the source: a critical section, an issue, a write of the outcome, a
close, a wake or a cancellation, a timer callback's start, store and cancel.

## Where the code and its description part

The model follows the code. Twelve things it does are not what the documentation, or a
natural reading of it, says; for each a lemma gives the exact condition under which the
promise holds, or an input on which it does not, or both.

- A published row need not be served. Nothing refuses an operation whose pattern lies
  under the passthrough's prefix and matches a relayed path; the router takes every
  request for that path to the operation, whatever its method, and the relayed POST row
  is answered 405 (`Serving.DeclaredOver`, `Serving.DeclaredOverIsRendered`). Nor does
  anything refuse one at that path with a slash after it, and then every request for the
  relayed path is redirected there (`Serving.DeclaredWithSlash`,
  `Serving.DeclaredWithSlashIsRendered`). And a relayed row is not reached whose module's
  name is percent-encoded, nor an operation whose path has an empty segment, nor a subtree
  that other operations' patterns use up (`Mux.SubtreeUsedUp`). Every published row is
  served exactly when the process can start with the declaration and none of these is
  declared (`Serving.EveryPublishedRowIsServedIff`, `Serving.RelayReachedIff`,
  `Mux.ReachedIff`).
- The route check is a condition of what is done only where it is enforced: under
  `hop/ENFORCEMENT=warn` a call the authority refused the route for is let through. It is
  one in every run exactly when the backend is not advisory, or serves nothing at all
  (`Dispatch.EnforcedIff`).
- An artifact can be published for a declaration the backend refuses to serve: POST
  declared twice on one path, once spelled with a long s (U+017F). The document keys
  rows by lower case, where the two differ, and the table by upper case, where they do
  not. Published is servable exactly when no path does this
  (`Artifact.PublishedIsServableUnlessTwoPosts`, `Artifact.TwoPostsAreRendered`).
- Two mux patterns are spelled alike not only as `P/` and `P/{path...}`. A segment with
  no `{` is a literal to the mux whatever it ends with, so `/a...}` and `/a=**}` are two
  patterns with one row (`Routes.SpelledAlike`, `Routes.LiteralsCollide`).
- A definition name is not unique to a message: `a.B` and `AB` share one. The table
  describes every reached message exactly when messages that share a name are described
  alike and none takes the name of the error object
  (`SchemaWalk.DescribesEveryMessageIffCompatible`, `SchemaWalk.NamesCollide`).
- A message's schema does not admit every message's JSON. The walk describes an enum by
  its names, a float as a number and a wrapper type as any other message, while protobuf
  JSON writes an enum's number that has no name as that number, a float that is no number
  as a string, `google.protobuf.NullValue` as null and a wrapper as the bare value it
  wraps. The JSON of a message conforms to its schema exactly when none of these is in it,
  at any depth (`SchemaMeaning.WrittenConformsIffPlain`); and there are such messages of
  every type with a singular double, enum or wrapped string
  (`SchemaMeaning.SomeDoNotConform`).
- A stream can deliver messages, end as it should, and still be reported as one whose
  first answer never came. That verdict can still be reached exactly as long as no Stop
  has found the timer armed (`StreamRelay.MayEndLateIff`), and after a first message it
  can be reached exactly when the timer's callback had started at the first Stop and had
  not yet set its flag (`StreamRelay.LateAfterSendingIff`,
  `StreamRelay.LateAfterDeliveringHappens`).
- The contract artifact and the boot hold a declaration to different rules. The boot
  resolves the routes first, which the artifact never does: what is rendered boots under
  a profile exactly when its routes resolve and the profile is declared, or nothing is
  consumed (`Contract.RenderedBootsIff`); a module that declares no method is rendered
  and never boots (`Contract.NoMethodsIsRendered`). And what boots under every profile it
  declares is rendered exactly when it declares a ceiling or consumes nothing
  (`Contract.BootedIsRenderedIff`).
- The ceiling check decides containment only for an ask that names an action; one that
  names none grants nothing, and is refused where no entry has its shape
  (`Ceiling.DecidesContainmentIffAnActionIsAsked`). The boot refuses every such ask, by
  `checkScopes`; the artifact puts only the ceilings through it, so there such an ask is
  decided by the ceiling check alone and can be published
  (`Contract.ActionlessIsRendered`).
- The replacement for an error result is published without being searched: with a
  dialled address that is part of its text, it names that address
  (`ErrorScrub.PublishedDisclosesIff`).
- A cleared error result can name an address too: in its own metadata or a text's
  annotations or metadata, which are not searched, in a spelling that is no string, or in
  a document that writes one key twice, of which the search sees the last value and the
  client is sent both. It does in these cases only (`ErrorScrub.PublishedDisclosesIff`,
  `ErrorScrub.MetadataIsPublished`, `ErrorScrub.RepeatedKeyIsPublished`).
- Not everything of a published error result is the runtime's own. Its texts are: what
  the author writes to them later does not show. Annotations and metadata are kept by
  reference, and what the author writes there later does
  (`ErrorScrub.PublishThenRewrite`, `ErrorScrub.PublishThenMark`).

## Model

| member | source | states |
|---|---|---|
| `AskKey.BodyCancels` | solution.go:898-902 | An encoded string and what follows it are both recovered from their concatenation, whatever follows: the JSON string encoding (section 7 of RFC 8259) is injective and self-delimiting. |
| `AskKey.JsonInjective` | authority.go:284-285 | Two scope lists with one JSON spelling are one list. |
| `AskKey.JsonHasNoNul` | authority.go:285-286 | The spelling of a scope list holds no raw NUL, so it cannot be mistaken for a separator. |
| `AskKey.KeyInjective` | authority.go:286-314 | Within one request, two asks under one cache key are one ask: the NUL-separated fields part uniquely, and a parent's and a binding's keys never meet. |
| `AskKey.KeyTellsTheRequest` | authority.go:281-314 | Across requests, one key is of one parent context's digest, or of one organization, as well as of one ask. |
| `Viewer.PrincipalsOf` | authority.go:156-166 | The organization and owner named, the actors in order, and the last of them, or the owner when there is none. |
| `Viewer.SelectedOwner` | authority.go:177-193 | The one owner the effective scopes select; the empty owner exactly when they select none or several. |
| `Viewer.AskedOf` | authority.go:202-206 | A child is asked for the asked scopes, in order, each naming that owner. |
| `WorkContextCache.PendingMint.Write` | solution.go:1184-1185 | The outcome the fields carry is the issue's, token or error. |
| `WorkContextCache.Cache.Begin` | solution.go:1160-1182 | The first critical section: a kept refusal, a live token, another's issue to wait on, or a fresh issue of this caller's own, and nothing else of the cache changed. |
| `WorkContextCache.Cache.Settle` | solution.go:1187-1196 | The second critical section: the issue is no longer in flight, a 401 or 403 is kept, a token is held until its renewal, and any other error leaves nothing. |
| `WorkContextCache.Cache.Remember` | solution.go:1110-1114 | Whom a token was issued for is recorded under that token, and nothing else changes. |
| `WorkContextCache.LastRememberedIsReported` | solution.go:1110-1121 | After any sequence of the cache's operations, in any order, the principals reported for a token are exactly those last remembered with it. |
| `ResolveInvariants.SingleFlightKept` | solution.go:1169-1189 | Every step keeps: a key is in flight exactly while one call is between its two critical sections for it, and that call is the one recorded. |
| `ResolveInvariants.ExclusionKept` | solution.go:1161-1196 | Every step keeps: a live token, an issue in flight and a kept refusal exclude each other for a key. |
| `ResolveInvariants.PendingIssuesKept` | solution.go:1144-1199 | Every step keeps: a pending issue is open while its leader is in flight, carries exactly what the leader has written, and once closed holds what the leader returned. |
| `ResolveInvariants.AnswersKeptKept` | solution.go:1187-1196 | Every step keeps: a settled answer is still in the cache, or no longer matters. |
| `ResolveInvariants.EconomyKept` | solution.go:1161-1196 | Every step keeps: between two issues for one key the earlier ended in nothing that could have been reused. |
| `ResolveInvariants.NamesRecordedKept` | solution.go:1007-1022 | Every step keeps: a token is remembered with the authority's own principals before it is handed on. |
| `ResolveInvariants.TokensSourcedKept` | solution.go:1155-1199 | Every step keeps: a returned token was issued under the caller's own key. |
| `ResolveInvariants.InvAlways` | solution.go:1155-1199 | All of these hold after every run of every interleaving. |
| `ResolveGuarantees.OneIssuePerKey` | solution.go:1169-1182 | In every reachable state at most one call leads a key, the key is in flight exactly then, and neither that nor a refusal is beside a live token. |
| `ResolveGuarantees.IssueEconomy` | solution.go:1161-1196 | Over whole runs: between two issue starts for one key the earlier one ended, in nothing that settles the ask and in no token still good when the later began. |
| `ResolveGuarantees.WhatWasAnsweredDecides` | solution.go:1160-1196 | What becomes of a call in its first critical section, in every reachable state: it waits on the call that is issuing for an equal ask, if one is; it is handed what a settled call with an equal ask was answered, if that was one of the refusals that settle an ask or a token still good; and it issues exactly when there is neither, so after every other failure. |
| `ResolveGuarantees.RefusalIsFinal` | solution.go:1161-1164 | After a 401 or 403 is kept no issue for its key ever starts again, and every call for it that is made later, or had not yet been through its first critical section, returns that same refusal if it returns. |
| `ResolveGuarantees.FinalAnswerSettlesTheKey` | solution.go:1187-1196 | An issue answered unauthenticated, permission denied, not found or failed precondition settles its key for the rest of the request: from its second critical section on no issue for it starts, and every call that had not been through its first returns that refusal, status and reason. |
| `ResolveGuarantees.WaiterFidelity` | solution.go:1169-1178 | A waiter returns a cancellation exactly when it was cancelled, and otherwise exactly what the call it first waited on was answered and returns. |
| `ResolveGuarantees.AnAnswerIsHandedOn` | authority.go:224-272 | Whatever the authority answers an issue, its call returns wherever it returns, and so does every call that waits on it and is not cancelled: the token for an issuance with one and at least five seconds to live, no usable Work Context for any other issuance, and for a status its refusal, with the HTTP status of its class and the authority's reason below 500 only. |
| `ResolveGuarantees.FieldsAreWrittenOnce` | solution.go:1144-1150 | A pending issue's fields, once written, never change, and a closed one stays closed. |
| `ResolveGuarantees.NeverStuck` | solution.go:1155-1199 | While any call has not returned, the program can take a step, whatever the authority answers. |
| `ResolveGuarantees.StepFalls` | solution.go:1155-1199 | Each step of the program takes its call nearer its return. |
| `ResolveGuarantees.EveryoneReturns` | solution.go:1155-1199 | With no new calls a run is no longer than the measure it starts with, and where nothing can move everyone has returned. |
| `ResolveGuarantees.TokenIsForTheAsk` | solution.go:968-1022 | A token any call returns was issued by the authority for an ask equal to the caller's, is not empty, and has an entry for whom it is for. |
| `ResolveGuarantees.PrincipalsAreTheAnswer` | solution.go:1048-1059 | If the authority never answers one token for two principals, those reported for a returned token are those of its own issue. |
| `ResolveGuarantees.ReusedTokenOutlivesTheCall` | solution.go:1165-1168 | A token served from the cache was accepted earlier for an equal ask, with five seconds or more to live, and is before its renewal: as long before its expiry as half of what it then had, or ten seconds, so more than two and a half seconds. |
| `MaskLaws.FilterIsExact` | protowire.go:125-151 | At every position a filtered message shows what the message shows there, when some declared path is a prefix of the position's path or the reverse, and nothing otherwise. |
| `MaskLaws.LookingAlike` | protowire.go:109-123 | Two messages that show the same at every position are equal, so exactness determines the result. |
| `MaskLaws.FilterTellsOnlyWhatPasses` | protowire.go:109-123 | Two messages have equal results exactly when they agree wherever a declared path passes: the mask tells nothing else apart, and nothing less. |
| `MaskLaws.FilterIsIdempotent` | protowire.go:109-123 | Applying a mask twice is applying it once. |
| `MaskLaws.MinimalFiltersAlike` | protowire.go:155-166 | The prefix-minimal declared paths allow exactly what all of them do. |
| `FieldMasks.FieldMask.Declare` | protowire.go:74-97 | One path, in place: exactly the fault of its first name that has one is returned, and with none the declared paths are those before and it. |
| `FieldMasks.FaultIsTrue` | protowire.go:76-96 | A path has no fault exactly when it is accepted; and a fault is of that path and true: the names before the one it is about lead, message field by message field, to a type that has no such field, or that has it as no message. |
| `FieldMasks.AcceptsIff` | protowire.go:76-96 | A path is accepted exactly when there is a chain of types: each name but the last is a message field of its type, repeated or not, leading to the next type, and the last is any field of the last type. |
| `FieldMasks.NewFieldMask` | protowire.go:71-99 | A mask is built exactly when every path is accepted, and holds exactly those paths; a refusal is of the first that is not, and is about the first name that is no field where the names before it lead, or that is one and no message. |
| `FieldMasks.FieldMask.Walk` | protowire.go:157-171 | Under a node, each minimal allowed path is printed, as it was declared, and nothing else. |
| `FieldMasks.Paths` | protowire.go:155-176 | The listing is the sorted set of minimal declared paths, without repetition. |
| `Text.BelowIff` | protowire.go:174 | The order of sorted listings is the dictionary's: by the first letter that differs, and a name before what it begins. |
| `FieldMasks.PrintedMaskRebuilds` | protowire.go:71-176 | Printed paths are accepted again, were all declared, allow the same of every message, and print the same. |
| `FieldMasks.OrderAndRedundancyDoNotShow` | protowire.go:153-176 | Declarations with the same minimal paths print alike, whatever their order and redundancy. |
| `MessageTrees.AcceptedMasksFit` | protowire.go:92-94 | A mask its type accepted never makes pruning go into a scalar, a map or a group, whatever message of that type it meets. |
| `MessageTrees.DeclareWhatIsShown` | protowire.go:71-99 | The path to whatever a well-typed message shows, through lists and messages, is one a mask can be built of, exactly when no group is on the way; and that mask shows it. |
| `MessageTrees.Prune` | protowire.go:125-151 | Pruning in place leaves exactly the filtered message, at every depth and for every element of a repeated one, and touches nothing outside it. |
| `MessageTrees.Clone` | protowire.go:120 | A clone is fresh throughout and holds the same message. |
| `MessageTrees.Apply` | protowire.go:113-123 | The result is fresh and is the filter of the message by the declared paths; no message that was there before is modified. |
| `MessageTrees.ApplyPaths` | protowire.go:71-123 | From dotted paths to the page's message: refused exactly where the mask is, and otherwise a fresh message carrying exactly what those paths allow. |
| `SchemaWalk.WithWellKnownIsWellFormed` | operations.go:720-736 | Any messages that mention only each other and the well-known types, written in the runtime's own forms, are a graph the results on the walk are about. |
| `SchemaWalk.Generator.MessageSchema` | operations.go:657-675 | Terminates on every finite graph, cycles included; answers the message's form; leaves filled entries and the placeholders of the calls under way as they were, and adds entries only for messages it reaches, each with everything it mentions. |
| `SchemaWalk.Generator.Define` | operations.go:661-673 | A placeholder first and the definition over it: afterwards the message has its entry, and the placeholders are again exactly the calls under way. |
| `SchemaWalk.Generator.Properties` | operations.go:664-670 | Every field is described, the later of two with one JSON name, and nothing any of them mentions is missing. |
| `SchemaWalk.Generator.FieldSchema` | operations.go:677-685 | A field's schema: its kind's, or a list or a map of it, which admits exactly the JSON of such a field (`SchemaMeaning.SchemaAdmitsItsJson`); what it mentions is in the table. |
| `SchemaWalk.Generator.SingularSchema` | operations.go:687-718 | Each kind in its JSON form, a message through its definition, which is then there. |
| `SchemaWalk.Generator.DescribeAll` | operations.go:348-423 | Over all of a document's operations, in one table that starts with the error alone: every schema is its message's, and the table is complete with no placeholder left. |
| `SchemaWalk.EveryReferenceResolves` | operations.go:657-718 | In a finished table no placeholder is left and every reference, in a definition or in an operation's schema, resolves. |
| `SchemaWalk.ReachExists` | operations.go:657-675 | The messages reached from the operations are a definite set in every finite graph, cyclic or not. |
| `SchemaWalk.DescribesEveryMessageIffCompatible` | operations.go:661-674 | A finished table describes every reached message as it is exactly when messages sharing a name are described alike and none is named as the error is, and then it holds those definitions and no other. |
| `SchemaWalk.NamesCollide` | operations.go:738-745 | The condition can fail: two different full names are one definition name, and one is the error's. |
| `SchemaWalk.NameIsRaised` | operations.go:739-754 | A definition's name, letter by letter: the dots go, and a letter that begins the name or stood behind a dot is raised. |
| `SchemaMeaning.SchemaAdmitsItsJson` | operations.go:653-736 | In every finished table of a graph with compatible definition names, the schema of each reached type admits exactly the JSON of that type: an object of its fields by their JSON names, lists as arrays and maps as objects, 64-bit integers as decimal strings and bytes as base64, 32-bit integers and floats as numbers in range, enums by name, and the well-known types in their own form. |
| `SchemaMeaning.WrittenConformsIffPlain` | protowire.go:34-39 | The protobuf JSON of any message of any reached type conforms to the published schema exactly when nothing in it, at any depth, is a float that is no number, an enum's number without a name, a NullValue or a wrapper. |
| `SchemaMeaning.SomeDoNotConform` | operations.go:687-736 | Every reached type with a singular double, enum or wrapped string has a message whose JSON does not conform. |
| `Routes.SpelledAlike` | operations.go:452-462 | Over all strings: two patterns are spelled as one route exactly when one is a subtree `P/` and the other `P/{path...}` or `P/{path=**}`, or they are the same but that one ends `...}` and the other `=**}`. |
| `Routes.OnlySubtreesCollide` | operations.go:452-462 | Between patterns that do not end as a rewritten wildcard does, only `P/` against `P/{path...}` collide. |
| `Routes.LiteralsCollide` | operations.go:458-459 | Two literals the mux tells apart have one row. |
| `Routes.Endings` | operations.go:448-463 | Ending by ending: an anchor is served as the slash it anchors, a subtree as `{path=**}` under it, a `{name...}` wildcard as `{name=**}`, and anything else as it is written. |
| `Operations.SpellingsOfAMethod` | operations.go:365-368 | Two spellings of one served method have different document keys exactly when the method is POST and one of them writes a long s. |
| `Operations.ValidIff` | operations.go:498-535 | An operation is valid exactly when it keeps every rule, written out: an absolute path, a summary, callers, behavior and a response, one handler, one of six methods, a tool's name only for a read that is neither excluded nor streamed, and a policy that says something. |
| `Operations.FaultIsTrue` | operations.go:498-535 | What refuses an operation is true of it, its policy's faults included. |
| `Operations.ToolNameIff` | operations.go:485-494 | A tool's name is words of small letters and digits with one underscore between, a letter first. |
| `Operations.PolicyIff` | operations.go:187-209 | A policy is accepted exactly when it is there and says one thing: any checked caller and no more, or requirements each naming a kind and actions, none empty. |
| `Operations.OperationTable` | operations.go:247-262 | The table is made exactly when every operation is valid and none repeats a method of a path; it finds each operation by its path and method and holds nothing else; a refusal names an operation it is true of. |
| `Interface.Render` | operations.go:348-407 | Rows are rendered exactly when every operation is valid and markable and no two share a row, an operationId or a tool name; each operation then has its row and there is no other; a refusal is true of the operation it names. |
| `Interface.RenderableIff` | operations.go:359-413 | A document is rendered exactly when each operation is valid and the library makes no error of one that may be offered, and no two are one row, have one id or claim one tool's name. |
| `Interface.IdIsNoToolName` | operations.go:485-553 | No operationId has a tool name's spelling: it carries its method's capital. |
| `Interface.OfferedNamesDiffer` | operations.go:374-405 | Every marked operation of a document is offered under a name no other is, its owner's or its id. |
| `Interface.MarkedIff` | operations.go:154-185 | A published row is marked exactly when its operation is this backend's own for its own audience, one finite call and nothing but a read, and the library marks it; and then under its owner's name for it, or else the row's own id. |
| `Interface.IdOfOneSegment` | operations.go:537-554 | The id of a route of one segment: the prefix, the method and the segment's name, each behind an underscore and with its first letter raised. |
| `Interface.IdOfOneMoreSegment` | operations.go:537-554 | A segment more adds an underscore and its name with the first letter raised; a slash at the end does not show. |
| `Interface.WildcardsByName` | operations.go:545-550 | A wildcard, of one segment or of the rest, stands in an id by its name. |
| `Passthrough.CheckScopes` | passthrough.go:289-309 | Scopes pass exactly when each names a kind and at least one action, none blank, padded or repeated; otherwise the fault found is one of them. |
| `Passthrough.UsableIff` | passthrough.go:287-309 | A scope can be asked for exactly when its kind and each of its actions is a word that trimming Unicode white space leaves as it is, there is an action, and none is there twice. |
| `Passthrough.PathsTellApart` | passthrough.go:243 | A relayed path determines its module, service and method. |
| `Passthrough.CheckMethod` | passthrough.go:216-242 | A method is accepted exactly when it can be relayed, and otherwise the cause named is so. |
| `Passthrough.LookupIff` | passthrough.go:268-285 | A method is found exactly by its registered full name, whichever one of its dots is written as a slash, with one slash before it or none. |
| `Passthrough.ResolvePassthrough` | passthrough.go:197-253 | A declaration resolves exactly when every module and method can be served and none is declared twice; then each declared method has its route and there is no other; a refusal names a module and something wrong with it. |
| `Passthrough.ResolvableIff` | passthrough.go:197-253 | A declaration resolves exactly when it keeps every rule, written out module by module and method by method, and no two modules share a name. |
| `Passthrough.RouteIsAsDeclared` | passthrough.go:171-176 | Every route is a declared method's, at the path its module, service and name spell, relayed to that procedure, and asks for the method's own scopes where it has any and else the module's, never both. |
| `Passthrough.ModuleScopesReachOnlyTheOthers` | passthrough.go:311-318 | Another list of a module's own scopes moves no route, and changes what is asked only through that module's methods that declare none. |
| `Passthrough.EachMethodHasItsPath` | passthrough.go:243-247 | Different methods, of one module or of two, are at different paths. |
| `Passthrough.RoutesAreSound` | passthrough.go:197-253 | Every call through a route asks for something, each scope naming an action; a streamed one stays open as long as declared, or five minutes, and never more than half an hour; and what reaches the page is named over the method's own answer or said to be all of it. |
| `Artifact.PassthroughOperations` | passthrough.go:509-562 | The documented relays: one operation for each route, no other, in the order of their paths. |
| `Artifact.McpIff` | mcp.go:54-150 | An MCP surface is accepted exactly when it is declared once, has a name, a version, tools and a policy that says something, and no operation is at its route. |
| `Artifact.RestOfTheRows` | mcp.go:107-124 | A row that is no operation's is the MCP route's, under its declared policy, or a relayed route's, under any checked caller's; it is a POST at exactly that path and is never marked. |
| `Artifact.InterfaceArtifact` | passthrough.go:591-615 | A published artifact is of the whole surface: the operations, the MCP route when there is one, and the relayed routes, each accepted by its own rules; a refusal is true. |
| `Artifact.ServedAsWritten` | passthrough_authority.go:151 | The MCP route and every relayed route are spelled for the authority exactly as they are served. |
| `Artifact.PublishedIffDeclared` | passthrough.go:580-590 | A row is in the document exactly when something is declared that is spelled so: the rows are the declared surface, operations, MCP and relayed routes alike, no more and no less. |
| `Artifact.PublishedIsServableUnlessTwoPosts` | operations.go:247-262 | A declaration an artifact is published for can be dispatched to exactly when no path declares POST in two spellings. |
| `Artifact.TwoPostsAreRendered` | operations.go:359-378 | For any operation on POST, it and its long-s twin are rendered together and refused by the table. |
| `Mux.ReadIff` | operations.go:267-279 | A pattern's segments are read exactly when each is a literal or one wildcard that may be so named, an anchor or a wildcard to the end stands last, and no two wildcards share a name. |
| `Mux.ReachedIff` | operations.go:267-279 | Among any patterns the router takes together, some request is taken by one of them, and not redirected, exactly when it has no empty segment and is not a subtree that has a subtree some segments below it and, at every length above that, a pattern for the path with a slash after it. |
| `Mux.SubtreeUsedUp` | operations.go:267-279 | Three patterns the router takes together, `/a/`, `/a/{$}` and `/a/{x}/`, the first of which nothing reaches. |
| `Serving.StartsIff` | solution.go:577-590 | The process can start with a declaration exactly when each operation is valid, no two answer one method of one path, none is at a pattern the runtime mounts (health, assets, the three well-known documents, the MCP route, the modules' prefix), and both routers take their patterns together. |
| `Serving.RelayReachedIff` | passthrough.go:339-362 | A relayed route is reached by some request exactly when its module's name reads as it is written and no operation's pattern under the passthrough's prefix matches its path, or exactly its path with a slash after it. |
| `Serving.EveryPublishedRowIsServedIff` | passthrough.go:580-590 | For every published artifact: each of its rows is reached by some request exactly when the process can start with the declaration and everything it declares is in the open. |
| `Serving.DeclaredOver` | operations.go:267-279 | An operation declared at a relayed route's own path takes it, whatever its method: no request reaches the route. |
| `Serving.DeclaredOverIsRendered` | mcp.go:146-149 | Nothing refuses that: a GET at the route's own path and the relayed POST are rendered together. Only the MCP route is guarded. |
| `Serving.DeclaredWithSlash` | operations.go:267-279 | An operation declared at a relayed route's path with a slash after it takes it too: every request for the route is redirected, and none reaches it. |
| `Serving.DeclaredWithSlashIsRendered` | mcp.go:146-149 | Nothing refuses that either: such a GET and the relayed POST are rendered together. |
| `Dispatch.InvAlways` | solution.go:793-817 | In every interleaving of requests, every event has behind it what its own request needed, and a request stands only where the log shows it may. |
| `Dispatch.HandlersRunChecked` | operations.go:267-302 | A handler runs only for an operation declared at the pattern the router took the request to, for its method, and only after that same request was checked for that operation's own row and held to it, or, by an advisory backend alone, was let through on the advice. |
| `Dispatch.ToolsRunChecked` | mcp.go:160-185 | A tool runs only after that same request was checked for the MCP route's row and let through. |
| `Dispatch.UndeclaredIsSilent` | operations.go:291-301 | A request with no Work Context, or for which the declaration has nothing where the router left it (no operation for its method, no POST to the MCP route or to a relayed route it comes to), causes no Check, no handler, no tool, no issue and no call. |
| `Dispatch.WhatIsDeclaredIsAnswered` | operations.go:291-302 | For every request that carries a Work Context and has something declared for it, some run checks it for its own row and then runs the declared operation, or the tool, or issues for what the method declares and calls the module's procedure. |
| `Dispatch.SpokenOfIff` | solution.go:793-817 | So a request causes anything in any run exactly when it carries a Work Context and the declaration has something for it where the router left it. |
| `Dispatch.IssuesAskAsDeclared` | passthrough_authority.go:164-168 | Over every run: each issue on a relayed call's way goes through that module's binding and asks for exactly the scopes the method declares, where it declares any, and else exactly the module's. |
| `Dispatch.ModuleScopesIssueAlike` | passthrough.go:311-318 | Declarations that differ in one module's own scopes alone issue alike for every method that declares its own, and for every other module's. |
| `Dispatch.CallsFollowCheckAndIssue` | passthrough_authority.go:142-200 | A module is called, by the route's own procedure, only after the Check of the route's own row let the request through, and then an issue through that module's binding for exactly the method's own scopes, or the module's where it declares none. |
| `Dispatch.ShadowedIsNeverCalled` | passthrough.go:339-362 | In no run is a relayed route checked, issued for or called that an operation is declared over. |
| `Dispatch.ShadowedGoesElsewhere` | operations.go:267-279 | A request for the path of such a route is not the passthrough's. |
| `Dispatch.PathLeadsOneWay` | operations.go:267-279 | A path leads one way only: to one pattern's operations, to the MCP route or to one relayed route. |
| `Dispatch.EnforcedIff` | authority.go:127-149 | In every run whatever is done was held to its row, exactly when the backend is not advisory or has nothing for any request that carries a Work Context. |
| `Dispatch.EveryRowAskedIsPublished` | solution.go:784-791 | Whatever row the authority is asked about, in any run, is a row of the published artifact, and it is asked for advice by an advisory backend alone. |
| `Ceiling.WithinCeiling` | contract.go:303-324 | Accepted exactly when some one entry covers the ask, wherever it stands; else the refusal says whether the kind is named, and with one reason for each entry that names it, in their order, why that entry falls short, truly. |
| `Ceiling.AcceptsIff` | contract.go:303-345 | What is accepted is what one entry spans: of its kind, with every action asked, and naming no resource or every one the ask names, which then names some. |
| `Ceiling.CoveringIsSound` | contract.go:327-345 | An entry that covers an ask grants every act the ask does. |
| `Ceiling.CoveringIsComplete` | contract.go:327-345 | An entry that grants every act of an ask with an action covers it, ids being unbounded. |
| `Ceiling.DecidesContainmentIffAnActionIsAsked` | contract.go:282-324 | The check decides containment in one entry, for every ceiling, exactly for asks that name an action. |
| `Ceiling.UnionIsNotEnough` | contract.go:293-296 | An ask that two entries grant only between them is refused. |
| `Ceiling.NarrowerIsAccepted` | contract.go:303-345 | An ask that grants no more than an accepted one is accepted. |
| `Contract.AskedScopes` | contract.go:274-280 | All a module is asked for: its own scopes and then each method's, in order. |
| `Contract.AskedAt` | contract.go:274-280 | Place by place: the module's own scopes stand first, then each method's in the order they are declared in, and nothing else. |
| `Contract.CheckContract` | contract.go:208-245 | A profile is accepted exactly when every module's ceiling is there, usable and covers all it is asked, and no ceiling is for a module not consumed; its bindings are one for each module, in order; a refusal is true. |
| `Contract.ResolveContract` | contract.go:179-197 | What a process publishes under its profile, or a true refusal; with no ceilings declared, nothing. |
| `Contract.ContractArtifact` | contract.go:369-415 | The document is rendered exactly when the id and profile names are usable, every profile passes the boot's rules and there is one if any module is consumed; it holds the declared ceilings. |
| `Contract.RendersIff` | contract.go:369-415 | An artifact is rendered exactly when its id is not blank, every profile it declares has a usable name, caps exactly the modules consumed with well-formed ceilings and spans each ask by one entry, and it declares one or consumes nothing. |
| `Contract.Boot` | solution.go:536-566 | A process boots with a declaration exactly when its routes resolve and its contract is allowed under the profile; what refuses it is true of it, the routes first. |
| `Contract.BootsIff` | solution.go:536-566 | A process boots exactly when its routes resolve and, where it declares a ceiling at all, the profile it runs under is declared, each ceiling there is well formed and of a module consumed, and everything asked of a module grants nothing one single entry of its ceiling does not. |
| `Contract.RenderedBootsIff` | contract.go:369-415 | What is rendered boots under a profile exactly when its routes resolve and the profile is declared, or nothing is consumed. |
| `Contract.BootedIsRenderedIff` | contract.go:369-415 | What boots under every profile it declares is rendered exactly when it declares a ceiling or consumes nothing; with no ceiling declared it boots under every profile. |
| `Contract.NoMethodsIsRendered` | contract.go:369-415 | A module that declares no method, under a ceiling of its own scopes, is rendered and boots with no registry. |
| `Contract.ActionlessIsRendered` | contract.go:208-230 | A module that asks for a scope naming no action, under a ceiling of that kind, is rendered and never boots. |
| `Contract.UndeclaredProfileIsRefused` | contract.go:209-213 | Under a profile it does not declare, a contract with ceilings boots only a solution that consumes nothing. |
| `Contract.ExactlyTheConsumedAreCapped` | contract.go:234-244 | Under an accepted profile the ceilings' audiences, the bindings' and the modules' are the same, one binding for each. |
| `Contract.OrderDoesNotShow` | contract.go:243 | The bindings are the same for any order of the modules. |
| `Contract.EveryAskIsPublished` | passthrough.go:313-318 | Whatever any call through any route asks for, being the method's own scopes or the module's where it has none, names an action, is published as asked, and lies inside one single entry of the ceiling published for its module. |
| `Frozen.FrozenScopes` | contract.go:138-151 | A deep copy: fresh slices, fresh actions and ids, the same scopes, nil kept nil. |
| `Frozen.FrozenContract` | contract.go:120-133 | A deep copy of the profile table, each audience table and every ceiling in them. |
| `Frozen.FrozenModule` | passthrough.go:149-159 | A module with its own scopes and each method's copied, and the rest as declared. |
| `Frozen.Server.Contract` | contract.go:98-115 | The contract as it reads when declared is the server's, resting on nothing older. |
| `Frozen.Server.Consumes` | passthrough.go:142-162 | The modules as they read when declared follow those declared before. |
| `Frozen.Delegation.ForParent` | authority.go:277-291 | A derived gateway keeps its own copy of what it asks for, and the cache key of exactly that, within the request. |
| `Frozen.LaterWritesDoNotShow` | solution.go:905-922 | After any sequence of writes through anything the caller held, the server's contract and modules are those declared, and every renewal asks for what its key was computed for. |
| `StreamRelay.PageSeesAMaskedPrefix` | stream.go:105-117 | At every moment of every run the page has the first so many of the module's messages, in order, each filtered to the declared paths, or as it is where the whole answer is the page's, all those taken but one at most. |
| `StreamRelay.WholeIsWhole` | stream.go:118-123 | A stream is reported whole only with every message delivered and the flag down when the first came. |
| `StreamRelay.VerdictIsWhatHappened` | stream.go:105-129 | Every run that has returned, by its steps: without an issue exactly if the authority gave none, for the page exactly if a message could not be handed on; else it decided, and reports no first answer exactly if the flag was set by then, and with the flag down a whole stream exactly if the last receive gave the end of the stream, the duration exactly if that failed with the duration passed, and the module's refusal exactly if it failed before. |
| `StreamRelay.EveryStreamCanBeWhole` | stream.go:105-125 | For every stream some run delivers all of it, each message masked, and reports it whole. |
| `StreamRelay.LateBeforeTheFirstAnswer` | stream.go:109-121 | If the flag was set when the first receive or the opening came back, nothing is sent and the verdict is that deadline. |
| `StreamRelay.RunsTellApartOnlyWhatIsDeclared` | stream.go:105-129 | Over whole runs, timer, failures and page included: two modules' streams allow the same steps and show the page the same messages and endings exactly when they are of one length and agree, message by message, wherever a declared path passes. |
| `StreamRelay.RoutesTellApartOnlyWhatIsDeclared` | passthrough.go:187-192 | For every route of a declaration that resolves, those declared paths are the method's own response fields, over the method's own answer, unless it says the whole answer is the page's. |
| `StreamRelay.MayEndLateIff` | stream.go:93-121 | From any reachable moment before the return, some continuation reports a late first answer exactly when no Stop has found the timer armed. |
| `StreamRelay.LateAfterSendingIff` | stream.go:105-121 | From the first call of Stop the page can be sent something and then told there was no first answer, exactly when what came back was a message and the callback had started by then and not yet set its flag. |
| `StreamRelay.LateAfterDeliveringHappens` | stream.go:96-121 | A run that does so, on a stream that ended as it should. |
| `StreamRelay.RunsAreFinite` | stream.go:80-130 | No run is longer than its starting measure. |
| `ErrorScrub.Named` | mcp.go:348-355 | A text is found exactly when it contains a dialled address that is not blank, and the one found is such. |
| `ErrorScrub.SaidIsHeldOrOverlooked` | mcp.go:299-303 | What a document says, as it is written, is what its decoded form holds or what decoding overlooks: what stands under a key written again, and what is no string. |
| `ErrorScrub.Walk` | mcp.go:304-332 | A decoded document is found offending exactly when some value or key at any depth names an address, whatever order maps are walked in, and what is reported is such a string. |
| `ErrorScrub.ScrubbedIs` | mcp.go:350-426 | What is published is what was read exactly when all content is text that shows no dialled address, letter for letter, and the document, if there is one, could be written and read back and shows none in any string or key; otherwise it is one fixed line and nothing else of it. |
| `ErrorScrub.PublishedDisclosesIff` | mcp.go:340-426 | What is published says nothing that names an address, in its texts, document, annotations or metadata, except exactly: a cleared result, where it is in what is not searched, and a replaced one, where the replacement text itself names one. |
| `ErrorScrub.MetadataIsPublished` | mcp.go:418-422 | A result whose own metadata names a dialled address, and whose text does not, is published as it is. |
| `ErrorScrub.RepeatedKeyIsPublished` | mcp.go:412-424 | So is a document that writes a key twice, the address first. |
| `ErrorScrub.Snapshot` | mcp.go:388-402 | The texts are copied as they read, into content of the runtime's own, exactly when all content is text. |
| `ErrorScrub.ScrubError` | mcp.go:363-425 | The published result is fresh, its texts too, and reads as the scrubbed form of the author's as the marshaller leaves it, which is the last that marshaller writes to each text and metadata and otherwise what was there before; of what the author holds, a cleared result keeps annotations and metadata and a replaced one nothing. |
| `ErrorScrub.WithoutRuntimeAddresses` | mcp.go:340-344 | A result that is no error is returned untouched; an error result is published scrubbed. |
| `ErrorScrub.PublishThenRewrite` | mcp.go:363-397 | Whatever the author writes to any text it holds, after publishing, what is published reads as the scrubbed form of the author's result as its marshaller left it. |
| `ErrorScrub.PublishThenMark` | mcp.go:418-422 | What it writes to the metadata of a cleared result shows. |

## Left out

- Transport, dialling, TLS, listeners, CORS (the preflight answer to OPTIONS among it), asset serving and logging: the authority and the module are steps that may answer anything.
- An authority that gives advice it was not asked for: only an advisory backend asks for any, and the model takes the authority to give none otherwise.
- The router beyond path patterns: hosts and methods in a pattern, CONNECT, the redirects that clean a path (a request is one whose path is clean), and a segment that is an encoded slash alone. What a pattern is read as, matches and takes, and which path is redirected to one with a slash after it, is as Go documents `net/http`, with percent-decoding and the names a wildcard may have as parameters.
- Solution ids that are not one path segment as they are written: the code refuses only a blank one; the results on what the router reaches require one.
- Configuration, endpoint lookups, frontend files and flat validation: library calls and single checks.
- The tables from one status code to another but for the authority's refusals of an issue, and the wording of refusals: a refusal is its kind and the values it names.
- The digest of the parent context: constant within one request's cache, so a parameter of the key.
- Strings that are not valid UTF-8: a string is a sequence of Unicode scalar values, so the encoder's replacement of invalid bytes never applies; bounds the source counts in bytes are counted in characters where only ASCII passes anyway.
- Unknown protobuf fields, which a clone keeps and a prune does not visit: messages are their known fields.
- Protobuf wire encoding and the merge of a declared pin; a pin is kept by reference, so writes into it after declaration are not covered by the freezing results.
- Protobuf JSON itself, which writes a message as protobuf documents it; and of what it writes extensions and unknown fields, a nil message, which is null, and the rounding of floats, a float being a real no larger than its format's largest. Of a timestamp's letters, only that they are a date and a time.
- The schema of Go types by reflection, which terminates only if every cycle passes through a named struct; the descriptor walk is modelled.
- The rest of the document (titles, responses, parameters, prose) and the core library's choice of what it can mark, which is a function of the operation and the offered name.
- Letter case beyond what can become an ASCII capital: any table that agrees with Unicode on ASCII, the long s and the dotless i is admitted.
- Applying a mask to a message of another type, which panics, and to a nil one, which is returned as it is.
- Panics of an issue callback, and a wall clock that goes back.
- What a number or a literal of a document means: it is its spelling.
- Replacing the annotations or metadata object of a text, as against writing into it.
- The check that a cached owner, actor and organization are not blank before they are reported.
- Passthrough.ResolvePassthrough: a module name is checked as one path segment, which is what the prefix check comes to once the reserved characters are refused.
