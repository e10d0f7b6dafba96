# Verified model of the mcpworks gateway core

mcpworks-api is a gateway that runs sandboxed functions and proxies calls to remote MCP servers and REST
APIs. This project models, in Dafny, the parts of it that carry an algorithm or a protocol rather than
plumbing, and proves what each of them guarantees for every input, or for every run.

| module | models |
|---|---|
| `Text`, `Seqs`, `Json` | Python string operations, subsequences and the stable sort, parsed JSON |
| `TrustBoundary` | splicing of injection warnings and redactions into text |
| `Scrubbing` | replacement of secret values in program output |
| `Utf8`, `OutputLimits` | UTF-8 (section 3 of RFC 3629) and the two byte limits on output |
| `JsonPointer`, `RefExpansion` | JSON Pointer resolution (RFC 6901) and `$ref` expansion over cyclic documents |
| `Slugs`, `OpenApiImport` | operation handles and the endpoint extractor |
| `ToolNames` | the `api__server__operation` names: built, parsed, and given to wrappers |
| `Signatures`, `CodePackage` | the generated `functions/` package: signatures, modules, code files, imports |
| `PackageNames`, `PackageLinking` | when its files collide, and when its modules define the right wrappers |
| `PackageLoading` | what importing the package leaves under each name |
| `FieldRedaction`, `RedactionInPlace` | removal of dotted fields from a response, as a function and in place |
| `RequestRules` | the request-rule interpreter |
| `ExecutionGate` | the check-then-increment gate over shared Redis counters, as a state machine |
| `RateLimiting` | the Redis window limiter |
| `Telemetry`, `ConnectionPool`, `Conversation` | stateful objects with invariants over whole runs |
| `PoolInterleaving`, `HistoryInterleaving` | overlapping calls on the pool and on one conversation, as state machines |
| `ScannerPipeline` | the ordered scanner pipeline |

Code that loops or mutates is modelled by methods with loop invariants, or by classes with a validity
invariant that the constructor establishes and every method keeps; each such method is proved against a
specification function, and the laws are proved of that function. Interleaved protocols are state machines
over single Redis commands. What the network, a model, a scanner, a clock or a Python library call would
answer is a parameter: it may be anything, except for the few properties a lemma names (`str.lower` leaves
lower-case identifier text alone, for instance). What Python makes of text between quotes, and which words it
reserves, is a parameter too.

What came out beyond a plain confirmation of the code:

- **Scrubbing.** A value is guaranteed to be gone from the output if and only if it cannot be laid over the
  marker text without a clash; otherwise a later replacement can put it back (`Scrubbing.ScrubGuarantee`).
- **Window limiter.** Its documentation calls it a sliding window. It is a window opened by the first call,
  and any interval of window length lets through at most `2 * limit - 1` calls. The bound is reached, and it
  needs no atomicity of INCR and EXPIRE. `check_rate_limited` agrees with the next recorded call exactly
  when the key is live or the limit is positive.
- **Execution gate.** The concurrency limit is not a limit on the counter when requests overlap between check
  and increment: with at most `n` of them there the counter stays within `limit + n - 1`, and reaches it.
- **Tool names.** Parsing inverts building if and only if both parts are non-empty and the server name
  neither contains `__` nor ends with `_`.
- **Code package.** Every generated file is there as generated if and only if the inputs do not clash
  (`PackageLinking.IntactExactly`). A later `def` of a name hides an earlier one: functions `a-b` and `a_b` of one
  service, both accepted, leave one of them unreachable, and the same goes for two tools of a remote server
  (`PackageLinking.PackageLinks` gives the exact condition). Importing the package then leaves every function,
  tool and operation under its own name if and only if, besides, everything put into it compiles (names,
  parameters, docstrings, literals), no name is shared anywhere in the package, no directory hides a service, and
  no function is called like a submodule that is loaded after it (`PackageLoading.WorksExactly`). One remote tool
  with a property called `from`, or with properties `a-b` and `a_b`, and one accepted REST server name that starts
  with a digit, each keep the whole package from loading.
- **Redaction.** When matches overlap, a character goes if and only if some match that starts at or before it ends
  behind it, once the notices put in earlier have pushed it along (`TrustBoundary.ReachDecides`). As long as no match
  is longer than a notice that is the match which starts nearest before it, and matched text is left exactly when
  some match ends inside another with the next character uncovered (`TrustBoundary.MatchedGoneExactly`). The scanner
  returns dictionaries with `matched` and `pattern`, while these functions read the attributes `matched_text` and
  `pattern_name`; the model takes matches as the functions read them.
- **Request rules.** Each argument evolves by itself, so the outcome, with the rule that decides it, can be read
  off one argument at a time (`RequestRules.SuccessExactly`, `RequestRules.FirstVerdictDecides`).
- **Conversation memory.** A stored history that cannot be decrypted is read as none, and the next turn
  overwrites it together with its summary. Reads and writes are not guarded: a turn survives overlapping tasks
  exactly when its append is in the lineage of the final entry (`HistoryInterleaving.KnownIsLineage`).
- **Connection pool.** Overlapping connects to one key leak: a connection is never closed exactly when its call is
  cancelled while connecting, or another connection is stored under its key before it is taken out
  (`PoolInterleaving.LeakedExactly`).
- **Reference expansion.** The depth limit of 32 is exact exactly when everything it cuts would have expanded
  to `{}`; a node that leads back to itself has no unbounded expansion at all.
- **Telemetry.** `unsubscribe_all` tells a subscriber to stop exactly when its queue has room for the message.

## Model

| member | source | states |
|---|---|---|
| `TrustBoundary.SplicingRefinesRender` | src/mcpworks_api/core/trust_boundary.py:37-66 | for in-range, non-empty, non-overlapping matches in any order, sorting and splicing right to left equals one left-to-right pass that renders each match and copies every other character |
| `TrustBoundary.SplicingLength` | src/mcpworks_api/core/trust_boundary.py:43-66 | the length changes by exactly the sum of the per-match differences |
| `TrustBoundary.FlagsKeepText` | src/mcpworks_api/core/trust_boundary.py:45-50 | flagging never loses, reorders or rewrites a character of the text, for any match list, overlapping or out of range |
| `TrustBoundary.ApplyInjectionFlags` | src/mcpworks_api/core/trust_boundary.py:37-50 | the loop computes the splice; the text is a subsequence of the result; well-placed matches give the left-to-right rendering and its length |
| `TrustBoundary.RedactInjection` | src/mcpworks_api/core/trust_boundary.py:53-66 | the same for redaction; and for any match list at all exactly which characters of the text are left, everything else being notices |
| `TrustBoundary.LeftBehindExactly` | src/mcpworks_api/core/trust_boundary.py:57-65 | for any matches, overlapping or out of range: a character is left, once, exactly when no match falls on the place to which earlier notices have moved it |
| `TrustBoundary.NearestDecides` | src/mcpworks_api/core/trust_boundary.py:56-65 | the match that starts last at or before a character, the first listed of several, takes it out if it covers it, and while no match is longer than a notice nothing else does |
| `TrustBoundary.ReachDecides` | src/mcpworks_api/core/trust_boundary.py:56-65 | for matches of any length: a character goes exactly when one of the matches that start at or before it ends behind it, after the notices of those spliced earlier have pushed it along |
| `TrustBoundary.MatchedGoneExactly` | src/mcpworks_api/core/trust_boundary.py:56-65 | no matched character is left exactly when each is so reached; while no match is longer than a notice, exactly when each end inside another match is covered by the nearest match |
| `TrustBoundary.OverlapLeavesText` | src/mcpworks_api/core/trust_boundary.py:56-65 | a match inside another leaves the rest of the outer match in place |
| `TrustBoundary.NoticeNames` | src/mcpworks_api/core/trust_boundary.py:61-64 | a notice names the pattern first and then the severity, and holds nothing of the text |
| `Text.ReplaceIsSplitJoin` | src/mcpworks_api/core/output_sanitizer.py:67-67 | replacing takes out the value and nothing else: the text is its pieces joined by the value, the result the same pieces joined by the replacement |
| `Scrubbing.ScrubOneConserves` | src/mcpworks_api/core/output_sanitizer.py:64-68 | one value's turn, if it has at least 8 characters, keeps the text between its occurrences, in order, joined by the marker `[REDACTED:secret_detected]`; a shorter value changes nothing |
| `Scrubbing.AbsentAfterReplace` | src/mcpworks_api/core/output_sanitizer.py:66-68 | a value that cannot overlap the marker is absent after its own replacement, and an absent one stays absent after any other |
| `Scrubbing.ScrubRemoves` | src/mcpworks_api/core/output_sanitizer.py:62-69 | after the whole list, no listed value of at least 8 characters that cannot overlap the marker is left, although later replacements rewrite earlier results |
| `Scrubbing.ScrubFails` | src/mcpworks_api/core/output_sanitizer.py:62-69 | for every value that can overlap the marker, an output and a list that leave it in the result |
| `Scrubbing.ScrubGuarantee` | src/mcpworks_api/core/output_sanitizer.py:53-69 | a value is removed from every output under every list exactly when it cannot overlap the marker |
| `Scrubbing.NoHits` | src/mcpworks_api/core/output_sanitizer.py:62-69 | nothing is counted exactly when no long enough value occurs in the original, and then the output is unchanged |
| `Scrubbing.HitsCount` | src/mcpworks_api/core/output_sanitizer.py:62-69 | the count is the number of values of at least 8 characters found, when their turn came, in what the turns before had left |
| `Scrubbing.ScrubEnvValues` | src/mcpworks_api/core/output_sanitizer.py:53-69 | the loop: scrubbed output, count of values found, and the guarantees above |
| `Utf8.RoundTrip` | src/mcpworks_api/core/output_sanitizer.py:90-93 | decoding with errors ignored inverts encoding |
| `Utf8.CutKeepsLongestPrefix` | src/mcpworks_api/core/output_sanitizer.py:93-93 | cutting the bytes anywhere and decoding with errors ignored keeps exactly the longest prefix of whole code points that fits, wasting at most 3 bytes |
| `Utf8.LongestIsMaximal` | src/mcpworks_api/core/output_sanitizer.py:93-93 | a prefix fits exactly when it is no longer than the one kept |
| `OutputLimits.SizeTable` | src/mcpworks_api/core/output_sanitizer.py:42-47 | the limit of every tier |
| `OutputLimits.EnforceOutputSize` | src/mcpworks_api/core/output_sanitizer.py:88-96 | output that fits is unchanged; otherwise the longest fitting prefix, within 3 bytes of the limit, then the notice |
| `OutputLimits.TruncateResponse` | src/mcpworks_api/core/mcp_proxy.py:204-207 | the result fits the limit exactly when the limit is not negative; a cut response keeps exactly a quarter of the limit in characters, and more than a quarter of what could fit, rounded down |
| `JsonPointer.ResolveRefByLoop` | src/mcpworks_api/core/openapi_import.py:88-99 | the token loop computes the walk along the unescaped tokens, or nothing |
| `JsonPointer.PointerRoundTrip` | src/mcpworks_api/core/openapi_import.py:88-99 | the pointer written for any non-empty key path by section 4 of RFC 6901 resolves to the node the path leads to, or to nothing when it leads nowhere |
| `RefExpansion.LinksLead` | src/mcpworks_api/core/openapi_import.py:88-99 | where a node's reference leads: to what its key path reaches from the root of the document; nowhere when that is nothing or null, or when the reference is not local |
| `RefExpansion.DerefFollows` | src/mcpworks_api/core/openapi_import.py:107-111 | a reference is expanded to the expansion of the node its key path leads to from the root, one level further down, or to `{}` |
| `RefExpansion.DerefForeign` | src/mcpworks_api/core/openapi_import.py:90-91 | a reference that is not local expands to `{}` |
| `RefExpansion.DerefDescends` | src/mcpworks_api/core/openapi_import.py:104-115 | anything else keeps its keys, order and scalars, its children expanded one level further down; beyond 32 levels there is only `{}` |
| `RefExpansion.DerefIsShallow` | src/mcpworks_api/core/openapi_import.py:102-115 | at most 34 levels, for every document, cyclic ones included |
| `RefExpansion.DerefLeavesNoRef` | src/mcpworks_api/core/openapi_import.py:106-112 | no `$ref` member is left when every `$ref` in the document is a string |
| `RefExpansion.DerefExact` | src/mcpworks_api/core/openapi_import.py:102-115 | within the cut-off the result is the unbounded expansion |
| `RefExpansion.UnfoldsOnce` | src/mcpworks_api/core/openapi_import.py:102-115 | a node has at most one unbounded expansion |
| `RefExpansion.DerefExactWhen` | src/mcpworks_api/core/openapi_import.py:104-111 | when the unbounded expansion exists, the result equals it exactly when every part that was cut would have expanded to `{}` |
| `RefExpansion.DerefApproximates` | src/mcpworks_api/core/openapi_import.py:104-115 | raising the cut-off only fills in `{}`s |
| `RefExpansion.CycleNeverUnfolds` | src/mcpworks_api/core/openapi_import.py:104-111 | a node on a cycle of references and members has no unbounded expansion |
| `RefExpansion.DerefAgrees` | src/mcpworks_api/core/openapi_import.py:102-115 | with the limit of 32: equal to the unbounded expansion when nesting and hops stay within it, exactly when the cuts are harmless otherwise, and always equal up to subtrees cut to `{}` |
| `Slugs.SlugIsJoinedWords` | src/mcpworks_api/core/openapi_import.py:76-80 | a slug is the maximal runs of letters and digits joined by single underscores, or `op` |
| `Slugs.SlugIsSlugShaped` | src/mcpworks_api/core/openapi_import.py:76-80 | a slug is a non-empty identifier without double, leading or trailing underscore |
| `Slugs.SlugShapedFixed` | src/mcpworks_api/mcp/code_mode.py:21-23 | such text is a fixed point of `_slug` and of `_sanitize` |
| `OpenApiImport.PickByLoop` | src/mcpworks_api/core/openapi_import.py:237-243 | the collision loop ends within one more try than handles taken, with the first free candidate |
| `OpenApiImport.HandleLaws` | src/mcpworks_api/core/openapi_import.py:235-243 | handles are pairwise distinct, and each is a fixed point of `_slug` and `_sanitize` without a double underscore |
| `OpenApiImport.OperationListed` | src/mcpworks_api/core/openapi_import.py:222-230 | every object that a path item has under one of the methods is an operation |
| `OpenApiImport.OperationsInOrder` | src/mcpworks_api/core/openapi_import.py:222-230 | operations come path by path and within a path method by method, each place at most once, and each stands in the document |
| `OpenApiImport.ImportDocuments` | src/mcpworks_api/core/openapi_import.py:231-270 | of the kept operations: the handle is the slug of a non-empty text `operationId`, else of method and path; it has no number exactly when no earlier endpoint has it, else the first number from 2 on that makes it new; an `operationId` that is neither text nor empty fails the import |
| `OpenApiImport.NamedOrder` | src/mcpworks_api/core/openapi_import.py:251-261 | endpoint `i` stands for operation `i` in document order |
| `OpenApiImport.CeilingPrefix` | src/mcpworks_api/core/openapi_import.py:231-270 | a smaller ceiling gives a prefix and the same total; exactly the first min(total, ceiling) operations are kept; truncated exactly when the total exceeds the ceiling |
| `OpenApiImport.ExtractPath` | src/mcpworks_api/core/openapi_import.py:227-261 | the inner loop over the methods of one path item |
| `OpenApiImport.ExtractEndpoints` | src/mcpworks_api/core/openapi_import.py:201-270 | the nested loops with early failure yield the loop-free import, with its three failures, and document the operations as above |
| `ToolNames.ParseInvertsBuild` | src/mcpworks_api/core/api_proxy.py:304-318 | parsing gives back server and operation exactly when both are non-empty and the server neither contains `__` nor ends with `_` |
| `ToolNames.ParsedIsBuilt` | src/mcpworks_api/core/api_proxy.py:304-318 | what parsing gives is what the name `api__server__operation` says, split at the first double underscore |
| `ToolNames.UnparsedIsNotBuilt` | src/mcpworks_api/core/api_proxy.py:310-318 | a name that does not parse was not built from a findable server and an operation |
| `ToolNames.PublishedNamesParse` | src/mcpworks_api/core/api_proxy.py:276-318 | names published for accepted servers and imported operations always parse back |
| `ToolNames.WrapperNamesDistinct` | src/mcpworks_api/mcp/code_mode.py:374-386 | two pairs of accepted server and imported operation get the same wrapper name exactly when they are the same pair |
| `Signatures.ParamsFromSchema` | src/mcpworks_api/mcp/code_mode.py:29-49 | the loop over the properties builds the signature |
| `Signatures.ListedIsPermutation` | src/mcpworks_api/mcp/code_mode.py:40-49 | every property is listed exactly once |
| `Signatures.SignatureIsFaithful` | src/mcpworks_api/mcp/code_mode.py:40-49 | a parameter has no default exactly when its property is required and has none, and keeps a given default |
| `Signatures.SignatureIsLegal` | src/mcpworks_api/mcp/code_mode.py:35-49 | no parameter without a default follows one with a default |
| `Signatures.CompilesExactly` | src/mcpworks_api/mcp/code_mode.py:35-49 | Python accepts the signature exactly when the sanitised property names are names of Python and no two are alike |
| `CodePackage.ServicesGrouped` | src/mcpworks_api/mcp/code_mode.py:482-488 | one service per name, holding that name's functions in order, and none left out |
| `CodePackage.BeforeExactly` | src/mcpworks_api/mcp/code_mode.py:407-407 | strings are ordered by code point where they first differ, a proper prefix coming first |
| `CodePackage.SortLaws` | src/mcpworks_api/mcp/code_mode.py:407-407 | services are imported in the order of their names, none lost and none added |
| `CodePackage.SurvivalExactly` | src/mcpworks_api/mcp/code_mode.py:480-541 | every file ends up as written exactly when no two writes to the same file disagree |
| `CodePackage.GeneratePackage` | src/mcpworks_api/mcp/code_mode.py:461-541 | the generator's loops perform exactly the modelled writes, in order, the last write to a file winning |
| `PackageNames.CodeStemsExactly` | src/mcpworks_api/mcp/code_mode.py:505-505 | two functions share a code file exactly when both names agree, or one service name extends the other by an underscore or by a double underscore and more, and the function names make up for it |
| `PackageNames.ToolNamesExactly` | src/mcpworks_api/mcp/code_mode.py:302-302 | the same for the wrapper names of two remote tools |
| `PackageNames.CodeStemsApart` | src/mcpworks_api/mcp/code_mode.py:90-90 | with module stems as service names a code file tells its service and function |
| `PackageNames.AcceptedStem` | src/mcpworks_api/schemas/namespace_service.py:31-31 | for accepted service names a double underscore is all that stands in the way |
| `PackageNames.PathTexts` | src/mcpworks_api/mcp/code_mode.py:490-539 | the path of every kind of file |
| `PackageNames.PathTextInjective` | src/mcpworks_api/mcp/code_mode.py:490-539 | different files have different paths |
| `PackageLinking.InWrites` | src/mcpworks_api/mcp/code_mode.py:480-541 | a file is written exactly when it is a runtime file called for by the inputs, a service's module, a Python function's code, or a server's module |
| `PackageLinking.IntactExactly` | src/mcpworks_api/mcp/code_mode.py:480-541 | every generated file is there as generated if and only if services keep apart from each other and from runtime files, functions sharing a code file share the code, and servers sharing a file agree |
| `PackageLinking.NamesApartNoClash` | src/mcpworks_api/mcp/code_mode.py:500-505 | distinct sanitised names of services, functions, servers and members, with module stems as service names, never clash and never hide each other |
| `PackageLinking.ImportedServersApart` | src/mcpworks_api/services/api_server.py:48-48 | REST servers with distinct accepted names and imported operations never share a file, take the package file's name or hide an operation |
| `PackageLinking.ImportedWrappersApart` | src/mcpworks_api/mcp/code_mode.py:374-377 | wrappers of imported operations have the same name exactly when server and operation are the same |
| `PackageLinking.BoundExactly` | src/mcpworks_api/mcp/code_mode.py:144-147 | in a module, where the last `def` of a name counts, every member's name stands for its own wrapper exactly when members whose wrappers share a name share the wrapper |
| `PackageLinking.FunctionsLinkExactly` | src/mcpworks_api/mcp/code_mode.py:52-147 | in an intact package every function's name stands for its own wrapper in its module, with its code or bridge in place and its import there, exactly when no two different functions of a service sanitise alike |
| `PackageLinking.WrapperIsUnique` | src/mcpworks_api/mcp/code_mode.py:52-137 | with names apart nothing else in the module goes by a function's name |
| `PackageLinking.ToolsLinkExactly` | src/mcpworks_api/mcp/code_mode.py:299-334 | every tool of a remote server, and every operation of a REST server, has under its name a wrapper that reports and calls that tool of that server, and its bridge, exactly when no two different ones sanitise alike |
| `PackageLinking.PackageLinks` | src/mcpworks_api/mcp/code_mode.py:461-541 | the generated package is intact and links exactly when files do not clash and no two members of a service or server sanitise alike |
| `PackageLinking.AlikeFunctionsShadow` | src/mcpworks_api/schemas/function.py:128-128 | two functions of a service that sanitise alike: every file is as generated, and yet one of the two is not linked |
| `PackageLoading.InImports` | src/mcpworks_api/mcp/code_mode.py:396-458 | `__init__` imports exactly the wrappers of the functions, tools and operations |
| `PackageLoading.ImportsOrdered` | src/mcpworks_api/mcp/code_mode.py:405-453 | services in the order of their names, then remote servers, then REST servers |
| `PackageLoading.WorksExactly` | src/mcpworks_api/mcp/code_mode.py:52-541 | the package is intact and importing it leaves every function, tool and operation under its own name, with literals that mean what they say, exactly when files do not clash, names, parameters, docstrings and literals compile, no directory hides a service, no two wrappers share a name and no function is called like a submodule loaded after it |
| `PackageLoading.FunctionCalls` | src/mcpworks_api/mcp/code_mode.py:52-137 | in a working package the wrapper under a function's name has its parameters, reports its qualified name, and runs a file that holds its code, or the TypeScript bridge with its qualified name |
| `PackageLoading.McpCalls` | src/mcpworks_api/mcp/code_mode.py:299-327 | the wrapper under `mcp__server__tool` has the tool's parameters and calls that tool of that server through the MCP bridge |
| `PackageLoading.ApiCalls` | src/mcpworks_api/mcp/code_mode.py:374-386 | the wrapper under `api__server__operation` has four optional parameters and calls that operation of that server through the API bridge |
| `PackageLoading.SanitizedCompile` | src/mcpworks_api/mcp/code_mode.py:21-23 | of sanitised names it is enough to ask that they are not empty, not led by a digit and not reserved |
| `PackageLoading.OneToolBreaksAll` | src/mcpworks_api/mcp/code_mode.py:299-327 | one tool or operation that does not compile, and the package does not load |
| `PackageLoading.BadPropertyBreaks` | src/mcpworks_api/mcp/code_mode.py:305-320 | a remote tool with a reserved word for a property, or with two properties that sanitise alike, and the package does not load |
| `PackageLoading.ExportsApartExactly` | src/mcpworks_api/mcp/code_mode.py:396-458 | no two wrappers share a name exactly when functions of all services sanitise apart, stems of tools and of operations do not coincide, and no function is named like a tool or operation |
| `PackageLoading.LastImportWins` | src/mcpworks_api/mcp/code_mode.py:405-458 | the last import of a name has it, unless a submodule of that name is loaded later; that is the import of the last service by name, or of a server |
| `PackageLoading.DigitLedServerBreaks` | src/mcpworks_api/mcp/code_mode.py:453-453 | one REST server whose name starts with a digit, and the package does not load |
| `FieldRedaction.DottedPath` | src/mcpworks_api/core/mcp_rules.py:138-139 | a field is named by its keys joined by dots |
| `FieldRedaction.RedactAllIsPrune` | src/mcpworks_api/core/mcp_rules.py:138-139 | redacting a list of paths one by one removes the set of them |
| `FieldRedaction.RedactionIsOrderless` | src/mcpworks_api/core/mcp_rules.py:138-139 | order and repetition of the fields do not matter |
| `FieldRedaction.RedactionIsIdempotent` | src/mcpworks_api/core/mcp_rules.py:138-139 | redacting twice is redacting once |
| `FieldRedaction.PruneWalk` | src/mcpworks_api/core/mcp_rules.py:147-154 | following any path afterwards: nothing when a removed path covers it, else the original node without the removed paths that go on from there |
| `FieldRedaction.RedactionLaw` | src/mcpworks_api/core/mcp_rules.py:131-154 | no listed path resolves; elsewhere scalars and arrays are unchanged, objects stay objects, nothing appears |
| `RedactionInPlace.Dict.RedactField` | src/mcpworks_api/core/mcp_rules.py:147-154 | the in-place recursion on nested dictionaries changes the value as the function says and keeps the tree well formed |
| `RedactionInPlace.RedactFields` | src/mcpworks_api/core/mcp_rules.py:138-139 | the rule's loop leaves the pruned document in place |
| `RequestRules.EvaluateRequestRules` | src/mcpworks_api/core/mcp_rules.py:25-70 | the rule loop with its early exits computes the fold of the rules |
| `RequestRules.SuccessExactly` | src/mcpworks_api/core/mcp_rules.py:25-70 | for all rules, arguments and library answers: the rules succeed exactly when none stops the call, each judged on what earlier rules made of the one argument it names; on success every argument is what they made of it |
| `RequestRules.FirstVerdictDecides` | src/mcpworks_api/core/mcp_rules.py:38-68 | the first rule that stops a call decides whether it is blocked, missing a parameter, or raised |
| `RequestRules.BlockRuleStops` | src/mcpworks_api/core/mcp_rules.py:30-39 | a block rule whose pattern matches the tool's name stops every call, with its own identifier unless an earlier rule did |
| `RequestRules.UnmatchedRuleIgnored` | src/mcpworks_api/core/mcp_rules.py:30-33 | a rule whose pattern does not match changes nothing |
| `RequestRules.FailureNamesRule` | src/mcpworks_api/core/mcp_rules.py:38-58 | a stopped call reports the identifier of a matching block rule, or key and identifier of a matching rule that requires a missing key |
| `RequestRules.OnlyCapExactly` | src/mcpworks_api/core/mcp_rules.py:60-68 | a cap replaces a larger number and leaves everything else |
| `RequestRules.SuccessByKeys` | src/mcpworks_api/core/mcp_rules.py:30-58 | when text is glued to text and no number of this call or these rules overflows, success is exactly that no block rule applies and each required key is an argument or was added by an earlier rule |
| `RequestRules.SuccessMeans` | src/mcpworks_api/core/mcp_rules.py:30-70 | on success, with no assumption: no key is lost, no block rule applies, every required key is there |
| `RequestRules.UntouchedKept` | src/mcpworks_api/core/mcp_rules.py:30-70 | an argument no applying rule names is unchanged |
| `RequestRules.LastCapHolds` | src/mcpworks_api/core/mcp_rules.py:60-68 | a numeric argument last touched by a cap is not above the cap |
| `RequestRules.LastInjectionHolds` | src/mcpworks_api/core/mcp_rules.py:41-51 | an argument last touched by an injection holds what that injection makes of the value before it |
| `RequestRules.FirstFailure` | src/mcpworks_api/core/mcp_rules.py:38-58 | a failed call reports the first rule that fails, on the arguments rewritten so far |
| `ExecutionGate.LimitsOf` | src/mcpworks_api/middleware/billing.py:52-54 | every tier has positive limits |
| `ExecutionGate.TierTable` | src/mcpworks_api/middleware/billing.py:20-33 | the limits of every tier; an unknown one has those of a trial |
| `ExecutionGate.AgentTier` | src/mcpworks_api/middleware/billing.py:52-52 | an agent tier has the limits of its base |
| `ExecutionGate.ConcurrencyBound` | src/mcpworks_api/middleware/billing.py:50-103 | in every interleaving with failures, expiry and clamping: with at most n requests between concurrency read and increment the counter never exceeds limit + n - 1 |
| `ExecutionGate.RateBound` | src/mcpworks_api/middleware/billing.py:57-91 | the same for each minute's rate key |
| `ExecutionGate.RateIsCount` | src/mcpworks_api/middleware/billing.py:86-91 | in every run a minute's counter is the number of executions counted in it since it last expired |
| `ExecutionGate.RateBoundIsReached` | src/mcpworks_api/middleware/billing.py:60-91 | for every n some run counts rate + n - 1 executions in one minute, and the next request of that minute is rejected |
| `ExecutionGate.SlotsConserved` | src/mcpworks_api/middleware/billing.py:73-103 | counter plus drift equals slots held plus releases lost, those of requests cancelled after their increment included; drift is never negative, so the counter never exceeds slots held plus releases lost |
| `ExecutionGate.FaultlessRun` | src/mcpworks_api/middleware/billing.py:269-285 | without faults the counter is exactly the slots held, every execution holds one, and at most limit + n - 1 run at once |
| `ExecutionGate.HeldBound` | src/mcpworks_api/middleware/billing.py:269-285 | in any run the slots held exceed that bound by at most the drift faults have caused |
| `ExecutionGate.BoundIsReached` | src/mcpworks_api/middleware/billing.py:73-91 | for every n some run reaches limit + n - 1 |
| `RateLimiting.RateLimiter.IsRateLimited` | src/mcpworks_api/core/redis.py:85-110 | counts the event, opens a window when there is none, and refuses beyond the limit |
| `RateLimiting.RateLimiter.CheckRateLimited` | src/mcpworks_api/core/redis.py:112-133 | says whether the next recorded event would be refused exactly when the key is live or the limit positive |
| `RateLimiting.RateLimiter.GetRemaining` | src/mcpworks_api/core/redis.py:135-140 | of any events from now on and within the window, exactly as many as it returns are let through; without a live window it returns the limit, else nothing negative |
| `RateLimiting.RateLimiter.Reset` | src/mcpworks_api/core/redis.py:142-144 | removes that key alone |
| `RateLimiting.RemainingIsExact` | src/mcpworks_api/core/redis.py:135-140 | of any events in the window, exactly as many as remain are let through |
| `RateLimiting.HitIsIncrThenExpire` | src/mcpworks_api/core/redis.py:104-108 | recording an event is an INCR with its EXPIRE at once when it opens a window |
| `RateLimiting.WindowBound` | src/mcpworks_api/core/redis.py:85-110 | without resets, any interval of window length lets through at most 2 x limit - 1 calls, however late or lost the EXPIRE commands are |
| `RateLimiting.BoundIsReached` | src/mcpworks_api/core/redis.py:85-110 | that many are let through in some run |
| `Telemetry.PushKeepsOrder` | src/mcpworks_api/core/telemetry.py:37-39 | delivered and queued events stay an order-preserving subsequence of those emitted, and all of them while the queue has room |
| `Telemetry.Subscription.Offer` | src/mcpworks_api/core/telemetry.py:37-39 | a full queue drops the event, never exceeds 256, and keeps the order |
| `Telemetry.Subscription.Take` | src/mcpworks_api/core/telemetry.py:46-50 | events are delivered in queue order |
| `Telemetry.TelemetryBus.Emit` | src/mcpworks_api/core/telemetry.py:33-39 | every registered subscriber of the agent, and no other, is offered the event |
| `Telemetry.TelemetryBus.Subscribe` | src/mcpworks_api/core/telemetry.py:41-44 | a new empty queue is registered for the agent |
| `Telemetry.TelemetryBus.Consume` | src/mcpworks_api/core/telemetry.py:45-54 | one turn of the generator; it ends only on the message to stop, which a registered subscriber never gets |
| `Telemetry.TelemetryBus.Close` | src/mcpworks_api/core/telemetry.py:51-54 | the subscriber is taken off, and no agent is left with an empty map, also after the agent's map was taken away |
| `Telemetry.TelemetryBus.UnsubscribeAll` | src/mcpworks_api/core/telemetry.py:56-60 | all are taken off, and each is told to stop exactly when its queue has room |
| `Telemetry.TelemetryBus.HasSubscribers` | src/mcpworks_api/core/telemetry.py:62-63 | true exactly when the agent has a map, which is then not empty |
| `ConnectionPool.Pool.GetOrConnect` | src/mcpworks_api/core/mcp_pool.py:35-97 | a hit returns the session opened for that key and used within the TTL; otherwise a stale one is closed and a new one pooled or, on failure, closed; every connection ever opened is pooled under its key or closed, never both |
| `ConnectionPool.Pool.Drop` | src/mcpworks_api/core/mcp_pool.py:117-123 | takes the key's connection out and closes it, and touches no other |
| `ConnectionPool.Pool.Evict` | src/mcpworks_api/core/mcp_pool.py:100-102 | removes that key alone |
| `ConnectionPool.Pool.EvictNamespace` | src/mcpworks_api/core/mcp_pool.py:105-108 | removes exactly the namespace's keys |
| `ConnectionPool.Pool.CloseAll` | src/mcpworks_api/core/mcp_pool.py:111-114 | leaves nothing pooled and nothing open |
| `PoolInterleaving.RunIsValid` | src/mcpworks_api/core/mcp_pool.py:36-125 | in every interleaving a connection is in one place at most: pooled under one key, in the hands of one call, or closed |
| `PoolInterleaving.LeakStep` | src/mcpworks_api/core/mcp_pool.py:36-125 | a step loses a connection exactly when it cancels its call while connecting or stores another one over it; a lost one stays lost |
| `PoolInterleaving.LeakedExactly` | src/mcpworks_api/core/mcp_pool.py:36-125 | after any run a connection is leaked exactly when its call was cancelled while connecting, or another connection was stored under its key before anyone took it out |
| `PoolInterleaving.NoOverlapNoLeak` | src/mcpworks_api/core/mcp_pool.py:36-125 | while no two connects to one key overlap and none is cancelled, every connection is pooled, closed or in some call's hands |
| `PoolInterleaving.OverlapLeaks` | src/mcpworks_api/core/mcp_pool.py:83-90 | two overlapping connects to one key, both successful, leak the first connection |
| `Conversation.Memory.PutState` | src/mcpworks_api/services/agent_service.py:763-804 | any other writer may put anything under the key; the turns it replaces count as dropped |
| `Conversation.Memory.AppendTurn` | src/mcpworks_api/core/conversation_memory.py:77-126 | the turn is saved behind the turns that were seen, at most 50; every turn ever stored is stored, summarised, capped or dropped, the stored ones being the latest; turns are dropped exactly when the read did not show them; a failed save changes nothing |
| `Conversation.Memory.CompactHistory` | src/mcpworks_api/core/conversation_memory.py:138-220 | only the turns handed to the model go, only when read, model and save worked, at least 20 each time, so turns + 20 x compactions is at most the turns ever stored |
| `Conversation.Memory.SaveChatTurns` | src/mcpworks_api/services/agent_service.py:1168-1220 | while no read fails nothing is dropped; when nothing fails the hard cap is never reached: at most 31 turns stay and every other was summarised |
| `HistoryInterleaving.KnownIsLineage` | src/mcpworks_api/core/conversation_memory.py:77-220 | after any interleaving a turn is stored, summarised or cut by the cap exactly when its append is in the lineage of the entry: that of the last write, then of the last write its writer had read, and so on |
| `HistoryInterleaving.NoOverlapKeepsAll` | src/mcpworks_api/core/conversation_memory.py:77-220 | when no write falls between the read and the write of another, no turn is lost |
| `HistoryInterleaving.OverlapLoses` | src/mcpworks_api/core/conversation_memory.py:90-120 | a turn written between the read and the write of another task is gone after that write |
| `ScannerPipeline.EvaluatePipeline` | src/mcpworks_api/core/scanner_pipeline.py:97-189 | the entries that fit run in order, each on what the runs before it left, up to a block; the verdicts are theirs, neutral where one raised; action and score are those of the first most severe verdict, or what the policy says when all raised; the modified content is what the last run that did not raise returned, if that differs from what came in |
| `ScannerPipeline.DefaultSelection` | src/mcpworks_api/core/scanner_pipeline.py:24-52 | without a configuration three scanners run on output, in order, and none on input |
| `ScannerPipeline.LoopRefines` | src/mcpworks_api/core/scanner_pipeline.py:104-157 | sorting first and skipping on the way equals filtering first and sorting stably |
| `ScannerPipeline.RunsInTurn` | src/mcpworks_api/core/scanner_pipeline.py:111-128 | run i is the i-th selected scanner on what the runs before it left, an error leaving the content alone |
| `ScannerPipeline.RunsStopAtBlock` | src/mcpworks_api/core/scanner_pipeline.py:138-139 | a block is the last run, and runs stop short only at a block |
| `ScannerPipeline.OutcomeExactly` | src/mcpworks_api/core/scanner_pipeline.py:161-170 | block exactly when one blocked or all that ran erred under fail_closed; flag exactly when none blocked and one flagged |
| `ScannerPipeline.Deciding` | src/mcpworks_api/core/scanner_pipeline.py:165-167 | action and score come from the first of the most severe verdicts |
| `ScannerPipeline.IrrelevantEntriesIgnored` | src/mcpworks_api/core/scanner_pipeline.py:112-121 | disabled, other-direction and unresolvable entries never affect the outcome |

## Left out

- Building parameter buckets, request-body and response schemas and summaries of imported endpoints (`_bucket_parameters`, `_extract_request_body`, `_extract_response_schema`): they copy members around; exceptions they could raise on ill-typed documents are not modelled.
- Text that is not Unicode scalar values: lone surrogates, on which Python's encoder raises.
- The wording of generated docstrings and wrapper bodies, and ill-typed JSON schemas in `code_mode.py`: the package is modelled as files, definitions, literals and imports; which texts may stand between quotes is a parameter.
- Names of Python's own module attributes, such as `__path__`, as function names: the schemas accept only names that start with a letter or digit.
- A parameter that is called like a local name of the wrapper, such as `_track_call`, and is overwritten before it is used.
- Parsing and printing of JSON around the `redact_fields` rule, and the other response rules.
- Arguments and rule members of unexpected Python types in request rules, except where text is glued to something else and where a number overflows.
- Quota by month and day in the billing middleware: counters without a release; and a tier change during a run.
- Cancellation of a pool call while it closes a connection.
- Unreadable entries and other writers while appends and compactions overlap, the text sent to the summarising model, and the rendering of history into messages.
- Timing, hashing and logging in the scanner pipeline; the scanners themselves.
- The regular-expression secret patterns and the injection scanner: match lists and values are inputs; that the scanner's positions refer to normalised text is not modelled.
- The rest of `build_published_api_tool`'s dictionary, and the network, retry and database parts of both proxies.
- The database handlers, authentication, encryption, SSRF checks, sandbox process handling and the agent runtime.
