# Verified models of SIE tooling and examples

This project models the algorithmic cores of the SIE repository in Dafny and proves what they are for.
`dafny verify dfyconfig.toml` checks everything.

- **Rust scanner** (`RustLexer`, `RustTokens`, `RustMask`, `RustProduction`, `RustAttributes`). The lexer for comments
  and literals and the attribute pattern, each proved to match exactly the texts it is for, the three
  loops driven by it (mask, nesting depth, end of a braced item), the removal of nested test helpers and the cut
  before the test module. The loops agree on token boundaries, and the transformations are invisible outside the
  text they remove.
- **Agent turns** (`JsonSchema`, `SchemaRename`, `TurnSchema`, `AgentTurn`). A meaning for JSON Schema documents,
  the renaming and merging of tool schemas into one turn schema with a proof that validation is preserved, and the
  required-tool sequence as a state machine over conversation histories.
- **Run publication** (`Publication`). Any number of writers that reserve, stage, rename and clean up, and that may
  fail or crash at any step, as interleaved steps over one runs directory.
- **Ranking** (`StableSort`, `Ranking`, `Fusion`, `Rerank`). NDCG and its bound, reciprocal rank fusion in both
  implementations, and reranking with checkpoints across crashes.
- **Smaller cores** (`Packing`, `Taxonomy`, `Shelf`, `Risk`, `Digest`). Greedy chunking, category paths and
  hierarchical metrics, box suppression, cosine scoring and risk bands, and length-prefixed framing.
- `Prelude`, `TextFacts` and `RealFacts` hold shared facts about lists, texts and numbers.

Some laws one might expect do not hold of the code as written. Each has a lemma with an input that breaks it and a
lemma with the exact condition:

| law | broken by | holds if and only if |
|---|---|---|
| a constant keeps its meaning when schemas are merged | `ReferenceLikeConstantIsRejected` | `ConstKeptIffUnmentioned` |
| a turn that the grammar accepts can be read | `BlankTextIsNotRead`, `NullCallIsNotRead` | `GrammarTurnIsReadIff` |
| an id that leads in all shared lists stays ahead in a fusion | `LeadingSharedListsIsNotEnough` | `AheadIffScores` for the given lists, `AheadIffLeads` for all selections of them |
| NDCG is at most one | `RepetitionExceedsOne` | `BoundedIffNoRepetition` |
| recall is at most one | `RepetitionBreaksRecall` | `RecallBoundedIffNoRepetition` |
| the risk band is that of the maximum cosine | `RepeatedIdHidesTheMaximum` | `BandIffDistinctIds` |
| a category path is read back from its string | `UncleanPathIsLost` | `RoundTripIffClean` |
| nesting depth survives the removal of helpers | `UnbalancedHeaderChangesDepth` | `DepthKeptIffHeadersBalanced`, `NestingKeptIffNeutral` |
| a writer that ends leaves only its record | `InterruptLeavesStaging` | `CleanExit` |

Exceptions of the source are `Result` values. Scores are exact reals. Calls into other services, clocks and hashes
are parameters.

## Model

| member | source | states |
|---|---|---|
| RustLexer.NonCodeEnd | tools/check_response_chunk_protocol.py:272-309 | the loops and branches compute exactly the token function `ScanAt`: line comment, nested block comment, raw string, escaped string, character literal, code, or the matching error |
| RustLexer.BlockCommentEnd | tools/check_response_chunk_protocol.py:276-290 | the counting loop finds the end that the recursive definition gives, or none |
| RustLexer.QuotedEnd | tools/check_response_chunk_protocol.py:298-307 | the loop that skips escaped pairs finds the end that the recursive definition gives, or none |
| RustLexer.CommentIsWellNested | tools/check_response_chunk_protocol.py:276-290 | a block comment ends at a mark exactly when the text before it is a well-nested comment body; the counter agrees with a tree grammar of comments |
| RustLexer.StringEndsAtFirstUnescapedQuote | tools/check_response_chunk_protocol.py:298-307 | skipping characters in pairs finds the first quote preceded by an even number of backslashes, and fails exactly when there is none |
| RustLexer.TokenLocal | tools/check_response_chunk_protocol.py:272-309 | a token depends only on its own characters: any text that agrees on them has the same token at that offset |
| RustLexer.CodeLocal | tools/check_response_chunk_protocol.py:272-309 | no opening of a comment or literal spans a line break, so code stays code in text that agrees up to one |
| RustTokens.TokenIff | tools/check_response_chunk_protocol.py:268-310 | a token ends at an offset if and only if the text up to there is one: two slashes and a line, a well-nested comment, `r` or `br` with up to 255 hashes and quotes up to the first quote with as many hashes, a quoted text up to the first unescaped quote, or one of the four forms of a character literal |
| RustTokens.BadIff | tools/check_response_chunk_protocol.py:276-307 | an error is raised if and only if a comment, raw string or string is opened there and no end makes it one; each error names what was opened |
| RustTokens.LineCommentEnds | tools/check_response_chunk_protocol.py:273-275 | a line comment ends after its line break, and at the end of the text if there is none |
| RustTokens.CharLiteralIff | tools/check_response_chunk_protocol.py:269-269 | the character pattern matches exactly one character, an escaped character, two hexadecimal digits or one to six in braces, between single quotes |
| RustMask.CodeMask | tools/check_response_chunk_protocol.py:312-324 | succeeds exactly when the whole text scans; the result blanks the characters of tokens, keeps code and every carriage return and newline, and keeps the length; an error is that of a boundary where scanning fails |
| RustMask.MaskBlanksTokens | tools/check_response_chunk_protocol.py:312-324 | in text that scans, a character is blanked if and only if it lies in a comment or literal and is no line break |
| RustMask.BlankToken | tools/check_response_chunk_protocol.py:320-322 | the in-place inner loop blanks the range but for line breaks and changes nothing else |
| RustMask.MaskIsAllCode | tools/check_response_chunk_protocol.py:312-324 | masked text opens no comment and no literal at any offset |
| RustMask.MaskIdempotent | tools/check_response_chunk_protocol.py:312-324 | masked text scans without error and masks to itself |
| RustMask.NestingDepth | tools/check_response_chunk_protocol.py:327-343 | returns a depth exactly at lexical boundaries without an earlier unmatched closing brace, and then it is opening minus closing braces of the mask; returns none exactly strictly inside a token; the two errors mean what they say |
| RustMask.BoundaryOrInside | tools/check_response_chunk_protocol.py:327-343 | in text that scans, every offset is a boundary or strictly inside one token, never both |
| RustMask.BracedItemEnd | tools/check_response_chunk_protocol.py:346-360 | from a brace visible in the mask: the first offset where the mask is balanced again, which is a boundary; the errors are an unterminated token or a mask that stays open to the end |
| RustProduction.FindAttributes | tools/check_response_chunk_protocol.py:244-247 | the left-to-right search returns all matches of the attribute pattern, in order |
| RustAttributes.AttributeIff | tools/check_response_chunk_protocol.py:244-247 | the attribute pattern matches exactly the texts that start a line and consist of blanks and tabs, `#`, and the six words with any white space before each |
| RustProduction.AttributesDisjoint | tools/check_response_chunk_protocol.py:244-247 | two matches never overlap, so a search for separate matches misses none |
| RustProduction.BlankRanges | tools/check_response_chunk_protocol.py:363-368 | blanks exactly the characters of the ranges but for newlines; the length is kept |
| RustProduction.LinesStay | tools/check_response_chunk_protocol.py:363-368 | line breaks stay where they are, so does everything outside the ranges; all else is blank |
| RustProduction.HelperOf | tools/check_response_chunk_protocol.py:375-386 | one attribute: which of them start a nested helper, its range, and exactly when and how it fails |
| RustProduction.WithoutNestedTestHelpers | tools/check_response_chunk_protocol.py:371-387 | succeeds exactly when the text scans and ordered, disjoint helper ranges exist that cover every nested test method and every attribute that could not be handled; the result is the source with those ranges blanked; an error is that of the text, or of the first attribute outside the helpers before it, with its cause |
| RustProduction.RemovedIsUnique | tools/check_response_chunk_protocol.py:371-387 | a source has at most one such list of ranges, so it determines the result |
| RustProduction.BlankingIsInvisible | tools/check_response_chunk_protocol.py:371-387 | removing helpers keeps every lexical boundary outside them, and the mask of the result is the mask of the source with the helpers blanked |
| RustProduction.DepthSurvives | tools/check_response_chunk_protocol.py:371-387 | with balanced headers, the brace depth at every offset outside the helpers is that in the original source |
| RustProduction.NestingSurvives | tools/check_response_chunk_protocol.py:327-387 | where every header the depth function gets to is balanced and closes nothing opened before it, the depth function has the same outcome outside the helpers before and after their removal: a depth, inside a token, or the error |
| RustProduction.NestingKeptIffNeutral | tools/check_response_chunk_protocol.py:327-387 | all those outcomes are kept if and only if every header is of that kind |
| RustProduction.DepthShift | tools/check_response_chunk_protocol.py:371-387 | with any headers, removal lowers the depth outside the helpers by exactly the braces that the headers before it leave open |
| RustProduction.DepthKeptIffHeadersBalanced | tools/check_response_chunk_protocol.py:371-387 | all those depths are kept if and only if every removed header is balanced in the mask |
| RustProduction.BraceFreeHeaderIsBalanced | tools/check_response_chunk_protocol.py:260-266 | a header without braces in the mask is balanced |
| RustProduction.BraceFreeHeaderIsNeutral | tools/check_response_chunk_protocol.py:260-266 | such a header keeps every outcome of the depth function |
| RustProduction.UnbalancedHeaderChangesDepth | tools/check_response_chunk_protocol.py:371-387 | a nested test method with a brace in an additional attribute: the code removes it, and depths and outcomes outside it change |
| RustProduction.StartsTestModule | tools/check_response_chunk_protocol.py:393-405 | one attribute: accepted exactly when it is inside a token or starts an inline module at depth zero; each error names its cause |
| RustProduction.Production | tools/check_response_chunk_protocol.py:390-409 | succeeds exactly when the test attributes are at most one, at depth zero, on an inline module; the result is a prefix ending at a boundary (at that attribute, or the whole text) without test attributes; each error names its cause |
| RustProduction.CutAtBoundary | tools/check_response_chunk_protocol.py:407-409 | from the accepted attributes: at most one boundary, and the text before it without test attributes |
| RustProduction.PrefixMask | tools/check_response_chunk_protocol.py:390-409 | cutting at a boundary keeps the boundaries and the mask of the prefix |
| RustProduction.TestAttributeOfPrefix | tools/check_response_chunk_protocol.py:390-409 | a test attribute of such a prefix is one of the whole text |
| RustProduction.ProductionSource | tools/check_response_chunk_protocol.py:412-413 | succeeds exactly when the helpers can be removed and what remains splits; the result differs from a prefix of the source only inside the blanked helpers, has no test attributes, and ends with the cleaned text or at its test attribute at depth zero; a cut outside the helpers is a boundary of the source, as deep as the removed headers left braces open, and with balanced headers the cut is outside all helpers and at depth zero; an error is that of the text, of the first helper that cannot be removed, or of an attribute of the cleaned text, with its cause |
| JsonSchema.RecordMeaning | examples/contract-review-agent/contract_review_agent/native_model.py:279-290 | a closed record schema accepts exactly the objects with its properties, each accepted by its schema |
| JsonSchema.ConstantMeaning | examples/contract-review-agent/contract_review_agent/native_model.py:283-284 | a string constant schema accepts exactly that string |
| JsonSchema.DefsConstrainNothing | examples/contract-review-agent/contract_review_agent/native_model.py:242-243 | removing the definitions keyword changes no verdict of the schema itself |
| JsonSchema.MoreFuel | examples/contract-review-agent/contract_review_agent/native_model.py:236-265 | a definite verdict does not change when references may be followed further, so recursive definitions have one meaning |
| SchemaRename.RefPreserved | examples/contract-review-agent/contract_review_agent/native_model.py:248-257 | a renamed reference designates the renamed definition |
| SchemaRename.Merge.Preserves | examples/contract-review-agent/contract_review_agent/native_model.py:251-265 | renaming preserves every verdict on every value, at every recursion depth, under every applicator of the draft |
| TurnSchema.NamespacedParts | examples/contract-review-agent/contract_review_agent/native_model.py:236-265 | fails exactly when the definitions are neither absent, null nor an object; otherwise returns the body with its references renamed and exactly one definition for each, renamed, with its references renamed |
| SchemaRename.UntouchedIffUnmentioned | examples/contract-review-agent/contract_review_agent/native_model.py:251-261 | renaming leaves a value alone if and only if no object in it has a reference text to a renamed definition |
| TurnSchema.NamespacedKeepsMeaning | examples/contract-review-agent/contract_review_agent/native_model.py:236-265 | a schema moved into a document that holds its renamed definitions keeps every verdict |
| TurnSchema.NamesNeverCollide | examples/contract-review-agent/contract_review_agent/native_model.py:247-248 | renamed definitions of two tools, or of a tool and the output, have different names |
| TurnSchema.BuildTurnSchema | examples/contract-review-agent/contract_review_agent/native_model.py:268-328 | the loop builds the merged schema; it fails exactly on definitions that are no object or when no branch is permitted, with the matching error |
| TurnSchema.MoveTools | examples/contract-review-agent/contract_review_agent/native_model.py:274-293 | the loop over the tools gives one branch each and all their renamed definitions, or fails exactly on definitions that are no object |
| TurnSchema.ToolDefsHold | examples/contract-review-agent/contract_review_agent/native_model.py:274-280 | updating the root definitions tool by tool overwrites none of an earlier tool |
| TurnSchema.ArgumentsKeepMeaning | examples/contract-review-agent/contract_review_agent/native_model.py:268-328 | arguments validate inside the merged schema exactly as against the tool's own schema |
| TurnSchema.OutputKeepsMeaning | examples/contract-review-agent/contract_review_agent/native_model.py:294-310 | the final output validates inside the merged schema exactly as against its own schema |
| TurnSchema.PlainTextMeaning | examples/contract-review-agent/contract_review_agent/native_model.py:297-302 | plain text is accepted exactly if it is a string of 256 to 3500 characters |
| TurnSchema.MergedIsOneOf | examples/contract-review-agent/contract_review_agent/native_model.py:321-328 | the merged schema accepts what exactly one branch accepts, for one branch and for several |
| TurnSchema.AtMostOneBranch | examples/contract-review-agent/contract_review_agent/native_model.py:268-328 | with distinct tool names, of any two branches one rejects every turn |
| TurnSchema.TurnMeaning | examples/contract-review-agent/contract_review_agent/native_model.py:268-328 | a call is judged by that tool's own schema, a final turn by the output's own schema, everything else is rejected |
| TurnSchema.SharedNameRejects | examples/contract-review-agent/contract_review_agent/native_model.py:268-328 | with two tools of one name, a call that both accept is rejected |
| TurnSchema.ConstKeptIffUnmentioned | examples/contract-review-agent/contract_review_agent/native_model.py:251-261 | the merged schema judges calls of a tool with a constant as the tool's own schema does, if and only if the constant mentions none of the tool's definitions |
| TurnSchema.ReferenceLikeConstantIsRejected | examples/contract-review-agent/contract_review_agent/native_model.py:251-328 | a tool whose own schema accepts arguments with which the merged schema rejects the call |
| AgentTurn.NextRequiredStep | examples/contract-review-agent/contract_review_agent/native_model.py:170-195 | the loop returns the step after the greedy progress |
| AgentTurn.SatisfiesIff | examples/contract-review-agent/contract_review_agent/native_model.py:144-195 | a step is satisfied by a call of its tool whose arguments, as an object or its text, hold the required text as `query`, or as `question` where `query` is no string |
| AgentTurn.ProgressEmbeds | examples/contract-review-agent/contract_review_agent/native_model.py:170-195 | progress many steps are embedded in the history in order |
| AgentTurn.ProgressIsLongest | examples/contract-review-agent/contract_review_agent/native_model.py:170-195 | no embedding of a prefix of the required steps is longer |
| AgentTurn.ProgressGrows | examples/contract-review-agent/contract_review_agent/native_model.py:170-195 | appending items never lowers progress and adds at most their number |
| AgentTurn.SelectedTools | examples/contract-review-agent/contract_review_agent/native_model.py:217-233 | which tools are offered and whether a final turn is allowed, for each choice; fails exactly for an unknown name or an unsupported choice |
| AgentTurn.WithNameAt | examples/contract-review-agent/contract_review_agent/native_model.py:227-232 | selecting by name keeps exactly the tools of that name, in order |
| AgentTurn.TypeAcceptsString | examples/contract-review-agent/contract_review_agent/native_model.py:154-161 | for a type alone, accepting strings is what the type assertion means |
| AgentTurn.AcceptsStringIff | examples/contract-review-agent/contract_review_agent/native_model.py:154-167 | a schema accepts strings if and only if a way through its alternatives leads to one whose type admits them |
| AgentTurn.TypeChoiceMeaning | examples/contract-review-agent/contract_review_agent/native_model.py:154-167 | for types and alternatives of them, it holds if and only if every string is valid |
| AgentTurn.ForcedCallIff | examples/contract-review-agent/contract_review_agent/native_model.py:455-501 | the first tool of the name is called; without a text with no argument, with one as `query` if that accepts strings, else as `question`, else it fails with the cause |
| AgentTurn.CallableIff | examples/contract-review-agent/contract_review_agent/native_model.py:455-501 | the call is made if and only if the tool is offered and takes the text, if there is one |
| AgentTurn.OutcomeIff | examples/contract-review-agent/contract_review_agent/native_model.py:440-530 | a turn is forced if and only if a step is open that can be called, and reaches the service if and only if none is open and the turn schema can be built |
| AgentTurn.ForcedCallSatisfies | examples/contract-review-agent/contract_review_agent/native_model.py:144-167 | the forced call is one that the matcher recognises for its step |
| AgentTurn.ReadTurn | examples/contract-review-agent/contract_review_agent/native_model.py:533-594 | succeeds exactly for an object that calls a selected tool with an object or is an allowed final turn of the right kind and length; the call carries that name and the written arguments, the message that text |
| AgentTurn.GrammarTurnIsReadIff | examples/contract-review-agent/contract_review_agent/native_model.py:533-594 | a turn that the merged schema accepts fails to be read if and only if it is a call whose arguments are no object or a plain text too short once stripped, with that error |
| AgentTurn.BlankTextIsNotRead | examples/contract-review-agent/contract_review_agent/native_model.py:571-579 | 256 blanks are accepted by the merged schema and not read |
| AgentTurn.NullCallIsNotRead | examples/contract-review-agent/contract_review_agent/native_model.py:547-557 | a call with null is accepted by the merged schema of an unconstrained tool and not read |
| AgentTurn.NativeModel.GetResponse | examples/contract-review-agent/contract_review_agent/native_model.py:425-601 | the response and the recorded service calls for each outcome: a forced call and a failure record nothing, a generated turn records one call |
| AgentTurn.RoundAdvances | examples/contract-review-agent/contract_review_agent/native_model.py:449-501 | each forced turn raises progress, by exactly one if nothing else is appended |
| AgentTurn.ForcedTurnsLead | examples/contract-review-agent/contract_review_agent/native_model.py:449-501 | over any run, every turn before a forced one is forced, there are at most as many as open steps, and every generated turn finds full progress |
| AgentTurn.NoForcedAfterGenerated | examples/contract-review-agent/contract_review_agent/native_model.py:449-501 | over any run, failed turns included, no forced turn follows a generated one |
| AgentTurn.MessageNeedsAllSteps | examples/contract-review-agent/contract_review_agent/native_model.py:449-594 | over any run, a turn that can produce a message follows a history with the whole required sequence embedded |
| Publication.NamesAreApart | examples/contract-review-agent/contract_review_agent/evidence.py:108-125 | published, reserved and staging names of valid run ids never coincide, and each determines its run id |
| Publication.RunIdStays | examples/contract-review-agent/contract_review_agent/evidence.py:108-118 | a valid run id contains no path separator and does not start with a dot |
| Publication.PassingRecordIsComplete | examples/contract-review-agent/contract_review_agent/evidence.py:588-633 | the files written in order with passing checks and a manifest form a complete record |
| Publication.StepInv | examples/contract-review-agent/contract_review_agent/evidence.py:407-467 | every step of every writer, failures and crashes included, keeps the protocol invariant |
| Publication.OneHolder | examples/contract-review-agent/contract_review_agent/evidence.py:435-439 | at most one writer holds the reservation of a run id |
| Publication.OthersLockIsSafe | examples/contract-review-agent/contract_review_agent/evidence.py:464-466 | no step touches the lock of another writer that holds it |
| Publication.OthersAreSafe | examples/contract-review-agent/contract_review_agent/evidence.py:407-467 | no step touches anything another writer owns: its lock, staging directory, record, or what it left behind |
| Publication.OthersStagingIsSafe | examples/contract-review-agent/contract_review_agent/evidence.py:443-463 | no step touches another writer's staging directory, nor its name while it cleans up |
| Publication.PublishesOnce | examples/contract-review-agent/contract_review_agent/evidence.py:440-460 | no step touches a published record; a record is published only where there is none |
| Publication.RecordsStay | examples/contract-review-agent/contract_review_agent/evidence.py:407-467 | in every interleaving a published record is never replaced, changed or removed |
| Publication.PublishedIsComplete | examples/contract-review-agent/contract_review_agent/evidence.py:588-633 | what is found under a run id is a complete record of the one writer that renamed it, and holds the texts and the evaluation of its own work |
| Publication.CleanExit | examples/contract-review-agent/contract_review_agent/evidence.py:435-467 | a writer that ends without a crash leaves nothing but its record if and only if no cleanup failed and no interrupt came between a mkdir and the block that undoes it; success means its record is there |
| Publication.InterruptLeavesStaging | examples/contract-review-agent/contract_review_agent/evidence.py:435-466 | an interrupt right after the staging directory is made leaves it behind although every cleanup call succeeds |
| Publication.UndisturbedWriter | examples/contract-review-agent/contract_review_agent/evidence.py:407-467 | from every state in which its run id is free, a writer that nothing disturbs ends: with success and exactly its record added if its checks pass, otherwise with failure and the directory unchanged |
| Publication.NeverStuck | examples/contract-review-agent/contract_review_agent/evidence.py:407-467 | in every reachable state every writer that has not ended can go on, and can also fail, be interrupted or crash |
| Publication.TakenRunId | examples/contract-review-agent/contract_review_agent/evidence.py:432-439 | a published or reserved run id is refused and nothing changes |
| Publication.RecordCarries | examples/contract-review-agent/contract_review_agent/evidence.py:588-633 | the record of a work holds each of its texts under its name |
| Publication.PublicationIsSafe | examples/contract-review-agent/contract_review_agent/evidence.py:407-467 | from an empty runs directory, for any number of writers and any interleaving: one holder, one publisher, complete records that stay |
| StableSort.SortUnique | examples/retrieval-ablation/benchmark_ablation.py:188-193 | descending and stable determine the sorted list, so the model's sort is the library's |
| Ranking.PrefixBound | examples/retrieval-ablation/benchmark_ablation.py:150-154 | the best n gains bound the first n gains of every ranking without repetitions |
| Ranking.DcgMonotone | examples/retrieval-ablation/benchmark_ablation.py:150-154 | larger prefix sums give a larger discounted sum |
| Ranking.NdcgIsBounded | examples/retrieval-ablation/benchmark_ablation.py:150-154 | DCG is at most ideal DCG and NDCG lies between zero and one, for non-negative relevance and every ranking without repetitions up to the cut |
| Ranking.NothingRelevantScoresZero | examples/retrieval-ablation/benchmark_ablation.py:150-154 | without anything relevant every ranking scores zero |
| Ranking.BoundedIffNoRepetition | examples/retrieval-ablation/benchmark_ablation.py:150-154 | NDCG is at most one under all judgements if and only if the ranking repeats no id up to the cut |
| Ranking.RecallIsBounded | examples/retrieval-ablation/benchmark_ablation.py:164-168 | recall lies between zero and one without repetitions, and is one if and only if every relevant id stands before the cut |
| Ranking.RecallBoundedIffNoRepetition | examples/retrieval-ablation/benchmark_ablation.py:164-168 | recall is at most one under all judgements if and only if the ranking repeats no id up to the cut |
| Ranking.RepetitionBreaksRecall | examples/retrieval-ablation/benchmark_ablation.py:164-168 | for every ranking with a repetition up to the cut, judgements under which recall exceeds one |
| Ranking.SortedRankingIsPerfect | examples/retrieval-ablation/benchmark_ablation.py:150-154 | a ranking by descending relevance that misses no relevant id reaches one |
| Ranking.PerfectIffIdeal | examples/retrieval-ablation/benchmark_ablation.py:150-154 | NDCG is one if and only if the gain at every rank up to the cut is the ideal one |
| Ranking.RepetitionExceedsOne | examples/retrieval-ablation/benchmark_ablation.py:150-154 | a ranking that repeats an id can exceed one |
| Fusion.AddRanks | examples/retrieval-ablation/benchmark_ablation.py:191-192 | the inner loop adds the reciprocal ranks of one list to the dictionary, keeping insertion order |
| Fusion.RrfFuse | examples/retrieval-ablation/benchmark_ablation.py:188-193 | the loops compute the union of the lists in first-seen order, stably sorted by fused score |
| Fusion.RrfEnsemble | examples/retrieval-ablation/autoresearch.py:604-614 | each query is the weighted fusion of its lists; without weights it is the plain fusion; an absent query or no list is an index error, exactly |
| Fusion.EnsembleIsFusion | examples/retrieval-ablation/autoresearch.py:604-614 | with unit weights the ensemble is the plain fusion, ties included |
| Fusion.WeightedScoreIsSum | examples/retrieval-ablation/autoresearch.py:610-612 | the weighted score is the sum of weight over shifted rank in the lists that hold the id |
| Fusion.WeightedOrder | examples/retrieval-ablation/autoresearch.py:604-614 | every id once; of two the higher weighted score comes first, and on a tie the one seen first |
| Fusion.FusedHolds | examples/retrieval-ablation/benchmark_ablation.py:188-193 | every id of every list exactly once, in non-increasing score |
| Fusion.OrderOfTwo | examples/retrieval-ablation/benchmark_ablation.py:188-193 | which of two ids comes first: the higher score, and on a tie the one seen first |
| Fusion.ScoreIgnoresListOrder | examples/retrieval-ablation/benchmark_ablation.py:188-193 | scores do not depend on the order of the lists |
| Fusion.LeaderStaysAhead | examples/retrieval-ablation/benchmark_ablation.py:188-193 | an id that leads another wherever that one appears stays ahead of it |
| Fusion.LeadingSharedListsIsNotEnough | examples/retrieval-ablation/benchmark_ablation.py:188-193 | leading only in the lists that hold both is not enough |
| Fusion.AheadIffScores | examples/retrieval-ablation/benchmark_ablation.py:188-193 | one id is ahead of another in the fusion of the given lists if and only if both are ranked and its sum of reciprocal ranks is higher, or equal and seen first |
| Fusion.AheadIffLeads | examples/retrieval-ablation/benchmark_ablation.py:188-193 | one id is ahead of another in the fusion of every selection of the lists that ranks the other, if and only if it leads in each list |
| Fusion.HybridPool | examples/retrieval-ablation/benchmark_ablation.py:142-144 | no repetitions, at most twice the cut, exactly the ids of the two cut lists |
| Fusion.PoolOrder | examples/retrieval-ablation/benchmark_ablation.py:142-144 | lexical hits first, each group in its own order |
| Fusion.FusionScoresAtMostOne | examples/retrieval-ablation/benchmark_ablation.py:142-154 | fused rankings and hybrid pools meet the premise of the metric bound |
| Rerank.RecordOne | examples/retrieval-ablation/benchmark_ablation.py:472-480 | recording a score keeps the counter equal to the filled slots and the checkpoint at the last full interval |
| Rerank.Record | examples/retrieval-ablation/benchmark_ablation.py:472-481 | one completed score: slot, counter and checkpoint after it, also if the process dies before the checkpoint is written |
| Rerank.ScoreOne | examples/retrieval-ablation/benchmark_ablation.py:471-481 | the next completion of a batch fills one open slot and adds one query to the service log |
| Rerank.RunBatch | examples/retrieval-ablation/benchmark_ablation.py:469-483 | in any completion order: exactly the newly filled slots are scored, each once and correctly, and counter and checkpoint stay in step |
| Rerank.RunBatches | examples/retrieval-ablation/benchmark_ablation.py:467-483 | all remaining slots are filled, or the process died with at most one interval not checkpointed |
| Rerank.RerankCrossEncoder | examples/retrieval-ablation/benchmark_ablation.py:416-490 | a returned value is complete and cached; the log of the scoring service shows no query twice and no checkpointed query; a crash loses at most one interval; a process that lives long enough returns |
| Rerank.Campaign | examples/retrieval-ablation/benchmark_ablation.py:416-490 | any sequence of crashes, resumes and completion orders ends with the rows of one uninterrupted run; no query checkpointed at a crash is scored by any later attempt; each crash costs at most one interval of scores |
| Packing.ChunkMarkdown | examples/insurance-claims-agent/insurance_claims/review.py:255-270 | the chunks are the joined groups of the greedy partition of the stripped paragraphs; nothing but white space of the text is lost and the rest keeps its order; joined again they give the joined paragraphs; no order-preserving partition under the budget has fewer |
| Packing.ParagraphsAt | examples/insurance-claims-agent/insurance_claims/review.py:256-256 | the paragraphs are the stripped parts at exactly the positions that are not blank, in order |
| TextFacts.SplitSplits | examples/insurance-claims-agent/insurance_claims/review.py:256-256 | the parts join to the text again, each ended by the first separator from its start on |
| TextFacts.SplitsIsUnique | examples/insurance-claims-agent/insurance_claims/review.py:256-256 | no other parts do |
| TextFacts.StripCuts | examples/insurance-claims-agent/insurance_claims/review.py:256-256 | stripping removes white space at both ends and nothing else |
| Packing.GreedyIsUnique | examples/insurance-claims-agent/insurance_claims/review.py:261-269 | the budget determines the greedy partition |
| Packing.GreedyFits | examples/insurance-claims-agent/insurance_claims/review.py:261-266 | a group has one paragraph or stays within the budget |
| Packing.GreedyIsOptimal | examples/insurance-claims-agent/insurance_claims/review.py:255-270 | a greedy partition of any suffix has no more groups than any partition of the whole under the budget |
| Packing.PackingIsLossless | examples/insurance-claims-agent/insurance_claims/review.py:255-270 | joining the texts of the groups gives the joined paragraphs |
| Packing.PackBlocks | examples/contract-review-agent/contract_review_agent/tools.py:98-107 | the textual packing loop is the same greedy packing, with joined text of several blocks at most the target |
| Packing.JoinedLength | examples/contract-review-agent/contract_review_agent/tools.py:98-107 | the length of a joined group is its size less the last gap |
| Packing.HardSplit | examples/contract-review-agent/contract_review_agent/tools.py:109-115 | terminates for positive targets; every piece is at most 1.6 times the target, all but the last exactly the target |
| Packing.SplitClauses | examples/contract-review-agent/contract_review_agent/tools.py:98-115 | packing then cutting keeps the packed text under concatenation |
| Taxonomy.RoundTripIffClean | examples/taxonomy-classification/taxonomy_classification/taxonomy.py:17-31 | splitting the joined string returns the path if and only if no node contains the separator and none but the last ends with its first two characters |
| Taxonomy.StringsIdentifyPaths | examples/taxonomy-classification/taxonomy_classification/taxonomy.py:30-31 | on such paths the joined string is a collision-free identifier |
| Taxonomy.UncleanPathIsLost | examples/taxonomy-classification/taxonomy_classification/taxonomy.py:17-31 | two paths with one string, one of which is not read back |
| Taxonomy.SharedAncestors | examples/taxonomy-classification/taxonomy_classification/taxonomy.py:34-35 | the number of shared ancestors is the length of the longest common prefix |
| Taxonomy.HierarchicalPrecision | examples/taxonomy-classification/taxonomy_classification/metrics.py:14-29 | the loop computes shared over predicted ancestors, zero if there are none; unequal lengths fail |
| Taxonomy.HierarchicalRecall | examples/taxonomy-classification/taxonomy_classification/metrics.py:32-47 | the loop computes shared over reference ancestors, zero if there are none; unequal lengths fail |
| Taxonomy.PrecisionOneIff | examples/taxonomy-classification/taxonomy_classification/metrics.py:14-29 | precision is one if and only if every prediction is its reference or an ancestor of it |
| Taxonomy.ExactLenientReferences | examples/taxonomy-classification/taxonomy_classification/metrics.py:135-154 | each reference is the prediction if acceptable and the truth otherwise; unequal lengths fail |
| Taxonomy.LenientIff | examples/taxonomy-classification/taxonomy_classification/metrics.py:135-154 | the lenient reference differs from the truth exactly for a wrong prediction among the alternatives, and is then the prediction |
| Taxonomy.F1Grows | examples/taxonomy-classification/taxonomy_classification/metrics.py:50-53 | F1 is monotone in precision and recall |
| Taxonomy.F1IsHarmonic | examples/taxonomy-classification/taxonomy_classification/metrics.py:50-53 | F1 times the sum of precision and recall is twice their product, and zero if both are |
| Taxonomy.LenientDominates | examples/taxonomy-classification/taxonomy_classification/metrics.py:14-65 | for all predictions, truths and alternatives, lenient precision, recall and F1 are each at least the strict ones and within the unit interval |
| Shelf.IouIsARatio | examples/retail-shelf-audit/retail_shelf_audit/audit.py:103-112 | symmetric, and within the unit interval for non-negative sizes |
| Shelf.IouZeroIff | examples/retail-shelf-audit/retail_shelf_audit/audit.py:103-112 | boxes with an area have a positive ratio if and only if they meet |
| Shelf.IouOneIff | examples/retail-shelf-audit/retail_shelf_audit/audit.py:103-112 | and the ratio one if and only if they are the same box |
| Shelf.HorizontalOverlapIs | examples/retail-shelf-audit/retail_shelf_audit/audit.py:93-100 | a share of the narrower box: symmetric, positive if and only if the boxes meet horizontally, one if and only if one covers the other |
| Shelf.EmptyBoxes | examples/retail-shelf-audit/retail_shelf_audit/audit.py:93-112 | boxes without a width have no overlap of either kind |
| Shelf.EligibleIff | examples/retail-shelf-audit/retail_shelf_audit/audit.py:115-129 | a price tag is eligible if and only if it starts at most the gap's height below it, ends at most a quarter of it above, and shares a quarter of the narrower width |
| Shelf.SuppressesIff | examples/retail-shelf-audit/retail_shelf_audit/audit.py:130-130 | boxes with an area suppress each other if and only if they share seven tenths of their union |
| Shelf.NearbyPriceCandidates | examples/retail-shelf-audit/retail_shelf_audit/audit.py:115-135 | the loop keeps, in score order, the eligible items that nothing kept suppresses, cut at six; it fails exactly with fewer than two |
| Shelf.SuppressionHolds | examples/retail-shelf-audit/retail_shelf_audit/audit.py:115-135 | kept boxes are eligible, pairwise below the threshold and in score order; they are those at the positions that no kept earlier position suppresses; every eligible dropped one overlaps a kept one of no lower score |
| Shelf.TruncatingIsStopping | examples/retail-shelf-audit/retail_shelf_audit/audit.py:135-135 | cutting at the limit equals stopping at it |
| Shelf.SelectVerticalPair | examples/retail-shelf-audit/retail_shelf_audit/audit.py:138-156 | the loops find, of the lexicographically greatest aligned pairs, the first in comparison order, upper candidate first, and fail exactly when there is none |
| Shelf.PairIsOrdered | examples/retail-shelf-audit/retail_shelf_audit/audit.py:147-147 | the upper candidate is not below the lower one; at one height it is the first |
| Shelf.PairIsWorth | examples/retail-shelf-audit/retail_shelf_audit/audit.py:150-152 | a pair is worth both scores less a ten-thousandth of the vertical distance, whether the boxes leave a space or overlap |
| Shelf.PairOrder | examples/retail-shelf-audit/retail_shelf_audit/audit.py:155-155 | pairs are totally ordered by overlap and then by worth |
| Risk.CauchySchwarz | examples/stripe-link-fraud/src/risk.ts:52-65 | for vectors of any length the squared dot product is at most the product of the squared norms |
| Risk.Cosine | examples/stripe-link-fraud/src/risk.ts:52-65 | the loop computes the cosine, zero for a zero norm, and it lies between minus one and one |
| Risk.BandIsOfTheMaximumIff | examples/stripe-link-fraud/src/risk.ts:123-156 | for given scores: the banded score is the maximum cosine over the whole index if and only if the shortlist holds no lower score under the best record's id |
| Risk.MaximumIffDistinctIds | examples/stripe-link-fraud/src/risk.ts:123-156 | for given ids: the banded score is the maximum for all cosines if and only if the ids are distinct |
| Risk.BandIffDistinctIds | examples/stripe-link-fraud/src/risk.ts:123-156 | for given ids: the band is that of the maximum for all cosines if and only if the ids are distinct |
| Risk.Bands | examples/stripe-link-fraud/src/config.ts:40-44 | the bands start at 47 and 52 hundredths, and a higher score never has a lower band |
| Risk.BandIsOfTheMaximum | examples/stripe-link-fraud/src/risk.ts:123-156 | with distinct ids it always is, whatever the reranker returns |
| Risk.RepeatedIdHidesTheMaximum | examples/stripe-link-fraud/src/risk.ts:127-155 | a repeated id can hide the maximum and lower the band |
| Risk.HitsPermuteTheShortlist | examples/stripe-link-fraud/src/risk.ts:142-154 | the hits are the shortlisted ids, reordered by descending reranker score |
| Risk.HitsAreScored | examples/stripe-link-fraud/src/risk.ts:142-153 | each hit has the reranker's score for its id, zero if there is none |
| Risk.TopIsBest | examples/stripe-link-fraud/src/risk.ts:123-126 | the shortlist has up to the limit of the records, and none left out scores higher than one in it |
| Digest.BigEndianRoundTrip | packages/sie_audio_prep/build_wheel.py:45-48 | a length is read back from its big-endian bytes |
| Digest.SourceDigest | packages/sie_audio_prep/build_wheel.py:38-50 | the loop feeds the fingerprint and the framed files to the hash, and fails exactly when a length does not fit its field |
| Digest.StreamRoundTrip | packages/sie_audio_prep/build_wheel.py:38-50 | the stream determines the ordered list of paths and contents |
| Digest.StreamInjective | packages/sie_audio_prep/build_wheel.py:27-50 | different file lists feed different bytes to the hash |

## Left out

- The regular expressions for helper headers and module items are function parameters; of the helper pattern only
  that a match ends with an opening brace is used. The attribute, raw-string and character-literal patterns are
  written out.
- `validate_protocol` and the source checks built on the scanner: finite comparisons with pinned constants.
- Helper ranges carry the offset of the opening brace beside start and end; the code keeps only the last two.
- JSON Schema: the applicators of section 10 of JSON Schema Core draft 2020-12 are interpreted, with `$ref`, `$defs`,
  and the assertions on type, constants, required names and string length; every other keyword is an arbitrary
  predicate of its own value and the instance, and `patternProperties` reads names by the predicate for `pattern`.
  `unevaluatedProperties`, `unevaluatedItems` and `$dynamicRef` are not interpreted. References have the form
  `#/$defs/name` of section 8.2.3.1; the name must be defined and contain no `/`, `~` or `%`.
- JSON Schema recursion is bounded by a fuel argument that counts followed references. All results hold for every
  fuel, and `MoreFuel` shows that a definite verdict is final. A value on which references recurse forever without
  consuming input stays undecided.
- JSON text is a codec parameter; where forced calls are matched, reading undoes writing on objects with one string.
- `SIENativeModel`: prompts, usage, ids and streaming; tools that are no function tools; the option to keep no list
  of service calls.
- Publication: the artifacts are opaque values, the evidence checks are one flag and digests an uninterpreted
  function. `mkdir`, `mkdtemp` and `rename` are atomic; a temporary suffix has eight characters and no dot. The report
  checks before the reservation are one nondeterministic rejection.
- The publication of financial filings has the same shape and is not modelled again.
- `mrr_at_k`: a search for the first relevant id.
- Ranking: the logarithm is any function that is positive and strictly increasing from two on; relevance is
  non-negative.
- Rerank: scoring is a deterministic function of the query, logged when its answer arrives; retries and requests in
  flight at a crash are not logged; a failed score ends the process like a crash; the
  checkpoint and cache writes are atomic. The case without a cache path is not modelled. At least one query is
  required, because the code reads the first candidate list for a log line.
- Packing.SplitClauses: starts from the non-empty blocks, because the splitting into blocks is a regular expression,
  and requires a positive target, because the code does not terminate for a target of zero with text to split.
- Taxonomy: macro and per-level metrics.
- Shelf: `select_gap` is a filter and a maximum; crops, drawing and text recognition are not modelled. A box is
  absent when it is not a list of four values; values and scores that are not numbers raise in the code and are
  not modelled.
- Risk: vectors have one length. Every shortlisted id is assumed to name a known pattern. The shortlist, hits and
  band are functions on values; the sort of the hits in place is a sort of the list.
- Digest: the order and choice of the files is a parameter, the hash is the sequence of bytes it was given.
- Command lines, servers, user interfaces, images, SDK clients and deployment wrappers.
