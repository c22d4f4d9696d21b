# HordeForge: a verified model of its protocols

HordeForge takes a GitHub issue to a merged pull request with a pipeline of agents. This project models the parts of
it that are protocols or algorithms rather than prompts and plumbing, and proves what they guarantee. Where a
guarantee fails, the project names an input or a run on which it fails and proves the exact condition under which it
holds.

| files | part of the system |
|---|---|
| `RefreshLock`, `RefreshLockSafety`, `RefreshLockRuns`, `RefreshCall`, `TokenManager` | the OAuth token refresh under a thread lock and a lock file |
| `GitHubRepository`, `PatchWorkflow`, `PatchLaws` | applying a patch: validate, branch, commit, open a pull request, roll back, try again |
| `Scheduling`, `LayerLaws`, `TaskGraph` | dependency graphs and the two level-by-level schedulers |
| `Texts`, `Decimal`, `PlanComment`, `PlanLaws` | handing a plan over in an issue comment |
| `Json`, `JsonLaws`, `JsonGrammar`, `JsonReading`, `JsonDictionary`, `JsonCompact`, `JsonLines` | printing and reading JSON |
| `BranchName`, `BranchWords` | branch names that carry an issue number |
| `Labels` | the stage labels of an issue and their concurrent writers |
| `ReviewOutput`, `ReviewOutputLaws`, `ReviewFences` | finding a JSON object in the answer of a language model |
| `Router` | model wrappers by task, with fallbacks and a cache |
| `ReviewGate`, `ReviewGateLaws`, `ReviewPaths` | from review findings to a merge |
| `GitHubRequests`, `PipelineRunner`, `MemoryContext` | retries and pagination, the step loop, ranking of memory matches |
| `Basics` | stock definitions |

Objects that the system updates in place are classes whose methods are proved against functions of their old state.
Concurrent parts are step machines: operations on the lock file, messages and remote writes are steps of their own, and
a statement about runs ranges over every sequence of steps of any number of callers.

## How the parts are set up

- **Refresh lock.** Each caller is a thread of some process. Testing the deadline, opening the lock file, breaking a
  stale one (stat, clock, unlink), removing it and releasing the thread lock are separate steps, as in the code, so a
  caller can be suspended between them; a reload of the credentials is one step, and so is saving them. The
  surroundings (`Env`) say how long a caller may stay in the refresh section, whether waiters may reach the 35 s
  deadline, whether a process may die while one of its callers is in the refresh section, and whether saves may fail;
  any other process may die at any time. The theorems say for exactly which surroundings the protocol is safe.
- **Patches.** `Repository` holds branches and pull requests and a script of faults, one for each request: an API error
  or a lost connection, before or after the request has taken effect. `Outcome` keeps the exceptions that the handler
  in `apply_patch` lets through apart from the result it returns.
- **JSON.** The printer is `json.dumps` with `ensure_ascii=False` and compact separators; the reader is `json.loads`,
  with its numbers, NaN and infinities, white space, escapes and surrogate pairs. A number with a fraction or an
  exponent is kept as it is written. `JsonGrammar` writes the grammar down once more, without the reader, and the reader
  is proved to accept exactly its texts.
- **Router.** The factory is modelled on the provider that a route names and on the stored profiles.
- **Labels.** The dispatcher starts a pipeline before it writes the ready label, and the pipeline writes its own label
  from the labels that the dispatcher saw. `Env` says whether pipelines may publish that early and whether users may
  change other labels while the dispatcher is at work or a pipeline runs, that is while somebody holds labels seen
  earlier. In between they may always change them.

## Where the code differs from what it says

- `get_valid_credentials` tests `force_refresh` twice, but the check under the file lock (line 207) ignores it, so a
  forced refresh sends nothing while the saved token is good.
- A rollback deletes the branch by name. When the branch existed before the call, it is the older branch that is
  deleted; the second attempt of the code generator and of the merge agent follows such a failure. `OlderBranchIsLost`
  is a case. A validation that fails because GitHub cannot be asked has the same effect: the call has created nothing
  yet, and the branch of that name is deleted all the same.
- `LLMRouter.for_task` describes its fallbacks as for a provider that fails. With the default routes none is ever taken,
  because the factory makes a wrapper without looking at keys; a provider it does not know raises at once, and no
  fallback is tried either. Only a route without a provider, when there are no profiles, leads on to a fallback. If
  the code and analysis tasks are set to such routes the calls nest until Python's limit; the error for "no provider"
  is never raised for a default task.
- The texts shown in a planning comment are not escaped. One that holds the start marker decides what is read back,
  and the plan below it is not looked at (`PlanSurvivesExactly`).
- A header request that fails while issues are being fetched ends the loop without an error, and the issues on later
  pages are missing from the result, as in `LostAnnouncement`.
- A finding of high severity does not block a review when an earlier finding of low severity has the same file, type
  and description.

## Model

| member | source | states |
|---|---|---|
| RefreshLockRuns.MutualExclusionExactly | agents/qwen_oauth_token_manager.py:153-200 | With callers in two or more processes, at most one is in the refresh section in every run if and only if no waiter reaches its deadline, no process dies while one of its callers is in the section, and the longest hold plus the 35 s timeout stays within the 120 s after which the file counts as stale. Waiting and idle processes may die. |
| RefreshLockRuns.OneRefreshPerWindowExactly | agents/qwen_oauth_token_manager.py:205-225 | Every run sends no request inside the validity window of an earlier grant if and only if the lock file excludes, in the same sense, and saves work; deaths outside the section and the callers' force flags do not matter. |
| RefreshLockSafety.LockFileExcludes | agents/qwen_oauth_token_manager.py:165-200 | Under those promises, whatever processes die outside the section, the lock file also exists exactly as long as a caller is in the refresh section. |
| RefreshLockSafety.RefreshesOncePerWindow | agents/qwen_oauth_token_manager.py:88-112 | With a safe lock and working saves, a request is never sent before the expiry of any earlier grant minus 30 s, whatever processes die outside the section. |
| RefreshLockSafety.ThreadsOfOneProcessExclude | agents/qwen_oauth_token_manager.py:114-121 | Two threads of one process never refresh at the same time, whatever times out, crashes or is lost. |
| RefreshLockRuns.OverlapByTimeout | agents/qwen_oauth_token_manager.py:171-178 | A waiter past its deadline removes the file of a live holder: two callers end up in the section. |
| RefreshLockRuns.OverlapByCrash | agents/qwen_oauth_token_manager.py:227-248 | Two waiters find the file of a dead process stale; the slower one removes the file of the faster one. |
| RefreshLockRuns.OverlapBySlowHolder | agents/qwen_oauth_token_manager.py:227-248 | A waiter that is suspended between stat and clock takes a released file for stale and removes the next holder's. |
| RefreshLockRuns.LostSaveWastesATokenWindow | agents/qwen_oauth_token_manager.py:360-364 | A token that could not be saved is requested again by the next process within its window. |
| TokenManager.QwenOAuthTokenManager.ReloadIfChanged | agents/qwen_oauth_token_manager.py:123-151 | Within 5 s of the last look an unforced reload takes what the memory cache has; otherwise the file is read when it is newer than what was read before or the reload is forced, and a forced reload ends with the saved credentials whenever there are any. |
| TokenManager.QwenOAuthTokenManager.RefreshAndPersistIfNeeded | agents/qwen_oauth_token_manager.py:205-225 | One request exactly when the saved token, or without a file the one at hand, is empty, has no expiry or has less than 30 s left; a saved grant is what every later forced reload finds; an invalid refresh token clears file and cache. |
| TokenManager.QwenOAuthTokenManager.GetValidCredentials | agents/qwen_oauth_token_manager.py:100-112 | Exactly when a request is sent, forced or not: a forced call sends one if and only if the saved token, or without a file the token at hand, is empty, has no expiry or has less than 30 s left; an unforced call also stops at either of the two earlier checks. At most one request per call; what is returned is not empty and has 30 s left, or was just granted. |
| RefreshCall.SendsExactlyWhenLapsed | agents/qwen_oauth_token_manager.py:205-209 | In any state of any run, a caller under the file lock goes on to send a request exactly when its token is empty, has no expiry or has less than 30 s left. |
| RefreshCall.UnopposedCall | agents/qwen_oauth_token_manager.py:100-112 | The steps of one call without competitors come to what the method does: when it asks for a token, what it holds, saves and remembers afterwards, and both locks free at the end. |
| RefreshCall.DeadlineIsKept | agents/qwen_oauth_token_manager.py:171-188 | A caller whose 35 s are over is in the refresh section after at most four more steps of its own, whatever the others do, with its own lock file or beside another's. |
| RefreshCall.OnlyOwnersRemove | agents/qwen_oauth_token_manager.py:190-200 | A caller leaving the section removes the lock file exactly when it has created one. |
| GitHubRepository.Repository.Answer | agents/github_client.py:393-464 | A request may fail before or after it has taken effect; the branches after it and the answer follow exactly from the next fault of the script. |
| GitHubRepository.Repository.CreateBranch | agents/github_client.py:899-904 | Creates the branch at the head of the base, or nothing; refuses an existing name. |
| GitHubRepository.Repository.GetFileSha | agents/github_client.py:969-983 | Reads from the default branch; "not found" is only answered when the file is not there. |
| GitHubRepository.Repository.PutFile | agents/github_client.py:989-1017 | Writes only when the sha is the current one, or absent for a new file. |
| GitHubRepository.Repository.DeleteFile | agents/github_client.py:1019-1036 | Deletes only with the current sha. |
| GitHubRepository.Repository.CreatePullRequest | agents/github_client.py:918-926 | Success adds exactly one pull request; branches never change. |
| GitHubRepository.Repository.DeleteBranch | agents/github_client.py:939-952 | Removes the named branch and no other. |
| PatchWorkflow.PatchWorkflowOrchestrator.ValidatePatch | agents/patch_workflow.py:156-186 | An accepted list is the original one validated against the default branch, and all its deletions have a sha; it is refused only for a deletion without one; after any outcome each change is either untouched or validated. |
| PatchWorkflow.PatchWorkflowOrchestrator.ApplyFileChange | agents/patch_workflow.py:188-215 | Writes or deletes with the sha of the change; success means the branch is the old tree with the change, other branches are unchanged. |
| PatchWorkflow.PatchWorkflowOrchestrator.CommitAll | agents/patch_workflow.py:114-120 | Success means the branch holds all changes applied in order; no other branch changes. |
| PatchWorkflow.PatchWorkflowOrchestrator.Publish | agents/patch_workflow.py:106-140 | Success means the branch was new and is now the base with all changes, with one more pull request; any end leaves the other branches alone; without faults success is characterised exactly. |
| PatchWorkflow.PatchWorkflowOrchestrator.ApplyPatch | agents/patch_workflow.py:106-154 | No outcome changes another branch; a patch is refused with an exception, and nothing changed, exactly when it has a deletion without a sha; a returned failure with a rollback leaves exactly the initial branches if the name was fresh, and loses the older branch if it was not, even when nothing but the first request failed; success means the new branch is the base with all changes and one more pull request; without faults success is characterised exactly. |
| PatchLaws.OlderBranchIsLost | agents/patch_workflow.py:142-154 | A patch for a branch name that is taken fails, and the branch that was there, with a file on it, is gone. |
| PatchLaws.CommitsOverlay | agents/patch_workflow.py:114-120 | A committed tree is the base overlaid with the changes: the last change to a path decides. |
| PatchLaws.GoesThroughExactly | agents/patch_workflow.py:156-215 | Any patch, with creations, modifications, deletions and shas of the caller's own: it goes through if and only if each change is presented with the sha of what the changes before it have left on the branch. |
| PatchLaws.DeletionDeletes | agents/patch_workflow.py:198-205 | A deletion with the current sha removes that file and leaves the rest of the tree unchanged. |
| PatchLaws.CommitsGoThroughExactly | agents/patch_workflow.py:156-215 | Every sha fixed by validation is current at its commit if and only if default and base branch agree on the patch's paths and no path recurs after its content was changed. |
| PatchLaws.DistinctPathsGoThrough | agents/patch_workflow.py:156-215 | A generated patch with distinct paths on the default branch always goes through, and the result is the overlay. |
| PatchLaws.ValidationIsIdempotent | agents/patch_workflow.py:156-186 | Validating again a list that was validated in whole or in part gives the same changes. |
| PatchLaws.CodePublisher.Attempt | agents/code_generator.py:305-310 | One attempt with a possibly validated list of any changes: refused exactly for a deletion without a sha, success exactly when the branch is new and every change fits, and the exact resulting branches. |
| PatchLaws.CodePublisher.Publish | agents/code_generator.py:305-326 | There is a second attempt exactly after "already exists" or "reference update failed"; it ends with the branch a first attempt would have made under the other name, and the older branch ends up deleted; without faults a retry happens exactly when the branch existed; a deletion without a sha is refused before any of that. |
| Scheduling.FindParallelizableTasks | agents/task_decomposer.py:346-368 | Terminates on every task list, with repeated ids too, and yields the layers. |
| Scheduling.CollectReady | agents/task_decomposer.py:353-360 | One round collects the ready tasks in list order. |
| Scheduling.BuildDependencyMap | agents/pipeline_initializer.py:448 | The map holds the dependencies of the last step of each name. |
| Scheduling.CollectLevels | agents/pipeline_initializer.py:454-467 | The loop of the second scheduler yields the layers of the rebound list. |
| Scheduling.CollectIndependent | agents/pipeline_initializer.py:451 | The steps without dependencies are what is ready at first. |
| Scheduling.LongestLevel | agents/pipeline_initializer.py:470 | The size of a widest level, and 1 when there is none. |
| Scheduling.DetermineParallelExecution | agents/pipeline_initializer.py:439-473 | Yields the layers of the list in which the last step of a name gives the dependencies; the same as the other scheduler when names are unique; the widest level and the first level are reported. |
| Scheduling.UniqueIdsNeedNoRebinding | agents/pipeline_initializer.py:448-451 | With unique names the dependency map says what the list says, so both schedulers agree. |
| LayerLaws.GroupIsLongestPath | agents/task_decomposer.py:352-366 | A task is in group k if and only if it can reach no cycle and no unknown dependency and its longest dependency chain has k + 1 tasks. |
| LayerLaws.UnplacedExactly | agents/task_decomposer.py:352-366 | The tasks in no group are exactly those that can reach a cycle or an unknown dependency. |
| LayerLaws.NoScheduleIsEarlier | agents/task_decomposer.py:352-366 | No assignment of rounds that respects dependencies places a task earlier. |
| LayerLaws.GroupsAreASchedule | agents/task_decomposer.py:352-366 | The groups themselves respect all dependencies. |
| LayerLaws.GroupsDoNotRepeat | agents/task_decomposer.py:352-366 | No task occurs twice in the groups. |
| TaskGraph.SortSorts | agents/task_decomposer.py:318 | The list is sorted by category: backend, frontend, tests, docs. |
| TaskGraph.SortIsStable | agents/task_decomposer.py:318 | Within each category the order is the original one. |
| TaskGraph.SortKeepsMembers | agents/task_decomposer.py:318 | The sorted list has the same tasks. |
| TaskGraph.FilledAdds | agents/task_decomposer.py:325-331 | What the filling adds: the dependencies a task had stay first, the other ids offered follow, each once, and never the task's own. |
| TaskGraph.OfferAll | agents/task_decomposer.py:320-331 | The inner loop adds exactly the missing ids of the predecessors, in order, although it visits the whole list. |
| TaskGraph.GenerateDependencyGraph | agents/task_decomposer.py:310-343 | Every task is given its predecessors in the sorted list after the dependencies it had. |
| TaskGraph.GraphIsAChain | agents/task_decomposer.py:310-368 | From distinct ids and a list filled in that way, each task depends on exactly all earlier ones, no task reaches a cycle or an unknown dependency, and the parallel groups are single tasks in list order. |
| TaskGraph.ScheduleSubtasks | agents/task_decomposer.py:456-457 | For any new subtasks with distinct ids: building the graph and grouping it gives as many groups as subtasks, single tasks in the stable category order, each depending on exactly its predecessors. |
| JsonLaws.PartsAreRead | agents/llm_wrapper.py:1616-1624 | A number is read back part by part: whole digits, fraction, exponent, in the grammar that `json.loads` has. |
| JsonLaws.ValueRoundTrip | agents/issue_pipeline_dispatcher.py:1055 | A printed value, with any kind of number in it, is read back, whatever text follows it that does not go on with a number. |
| JsonLaws.LoadsInvertsPrint | agents/issue_pipeline_dispatcher.py:853-858 | Reading inverts printing. |
| JsonLaws.PrintIsInjective | agents/issue_pipeline_dispatcher.py:1055 | Different values print differently. |
| JsonLaws.ParseValueAppend | agents/llm_wrapper.py:1616-1624 | Text after a complete value does not change how it is read. |
| JsonLaws.ObjectHasNoShorterReading | agents/issue_pipeline_dispatcher.py:853-858 | No proper beginning of a printed object reads as an object. |
| JsonGrammar.EveryTextIsRead | agents/issue_pipeline_dispatcher.py:853-858 | Every text of the grammar, however it is spaced and its characters escaped, is read as what it means. |
| JsonReading.LoadsExactly | agents/llm_wrapper.py:1616-1624 | A string is read as a value if and only if it is a text of the grammar that means this value. |
| JsonDictionary.LastValueCounts | agents/issue_pipeline_dispatcher.py:853-858 | Of several members with one key the last one counts. |
| JsonDictionary.LoadedIsWellFormed | agents/issue_pipeline_dispatcher.py:853-861 | In whatever is read, keys do not repeat. |
| JsonCompact.ShortestSpelling | agents/issue_pipeline_dispatcher.py:1055 | No way of writing a character in a string is shorter than the printed one. |
| JsonCompact.PrintedOnOneLine | agents/issue_pipeline_dispatcher.py:1055 | A printed value is on one line, and has a space only where a string or key has one. |
| PlanComment.BuildPlanningCommentBody | agents/issue_pipeline_dispatcher.py:1010-1057 | The comment is the visible lines and, for a non-empty plan, the marked JSON, joined by line breaks. |
| PlanComment.LoadPlanFromIssue | agents/issue_pipeline_dispatcher.py:812-840 | The first comment that contains the planning marker decides; if a plan is read in it, each of the five fields holds the value of the member of that name, or an empty dictionary without one; otherwise the plan is invalid. |
| PlanComment.EntryHolds | agents/issue_pipeline_dispatcher.py:830-837 | What is passed on for a name is the value of the member with it, or an empty dictionary without one. |
| PlanComment.ExtractPlanPayload | agents/code_generator.py:1448-1461 | The result is the plan of the first comment that yields one, or else that of the issue text. |
| PlanLaws.PrintKeepsMarkers | agents/issue_pipeline_dispatcher.py:1053-1056 | A marker occurs in a printed plan if and only if it occurs in one of its strings or keys. |
| PlanLaws.VisiblePartShowsExactly | agents/issue_pipeline_dispatcher.py:1018-1051 | The visible part contains the start marker if and only if one of the first 20 criteria, the first 4000 characters of the scenarios or one of the first 25 test cases does. |
| JsonLines.NotLoaded | agents/issue_pipeline_dispatcher.py:853-858 | A text with a line that begins with an underscore, such as the last line of the visible part, is not JSON, whatever is around that line. |
| PlanLaws.PlanSurvivesExactly | agents/issue_pipeline_dispatcher.py:843-861 | For every plan and every visible part: when a displayed text holds the start marker, what is recovered is what the visible part alone yields, whatever the plan is; otherwise the plan is recovered if none of its strings or keys holds the end marker, and nothing if one does. |
| PlanLaws.PlanIsHandedOver | agents/code_generator.py:1448-1478 | From the comment list, in each of those cases: each of the five fields of the dispatcher holds the member of its name of what is recovered, or an empty dictionary, and the code generator has the whole of it; when nothing is recovered, the dispatcher reports an invalid plan and the code generator goes on to later comments. |
| Decimal.DigitsDenote | agents/code_generator.py:1545 | A printed number denotes the number and has no leading zero. |
| Decimal.DigitsAreInjective | agents/code_generator.py:1545 | Different numbers print differently. |
| BranchName.SlugIsClean | agents/code_generator.py:1563-1568 | A slug has at most 48 letters, digits and single hyphens and does not begin with a hyphen; the second substitution has nothing to do. |
| BranchWords.SlugIsJoinedWords | agents/code_generator.py:1540-1568 | The code generator's slug is the title's stretches of letters and digits, joined by hyphens and cut to 48 characters; the branch name with it, or with the word task. |
| BranchWords.MergeSlugIsJoinedWords | agents/pr_merge_agent.py:313-325 | The same for the merge agent, with letters of any alphabet, the word feature for an empty slug, and no hyphen at the cut. |
| BranchWords.RecognisedExactly | agents/issue_pipeline_dispatcher.py:539 | A branch counts as issue m's exactly when its name, stripped and in lower case, goes on after the number with a hyphen. |
| BranchName.NumberDecides | agents/issue_pipeline_dispatcher.py:539 | Digits and a hyphen are a beginning of another number, hyphen and text exactly when the numbers are equal. |
| BranchName.BranchIsRecognisedExactly | agents/code_generator.py:1540-1568 | A generated branch, for any title and any retry suffix, is recognised as issue m's exactly when it was made for m. |
| BranchName.CollapseHyphens | agents/pr_merge_agent.py:318-319 | Replacing pairs of hyphens until none is left terminates and leaves one hyphen for each run. |
| BranchName.MergeAgentBranchName | agents/pr_merge_agent.py:313-325 | The loop and the branches compute the name that the next statement is about. |
| BranchName.MergeBranchIsRecognisedExactly | agents/pr_merge_agent.py:313-325 | For a numbered issue as above; without a number the branch passes for issue m's exactly when the slug begins with m and a hyphen. |
| BranchName.UnnumberedTitleIsMistaken | agents/pr_merge_agent.py:325 | Such a title exists. |
| Labels.UpdateIssueStageLabel | agents/issue_pipeline_dispatcher.py:1113-1132 | The labels written are the seen ones without the three open stages, plus the target. |
| Labels.InvKept | agents/issue_pipeline_dispatcher.py:246-404 | Every step of dispatcher, pipelines and users keeps the invariant on labels and snapshots. |
| Labels.OneStageLabel | agents/issue_pipeline_dispatcher.py:369-404 | From the first successful write on, the issue has exactly one stage label in every interleaving. |
| Labels.StageAfterStep | agents/issue_pipeline_dispatcher.py:357-404 | For every step of every run, the stage it leaves: planning or fixed for their writers; ready for a recorded start that was accepted, or when the issue was ready at the last scan, and opened otherwise; the same as before for all others and for failed writes. |
| Labels.TakenUpByStage | agents/issue_pipeline_dispatcher.py:242-275 | A fixed issue is not taken up; one that was ready at the scan keeps its plan, any other is moved to planning. |
| Labels.OthersAfterWrite | agents/issue_pipeline_dispatcher.py:1113-1132 | Every successful write puts back the other labels of an earlier scan: the last one, or for a pipeline the one before its start. |
| Labels.FixedStaysExactly | agents/code_generator.py:872-880 | The fixed label is never taken away in any run if and only if no pipeline publishes while the dispatcher is at work on the issue. |
| Labels.FixedLabelIsLost | agents/issue_pipeline_dispatcher.py:357-375 | The run that loses it: the pipeline publishes before the dispatcher writes the ready label. |
| Labels.OtherLabelsSurviveExactly | agents/pr_merge_agent.py:446-453 | The other labels are what users want in every run if and only if users leave them alone while the dispatcher is at work or a pipeline runs; in between they may change them. |
| ReviewOutput.ScanFrom | agents/llm_wrapper.py:1631-1642 | From one opening brace: the shortest text with balanced braces that is an object. |
| ReviewOutput.Scan | agents/llm_wrapper.py:1629-1644 | The first such object in the order of beginnings, then ends. |
| ReviewOutput.ReadObject | agents/llm_wrapper.py:1626-1644 | The whole text if it is an object, else what the scanner finds. |
| ReviewOutput.ReadingIsUnique | agents/llm_wrapper.py:1626-1644 | That description leaves one result. |
| ReviewOutput.Normalize | agents/llm_wrapper.py:1650-1675 | The fields found stay; a missing decision is taken from the first of five other names in the code's order, else it is request_changes; the five other required fields have fixed defaults. |
| ReviewOutput.CheckFindings | agents/llm_wrapper.py:1689-1697 | Whether every finding is an object with type, severity and description; otherwise the first finding at fault and the first thing wrong with it; what happens when findings are no list. |
| ReviewOutput.CheckRequired | agents/llm_wrapper.py:1677-1687 | A required field that is missing, or none exactly when all six are there. |
| ReviewOutput.JudgeFields | agents/llm_wrapper.py:1650-1699 | Defaults, then the two checks: the outcome for an object, and a review always has the six required fields, so that the first check never fails. |
| ReviewOutput.ParseReviewOutput | agents/llm_wrapper.py:1597-1699 | The outcome for every text: empty, or what becomes of the object that is read, or of none; a review is that object with its gaps filled. |
| ReviewOutputLaws.PrintBalance | agents/llm_wrapper.py:1631-1638 | In printed JSON the braces balance exactly when those in its strings and keys do. |
| ReviewOutputLaws.BeginningIsNoObject | agents/llm_wrapper.py:1616-1624 | No proper beginning of an object text, however laid out, reads as an object. |
| ReviewOutputLaws.FoundFromItsBrace | agents/llm_wrapper.py:1631-1642 | From the brace of an object text the scanner finds that object if its braces balance and nothing otherwise. |
| ReviewOutputLaws.CleanedHolds | agents/llm_wrapper.py:1612-1613 | Removing white space and code fences never touches the first object. |
| ReviewOutputLaws.EmbeddedObjectIsRecovered | agents/llm_wrapper.py:1607-1644 | An answer whose first brace opens an object text with balanced braces is read as that object, whatever surrounds it. |
| ReviewOutputLaws.PrintedObjectIsRecovered | agents/llm_wrapper.py:1607-1644 | So a printed object is recovered when its strings have as many opening as closing braces. |
| ReviewFences.FencedObjectIsRead | agents/llm_wrapper.py:1607-1616 | A printed object that is the whole answer, with or without code fences and white space around it, is read as it is, whatever braces are in its strings. |
| ReviewOutputLaws.FractionalConfidenceIsRead | agents/review_agent.py:238 | A review with a confidence such as 0.9 is read as an object. |
| ReviewOutputLaws.UnbalancedObjectIsSkipped | agents/llm_wrapper.py:1629-1644 | When the braces of the first object do not balance, nothing that begins at or before it is found: what is read begins inside it or after it. |
| ReviewOutputLaws.InnerObjectIsReadInstead | agents/llm_wrapper.py:1629-1644 | So a brace in a string can have an inner object read as the review in place of the whole one. |
| Router.LLMRouter.constructor | agents/llm_wrapper.py:1762-1779 | An empty cache and the custom routes, or the default ones when there are none. |
| Router.NoneExactly | agents/llm_wrapper.py:1453-1494 | The factory returns none exactly for a route that names no provider when there are no profiles. |
| Router.NamedProviderExactly | agents/llm_wrapper.py:1496-1524 | A route that names its provider gets a wrapper for the four plain providers, without a look at keys, and an exception for every other one. |
| Router.ProfilesDecide | agents/llm_wrapper.py:1459-1524 | A route without a provider: several profiles make a wrapper of their own, a single one or else the default one makes one exactly when its settings fit its provider's constructor, and without any there is none. |
| Router.LLMRouter.ForTask | agents/llm_wrapper.py:1781-1826 | The answer and the cache as a function of the end of the fallback chain; a wrapper is cached under the task that made it; cached tasks go on fitting their routes. |
| Router.LLMRouter.ForModel | agents/llm_wrapper.py:1828-1853 | The answer and the cache; cached tasks go on fitting their routes if and only if no new wrapper is stored under the name of a task that is routed elsewhere; with plain names the wrapper is always one for the model asked for. |
| Router.LLMRouter.SetCustomRoute | agents/llm_wrapper.py:1855-1876 | The route is replaced and the entry under its name dropped, so that cached tasks go on fitting their routes. |
| Router.LLMRouter.CloseAll | agents/llm_wrapper.py:1882-1887 | Exactly the cached wrappers are closed; no wrapper that the router has closed stays in the cache. |
| Router.KeyIsInjective | agents/llm_wrapper.py:1838 | Providers without a colon give different models different keys. |
| Router.CollidingNames | agents/llm_wrapper.py:1838-1840 | A task named like a provider and model is given the wrong wrapper. |
| Router.ResolvesExactly | agents/llm_wrapper.py:1793-1822 | A request ends at the first task of the chain that does not pass on, and runs out of room exactly when none does. |
| Router.EndsEarlyOrNever | agents/llm_wrapper.py:1811-1818 | On any fallback map, a request ends within one call more than there are fallbacks, or at no depth. |
| Router.DefaultTaskEndsExactly | agents/llm_wrapper.py:1744-1750 | With the default fallbacks, for any routes and profiles: a request for a default task nests for ever if and only if it, the code and the analysis task are all uncached, without a provider and without profiles; otherwise it ends within three calls at the first task of its chain that is not, where code and review go on to analysis, the others to code, and each of the two to the other; the error for a missing provider is never raised. |
| Router.DefaultRoutesNeedNoFallback | agents/llm_wrapper.py:1715-1741 | With the default routes every default task is served by its own route; no fallback is ever taken. |
| Router.UnknownProviderIsNotReplaced | agents/llm_wrapper.py:1804-1818 | A named provider that is none of the plain ones raises at once, and no fallback is tried. |
| Router.BlankRoutesNest | agents/llm_wrapper.py:1811-1818 | A reachable case of nesting: two routes set to no provider, and no profiles. |
| ReviewGate.NormalizePath | agents/review_agent.py:486-497 | The loops compute the normal path that the grounding statements are about. |
| ReviewPaths.SpellingsOfOnePath | agents/review_agent.py:486-497 | Leading "./", one of five roots, the name of a test, backslashes and white space around make no difference: all such spellings are one path. |
| ReviewGate.AllowedPaths | agents/review_agent.py:504-514 | The set of normal paths of all files and targets mentioned that are not blank. |
| ReviewGate.EvaluateGrounding | agents/review_agent.py:499-542 | A finding is reported exactly if something usable is mentioned and it is the high one for a file of the patch whose path is not among the paths mentioned. |
| ReviewGate.EvaluateVerification | agents/review_agent.py:544-583 | A finding exactly when the tests did not run or ended with an odd exit code, and it has the verification type. |
| ReviewGate.NormalizeFindings | agents/review_agent.py:586-615 | The loop with its seen set keeps what KeptExactly describes. |
| ReviewGateLaws.KeptExactly | agents/review_agent.py:605-614 | A finding is kept if and only if it stands for the first entry with its file, type and description, a missing one counting as None, maintainability and the message or a stock phrase. |
| ReviewGateLaws.KeysDoNotRepeat | agents/review_agent.py:605-614 | Kept findings differ in file, type or description. |
| ReviewGate.Review | agents/review_agent.py:408-426 | The kept findings, and the request for changes when one of them is severe or of a blocking type. |
| ReviewGateLaws.BlockingIsNeverHidden | agents/review_agent.py:415-426 | Removing duplicates never hides a grounding or verification finding. |
| ReviewGateLaws.LowTwinHidesHigh | agents/review_agent.py:605-620 | It can hide a high finding, and then the review approves; in the other order it does not. |
| ReviewGateLaws.DecisionStandsExactly | agents/review_agent.py:408-426 | The initial decision stands if and only if every path is mentioned, verification is reliable, and no finding of the review itself is of a blocking type or the first of its kind and critical or high; otherwise changes are requested. |
| ReviewGateLaws.ApprovedExactly | agents/review_agent.py:408-426 | The merge agent takes the review for an approval if and only if the initial decision was one and it stands. |
| ReviewGate.CheckMergeConditions | agents/pr_merge_agent.py:268-293 | Mergeable, no draft, checks not failed, and GitHub reachable. |
| ReviewGate.Merge | agents/pr_merge_agent.py:94-154 | A merge happens exactly when it is live, the review approves, pytest ended with exit code 0 or without one reported no failures, there is a pull request, and GitHub reports it mergeable, no draft and not failed; each reason is given exactly when its gate fails. |
| ReviewGateLaws.ReviewAndMerge | agents/pr_merge_agent.py:94-154 | Both agents together: the exact condition for a merge in terms of what the two are given, and no severe or blocking finding in the review of a merged request. |
| GitHubRequests.Request | agents/github_client.py:393-464 | At most the allowed number of retries plus one attempt; all but the last failed in transport, with 429, 5xx or a rate-limited 403; the last did only when the retries are used up; what it comes to, and the time slept. |
| GitHubRequests.DelayIsTheLonger | agents/github_client.py:281-297 | Each delay is the longer one of the doubled delay and what the reply asks for. |
| GitHubRequests.SleepsExponentially | agents/github_client.py:281-297 | After k retries the client slept at least b * 2^k - b, and exactly that if and only if no reply asked for more than the delay that was due. |
| GitHubRequests.GetAllIssues | agents/github_client.py:758-797 | For a server with pages of any size: the items of the pages up to the last one asked for, in order; with pages of at most 100, the whole collection exactly when it is complete; an exception escapes exactly when a page that raises is reached. |
| GitHubRequests.ReachedExactly | agents/github_client.py:775-795 | With pages of at most 100, a page is asked for exactly when it is within the page limit and all earlier pages have items and announce another. |
| GitHubRequests.ItemGuardIsIdle | agents/github_client.py:775 | The limit on the number of items never ends the loop where the limit on pages would not. |
| GitHubRequests.ItemGuardCanFire | agents/github_client.py:775 | With larger pages it can. |
| GitHubRequests.AllOrCutShort | agents/github_client.py:775-797 | The result is always a beginning of the collection, and all of it if and only if no item lies beyond the page limit or behind a page that is empty or announces nothing; a page announces nothing when its header request fails. |
| GitHubRequests.LostAnnouncement | agents/github_client.py:785-797 | Two pages of one issue each: when the header request for the first fails, the second issue is missing and no error is raised. |
| PipelineRunner.Run | agents/pipeline_runner.py:64-146 | Each step sees the inputs overlaid with all earlier outputs; the steps performed are the shortest prefix up to a stopping failure; the final status is the last failure, else partial success, else success. |
| PipelineRunner.RunStep | agents/pipeline_runner.py:84-146 | One step: its outcome, the context and status after it, and that it stops the pipeline exactly when it has no agent, or has failed or is blocked and could not be loaded or is set to stop, escalate or open an issue. |
| PipelineRunner.RunIsDetermined | agents/pipeline_runner.py:64-146 | Those conditions leave exactly one run. |
| MemoryContext.BuildMatches | agents/memory_agent.py:348-381 | The matches returned for the three sources are at most five, descending, no two with the same path and summary, the best of theirs, and no other item scores higher. |
| MemoryContext.MergedRepresents | agents/memory_agent.py:349-355 | Merging keeps one entry for each key, taken from the items, scoring no lower than any item with its key. |
| MemoryContext.FirstBestIsKept | agents/memory_agent.py:352-355 | Of several best items with one key the first is kept. |
| MemoryContext.RankingIsStable | agents/memory_agent.py:356 | Ranking keeps the order of matches with equal score. |
| MemoryContext.BestAreReturned | agents/memory_agent.py:356-381 | At most five matches by descending score, one for each key and the best of it; nothing left out scores higher. |

## Left out

- The token refresh assumes that stat, open, read and unlink of files do not fail for reasons of their own; only saving
  may fail. Creating the lock file and writing to it are one step, as are a reload with its clock reading, and a save
  with the note of it in the memory cache. The secret store behind a save is not modelled.
- GitHub is one repository without outside writers during a call; git objects are trees by path, and blob hashes have
  no collisions. `create_patch_from_code_result` is modelled only by its result, changes without a sha.
- `GitHubRepository.Repository` answers one client call at a time: the retries inside a call are in `GitHubRequests`,
  and the fault script says what remains visible after them.
- ApplyPatch: does not say which failures list the committed files, and says nothing about the content of the new branch
  after an exception that the handler does not catch, because the branch is then left as it was at that moment.
- JsonLaws.ValueRoundTrip: a number with a fraction or an exponent is not rounded, so two spellings of one float are
  different values here; which texts are read, and where a number ends, is as in Python. An escape for a lone surrogate
  is read as U+FFFD. Python's limits on the digits of an integer and on nesting are not modelled.
- The extractor's regular expression is modelled by searching for the first start marker and the next end marker,
  which is what it matches.
- Branch names and labels are modelled after `lower()` and `strip()`; `lower()` is modelled on ASCII letters.
- The matching of merged pull requests by their text, next to the branch name, is not modelled.
- ReviewOutput.ParseReviewOutput: takes texts; an answer that is already a dictionary or list is not modelled, nor is
  the regular expression with which the review agent cuts the answer down before parsing.
- Router.LLMRouter.ForTask: the description, timeout and retry settings of a route are not modelled, and custom routes
  are copied rather than shared with the caller's dictionary. How profiles are loaded, and whether OAuth credentials
  can be parsed, are inputs.
- ReviewGate.Merge: the pull request number is the one after publishing; publishing a patch from the merge agent is the
  same saga as in `PatchLaws.CodePublisher`.
- The scoring and tokenising of memory matches, and what the stores return, are inputs of `MemoryContext`.
- `memory_agent` storage and retrieval of past contexts, and the bookkeeping of the dispatcher's report.
- Labels.OneStageLabel: users may change other labels during a run, but not the stage labels.
- Prompt builders, keyword classifiers, provider clients, the placeholder orchestrator and the fix loop.
