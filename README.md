# brainstormpw core in Dafny

brainstormpw is a Streamlit assistant for writing project charters. The
author loads a template, which yields a list of sections. Each section has a
title, guidance (`criteria`), a required format and the author's text. A
language-model "auditor" checks a section and reports issues. A "fixer"
rewrites the text to resolve one issue. A document review gathers the
findings of every section plus cross-section logic issues and lets the author
count, filter and group them. A chat assistant answers questions with the
whole draft as context. A PDF import turns an existing charter into sections.

This project models the deterministic core under that user interface:

- the section workspace and its status machine (`StateManager`, a class over
  a `seq` of sections);
- the template catalogue (`TemplateRegistry`);
- the pydantic records as strict datatypes, with dictionaries as datatypes
  whose fields are optional (`Models`);
- the auditor and fixer nodes, with the model call as an oracle (`Nodes`);
- the one-step routing graph (`Workflow`, on top of the generic `GraphRuntime`);
- the audit panel and the Auto-Fix callback (`AuditAlerts`);
- the document review: collection, sorting, counting, batch application,
  filtering, title links and grouping (`GlobalAudit`, `GlobalAuditViews`,
  with the stable sort of `Sorting`);
- the chat context and message list (`Chat`);
- the PDF statistics and the model arguments of the import (`Ingestion`);
- the earlier single-page application and its graph (`LegacyApp`,
  `LegacyGraph`).

`Text` holds the string helpers these rely on: `strip`, `lower`, `split`,
`in` and string ordering. `Ids` replaces `uuid4` by an injective counter.
`Wrappers` is `Option`.

Conventions:

- A Python dictionary with a known key set is a datatype whose fields are
  `Option`s. `None` means "key absent", and `IsEmpty()` is `{}` (the only
  falsy dictionary).
- A model call is a function parameter returning `Answered(value)` or
  `Raised(error)`. That a node makes no model call is stated as: two
  different oracles give the same result.
- Each imperative operation is a method whose postcondition ties the new
  state to a specification function. The promised properties are proved as
  lemmas about that function.

## Model

| member | source | states |
|---|---|---|
| Ids.IdOfInjective | app/state_manager.py:31 | Two counter values give the same section id exactly when they are equal (stands for fresh `uuid4` ids) |
| Ids.IssuedBelowIsNotNext | app/state_manager.py:31 | An id issued before the counter reached n differs from the id issued at n |
| Text.TrimShape | backend/chat.py:11 | `strip()` returns a contiguous slice whose removed prefix and suffix are all whitespace, with no whitespace left at either end |
| Text.TrimEmptyIffBlank | backend/graph/nodes.py:38 | A string strips to empty exactly when it is all whitespace |
| Text.TrimLeftShape | backend/ingestion.py:48 | Leading-whitespace removal drops an all-space prefix and leaves a non-space first character |
| Text.TrimRightShape | backend/chat.py:11 | Trailing-whitespace removal drops an all-space suffix and leaves a non-space last character |
| Text.Lower | app/components/global_audit.py:252 | `lower()` keeps the length and maps each ASCII capital to its small letter, leaving every other character as it is |
| Text.ContainsInfix | app/components/global_audit.py:307 | `q in s` holds whenever s is some a + q + b |
| Text.ContainsAt | app/components/global_audit.py:307 | `q in s` holds only if q occurs at some index of s |
| Text.StrLeTotal | app/components/global_audit.py:116 | Python string comparison is total |
| Text.StrLeAntisymmetric | app/components/global_audit.py:116 | Two strings each at most the other are equal |
| Text.StrLeTransitive | app/components/global_audit.py:116 | String comparison is transitive |
| Text.RunLength | backend/ingestion.py:48 | The length of the leading non-space run: every character before it is non-space and the next one, if any, is space |
| Text.Split | backend/ingestion.py:48 | `split()` yields only non-empty words free of whitespace |
| Text.SplitCountsWordStarts | backend/ingestion.py:48 | The number of words `split()` returns equals the number of positions starting a maximal non-space run |
| Text.WordStartsSkipSpaces | backend/ingestion.py:48 | Leading whitespace starts no word |
| Text.WordStartsSkipRun | backend/ingestion.py:48 | The rest of a word starts no further word |
| Sorting.KeyLeReflexive | app/components/global_audit.py:114-118 | Tuple comparison of sort keys is reflexive |
| Sorting.KeyLeTotal | app/components/global_audit.py:114-118 | Tuple comparison of sort keys is total |
| Sorting.KeyLeTransitive | app/components/global_audit.py:114-118 | Tuple comparison of sort keys is transitive |
| Sorting.SortByCorrect | app/components/global_audit.py:111-119 | `sorted(key=...)` returns a permutation of its input, ordered by the key |
| Sorting.SortByPermutes | app/components/global_audit.py:111-119 | The sorted list has exactly the input's elements, with their multiplicities |
| Sorting.SortBySorted | app/components/global_audit.py:111-119 | The sorted list is in key order |
| Sorting.SortByStable | app/components/global_audit.py:312 | The sort is stable: items with equal keys keep their relative order |
| Sorting.InsertPermutes | app/components/global_audit.py:111-119 | One insertion step adds exactly one element |
| Sorting.InsertSorted | app/components/global_audit.py:111-119 | Inserting into a sorted list keeps it sorted |
| Sorting.InsertStable | app/components/global_audit.py:312 | Insertion keeps the relative order of equal-key items |
| Sorting.SortedHeadIsLeast | app/components/global_audit.py:399 | The first element of a sorted list has the least key |
| TemplateRegistry.LookupExact | data/template_registry.py:90-92 | `dict.get(name, [])` returns the entry for an exactly equal key, and `[]` when there is none |
| TemplateRegistry.TemplateNamesDistinct | data/template_registry.py:12-80 | The registry keys are pairwise distinct |
| TemplateRegistry.GetTemplateSectionsExact | data/template_registry.py:90-92 | `get_template_sections` returns the registered list for a listed name and `[]` for any other |
| TemplateRegistry.AvailableTemplatesAreKeys | data/template_registry.py:85-87 | `get_available_templates` lists exactly the registry keys, each once |
| TemplateRegistry.Names | data/template_registry.py:85-87 | The listed names are the registry keys, one per entry, in insertion order |
| TemplateRegistry.ShippedTemplates | data/template_registry.py:12-80 | "Standard Project Charter" has 4 sections and "Simple Document" 2, in the listed title order; names are case-sensitive |
| TemplateRegistry.TemplateFieldsNonEmpty | data/template_registry.py:5-8 | Every template section has a non-empty title, criteria and template content |
| Models.ParseIssueAcceptsIffComplete | backend/models.py:8-29 | Validating an issue succeeds exactly when all five fields are present |
| Models.IssueRoundTrip | backend/models.py:8-29 | Dumping an issue and validating the dump gives the issue back, and the dump is not `{}` |
| Models.ParsedIssueDumpsBack | backend/models.py:8-29 | A dictionary that validates is the dump of its value, apart from the extra `description` key |
| Models.DumpIssues | backend/models.py:36 | The dump of an issue list has one dictionary per issue, each validating to that issue |
| Models.IssuesRoundTrip | backend/models.py:36 | A dumped issue list validates back to the same list |
| Models.AuditResponseRoundTrip | backend/models.py:32-36 | An audit response survives dump and re-validation |
| Models.AuditResponseIssuesDefault | backend/models.py:36 | A response without `issues` validates with the empty list |
| Models.DumpGlobalIssues | backend/models.py:39-52 | The dump of a global-issue list has one record per issue, each validating to that issue |
| Models.GlobalIssuesRoundTrip | backend/models.py:39-52 | A dumped global-issue list validates back to the same list |
| Models.ConsistencyRoundTrip | backend/models.py:55-59 | A consistency response survives dump and re-validation |
| Models.ConsistencyDefaults | backend/models.py:50-59 | `global_issues` defaults to `[]`, and a global issue with empty `related_sections` is valid |
| StateManager.LoadedSectionsShape | app/state_manager.py:25-43 | A load builds one blank draft per template entry, in order, with `template_content` copied into `template_structure`; ids are distinct and fresh |
| StateManager.SectionsFromTemplates | app/state_manager.py:27-43 | One blank draft per template entry, in order, the k-th carrying the k-th fresh id and that entry's texts |
| StateManager.BuildSections | app/state_manager.py:27-43 | The building loop computes exactly the per-entry drafts |
| StateManager.IndexOfId | app/state_manager.py:56-62 | The index found is that of the first section with the id; none means no section has it |
| StateManager.SectionByIdIsFirstMatch | app/state_manager.py:56-62 | `get_section_by_id` returns the first section with that id, and None exactly when there is none |
| StateManager.EditContentEffect | app/state_manager.py:65-73 | Editing sets the text of the matching section and leaves it a draft with no audit; other sections and an unknown id are untouched |
| StateManager.RecordAuditEffect | app/state_manager.py:76-83 | Recording stores the audit; the status is compliant iff `is_compliant` is true and flagged otherwise (missing key included); nothing else changes |
| StateManager.UpdatesPreserveInvariant | app/state_manager.py:65-83 | Both updates keep ids, keep them distinct, and keep every status in agreement with its audit |
| StateManager.IndexIsFirst | app/state_manager.py:59-61 | The loop's first hit is the index the search specifies |
| StateManager.Workspace.constructor | app/state_manager.py:12 | Before initialisation there is no workspace |
| StateManager.Workspace.InitializeSession | app/state_manager.py:10-17 | Creates the empty workspace only when none exists; a second call changes nothing |
| StateManager.Workspace.LoadTemplateIntoState | app/state_manager.py:20-48 | Replaces the sections with those built from the template; records the name; drops the global result |
| StateManager.Workspace.GetSections | app/state_manager.py:51-53 | Returns the current sections |
| StateManager.Workspace.LocateSection | app/state_manager.py:56-62 | The linear search returns the first matching position |
| StateManager.Workspace.GetSectionById | app/state_manager.py:56-62 | Returns the first section with the id, or None |
| StateManager.Workspace.UpdateSectionContent | app/state_manager.py:65-73 | The sections become the content-edit spec of the old ones; the invariant is kept |
| StateManager.Workspace.UpdateSectionAuditResult | app/state_manager.py:76-83 | The sections become the audit-record spec of the old ones; the invariant is kept |
| StateManager.Workspace.UpdateGlobalAuditResult | app/state_manager.py:86-88 | Stores the global result and changes nothing else |
| StateManager.Workspace.GetGlobalAuditResult | app/state_manager.py:91-93 | Returns the stored global result (None when dropped) |
| StateManager.Workspace.ClearWorkspace | app/state_manager.py:96-98 | No template name, no sections, no global result |
| Nodes.TooShortIsTrimLength | backend/graph/nodes.py:38 | The fail-fast test is "fewer than 2 characters after strip", and catches all-blank text |
| Nodes.AuditorFailFast | backend/graph/nodes.py:38-50 | Short content: no model call, not compliant, and exactly one unfixable High issue with id "0" |
| Nodes.AuditorKeepsAnswer | backend/graph/nodes.py:62-76 | Otherwise the model's verdict is kept and its issues are stored one-for-one, in order |
| Nodes.AuditorFallback | backend/graph/nodes.py:78-92 | A raising call gives not compliant and exactly one unfixable High issue with id "err" |
| Nodes.AuditorIssuesWellFormed | backend/graph/nodes.py:37-92 | On every path the stored issues are complete, and compliance holds only if the model said so |
| Nodes.FixPromptDefaults | backend/graph/nodes.py:112-117 | The fix prompt uses the issue's texts, or "General Fix" / "Follow template" when a key is missing |
| Nodes.FixerWithoutTarget | backend/graph/nodes.py:107-109 | With no target (None or `{}`) the content is returned unchanged and no call is made |
| Nodes.FixerOutcome | backend/graph/nodes.py:119-135 | The target is cleared exactly when the model answered, and then the text is its rewrite; otherwise it is the original |
| GraphRuntime.RunSingleNode | backend/graph/workflow.py:42-47 | A node whose only edge goes to END runs once and its update is the whole effect |
| GraphRuntime.RunTraceBounded | backend/graph/workflow.py:55 | A run never executes more nodes than the recursion limit |
| Workflow.EntryMapMatchesLabels | backend/graph/workflow.py:36-38 | The entry map sends each label to the node of that name, so the route always selects a node |
| Workflow.RouteReadsOnlyTarget | backend/graph/workflow.py:11-22 | "fixer" iff the target issue is a non-empty dictionary, else "auditor"; nothing else is read |
| Workflow.InvokeRunsOneNode | backend/graph/workflow.py:36-47 | An invocation runs exactly the routed node once and stops |
| Workflow.InvokeAudit | backend/graph/workflow.py:20-42 | An audit request stores the auditor's result, keeps the text and never calls the fixing model |
| Workflow.InvokeFix | backend/graph/workflow.py:20-47 | A fix request stores the fixer's text, keeps the audit keys, never calls the auditing model, and clears the target iff the rewrite succeeded |
| AuditAlerts.AlertStyleAndAction | app/components/audit_alerts.py:31-94 | Red iff severity is "High" (missing reads as "Medium"); Auto-Fix iff `fixable` is true (missing reads as false); the button key names section and issue |
| AuditAlerts.RenderAlertsOnePerIssue | app/components/audit_alerts.py:31 | With ids present, one alert per issue, in order |
| AuditAlerts.RenderCases | app/components/audit_alerts.py:13-29 | Hidden iff no audit or `{}`; the banner iff compliant; otherwise the count of stored issues |
| AuditAlerts.AfterFixEffect | app/components/audit_alerts.py:110-136 | After Auto-Fix: the section holds the rewrite (or its old text on failure), audit `{}`, status flagged, panel hidden; other sections unchanged |
| AuditAlerts.EditorCache.constructor | app/components/audit_alerts.py:131-133 | The widget cache starts from the given entries |
| AuditAlerts.EditorCache.RefreshIfPresent | app/components/audit_alerts.py:131-133 | The cached text is overwritten only when its key exists |
| AuditAlerts.HandleFixRequest | app/components/audit_alerts.py:97-136 | Runs the graph with the clicked issue, updates content, refreshes the widget cache, then resets the audit to `{}` |
| GlobalAudit.SeverityRankCases | app/components/global_audit.py:20 | High ranks 0 and Medium 1; Low, missing and unknown severities rank 2 |
| GlobalAudit.CollectSectionIssues | app/components/global_audit.py:94-108 | The collecting loop computes the collection spec |
| GlobalAudit.CollectAppend | app/components/global_audit.py:96-107 | Collection proceeds in section order, then issue order |
| GlobalAudit.Tag | app/components/global_audit.py:103-107 | Each issue of a reported section is kept in order, tagged with that section's title and id |
| GlobalAudit.CollectSkips | app/components/global_audit.py:97-101 | A section without an audit, with `{}`, or compliant contributes nothing |
| GlobalAudit.CollectedFromReported | app/components/global_audit.py:103-107 | Every collected item is an issue of a reported section, tagged with its title and id |
| GlobalAudit.CollectIsComplete | app/components/global_audit.py:103-107 | Every issue of every reported section is collected |
| GlobalAudit.SortIssuesCorrect | app/components/global_audit.py:111-119 | `_sort_issues` is a stable permutation ordered by (rank, title, description) |
| GlobalAudit.DescriptionFallback | app/components/global_audit.py:117 | The description key falls back to `description`, then to "" |
| GlobalAudit.CountHighFacts | app/components/global_audit.py:190 | The High count is at most the number of issues; zero iff no issue is High; all iff all are |
| GlobalAudit.AffectedIdsFacts | app/components/global_audit.py:191 | The affected ids are exactly the non-empty section ids present, at most one per issue |
| GlobalAudit.MetricsFacts | app/components/global_audit.py:189-191 | total = section issues + logic issues; the High count and the affected sections never exceed the section issues |
| GlobalAudit.PanelCases | app/components/global_audit.py:221-233 | No results iff nothing found and no stored review; the all-clear only when consistent; otherwise the results |
| GlobalAudit.ApplyResultsUntouched | app/components/global_audit.py:165-166 | Writing results keeps length, ids and metadata, and leaves unnamed sections unchanged |
| GlobalAudit.ApplyResultsLastWins | app/components/global_audit.py:165-166 | A section named by a result holds the last such result, with status compliant iff it is compliant |
| GlobalAudit.RunGlobalAudit | app/components/global_audit.py:159-173 | Applies each section result in turn, then stores the global result (`{}` when missing) |
| GlobalAuditViews.AllTabItems | app/components/global_audit.py:264-312 | The All tab loops compute the normalise-filter-sort spec |
| GlobalAuditViews.NormalizedShape | app/components/global_audit.py:272-293 | Logic items come first and are all "Medium"; section items keep their severity, "Low" when missing |
| GlobalAuditViews.NormalizeLogics | app/components/global_audit.py:273-283 | One normalised item per logic issue, in order |
| GlobalAuditViews.NormalizeSections | app/components/global_audit.py:284-293 | One normalised item per section issue, in order |
| GlobalAuditViews.NormalizeItems | app/components/global_audit.py:272-293 | The normalising loop gives the logic items, then the section items |
| GlobalAuditViews.FilterSpecMembers | app/components/global_audit.py:296-310 | The filtered list holds exactly the items that pass every filter |
| GlobalAuditViews.FilterItems | app/components/global_audit.py:296-310 | The filtering loop computes exactly the filter spec |
| GlobalAuditViews.FilterSpecAppend | app/components/global_audit.py:297-310 | Filtering keeps the original order |
| GlobalAuditViews.AllTabCorrect | app/components/global_audit.py:295-312 | The All tab shows exactly the passing items, ordered by severity rank, with equal ranks in original order |
| GlobalAuditViews.FilterRules | app/components/global_audit.py:252-308 | A severity outside the filter hides an item; with a blank search box and no link rule only severity counts; the link rule hides unlinked items |
| GlobalAuditViews.SearchIgnoresCaseAndSpace | app/components/global_audit.py:252-307 | The search text is stripped and lowered before matching: " Foo " finds an item titled "foo" |
| GlobalAuditViews.FindByTitle | app/components/global_audit.py:333 | The index is that of the first section with exactly that title; none means no section has it |
| GlobalAuditViews.FirstTitleMatch | app/components/global_audit.py:333 | The first section with the title is the one found |
| GlobalAuditViews.RelatedRefFirstMatch | app/components/global_audit.py:332-337 | A related name links to the first section with exactly that title, and stays plain text when none matches |
| GlobalAuditViews.RelatedRefs | app/components/global_audit.py:331-337 | One reference per related name, in order, each resolved by the first-title rule |
| GlobalAuditViews.LogicJumpRule | app/components/global_audit.py:362-368 | A direct jump is offered iff exactly one related name resolves to a linked section |
| GlobalAuditViews.FindGroup | app/components/global_audit.py:388 | The group found has the key; none means no group has it |
| GlobalAuditViews.GroupBySection | app/components/global_audit.py:384-389 | The grouping loop computes the grouping spec |
| GlobalAuditViews.GroupSpecPartitions | app/components/global_audit.py:384-389 | The groups partition the section issues by id (or "unknown"): distinct keys, each issue in exactly its key's group, in order |
| GlobalAuditViews.ItemsWithKeyEmpty | app/components/global_audit.py:387 | A key no issue carries selects no issue |
| GlobalAuditViews.ItemsWithKeySnoc | app/components/global_audit.py:387-388 | Appending an issue extends only its own key's selection |
| GlobalAuditViews.AddKeepsPartition | app/components/global_audit.py:386-389 | One loop step keeps the partition |
| GlobalAuditViews.GroupsAfterAdd | app/components/global_audit.py:386-389 | After one step the keys stay distinct and every group holds exactly the issues seen so far with its key |
| GlobalAuditViews.AddToExistingGroup | app/components/global_audit.py:388 | Appending to an existing group keeps the partition |
| GlobalAuditViews.AddNewGroup | app/components/global_audit.py:388 | Opening a new group keeps the partition |
| GlobalAuditViews.CoverageAfterAdd | app/components/global_audit.py:386-389 | Every issue seen so far has a group |
| GlobalAuditViews.WorstRankIsMinimum | app/components/global_audit.py:392-393 | `worst_rank` is the least severity rank of the group's items |
| GlobalAuditViews.OrderGroupsCorrect | app/components/global_audit.py:395 | The groups are a permutation ordered by (worst rank, title), and groups with equal keys keep their first-seen order, as `sorted` is stable |
| GlobalAuditViews.PanelWorstIsMinimum | app/components/global_audit.py:397-403 | A group's "Worst" has its least rank; it is expanded iff some item is High; it shows all its items |
| Chat.BuildProjectContext | backend/chat.py:5-15 | The accumulating loop computes the context spec |
| Chat.AppendBlocks | backend/chat.py:8-14 | The loop appends every section's block, in order, to the header |
| Chat.BlockIs | backend/chat.py:10-14 | The block built from the stripped (or placeholder) content is the section's block |
| Seqs.FlatMapAppend | backend/chat.py:9-14 | Appending per element is flattening: the pieces of two concatenated lists are the pieces of each, in order |
| Seqs.FlatMapSingle | backend/chat.py:14 | One element contributes exactly its own piece |
| Seqs.FlatMapCons | backend/chat.py:9-14 | The first element contributes its piece ahead of the pieces of the rest |
| Seqs.FlatMapSnoc | backend/chat.py:9-14 | Handling one more element appends exactly its piece |
| Seqs.FlatMapSplitAt | backend/chat.py:9-14 | The flattening of a list splits around any element's piece |
| Chat.BlocksAppend | backend/chat.py:9-14 | The blocks of two section lists concatenate |
| Chat.BlocksSingle | backend/chat.py:14 | One section gives exactly its block |
| Chat.AppendBlock | backend/chat.py:14 | Each `+=` appends the block of the next section |
| Chat.ContentOfCases | backend/chat.py:11-13 | Content is stripped; blank content becomes the placeholder |
| Chat.ContextShape | backend/chat.py:6-15 | An empty document gives the fixed notice; otherwise the header, then the first block, then the rest in order |
| Chat.BlocksSplitAt | backend/chat.py:9-14 | The blocks split around any section's block |
| Chat.InfixWithHeader | backend/chat.py:8-14 | Text between the header and the later blocks occurs in the context |
| Chat.ContextHasEverySection | backend/chat.py:9-14 | Every section's block appears in the context |
| Chat.BuildMessages | backend/chat.py:38-43 | The message loop computes the message spec |
| Chat.ToMessages | backend/chat.py:39-43 | One message per history entry, in order, each converted by role |
| Chat.ReplayHistory | backend/chat.py:39-43 | The replay loop computes exactly the converted history |
| Chat.SystemPromptHasContext | backend/chat.py:27-36 | The system prompt contains the document context verbatim |
| Chat.MessagesShape | backend/chat.py:27-43 | The system prompt comes first and contains the context; then one message per history entry in order, Human exactly for role "user" |
| Chat.GetChatResponse | backend/chat.py:18-49 | No model gives the credentials message; an answer is returned as is; an exception gives "Error connecting to LLM: " + its text |
| Ingestion.GetPdfStats | backend/ingestion.py:44-57 | `section_count` is the number of sections and `word_count` the number of word starts |
| Ingestion.WordStartsZeroIffBlank | backend/ingestion.py:48 | Text has no word start exactly when it is blank |
| Ingestion.WordCountZeroIffBlank | backend/ingestion.py:48 | The word count is 0 exactly for blank text, empty included |
| Ingestion.WordCountExample | backend/ingestion.py:48 | Runs of mixed whitespace separate words that are counted once each |
| Ingestion.BuildLlmKwargs | backend/ingestion.py:66-103 | Key passed through; the model as given, "gpt-4o" when the caller gives none; temperature 0, `base_url` present iff given and not blank, and then as given |
| LegacyGraph.LegacyIssueRoundTrip | old_but_gold/backend_graph.py:27-38 | A dumped legacy issue validates back |
| LegacyGraph.DumpLegacyIssues | old_but_gold/backend_graph.py:166-168 | One dictionary per issue |
| LegacyGraph.LegacyIssueLacksFixable | old_but_gold/backend_graph.py:27-38 | A legacy issue has no `fixable` key, which is exactly what the current `Issue` refuses |
| LegacyGraph.LegacyTooShortCases | old_but_gold/backend_graph.py:107 | The guard is "fewer than 5 characters after strip", catching blank text |
| LegacyGraph.LegacyAuditorFailFast | old_but_gold/backend_graph.py:107-118 | Short text: no model call, one High issue "0", not compliant |
| LegacyGraph.LegacyAuditorKeepsAnswer | old_but_gold/backend_graph.py:158-170 | An answer's verdict and issues are kept one-for-one, in order |
| LegacyGraph.LegacyAuditorFallback | old_but_gold/backend_graph.py:172-175 | A raising call gives no issues and not compliant |
| LegacyGraph.LegacyFixerOutcome | old_but_gold/backend_graph.py:187-254 | No issue: text unchanged, no call; otherwise the target is cleared iff the model answered, then the rewrite, else the original |
| LegacyGraph.LegacyFixPrompt | old_but_gold/backend_graph.py:212-234 | The prompt holds the issue's texts, "None" for a missing key |
| LegacyGraph.LegacyRouteCases | old_but_gold/backend_graph.py:260-293 | "fixer" iff the target is a non-empty dictionary, else "auditor"; only the target is read; the label names a node |
| LegacyGraph.LegacyInvokeRunsOneNode | old_but_gold/backend_graph.py:279-307 | One invocation runs the routed node once and stops |
| LegacyApp.LegacyShippedTemplates | old_but_gold/app.py:108-133 | "Standard Project Charter" has 3 entries and "Simple Document" 1, in order; names are case-sensitive |
| LegacyApp.LegacySectionsFromShape | old_but_gold/app.py:140-150 | One section per entry, in order, with its texts, no result and distinct fresh ids |
| LegacyApp.LegacySectionsFrom | old_but_gold/app.py:140-150 | One section per entry, in order, the k-th carrying the k-th fresh id and that entry's texts |
| LegacyApp.BuildLegacySections | old_but_gold/app.py:140-150 | The building loop computes exactly the per-entry sections |
| LegacyApp.LegacyWorkspace.constructor | old_but_gold/app.py:173-174 | The list starts empty |
| LegacyApp.LegacyWorkspace.LoadTemplate | old_but_gold/app.py:137-150 | The list becomes the template's sections, and stays empty for an unknown name |
| LegacyApp.LegacyWorkspace.DeleteSection | old_but_gold/app.py:153-156 | Removes position i when 0 <= i < length; otherwise a no-op |
| LegacyApp.LegacyWorkspace.AddManualSection | old_but_gold/app.py:159-169 | Appends one section with no result at the end |
| LegacyApp.LegacyWorkspace.SubmitManualSection | old_but_gold/app.py:206-210 | A section is added exactly when the title is non-empty |
| LegacyApp.LegacyWorkspace.ClearAll | old_but_gold/app.py:215-217 | The list becomes empty |
| LegacyApp.LegacyWorkspace.EditContent | old_but_gold/app.py:262-270 | The editor text is written into that section only |
| LegacyApp.LegacyWorkspace.AuditSection | old_but_gold/app.py:276-296 | The section's result becomes the audited state, built from its title, text and criteria with no target |
| LegacyApp.LegacyWorkspace.AutoFix | old_but_gold/app.py:339-369 | The content becomes the fixed text and the result is cleared |
| LegacyApp.FixedTextCases | old_but_gold/app.py:361-366 | The fixed text is the model's rewrite when it answered for a non-empty issue, else the unchanged content |
| LegacyApp.RemoveAtShape | old_but_gold/app.py:153-156 | Removal in range drops exactly that element and keeps the others in order; out of range returns the list unchanged |

## Left out

- Streamlit presentation is not modelled: styles, columns, tabs, expanders, spinners, `st.rerun`, `section_editor.py`, `chat_overlay.py`, `sidebar.py` and `main.py`. The panels are modelled only as the data they show.
- The model client (`ChatOpenAI`, `with_structured_output`, `invoke`) and `backend/llm_factory.py` are not modelled. Each call is an oracle parameter, and the chat model is `None` when no keys are set.
- The prompt wording of `backend/prompts.py` is not modelled. The prompts are represented by the request records they are filled from. The chat system prompt is kept verbatim, because its containment of the context is a property.
- The LangGraph library and `MemorySaver` checkpointing are not modelled. `GraphRuntime` keeps only the conditional entry point, the merge of a node's update and its edge to END.
- PDF conversion, temporary files and `os.remove` (backend/ingestion.py:87-98) are not modelled, nor is the structuring call itself (backend/ingestion.py:105-123).
- The truncation `raw_text[:50000]` is not modelled, since it only affects the prompt.
- `reading_time_mins` (a float) and the review timestamp (a clock) are not modelled.
- `uuid4` is modelled by an injective counter; only distinctness of ids is relied on.
- `strip()`, `lower()` and `split()` are modelled on ASCII whitespace and letters. Unicode whitespace and case folding are not.
- `html_escape` and the HTML of cards are not modelled. The card meta texts are not modelled either, except the Logic tab's "Jump to" label.
- `run_batch_audit` is imported by app/components/global_audit.py but defined nowhere in the repository. `RunGlobalAudit` takes its result as a parameter.
- `load_imported_sections_into_state` and `consistency_node` are not modelled because the repository does not define them; only its tests refer to them. The tests expect an "auth_err" issue on failure; the model follows backend/graph/nodes.py:84-86, which produces "err" and "AI Audit Service Failed.".
- `get_user_llm` (backend/llm_factory.py:5-27) is not modelled as code. It becomes the `llm: Option<…>` parameter of `Chat.GetChatResponse`, which is `None` when the API key, base URL or deployment name is missing (backend/llm_factory.py:15-16) or when the client cannot be built (backend/llm_factory.py:25-27).
- Python dictionaries are aliased when the page passes them around. The model copies values instead. Workspace methods replace the section list, so aliasing between a section held by the page and the store is not captured.
- `AuditAlerts.HandleFixRequest`: the `"user_content" in result` test at app/components/audit_alerts.py:123 is always true. Every graph path writes that key, so the model omits the test.
- `GlobalAudit.CollectSectionIssues`: sections are assumed well-formed. The fallbacks for a missing `user_data` or `meta` and for `issues` being `None` (app/components/global_audit.py:97, 103, 105) are not modelled. The "Untitled section" default is one of them.
- `GlobalAuditViews.AllTabItems`: the "Section issue" title default and the "Logic issue" default both apply only to items missing their key. Section items always carry `_section_title`, so only the logic-issue default is modelled.
- Values of the wrong type are not modelled: a truthy non-bool `is_compliant`, or a `None` value stored under a key. Each key is either absent or holds a value of its declared type.
- `Chat.GetChatResponse`: the history entries are assumed to carry `role` and `content`. A missing key raises `KeyError` in the source, and the model does not capture that.
- `Chat.ContentOf`: a section missing the `content` key reads as "" in the source (backend/chat.py:11). The model's sections always have content.
- `Nodes.AuditorNode`: the state keys read with defaults (`state.get(..., "")`) are always present in the model's `AgentState`. The same holds in `LegacyGraph`.
- In the earlier application, the rendering of results is not modelled: the compliant box, the per-issue boxes and which buttons appear (old_but_gold/app.py:301-338).
- `GlobalAudit.ApplyResults`: the section results are a sequence of pairs in the order returned. The source's dictionary cannot repeat an id; the model allows repeats, so it is more general.
- The nodes' console logging with `print` (backend/graph/nodes.py:29, 79, 100, 134 and old_but_gold/backend_graph.py:99, 173, 185, 252) is not modelled. It is output only and changes no state.
- `GraphRuntime.Run`: the recursion limit is modelled as fuel. Both graphs stop after one node, well within it.
