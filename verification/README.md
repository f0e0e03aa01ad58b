# Verified model of meridian's decision code

Five parts of the repository whose behaviour is decided by code rather than by a library, modelled in Dafny and
proved. `dfyconfig.toml` names all of it, so the command is `dafny verify dfyconfig.toml`.

**Shell policy** (`Splitter`, `SplitForms`, `Glob`, `ShellPolicy`). A command is cut into segments at separators
outside quotes; each segment is decided by the applicable rule of highest rank; patterns are matched greedily,
leftmost part first. The greedy matcher is proved to accept exactly what some assignment of the stars accepts.

**Edit distance** (`EditDistance`, `Ordering`). The table behind the "did you mean" message of `spawn` is proved
to hold the least cost over all edit scripts with replacements, deletions, insertions and swaps of neighbours
(optimal string alignment).

**Changelog** (`PyText`, `InlineCode`, `ChangelogScan`, `ScanForms`, `ScanLaws`, `ChangelogHeadings`,
`LineForms`, `ChangelogNotes`, `ParseLaws`, `AcceptedNotes`, `SectionLoop`, `PrintThenParse`, `SectionCuts`,
`ParseAccepts`, `MergeAccepts`, `ChangelogRelease`, `ReleaseForms`, `ReleaseViews`, `ReleaseLaws`,
`SwallowedRelease`, `ReleaseExample`). A line-by-line scanner (fences, comments, inline code) under a parser, a
merge, a printer, an inserter and an extractor. What the parser accepts and gathers is told by the places of the
lines alone; parsing and printing undo each other, and a run of releases leaves every release extractable and
disturbs no other.

**Session browser** (`BrowserViews`, `Lanes`, `BrowserState`, `BrowserInvariants`, `BrowserRuns`, `BrowserUi`,
`BrowserKeys`, `BrowserJourneys`, `BrowserControls`, `LineageTree`, `LineageOrder`, `LineageBranches`,
`BrowserLineage`, `Transcript`, `TranscriptSegments`). Key handlers are atomic steps of the UI thread; a
background worker computes, checks that it is current, and hands its closure to the UI's queue in separate steps
that interleave with everything else. The invariants hold in every state of every run, and runs of keys are
followed from the first letter typed to the chat that is opened. `Lanes.Lanes`, `BrowserUi.Ui`,
`Transcript.Window` and `Transcript.DetailView` are the program's objects, updated in place; each method is
proved to be the step of the same name. The lineage view's walk is proved to end on any edges, to draw exactly
the chats that are reached, siblings in order, and to show in its branches which sibling is the last; scrolling
a window of a transcript is proved to be scrolling all of it exactly where the loaded lines fill the screen or
start at the top.

**Stores** (`Slugs`, `SlugWords`, `ArtifactStore`, `ArtifactServes`, `ArtifactService`, `ArtifactLaws`,
`ConfigTree`, `ConfigLayers`, `ConfigCatalog`, `ConfigDocument`, `ConfigPruning`, `ConfigAgreement`,
`ConfigLoading`, `ConfigEditor`). Artifact serves while every call to the outside may fail; layered
configuration with provenance; and the agreement of the editor of a configuration file with its loader.

`Options`, `Sequences` and `PyText` hold what several parts share.

Calls to the outside (Tailscale, processes, files, clocks, random ports, environment variables, what a session's
re-entry decides) are parameters: every operation is proved for all their answers.

Four findings where the code does less than one might expect are stated as lemmas, each with an input and the
exact condition.

- After a failed reload the list can show rows for other inputs than those on screen, with nothing
  pending: `BrowserInvariants.RowsCanAnswerOtherInputs` is such a run, `ReloadAnswersIff` and
  `RequeryAnswersIff` say exactly when it happens.
- A release can go into a comment that the `[Unreleased]` line leaves open, and is then not found again:
  `ReleaseExample.AReleaseIsSwallowed` is such a file, `ReleaseLaws.HeadingShowsIffAnchorCloses` and
  `SwallowedRelease.ExtractsIffAnchorCloses` say exactly when.
- A reset does not see inside an inline table (`defaults = { max_depth = 3 }`), which the loader does read:
  `ConfigLoading.ResetMissesInlineTables` is such a file, `ResetThenLoad` says exactly when the option stays
  set. A set either fails or is loaded: `SetThenLoad`.
- A transcript window leaps over what stands beyond a page of setup entries alone, which boundary events in
  a row with nothing said between them give: `TranscriptSegments.APageCanHideEntries` is such a transcript,
  `EmptyPageIffSilent`, `Transcript.OlderPage` and `NewerPage` say exactly when.

## Model

| member | source | states |
|---|---|---|
| EditDistance.ComputeEditDistance | src/meridian/cli/spawn.py:239-262 | the number in the table's last cell is the least cost of an edit script between the two strings |
| EditDistance.DistanceIsLeastCost | src/meridian/cli/spawn.py:239-262 | the recurrence is achieved by a script and no script is cheaper |
| EditDistance.DistanceIsSymmetric | src/meridian/cli/spawn.py:239-262 | exchanging the strings keeps the distance |
| EditDistance.DistanceIsZeroIffEqual | src/meridian/cli/spawn.py:239-262 | the distance is zero exactly for equal strings |
| EditDistance.DistanceBounds | src/meridian/cli/spawn.py:239-262 | the distance lies between the difference of the lengths and the longer length |
| EditDistance.NeighboursDifferByAtMostOne | src/meridian/cli/spawn.py:247-253 | neighbouring cells of the table differ by at most one |
| EditDistance.CommonLastCancels | src/meridian/cli/spawn.py:247-261 | a common last character cancels |
| EditDistance.ClosestIsUnique | src/meridian/cli/spawn.py:272 | ties by distance are broken by the name, so the nearest command is determined |
| EditDistance.SuggestionIsNearestWithinTwo | src/meridian/cli/spawn.py:265-283 | a suggestion is made exactly when some subcommand lies within 2, and it is the nearest one |
| EditDistance.RejectedIff | src/meridian/cli/spawn.py:265-283 | a prompt is rejected exactly when it is no subcommand and is one word of small letters and hyphens that starts with a letter |
| Splitter.SplitSegments | src/meridian/codex_runtime/tool_hook.py:38-66 | the loop gives the segments; in strict mode it refuses exactly forbidden syntax, an open quote, or no segment |
| SplitForms.CutsAre | src/meridian/codex_runtime/tool_hook.py:38-66 | a command is cut at `;`, the pipe, `&` and line ends where every quote before is closed by the next one of its kind |
| SplitForms.ForbiddenAre | src/meridian/codex_runtime/tool_hook.py:38-66 | what a strict policy refuses outside quotes, and of it in double quotes |
| SplitForms.UncutIsOne | src/meridian/codex_runtime/tool_hook.py:38-66 | what is not cut is one segment without the blanks around it, or none |
| Splitter.SplitIsHomomorphism | src/meridian/codex_runtime/tool_hook.py:38-66 | splitting at a separator outside quotes is splitting both sides |
| Splitter.ResplitIsIdentity | src/meridian/codex_runtime/tool_hook.py:38-66 | splitting a segment again gives just that segment |
| Splitter.JoinThenSplit | src/meridian/codex_runtime/tool_hook.py:38-66 | joining the segments with `;` and splitting again is the identity |
| Glob.GlobMatches | src/meridian/codex_runtime/tool_hook.py:69-87 | the greedy loop accepts exactly the values some assignment of the stars gives, or the bare command of a pattern ending in a star |
| Glob.MatchParts | src/meridian/codex_runtime/tool_hook.py:73-87 | the loop over the parts between stars accepts exactly the values some assignment of the stars gives |
| Glob.PartsMeanPattern | src/meridian/codex_runtime/tool_hook.py:76-87 | matching the parts between stars in order is matching the pattern character by character |
| Glob.LeftmostIsBest | src/meridian/codex_runtime/tool_hook.py:80-86 | if any placement of the next part works, the leftmost one does |
| ShellPolicy.Winner | src/meridian/codex_runtime/tool_hook.py:105-117 | the first applicable rule that no applicable rule outranks, none exactly when none applies |
| ShellPolicy.TopByFields | src/meridian/codex_runtime/tool_hook.py:105-117 | in the rules' own fields: a rule with a pattern beats every one without, the shell's own beats the one for all tools, of two patterns the longer literal wins, and of equals a deny |
| ShellPolicy.DeniedIffUnbeatenDeny | src/meridian/codex_runtime/tool_hook.py:105-117 | a segment is denied exactly when an applicable deny is outranked by no applicable allow |
| ShellPolicy.DeniedIsByFields | src/meridian/codex_runtime/tool_hook.py:105-117 | a segment is denied by the rules with a pattern alone if one speaks about it, else by the shell's own rules if there are any, and only then by the rules for all tools |
| ShellPolicy.PassesIsByFields | src/meridian/codex_runtime/tool_hook.py:151-181 | a command passes exactly when it is simple enough and stands alone under a completion grant or has no segment denied in that sense |
| ShellPolicy.EffectiveAre | src/meridian/codex_runtime/tool_hook.py:126-174 | the rules of a decision: the policy's for the shell and for all tools, and the grants' own for a granted command that stands alone |
| ShellPolicy.GrantSpeaks | src/meridian/codex_runtime/tool_hook.py:119-123 | a grant covers its command, and with any arguments unless it is exact; the rule made of it speaks about just these |
| ShellPolicy.Decide | src/meridian/codex_runtime/tool_hook.py:151-181 | a command runs exactly when it passes, told in the rules' own fields; a refusal for its syntax or by the first denied segment's rule |
| ShellPolicy.OrderIsIrrelevant | src/meridian/codex_runtime/tool_hook.py:105-181 | reordering the rules changes no decision |
| ShellPolicy.AddingRulesIsMonotone | src/meridian/codex_runtime/tool_hook.py:105-181 | a further deny lets nothing more pass, a further allow refuses nothing more |
| ShellPolicy.AllowlistNeedsAllow | src/meridian/codex_runtime/tool_hook.py:151-181 | under a catch-all deny and without a completion grant every segment of a passing command has an allow that outranks the deny |
| InlineCode.MaskInline | scripts/changelog-notes.py:77-99 | the loop over paired runs masks exactly the code spans of the rule of section 6.1 of CommonMark 0.31.2, one line at a time |
| InlineCode.MaskIsIdempotent | scripts/changelog-notes.py:77-99 | a masked line has no code span left |
| InlineCode.SurvivingRunsDiffer | scripts/changelog-notes.py:77-99 | the backtick runs that survive have pairwise different lengths |
| ChangelogScan.Scan | scripts/changelog-notes.py:102-170 | the loop gives the two views of every line, and the block still open at the end with its line |
| ScanForms.FenceIs | scripts/changelog-notes.py:42 | a fence is three or more backticks, or three or more tildes |
| ScanForms.FenceEnds | scripts/changelog-notes.py:119-128 | a fence is closed by a line of its own character alone, at least as often |
| ScanForms.CommentGoes | scripts/changelog-notes.py:148-160 | a comment goes from the first opener to the first closer behind it, and what is left is read again |
| ScanForms.IssueIs | scripts/changelog-notes.py:165-170 | what is reported is the last line that opens a block, when nothing behind it closes the block |
| ScanLaws.ScanComposes | scripts/changelog-notes.py:102-170 | scanning two texts in a row is scanning the second from the mode the first leaves |
| ScanLaws.VisibleHasNoOpener | scripts/changelog-notes.py:140-160 | no visible line holds a comment opener |
| ScanLaws.ProseStaysAligned | scripts/changelog-notes.py:140-160 | removing comments keeps the prose and its masked copy aligned |
| ScanLaws.RescanClean | scripts/changelog-notes.py:102-170 | where comments stand alone on their lines the clean view scans to itself |
| ChangelogNotes.ParseNotes | scripts/changelog-notes.py:191-378 | the parser's notes and complaints, in order and with their line numbers, are those of the specification |
| ParseLaws.AcceptsIff | scripts/changelog-notes.py:191-378 | nothing is complained about exactly when no block is left open and exactly one visible `## Changelog` heading stands, no section heading outside its block, and in the block either one `None.` line with a reason or, without a leftover placeholder, known sections, each once and starting with a bullet, with all text under one |
| ParseLaws.SecondsAre | scripts/changelog-notes.py:206-218 | a second heading is complained about at every `## Changelog` line but the first |
| ParseLaws.SectionsAndComplaints | scripts/changelog-notes.py:300-378 | on any content: the sections gathered are those of the known headings, each with the trimmed lines down to the next heading, and every line's complaints come in order |
| ParseLaws.NotesAre | scripts/changelog-notes.py:191-378 | what is taken from the block, complaints or not: its `None.` line, or its sections |
| LineForms.HeadingIs | scripts/changelog-notes.py:36-38 | a heading is one to six `#`, a blank and the title between blanks |
| LineForms.ReleaseLabelIs | scripts/changelog-notes.py:39 | the label of a release heading is what stands in its brackets, up to the first closing one, and is not empty |
| ChangelogNotes.MergeNotes | scripts/changelog-notes.py:381-404 | each section gathers its lines in file order, sections come in canonical order, a `None.` line stays only without sections |
| ReleaseForms.MergeMeans | scripts/changelog-notes.py:381-404 | with a section in some file: the sections named by files without a `None.` line, in canonical order, each with the lines of the first file first; else the last `None.` line |
| ChangelogNotes.RenderSection | scripts/changelog-notes.py:434-446 | the release heading, a blank line and the printed notes |
| ReleaseForms.PrintedInOrder | scripts/changelog-notes.py:434-446 | sections are printed one after the other, each under its heading, a blank line between two |
| PrintThenParse.PrintThenParseIsIdentity | scripts/changelog-notes.py:191-378 | parsing the printed notes under a heading gives the notes back without a complaint |
| SectionCuts.SectionsAreCuts | scripts/changelog-notes.py:304-378 | without a complaint the section names are distinct and known, and each section is the trimmed stretch between two headings |
| ParseAccepts.ParseGivesAccepted | scripts/changelog-notes.py:191-378 | what the parser accepts, comments in the block it reads standing alone, can be printed and read back |
| ParseAccepts.ParsePrintParse | scripts/changelog-notes.py:191-446 | parse, print and parse again gives the same notes |
| MergeAccepts.MergeIsAccepted | scripts/changelog-notes.py:381-404 | merging accepted notes gives accepted notes |
| ChangelogRelease.RenderChangelog | scripts/changelog-notes.py:482-512 | the rendered file, or the first failing check |
| ReleaseForms.RenderMeans | scripts/changelog-notes.py:482-512 | below the first anchor: refused for the first line with text there, then for the first heading of the version, else the file with the heading, the notes and blank lines in that place |
| ChangelogRelease.ExtractVersion | scripts/changelog-notes.py:678-700 | the trimmed block of a version, or the first failing check |
| ReleaseForms.ExtractMeans | scripts/changelog-notes.py:678-700 | what stands between the version's first heading and the next of level one or two, from the first line with text to the last |
| ReleaseForms.ExtractsNothing | scripts/changelog-notes.py:678-700 | refused exactly where the version's block has no text |
| LineForms.VersionIs | scripts/changelog-notes.py:34 | extracting refuses a version for its form exactly when it is not a letter or digit followed by letters, digits, `.`, `+` and `-` |
| ReleaseLaws.RenderThenExtract | scripts/changelog-notes.py:482-512 | extracting the new version gives exactly its printed notes, every other version extracts as before, and the file stays ready for the next release |
| ReleaseLaws.BodiesToRelease | scripts/changelog-notes.py:381-512 | from several accepted pull request bodies to the extracted release body |
| ReleaseLaws.ReleasesCompose | scripts/changelog-notes.py:482-512 | any run of distinct releases stands newest first, each extractable, every older version undisturbed |
| ReleaseLaws.HeadingShowsIffAnchorCloses | scripts/changelog-notes.py:468-512 | the rendered heading is visible exactly when the anchor line leaves no comment open |
| SwallowedRelease.ExtractsIffAnchorCloses | scripts/changelog-notes.py:468-512 | after rendering any notes: the printed notes when the anchor line leaves no comment open, else what stands behind the first line that ends the comment; the notes come back exactly when the anchor line closes, unless a heading of the version shows there |
| ReleaseExample.AReleaseIsSwallowed | scripts/changelog-notes.py:482-512 | a file a release is rendered into without complaint, with its heading invisible and its version not found |
| ReleaseExample.AReleaseIsPossible | scripts/changelog-notes.py:482-512 | a release for which every condition of the laws above holds |
| Lanes.StaleNeverRuns | src/meridian/cli/browse/lanes.py:42-58 | once a request is superseded, cancelled or closed it stays so and nothing of it runs, over any further run |
| Lanes.OneResultEach | src/meridian/cli/browse/lanes.py:46-56 | in every run a request gets at most one result and no progress after it |
| Lanes.NewestAlwaysRuns | src/meridian/cli/browse/lanes.py:42-58 | when workers and queue are done, the newest request of a lane has had its result run |
| Lanes.LiveCanArrive | src/meridian/cli/browse/lanes.py:42-58 | a current unfinished request can always be brought to its result by steps of its worker and the queue |
| Lanes.TakeEndsBusy | src/meridian/cli/browse/lanes.py:42-48 | running a current result ends the one job of its lane and no other lane's |
| Lanes.Lanes.Run | src/meridian/cli/browse/lanes.py:29-58 | a request gets the next token of its lane; every invariant of the lanes stays |
| Lanes.Lanes.Cancel | src/meridian/cli/browse/lanes.py:60-62 | the lane's token moves on; every invariant of the lanes stays |
| Lanes.Lanes.Close | src/meridian/cli/browse/lanes.py:64-65 | no request is current any more |
| Lanes.Lanes.Act | src/meridian/cli/browse/lanes.py:46-56 | a worker's step: compute, report, check that it is current, hand over to the queue or, after closing, to nothing |
| Lanes.Lanes.Take | src/meridian/cli/browse/tui.py:137-147 | the oldest callback leaves the queue and runs exactly when its worker is still current |
| BrowserInvariants.StepKeeps | src/meridian/cli/browse/tui.py:172-581 | every key, every callback and every worker step keeps the invariant |
| BrowserInvariants.ReachableIsSound | src/meridian/cli/browse/tui.py:108-581 | the invariant holds in every state of every run |
| BrowserInvariants.ListingAnswersItsLabel | src/meridian/cli/browse/tui.py:172-202 | the rows are the result for the scope in `loaded`; a reload is pending exactly when the newest query is on its way; otherwise, unless it failed, the rows answer the inputs on screen |
| BrowserInvariants.ReloadAnswersIff | src/meridian/cli/browse/tui.py:172-202 | in any interleaving: once the newest query's result has run, nothing is pending and the rows answer the inputs on screen exactly when it brought a listing or the rows did so already |
| BrowserInvariants.RequeryAnswersIff | src/meridian/cli/browse/tui.py:172-202 | the same for every change of the inputs, followed to the end of its reload |
| BrowserInvariants.FailedReloadKeepsOldRows | src/meridian/cli/browse/tui.py:198-202 | a typed letter whose reload fails leaves the old rows with nothing pending; they answer the longer filter exactly when they did so before |
| BrowserInvariants.RowsCanAnswerOtherInputs | src/meridian/cli/browse/tui.py:198-202 | a run that ends with nothing pending and rows that do not answer the inputs on screen |
| BrowserInvariants.LoadingIsNeverOrphaned | src/meridian/cli/browse/tui.py:251-347 | a view on top with neither contents nor error has its own request current and unfinished |
| BrowserInvariants.TranscriptIsOfItsChat | src/meridian/cli/browse/tui.py:256-279 | no view ever shows another chat's transcript, cached snapshots included |
| BrowserInvariants.RequeryKeeps | src/meridian/cli/browse/tui.py:172-202 | requerying after any change of the query inputs restores the invariant |
| BrowserInvariants.LoadDetailKeeps | src/meridian/cli/browse/tui.py:256-301 | loading the top detail, from the snapshot or anew, restores the invariant |
| BrowserInvariants.BackKeeps | src/meridian/cli/browse/tui.py:338-347 | going back, with its cancellations and its reload, keeps the invariant |
| BrowserInvariants.DeliverKeeps | src/meridian/cli/browse/tui.py:172-336 | applying a current result of any kind keeps the invariant |
| BrowserRuns.OneResultForEachRequest | src/meridian/cli/browse/tui.py:108-581 | every run of the browser is a run of its lanes: one result for each request, none lost |
| BrowserRuns.StaleRequestsStayStale | src/meridian/cli/browse/tui.py:108-581 | over any run of the browser nothing of a stale request runs |
| BrowserUi.Ui.Requery | src/meridian/cli/browse/tui.py:172-202 | the method is the step and keeps the invariant |
| BrowserUi.Ui.StartSearch | src/meridian/cli/browse/tui.py:204-247 | the method is the step and keeps the invariant |
| BrowserUi.Ui.LoadDetail | src/meridian/cli/browse/tui.py:256-301 | the method is the step and restores the invariant |
| BrowserUi.Ui.OpenDetail | src/meridian/cli/browse/tui.py:251-254 | the method is the step and keeps the invariant |
| BrowserUi.Ui.OpenLineage | src/meridian/cli/browse/tui.py:303-334 | the method is the step and keeps the invariant |
| BrowserUi.Ui.Back | src/meridian/cli/browse/tui.py:338-347 | the method is the step and keeps the invariant |
| BrowserUi.Ui.RunNext | src/meridian/cli/browse/tui.py:137-147 | the oldest callback runs, if current, as the step says and keeps the invariant |
| BrowserUi.Ui.Activate | src/meridian/cli/browse/tui.py:359-372 | the method is the step and keeps the invariant |
| BrowserUi.Ui.BeginStartFrom | src/meridian/cli/browse/tui.py:374-390 | the method is the step and keeps the invariant |
| BrowserUi.Ui.OnEscape | src/meridian/cli/browse/tui.py:441-457 | the method is the step and keeps the invariant |
| BrowserUi.Ui.OnListCharacter | src/meridian/cli/browse/tui.py:522-544 | the method is the step and keeps the invariant |
| BrowserUi.Ui.Press | src/meridian/cli/browse/tui.py:402-581 | every key's handler is its step and keeps the invariant |
| BrowserKeys.StepsThenSpace | src/meridian/cli/browse/tui.py:490-531 | after any steps through the list Space opens the detail of the row they land on, each step held within the rows, with the kept transcript or a request for it; nothing opens while the rows are those of other inputs, or there are none |
| BrowserKeys.StepsThenLineage | src/meridian/cli/browse/tui.py:459-533 | after any steps `l` with nothing typed, or Ctrl-L, opens the lineage of that row's chat |
| BrowserKeys.StepsThenStart | src/meridian/cli/browse/tui.py:374-535 | after any steps `n` or Ctrl-N opens the prompt for that row, or says why a session cannot start from it |
| BrowserKeys.StepsThenEnter | src/meridian/cli/browse/tui.py:359-439 | after any steps Enter leaves for that row's chat, or says why it cannot be entered again |
| BrowserKeys.ShownAre | src/meridian/cli/browse/model.py:54-59 | the rows on screen are all rows, or with search results those of the matching chats in their order |
| BrowserJourneys.TypingQueries | src/meridian/cli/browse/tui.py:541-544 | typing edits the filter, asks for the rows of all of it and opens nothing |
| BrowserJourneys.TypeThenOpen | src/meridian/cli/browse/tui.py:172-544 | text is typed, the rows for it come, and steps and Space open the row they lead to, counted from the first |
| BrowserJourneys.SearchAsks | src/meridian/cli/browse/tui.py:204-247 | `/`, a query and Enter search all listed chats in their order, unless the query is blank |
| BrowserJourneys.FindThenOpen | src/meridian/cli/browse/tui.py:204-544 | a search followed to its results: only rows of matching chats are stepped through and opened |
| BrowserJourneys.ReopensKept | src/meridian/cli/browse/tui.py:251-347 | a chat opened again at the generation it was read at shows its transcript at once and asks for its model alone |
| BrowserControls.TabsCycle | src/meridian/cli/browse/tui.py:502-504 | Tab goes round the list and its two controls |
| BrowserControls.ArrowSteps | src/meridian/cli/browse/tui.py:506-511 | an arrow gives the focused control its other value and asks for the rows; without focus nothing happens |
| BrowserControls.TypedThenErased | src/meridian/cli/browse/tui.py:513-544 | text typed and erased leaves the inputs as they were and asks for their rows |
| BrowserControls.EscapesLeave | src/meridian/cli/browse/tui.py:441-457 | from any state as many Escapes as there are layers and one more lead out of the browser, and no fewer |
| BrowserControls.DetailKeys | src/meridian/cli/browse/tui.py:349-575 | what each key does over a detail |
| BrowserControls.LineageStepsThenEnter | src/meridian/cli/browse/tui.py:359-581 | after any steps through a lineage Enter opens the detail of the chat on the line they land on |
| BrowserControls.ModelReaches | src/meridian/cli/browse/tui.py:281-301 | a refreshed model reaches the view and the rows of its chat and nothing else |
| LineageTree.MembersAre | src/meridian/cli/browse/model.py:217-221 | the members are the origin and both ends of every edge, once each and in order |
| LineageTree.RootsAre | src/meridian/cli/browse/model.py:240-242 | the roots are the members without a parent, and the origin when there is none |
| LineageTree.RoomFalls | src/meridian/cli/browse/model.py:246-258 | what makes the walk end on every edge set, cycles and self-loops included |
| LineageTree.SpotsAreTrails | src/meridian/cli/browse/model.py:246-258 | the walk visits exactly the trails that do not turn back |
| LineageTree.SomethingIsDrawn | src/meridian/cli/browse/model.py:224-262 | the view always has a line to select |
| LineageTree.DrawnChats | src/meridian/cli/browse/model.py:224-262 | exactly the chats a root leads to are drawn, with their rows |
| LineageTree.EachChatOnce | src/meridian/cli/browse/model.py:224-262 | when no chat has two recorded parents and some chat has none, no chat is drawn twice |
| LineageTree.PrefixShowsParent | src/meridian/cli/browse/model.py:246-258 | prefixes have three columns a level, and the nearest earlier line one level up is the parent by an edge of the drawn kind |
| LineageOrder.SiblingsAscend | src/meridian/cli/browse/model.py:239-262 | two drawn lines at one depth with no shallower line between stand in the order of their chats, roots included |
| LineageOrder.ChatsByNumber | src/meridian/cli/browse/model.py:212-221 | `c` followed by a numeral is ordered by the number, so `c2` comes before `c10` |
| LineageOrder.KidsAre | src/meridian/cli/browse/model.py:232-240 | a parent's children ascend, and each is there once for every edge to it, in the order of the edges |
| LineageBranches.PrefixIsDrawn | src/meridian/cli/browse/model.py:246-258 | a line ends in the branch that shows whether a sibling follows, and begins with the guides of the line above it |
| BrowserLineage.TreeIsShown | src/meridian/cli/browse/tui.py:303-334 | the tree drawn for any edges is a result the view takes; a line is selected, the first of the opened chat exactly when a root leads to that chat |
| LineageTree.Walker.Walk | src/meridian/cli/browse/model.py:246-258 | the recursion appends the drawn lines of the visits below the chat |
| LineageTree.BuildLineageNodes | src/meridian/cli/browse/model.py:224-262 | the appended lines are those of the specification |
| Transcript.OlderPage | src/meridian/cli/browse/transcript.py:63-70 | an older page joins the window without a gap exactly when it shows something or nothing before it does |
| Transcript.NewerPage | src/meridian/cli/browse/transcript.py:72-78 | a newer page joins it without a gap exactly when it shows something or nothing behind it does |
| TranscriptSegments.BuildSegmentEntries | src/meridian/lib/ops/session_transcript.py:244-294 | a setup entry first in every segment, one numbering for all entries |
| TranscriptSegments.EmptyPageIffSilent | src/meridian/lib/ops/session_transcript.py:244-294 | a page of setup entries alone stands in a transcript exactly when nothing is said in 23 segments in a row that another follows |
| TranscriptSegments.APageCanHideEntries | src/meridian/cli/browse/transcript.py:63-70 | a parsed transcript whose first entry with text stands behind a page of setup entries and is leapt over |
| Transcript.SpansShowAll | src/meridian/cli/browse/transcript.py:24-88 | a window shows all of its stretch exactly when nothing it leapt over is shown; without a page of setup entries it always does |
| Transcript.Window.Older | src/meridian/cli/browse/transcript.py:63-70 | the page before the window is put in front of it and the window grows; it keeps a stretch at the start or the end |
| Transcript.Window.Newer | src/meridian/cli/browse/transcript.py:72-78 | the page after the window is put behind it and the window grows |
| Transcript.Window.JumpBottom | src/meridian/cli/browse/transcript.py:80-83 | the window is the last page, without a gap |
| Transcript.Window.JumpTop | src/meridian/cli/browse/transcript.py:85-88 | the window is the first page, without a gap |
| Transcript.DetailView.GetLines | src/meridian/cli/browse/model.py:141-155 | the kept lines of the width and bounds, or every entry drawn; the same wherever the kept lines were drawn from what the window shows |
| Transcript.DetailView.FlatIsFresh | src/meridian/cli/browse/model.py:136-149 | lines kept for a width and two bounds are those of the window with these bounds, without a page of setup entries or after a jump |
| Transcript.DetailView.FirstLine | src/meridian/cli/browse/model.py:157-160 | the first line, kept within the loaded lines |
| Transcript.Lands | src/meridian/cli/browse/model.py:173-175 | keeping a line within the loaded stretch keeps it within the transcript exactly when the stretch fills the body or nothing stands above it |
| Transcript.DetailView.Scroll | src/meridian/cli/browse/model.py:162-175 | the loops end; lines are loaded in front and behind and the body moves by `delta` over all of them; where the window did not leap, the line of the whole transcript on top moves by `delta` exactly when the lines loaded in the end fill the body or nothing stands above them; nothing is loaded without need, and the view is pinned to the bottom exactly at the transcript's last lines |
| Transcript.DetailView.Jump | src/meridian/cli/browse/model.py:177-185 | the transcript's first line is shown, or its last page of lines exactly when the loaded lines fill the body or nothing stands above them |
| Slugs.BaseIsValid | src/meridian/lib/artifact/service.py:206-210 | the base is a valid slug exactly when the lowered name has a letter or a digit |
| Slugs.CandidatesDiffer | src/meridian/lib/artifact/service.py:214-217 | attempts from the second on give different candidates |
| Slugs.CandidateIsValid | src/meridian/lib/artifact/service.py:214-219 | a candidate is a valid slug of at most 64 characters while its suffix is shorter than 63 |
| Slugs.DeriveSlug | src/meridian/lib/artifact/service.py:199-220 | the slug of the specification; raises exactly without a letter or digit; at most two attempts more than there are occupied slugs; the result is valid, free and the first free candidate |
| SlugWords.BaseIsWords | src/meridian/lib/artifact/service.py:206-208 | the base is the name's runs of letters and digits joined by single dashes, as much of it as fits in 64 characters |
| SlugWords.SlugsAreWords | src/meridian/lib/artifact/store.py:31-36 | a valid slug is one word or several joined by single dashes |
| ArtifactLaws.CandidateMeans | src/meridian/lib/artifact/service.py:211-217 | a further candidate is the start of the base, the port and, from the second attempt on, its number |
| ArtifactStore.LoadServes | src/meridian/lib/artifact/store.py:101-120 | the loop gives the serves of the specification |
| ArtifactStore.LoadIsDistinct | src/meridian/lib/artifact/store.py:101-120 | whatever the file holds, loaded serves are valid with distinct slugs and distinct ports |
| ArtifactLaws.LoadPicks | src/meridian/lib/artifact/store.py:101-120 | in the items' own fields: the well-formed items in order, each unless one taken before has its slug or its port |
| ArtifactStore.ReadSkipsNothingElse | src/meridian/lib/artifact/store.py:113-119 | a valid item is left out only when an earlier one has its slug or its port |
| ArtifactStore.LoadAfterSave | src/meridian/lib/artifact/store.py:101-127 | saved serves load back exactly when they are valid and distinct |
| ArtifactServes.SweepPartitions | src/meridian/lib/artifact/service.py:317-338 | a sweep parts the loaded list, in order, into removed serves, all expired, and kept ones, which load back |
| ArtifactServes.SweepKeepsRecorded | src/meridian/lib/artifact/service.py:317-338 | a sweep keeps every registered listener recorded, whichever calls fail |
| ArtifactServes.FinishKeepsRecorded | src/meridian/lib/artifact/service.py:403-421 | a start keeps every listener recorded exactly when it does not leave one behind with its record unsaved |
| ArtifactServes.StopKeepsRecorded | src/meridian/lib/artifact/service.py:424-440 | a stop keeps every listener recorded, whichever calls fail |
| ArtifactLaws.SweepMeans | src/meridian/lib/artifact/service.py:69-75 | in the serves' own fields: a serve goes exactly when it has a ttl, its time is over and both calls for it succeed; one without a ttl stays with its listener |
| ArtifactLaws.FinishMeans | src/meridian/lib/artifact/service.py:403-421 | whether a new listener stands after a start and whether it is recorded, by the answers of the calls |
| ArtifactLaws.StopMeans | src/meridian/lib/artifact/service.py:424-440 | which listener and which record a stop takes away |
| ArtifactLaws.NamedIs | src/meridian/lib/artifact/service.py:426-431 | a reference names the first serve with that slug or with that port in decimals |
| ArtifactServes.RunsKeepRecorded | src/meridian/lib/artifact/service.py:317-440 | over any run of sweeps, starts and stops that orphans nothing every listener is recorded and records are distinct |
| ArtifactService.PickPort | src/meridian/lib/artifact/service.py:86-98 | the first drawn port that is neither occupied nor unbindable, none exactly when there is none |
| ArtifactService.LaunchEnds | src/meridian/lib/artifact/service.py:362-389 | the launched server is that of the first try that is ready, on the port asked for or a free one, under the slug for that port; a port that could not be used is not tried again; what holds of the tries at each refusal |
| ArtifactService.ArtifactHost.SweepExpired | src/meridian/lib/artifact/service.py:317-338 | the loop is the sweep; it removes exactly the loaded serves whose ttl is over and for which both calls succeed, keeps those without a ttl with their listeners, and reports the removed serves and the slugs for which a call failed |
| ArtifactService.ArtifactHost.Launch | src/meridian/lib/artifact/service.py:362-389 | the loop launches the server, or ends in the refusal, of the specification; the server's slug is new and valid and its port was free |
| ArtifactService.ArtifactHost.StartServe | src/meridian/lib/artifact/service.py:347-421 | the answers decide, in this order: the sweep, the port, the launch, the five ends of a launched serve; every listener stays recorded exactly when the end is not an orphan |
| ArtifactService.ArtifactHost.Register | src/meridian/lib/artifact/service.py:403-421 | which of the five ends, and the host after it, by the answers of the calls |
| ArtifactService.ArtifactHost.StopServe | src/meridian/lib/artifact/service.py:424-440 | stops exactly a named serve whose calls all succeed, raises exactly when a call it makes fails; listeners stay recorded |
| ConfigTree.MergeDicts | src/meridian/lib/config/dynamic_sections.py:170-181 | the loop, in any order of the keys, is the merge |
| ConfigTree.LeafOfMerge | src/meridian/lib/config/dynamic_sections.py:170-181 | on any two dictionaries a leaf is the overriding one's where that decides the path and the base's elsewhere |
| ConfigTree.MergeWithNothing | src/meridian/lib/config/dynamic_sections.py:170-181 | the empty dictionary is a unit |
| ConfigTree.MergeAssociatesIff | src/meridian/lib/config/dynamic_sections.py:170-181 | exactly when merging three dictionaries associates |
| ConfigTree.CompatibleAssociate | src/meridian/lib/config/dynamic_sections.py:170-181 | layers of compatible shapes associate |
| ConfigTree.MergeDoesNotAlwaysAssociate | src/meridian/lib/config/dynamic_sections.py:170-181 | a table, a plain value and a table at one key do not |
| ConfigTree.AssignSets | src/meridian/lib/config/loader.py:83-97 | an assignment is read back at its path |
| ConfigTree.AssignKeeps | src/meridian/lib/config/loader.py:83-97 | an assignment changes no path apart from it |
| ConfigLayers.LeafOfLayers | src/meridian/lib/config/loader.py:318-333 | the loaded leaf is that of the last layer that decides the path |
| ConfigLayers.LeafOfCompatibleLayers | src/meridian/lib/config/loader.py:318-333 | on compatible layers it is that of the highest layer that defines it |
| ConfigLayers.LeafOfEnv | src/meridian/lib/config/loader.py:222-244 | the environment decides exactly the options it sets, by the last variable of each |
| ConfigLayers.SourceGivesValue | src/meridian/lib/config/loader.py:260-343 | the recorded source of an option, the user's file, another file or a variable by its name, gives its value and nothing above it speaks about the option; the environment comes last |
| ConfigLayers.LoadConfig | src/meridian/lib/config/loader.py:318-343 | the layer loop and the environment give those values and those sources |
| ConfigLayers.RecordLayer | src/meridian/lib/config/loader.py:285-296 | recording a layer makes it the source of the options it has |
| ConfigCatalog.Register | src/meridian/lib/config/catalog.py:42-46 | the first key that stands for another option, or the index with all keys |
| ConfigCatalog.BuildIndex | src/meridian/lib/config/catalog.py:28-65 | refuses exactly different descriptors that share a key of some kind, and otherwise finds each option by each of its keys and nothing by any other; what a refusal names is shared by two different options |
| ConfigCatalog.NoConflictsIff | src/meridian/lib/config/catalog.py:28-65 | refused exactly when two different options share their key, a name, a spelling or a variable |
| ConfigCatalog.FoundIff | src/meridian/lib/config/catalog.py:28-65 | an option is found by its key, by it and its dotted spellings as names, by its spellings and by its variables, and by nothing else |
| ConfigDocument.RemoveHides | src/meridian/lib/config/preserving_edit.py:162-189 | a removed spelling is no longer seen by the loader, unless a table on its way is inline |
| ConfigDocument.SetShows | src/meridian/lib/config/preserving_edit.py:144-159 | setting fails exactly when a step of the path is no table, else the loader sees the value there |
| ConfigPruning.RemovePrunes | src/meridian/lib/config/preserving_edit.py:162-189 | a step of a removed spelling's path is gone exactly when it held nothing but the way to it; one that is left is a table with something in it |
| ConfigPruning.RemoveKeepsOthers | src/meridian/lib/config/preserving_edit.py:162-189 | whatever stands at a place off the spelling's path stays |
| ConfigPruning.SetKeepsOthers | src/meridian/lib/config/preserving_edit.py:144-159 | setting a spelling leaves every place off its path as it was |
| ConfigAgreement.RemoveKeepsWalk | src/meridian/lib/config/preserving_edit.py:162-189 | removing a spelling, pruning included, leaves every other assignment of the loader and their order |
| ConfigAgreement.SeenIsGiven | src/meridian/lib/config/loader.py:100-125 | the loader's walk assigns to a spelling exactly what stands there |
| ConfigAgreement.ResetAgrees | src/meridian/lib/config/preserving_edit.py:122-127 | after a reset nothing is assigned to the option exactly when none of its spellings is hidden in an inline table |
| ConfigAgreement.SetAgrees | src/meridian/lib/config/preserving_edit.py:106-119 | after a set the new value is assigned through the primary spelling, and through it alone exactly when no other is hidden |
| ConfigLoading.MapTable | src/meridian/lib/config/loader.py:100-125 | the recursion makes the assignments of the walk in the order of the file |
| ConfigLoading.LeafIsLastGiven | src/meridian/lib/config/loader.py:83-125 | an option has the last value assigned through any of its spellings |
| ConfigLoading.ResetThenLoad | src/meridian/lib/config/preserving_edit.py:122-127 | editor and loader agree on a reset, and no other option changes |
| ConfigLoading.FlattenedAreFlat | src/meridian/lib/config/models.py:489-615 | the spellings the model gives to the options of its flattened sections stand together and are reached by the loader |
| ConfigLoading.SetThenLoad | src/meridian/lib/config/preserving_edit.py:106-119 | for every option of the flattened sections: a set fails exactly when a step to the primary spelling is no table, else the loader maps the option to the new value and every other option to what it did |
| ConfigLoading.LoadedAfterSet | src/meridian/lib/config/preserving_edit.py:106-119 | a remark on any other catalog, where spellings may stand in several tables: the value of the spelling that comes last in the edited file |
| ConfigLoading.SetLoadsNewValue | src/meridian/lib/config/preserving_edit.py:106-119 | where every spelling stands at the top or in the primary one's table, a set that succeeds loads the new value |
| ConfigLoading.BuiltIsSound | src/meridian/lib/config/catalog.py:28-65 | every catalog that is built meets the condition of the loading laws |
| ConfigLoading.ResetMissesInlineTables | src/meridian/lib/config/preserving_edit.py:162-182 | with the two spellings of `max_depth`: a file that a reset leaves as it is and that sets the option |
| ConfigEditor.Document.RemoveAlias | src/meridian/lib/config/preserving_edit.py:162-189 | down the path and up again, dropping emptied tables, is the removal; it reports whether the key was found |
| ConfigEditor.Document.ResetScalarOption | src/meridian/lib/config/preserving_edit.py:122-127 | the loop over the spellings is the reset; it reports whether the editor saw any of them |
| ConfigEditor.Document.SetScalarOption | src/meridian/lib/config/preserving_edit.py:106-135 | the other spellings are removed and the primary one set, or nothing is written |

## Left out

- ParseAccepts.ParseGivesAccepted: comments in the block must stand alone on their lines; removing a comment from a line with text can uncover a fence, and then the clean view does not scan to itself.
- ChangelogNotes.ParseNotes: complaints are constructors with line numbers, not message texts.
- ChangelogRelease.RenderChangelog: a file is its sequence of lines; joining and splitting text, and a trailing newline that the version pattern also admits, are not modelled; a date is checked by its shape only.
- SwallowedRelease.ExtractsIffAnchorCloses: where a heading of the new version shows behind the comment, what is extracted is given as the extraction from that part, not compared with the notes.
- Transcript.DetailView.Scroll: a position in the whole transcript is spoken of only where the window did not leap, and one over the loaded lines only where the kept lines are the window's (a second view can make the shared window leap the other way).
- Slugs.DeriveSlug: takes the name already lowered, since lowering is Unicode's; likewise a key event says whether its character is printable.
- LineageTree.MembersAre: chat numbers are read from the digits 0 to 9 only.
- ConfigLoading.SetThenLoad: raw values are kept as they stand; the coercion of scalars to an option's kind, Pydantic's validation and the sections with their own models are not modelled, and order is that of the rows, so tables that a file splits into several headers are not.
- ConfigLayers.LoadConfig: the sources of dynamic sections are not modelled.
- The changelog's command line, its whole-file checks and its JSON input.
- Message texts of the shell policy, rule loading from files, and actions other than allow and deny.
- The prompt line's text, the detail view's message after a key, drawing, and the clock of the typing debounce: a debounced query may or may not find itself superseded.
- How a search finds its matches and counts.
- Artifact directories, processes and their identity beyond whether a call succeeds; a crash between registering and saving; exceptions while ending a process that was not registered.
- The catalog's traversal of the models and its lookups by longest prefix.
- `set_project_id`, whose branches are simple and separate.
