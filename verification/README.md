# WilliamOS verification

A Dafny model of the parts of WilliamOS that compute something: the cortex graph engine, the promotion
engines' candidate grouping, draft acceptance and its log, backup and restore, duplicate detection, the
search chunker, and the device and origin handling of the web application. `dafny verify dfyconfig.toml`
checks everything.

What the source changes in place is a class or a method with a loop (the cortex graph, the acceptance
assistant, the backup machine, the origin table, resolver and its records, the walks over lines, candidates and
bytes), proved against a specification function; what the source computes by expressions is a
function. Requests on the table of device links are a state machine whose steps are their database
statements, in any order.
The modules named `...Laws`, and those listed behind them, prove what these specifications mean; what a
result must be is stated there in the numbers and strings themselves.

| part | modules |
|---|---|
| shared | `Results`, `Strings`, `OrderedMaps` (insertion-ordered dictionaries), `Sorting` (the stable sort) |
| cortex map | `CortexScan`, `CortexModel`, `CortexGrowth`, `CortexBuilder`, `CortexWellFormed`, `CortexCounting`, `CortexLinkLaws`, `CortexMetrics`, `CortexMetricLaws`, `CortexRankings`, `CortexSuggestions`, `CortexSuggestionLaws`, `CortexReasons`, `CortexMapLaws`, `CortexRun` |
| promotion engines | `CandidateGrouping`, `GroupingLaws`, `CandidateDetection` |
| acceptance | `AcceptanceLog`, `AcceptanceLogLaws`, `AcceptanceLogText`, `Acceptance`, `AcceptanceLaws`, `AcceptancePlacement` |
| backup and restore | `BackupPolicy`, `ZipNames`, `BackupArchive`, `BackupLaws`, `BackupRules`, `BackupReports` |
| review | `ReviewDuplicates`, `ReviewDuplicateLaws`, `ReviewOrder` |
| search | `SearchChunks`, `SearchChunkLaws`, `SearchNotes` |
| web application | `DeviceOnboarding`, `DeviceOnboardingLaws`, `DeviceLink`, `DeviceLinkLaws`, `DeviceRedemption`, `DeviceRedemptionLaws`, `OriginSignature`, `AuthOrigins`, `AuthOriginLaws`, `AuthOriginRules` |

Given from outside, as parameters: title words, tags, links and citations of a note; signal scores and
extracted lines; `fnmatch`, the digest, zip encoding; `str.lower`, title normalisation and tokens;
`toUpperCase` beyond ASCII; the URL parser and `localeCompare`; random bytes, times, directory
listings, rendered report text, the request's origin and the environment.

Some promises turn out to depend on a condition, and the condition is proved exactly:

- Acceptance looks at a draft's path as written. `80_DoctrinePromotion/drafts/../../03_Doctrine/x.md` passes
  its folder guard and has an official note copied as if it were a draft
  (`AcceptanceLaws.ClimbingAccepted`). The file accepted lies in the folder the path names if and only if
  the path never climbs above it, or comes down again through what it left (`AcceptanceLaws.StaysExactly`);
  `AcceptanceLaws.RunsAreSafe` is about such paths, `AcceptanceLaws.RunsKeep` says what holds of all.
- A backup of a plain listing passes its own restore drill if and only if the name its manifest is restored
  under is not forbidden: the manifest is appended without going through the filter, and an archive drops
  leading slashes and `..`. The default vault passes; `/venv/x` and `../venv/x` do not
  (`BackupLaws.BackupSurvivesRestore`, `BackupLaws.DefaultBackupSurvives`, `BackupLaws.RejectedVault`).
- Grouping is idempotent if and only if no two groups' best candidates are similar; the sort before it
  guarantees this (`GroupingLaws.IdempotentExactly`, `GroupingLaws.SortedIdempotent`).
- Log entries read back if and only if their quoted fields are on one line, carriage returns included,
  because reading in text mode translates them (`AcceptanceLogLaws.RoundTripExactly`).
- The graph builder makes a self-loop if and only if a note's path is the identifier of one of its own tags
  or external links (`CortexWellFormed.SelfLoopsExactly`); scanned notes never have such a path
  (`CortexScan.NoSelfLoops`).
- A user has at most one live device link, as the mint promises, if and only if none of the user's mints
  begins while another is between its two statements; two that overlap leave two links
  (`DeviceRedemptionLaws.AtMostOneExactly`, `DeviceRedemptionLaws.TwoLinks`). That a code is redeemed once
  holds of every interleaving (`DeviceRedemptionLaws.OneGrantPerCode`).
- Of the paths a cortex scan excludes only the synthesis cache can ever meet a scanned file
  (`CortexScan.ScannedExactly`).
- An identity profile carries a key if and only if its bundle holds more than spaces; the source's check
  for an empty bundle lets spaces through (`DeviceOnboardingLaws.IdentityCarriesKey`).

Generated decision drafts lack the `## Context` section that acceptance requires
(scripts/williamos_decisions.py:722-746, scripts/williamos_acceptance.py:52), so nothing here says that a
generated draft is acceptable; `AcceptanceLaws.IncompleteIsRefused` says such a draft is refused. A
requested destination may be any allowed folder, not only the lane's own.

## Model

| member | source | states |
|---|---|---|
| CortexBuilder.CortexGraph.AddNodes | scripts/williamos_cortex.py:220-308 | after the note, tag and folder phase the dictionary holds the notes (last one with a path wins, first place kept) and one node per tag and folder, whatever order the sets are walked in |
| CortexBuilder.CortexGraph.AddFolderEdges | scripts/williamos_cortex.py:320-335 | appends exactly the containment edges its nodes owe, in node order |
| CortexBuilder.CortexGraph.AddLinkEdges | scripts/williamos_cortex.py:338-395 | appends exactly the wiki and markdown edges owed by the snapshot, while the live dictionary gains the external nodes |
| CortexBuilder.CortexGraph.AddTagEdges | scripts/williamos_cortex.py:398-413 | appends exactly the tagging edges owed |
| CortexBuilder.CortexGraph.AddCitationEdges | scripts/williamos_cortex.py:416-440 | appends exactly the citation edges owed |
| CortexBuilder.CortexGraph.AddAll | scripts/williamos_cortex.py:220-317 | after all passes the edge list is a function of the notes alone, although the passes test membership in, and insert into, a dictionary that grows; the identifiers are exactly those of notes, tags, folders and external links |
| CortexBuilder.CortexGraph.ComputeMetrics | scripts/williamos_cortex.py:476-516 | the counting loop and the overwriting loop store in every node the metrics specified from the edge list, and change nothing else |
| CortexBuilder.CortexGraph.AddSimilarityEdges | scripts/williamos_cortex.py:443-465 | with the early exit, appends exactly the edges of the loop without it |
| CortexBuilder.CortexGraph.BuildMap | scripts/williamos_cortex.py:1106-1110 | the whole map: built, measured, extended by similarity edges, measured again; the stored metrics are those of the final edge list, and the finished notes are in order for the suggestion laws |
| CortexRun.CortexMap | scripts/williamos_cortex.py:1106-1124 | one run from the scan to the suggestions: the edges are those built of the scanned notes, then the similarity edges; the graph is closed, free of self-loops and measured by its own edges, and every suggestion is sound of it, no pair twice, at most 100 |
| CortexBuilder.CortexGraph.SuggestMissingLinks | scripts/williamos_cortex.py:554-622 | returns the first candidate of each unordered pair, in order, cut at 100 |
| CortexBuilder.CortexGraph.SuggestDraftReferences | scripts/williamos_cortex.py:624-650 | mention candidates: promotion artifact, target, not linked, at least two significant title words found in the text |
| CortexWellFormed.EdgesJustified | scripts/williamos_cortex.py:310-440 | every built edge joins two nodes of the graph and is justified by the note it comes from |
| CortexWellFormed.SelfLoopsExactly | scripts/williamos_cortex.py:338-413 | the tag and external-link passes do not compare the two ends: a self-loop exists if and only if some note's path is the identifier of one of its own tags or external links |
| CortexWellFormed.PlainPathsNoSelfLoops | scripts/williamos_cortex.py:320-440 | whatever list of notes is given: no self-loop when no path starts with `tag:` or `ext:` |
| CortexScan.ScanCortexSources | scripts/williamos_cortex.py:118-141 | the nested loops over source directories and their files return the kept relative paths, in order |
| CortexScan.ScannedExactly | scripts/williamos_cortex.py:111-141 | a path is scanned if and only if it is that of a file below one of the directories of the scope and not in `60_Synthesis/generated/cache`: no other exclusion ever drops a file |
| CortexScan.NoSelfLoops | scripts/williamos_cortex.py:118-141 | no pass over scanned notes adds a self-loop, whatever the vault holds: every scanned path starts with the digit of its source directory |
| CortexWellFormed.SelfLoopExample | scripts/williamos_cortex.py:398-413 | a note handed to the graph builder directly, under a path no scan yields, that gets a self-loop |
| CortexWellFormed.ExternalNeverSource | scripts/williamos_cortex.py:338-395 | an external node is never a source; only folders contain, and only notes are contained or have other edges |
| CortexWellFormed.OneFolderEdge | scripts/williamos_cortex.py:320-335 | each note has exactly one incoming containment edge, every other identifier none |
| CortexWellFormed.TaggingEdges | scripts/williamos_cortex.py:398-413 | the tagging edges number exactly the sum of the tag-set sizes |
| CortexLinkLaws.WikiLinksExactly | scripts/williamos_cortex.py:338-355 | a surviving note has as many wiki edges to a target as it has wiki links naming it, and none to itself; a link names the last note of the list with that stem |
| CortexLinkLaws.MarkdownLinksExactly | scripts/williamos_cortex.py:357-395 | as many markdown edges as it has links that lead there: external ones to `ext:` and the first 120 characters, relative ones to the note named by the last path segment with `%20` and `.md` undone |
| CortexLinkLaws.CitationsExactly | scripts/williamos_cortex.py:416-440 | as many citation edges as it has citations naming the target, and none to itself |
| CortexLinkLaws.TagsExactly | scripts/williamos_cortex.py:398-413 | one edge to `tag:` and each of its tags, none to anything else |
| CortexLinkLaws.FolderExactly | scripts/williamos_cortex.py:320-335 | contained once, in the folder its path starts with |
| CortexLinkLaws.EdgesOfSurvivors | scripts/williamos_cortex.py:310-317 | there is no edge besides those counted: each leaves a surviving note or contains one |
| CortexLinkLaws.WikiLinked | scripts/williamos_cortex.py:347-355 | a wiki edge joins two notes if and only if a wiki link of the one is the stem of the other and no later note has that stem |
| CortexLinkLaws.FileLinkNames | scripts/williamos_cortex.py:366-378 | a link to `name.md` in any folder, spaces written `%20`, names the stem `name` |
| CortexLinkLaws.IdentifiersExactly | scripts/williamos_cortex.py:220-308 | the identifiers are the paths of notes, `tag:` and their tags, their top folders, and `ext:` and the first 120 characters of their external links |
| CortexLinkLaws.NotesKept | scripts/williamos_cortex.py:220-308 | a surviving note's node holds its own title, kind, tags, links, citations and text, and the first component of its path as folder |
| CortexLinkLaws.OthersInFull | scripts/williamos_cortex.py:269-384 | any other identifier is a tag's, a folder's or an external link's, with the label, path and folder that go with it and no links of its own |
| CortexLinkLaws.NotesInPlace | scripts/williamos_cortex.py:220-308 | in the finished dictionary the notes stand before all else, in the order their paths first come |
| CortexMetrics.DegreeConservation | scripts/williamos_cortex.py:476-516 | sum of in-degrees = sum of out-degrees = number of edges that are not containment |
| CortexMetricLaws.MetricsExactly | scripts/williamos_cortex.py:476-516 | in-degree is the number of counted edges into a node, out-degree the number out of it, total their sum, orphan a note with none; the bridge score is the number of folders plus the number of kinds at the far ends of its counted edges, a folder only when the edge's source has one; nothing else changes |
| CortexMetrics.BridgeOrphanDichotomy | scripts/williamos_cortex.py:476-516 | bridge score at most twice the total degree, and positive exactly on nodes with an edge: a note is a bridge or an orphan, never both |
| CortexMetrics.BridgesAndOrphansPartition | scripts/williamos_cortex.py:519-532 | the untruncated bridge ranking and the orphan list together are exactly the notes, each sorted by its key; truncation keeps a prefix |
| CortexRankings.CentralBeforeOrphans | scripts/williamos_cortex.py:535-540 | the central ranking is the bridges and the orphans, by degree, every bridge before every orphan; the list shown is a prefix of it |
| CortexRankings.WeakAreBridges | scripts/williamos_cortex.py:543-551 | every weakly connected note is in the bridge ranking with a score of 1 or 2; they are listed by title |
| CortexRankings.BridgesListed | scripts/williamos_cortex.py:526-532 | bridges are the notes of positive score, highest first, ties in dictionary order, cut at the number asked for |
| CortexRankings.CentralListed | scripts/williamos_cortex.py:535-540 | central notes are all notes, highest degree first, ties in dictionary order, cut likewise |
| CortexRankings.TitlesListed | scripts/williamos_cortex.py:519-551 | orphans and weakly connected notes by title, ties in dictionary order |
| CortexMapLaws.MeasuringTwice | scripts/williamos_cortex.py:1108-1110 | measuring, adding edges and measuring again stores what measuring once with all edges stores |
| CortexMapLaws.MapClosed | scripts/williamos_cortex.py:1108-1110 | built and similarity edges all join nodes of the dictionary, so the metric laws hold of the finished map |
| CortexSuggestions.SimilarityExact | scripts/williamos_cortex.py:443-465 | each unordered pair of notes with at least two shared title words gets exactly one edge, every other pair none |
| CortexSuggestions.SimilarityOnly | scripts/williamos_cortex.py:443-465 | similarity edges join only notes, in list order, with the similarity they claim |
| CortexSuggestions.PrunedTitleRow | scripts/williamos_cortex.py:588-604 | the title pass loses nothing by skipping notes with fewer than two title words |
| CortexSuggestions.UniqueMembers | scripts/williamos_cortex.py:614-622 | the survivors of the dedupe are exactly the first candidates of their unordered pair |
| CortexSuggestionLaws.SuggestionsSound | scripts/williamos_cortex.py:554-622 | every suggestion shown joins two distinct notes without a direct link in either direction, for the reason it gives; no unordered pair twice; at most 100 |
| CortexSuggestionLaws.FirstReasonSurvives | scripts/williamos_cortex.py:614-622 | before the cut each candidate's pair survives under its first reason |
| CortexSuggestionLaws.SuggestedExactly | scripts/williamos_cortex.py:554-650 | before the cut two notes are suggested if and only if they are not directly linked and share a tag used by 2 to 20 notes, share two title words, or one is an artifact naming the other |
| CortexReasons.PairsExactly | scripts/williamos_cortex.py:554-650 | before the cut two notes are suggested if and only if no wiki or markdown edge joins them and they share a tag carried by 2 to 20 notes, share two title words, or one is a draft, report or synthesis with two significant title words of the other in its text |
| CortexReasons.ReasonsExactly | scripts/williamos_cortex.py:563-622 | every survivor's reason is a shared tag exactly when there is one on 2 to 20 notes, else a title overlap exactly when two title words are shared, else a mention, each with its confidence |
| CortexReasons.ShownInOrder | scripts/williamos_cortex.py:614-622 | survivors by shared tag stand before those by title and these before mentions; up to 100 all are shown, of more the first 100 |
| CortexReasons.SuggestionInFull | scripts/williamos_cortex.py:563-650 | which tag, which words and which way round: the first common tag met walking the notes, all the shared words, from the earlier note to the later; a mention from the artifact to the note it names |
| CandidateGrouping.GroupSimilarCandidates | scripts/williamos_projects.py:586-620 | the nested loops with `used` return the groups of the ownership relation, for all four engines |
| CandidateGrouping.CollectGroup | scripts/williamos_concepts.py:470-512 | one group: everything owned by the leader joins in order, with the running best face and each engine's carried lists |
| CandidateGrouping.OwnerFacts | scripts/williamos_doctrine.py:369-406 | a candidate's owner is the first leader sharing two title words with it, itself if there is none |
| CandidateGrouping.SortedSetFacts | scripts/williamos_projects.py:616-617 | sorted(set(..)): strictly increasing, same elements |
| GroupingLaws.EveryCandidateOnce | scripts/williamos_doctrine.py:369-406 | every candidate leads one group or is a member of exactly one, that of its owner |
| GroupingLaws.SizesAddUp | scripts/williamos_decisions.py:395-434 | group sizes add up to the number of candidates |
| GroupingLaws.LeadersDissimilar | scripts/williamos_decisions.py:395-434 | no two leaders share two title words |
| GroupingLaws.ProvenanceConserved | scripts/williamos_doctrine.py:369-406 | the source paths of the groups are together exactly those of the candidates |
| GroupingLaws.GroupFace | scripts/williamos_projects.py:605-612 | the group's title, statement, confidence, score and reason come together from one candidate of the group whose score is the maximum |
| GroupingLaws.CarriedLists | scripts/williamos_concepts.py:478-509 | lines, definitions, related notes and rationale are concatenations over leader and members where the engine extends them, the leader's own elsewhere |
| GroupingLaws.GroupInFull | scripts/williamos_projects.py:586-620 | a returned group in full: a lone candidate unchanged; else face and sources, the first 8 gathered lines, for concepts the first 5 definitions and the first 10 of the increasing set of related notes, for decisions the first 10 of the rationale, the leader's own lists and other fields elsewhere |
| GroupingLaws.GatheredSources | scripts/williamos_doctrine.py:378-404 | the sources gathered are exactly those of the leader and of the members |
| GroupingLaws.ResultIdempotent | scripts/williamos_projects.py:586-620 | grouping a result again changes nothing if and only if it is one group or no two of its titles are similar |
| GroupingLaws.IdempotentExactly | scripts/williamos_projects.py:586-620 | on any candidates: grouping twice is grouping once if and only if no two leaders' best candidates, the first of best score in each group, are similar |
| GroupingLaws.SortedIdempotent | scripts/williamos_concepts.py:466-512 | on score-sorted input groups keep their leaders' faces, the output is sorted, and grouping again changes nothing |
| GroupingLaws.UnsortedExample | scripts/williamos_projects.py:605-612 | three unsorted candidates whose bests are similar: a second grouping merges groups |
| CandidateDetection.DetectCandidates | scripts/williamos_projects.py:514-583 | the loop with `seen_titles` and the final sort return the specified candidates |
| CandidateDetection.DetectionExact | scripts/williamos_decisions.py:340-392 | exactly the first finding of each lower-cased title with a score of at least 2 and a line, each title once, best score first, ties in the order of the findings |
| CandidateDetection.PipelineIdempotent | scripts/williamos_concepts.py:410-512 | groups of detected candidates never need grouping again |
| AcceptanceLog.ReadEntries | scripts/williamos_acceptance.py:543-567 | the line walk with `current` returns the specified entries; both list-building readers are instances |
| AcceptanceLogLaws.AppendReads | scripts/williamos_acceptance.py:522-540 | one more entry appended to any log: a reader sees what it saw before, then the entry |
| AcceptanceLogLaws.RoundTrip | scripts/williamos_acceptance.py:522-567 | any list of entries with one-line fields, appended to any log, reads back in order after what was there; the old log is a prefix of the new |
| AcceptanceLogLaws.ListDetails | scripts/williamos_acceptance.py:543-567 | the list reader returns every written detail, stripped, in order |
| AcceptanceLogLaws.QuotedDetail | scripts/williamos_acceptance.py:526-530 | a quoted value loses nothing to stripping |
| AcceptanceLogLaws.MapDetails | scripts/williamos_closure.py:73-90 | the dictionary reader maps every field name to its value |
| AcceptanceLogLaws.ReadersAgree | scripts/williamos_closure.py:73-90 | on any text the list reader and the dictionary reader find the same timestamps |
| AcceptanceLogLaws.AppendStamps | scripts/williamos_acceptance.py:277-285 | the status regex finds one more timestamp per appended entry |
| AcceptanceLogLaws.ThreeReadersAgree | scripts/williamos_acceptance.py:277-285 | on any log the three readers each find the timestamps they found before, then those appended |
| AcceptanceLogLaws.LatestAgrees | scripts/williamos_acceptance.py:277-285 | after at least one append the three readers agree on the latest entry, whatever the old log held |
| AcceptanceLogLaws.RoundTripExactly | scripts/williamos_acceptance.py:522-567 | with timestamps and lanes on one line, the entries read back if and only if every quoted field is on one line, free of line feeds and carriage returns |
| AcceptanceLogLaws.RecentEntries | scripts/williamos_closure.py:93-95 | asking for no more entries than were appended gives the last of these; asking for none gives the whole log |
| AcceptanceLogText.AppendedText | scripts/williamos_acceptance.py:522-540 | an append writes an empty line, `## ` and the time, and the five details, each on a line of its own; a new log starts with its title |
| AcceptanceLogText.LogReadsBack | scripts/williamos_acceptance.py:522-567 | so the list reader returns of an appended entry its time and its five written lines, the dictionary reader its five fields by name |
| AcceptanceLogText.ReadByLine | scripts/williamos_acceptance.py:548-563 | either reader, line by line: a heading begins an entry, a bullet joins the last one, anything else is passed over |
| AcceptanceLogText.StampTakenApart | scripts/williamos_acceptance.py:277-285 | only digits with two dashes, a space and two colons in their places are a timestamp |
| AcceptanceLogText.StampFound | scripts/williamos_acceptance.py:277-285 | the status regex finds a timestamp behind `## ` at the start of a line, whatever follows it |
| Acceptance.Assistant.CheckRequiredSections | scripts/williamos_acceptance.py:204-219 | found and missing split the required sections; it passes exactly when none is missing |
| Acceptance.Assistant.GeneratePlan | scripts/williamos_acceptance.py:317-381 | the plan, its errors, and the only file it writes |
| Acceptance.Assistant.WriteLogEntry | scripts/williamos_acceptance.py:522-540 | the log file becomes the old log with one entry appended |
| Acceptance.Assistant.AcceptDraft | scripts/williamos_acceptance.py:484-519 | outcome and files after an acceptance call, its second existence check included |
| Acceptance.PlanTarget | scripts/williamos_acceptance.py:154-180 | a plan's destination is an allowed folder, and a valid plan's path is free |
| AcceptanceLaws.GuardExactly | scripts/williamos_acceptance.py:131-149 | for a path of components the string test on the parent folder asks exactly that the path be written below a promotion folder |
| AcceptanceLaws.ReachesFolderExactly | scripts/williamos_acceptance.py:114-135 | the file a path reaches lies in a promotion folder if and only if the path, its `..` undone, comes down through what it climbed out of and then through the folder |
| AcceptanceLaws.StaysExactly | scripts/williamos_acceptance.py:114-135 | behind the folder the file reached stays in it if and only if the rest never climbs above it, or comes down again through what it left |
| AcceptanceLaws.ClimbingAccepted | scripts/williamos_acceptance.py:114-135 | a draft path with `..` that passes the guard, reaches an official note, and has it accepted into another official folder |
| AcceptanceLaws.AcceptedSafely | scripts/williamos_acceptance.py:317-358 | every acceptance is of a confirmed call on an existing file, by a path written below a promotion folder, complete for its lane, into an allowed folder, at a free path |
| AcceptanceLaws.AcceptedFromFolder | scripts/williamos_acceptance.py:317-358 | when the path stays in its folder, the file accepted lies in it |
| AcceptanceLaws.AcceptedExactly | scripts/williamos_acceptance.py:317-379 | for a resolved draft: accepted if and only if confirmed, the destination is good, the path free and the file there with the sections; nothing else matters |
| AcceptanceLaws.IncompleteIsRefused | scripts/williamos_acceptance.py:204-219 | a draft lacking a section of its lane is refused for every destination |
| AcceptanceLaws.FolderLanes | scripts/williamos_acceptance.py:72-85 | each promotion folder yields its own lane; `unknown` is never inferred |
| AcceptanceLaws.OfficialNameStaysInFolder | scripts/williamos_acceptance.py:96-102 | an official name uses the draft name's characters and `.md` only, so it has no slash when the draft name has none |
| AcceptanceLaws.DraftsApart | scripts/williamos_acceptance.py:131-149 | no file in a promotion folder is a log, a plan or an official note |
| AcceptanceLaws.OneCall | scripts/williamos_acceptance.py:484-519 | a call changes no file but log and plans and creates no other file but the accepted note, a copy of the file its draft reaches (of the plan just rendered, when it climbs to that) |
| AcceptanceLaws.OneCallLog | scripts/williamos_acceptance.py:501-509 | a call appends one entry to the log when it accepts and otherwise leaves the log alone |
| AcceptanceLaws.UnconfirmedWritesNothing | scripts/williamos_acceptance.py:484-486 | an unconfirmed call writes nothing |
| AcceptanceLaws.UnconfirmedNeverMatters | scripts/williamos_acceptance.py:484-486 | a run is what it would be had no unconfirmed call been made |
| AcceptanceLaws.RunsKeep | scripts/williamos_acceptance.py:317-519 | for every sequence of plan and accept calls, however drafts are written: every file but log and plans, outside the vault too, unchanged; every other new file is an accepted note in an allowed folder, complete unless its draft climbs to the assistant's own files; no official path accepted twice |
| AcceptanceLaws.RunsAreSafe | scripts/williamos_acceptance.py:317-519 | when no draft path leaves the folder it names, each accepted note is moreover equal to a draft that was in that folder from the start and is complete for its lane |
| AcceptanceLaws.RunLog | scripts/williamos_acceptance.py:522-540 | the log after a run is the old log with exactly the accepted entries appended |
| AcceptanceLaws.RunReadsBack | scripts/williamos_acceptance.py:522-567 | reading after a run gives what was read before, then the accepted entries |
| AcceptanceLaws.PrintedDestination | scripts/williamos_acceptance.py:158-180 | the destination a plan prints in its command is accepted and names the folder it was planned for |
| AcceptanceLaws.CommandPlansAgain | scripts/williamos_acceptance.py:317-380 | on the same files the command a plan prints leads to the same plan |
| AcceptancePlacement.HomeExactly | scripts/williamos_acceptance.py:35-41 | without a destination a draft below the doctrine, decision, concept or project folder goes to `03_Doctrine`, `02_Decisions`, `10_Ideas` or `11_Projects` |
| AcceptancePlacement.GuardNames | scripts/williamos_acceptance.py:131-149 | the guard names a kind of draft exactly when the path is written below its folder |
| AcceptancePlacement.RequestExactly | scripts/williamos_acceptance.py:158-180 | a requested destination is granted for a folder if and only if it spells it, the folder is one of the four, and it exists |
| AcceptancePlacement.RequestRefused | scripts/williamos_acceptance.py:158-180 | and refused with the reason otherwise |
| AcceptancePlacement.CompleteExactly | scripts/williamos_acceptance.py:50-55 | the sections a draft must have, by its folder |
| AcceptancePlacement.OfficialName | scripts/williamos_acceptance.py:88-102 | the official name is the draft's without suffix, draft prefix and the spaces and dashes around the rest, with `.md` |
| AcceptancePlacement.NamelessDraft | scripts/williamos_acceptance.py:96-102 | a name of which nothing is left keeps its stem |
| AcceptancePlacement.ResolvedExactly | scripts/williamos_acceptance.py:105-129 | which file a draft argument means |
| AcceptancePlacement.RefusalsExactly | scripts/williamos_acceptance.py:105-152 | why no plan is made, in the order the checks are made |
| AcceptancePlacement.BlockedExactly | scripts/williamos_acceptance.py:317-379 | what blocks a plan that is made |
| AcceptancePlacement.PlanWritten | scripts/williamos_acceptance.py:360-381 | a plan that is made, for planning or by a confirmed call, is written as the plan of its day, blocked or not |
| AcceptancePlacement.AcceptedPlaced | scripts/williamos_acceptance.py:484-519 | an accepted call puts the file it reaches under the official name into the folder asked for, by default the one of the draft's kind, complete for that kind, and logs draft, place, lane, source and destination |
| AcceptancePlacement.RunsPlaced | scripts/williamos_acceptance.py:317-519 | over every sequence of calls each acceptance is placed, named and logged as its own call asks, folders and sections given as literals |
| BackupPolicy.PoliciesAgree | scripts/williamos_backup.py:84-120 | what the verifier forbids the restore drill forbids, and what the drill forbids the backup excludes |
| BackupPolicy.DirectoriesCaught | scripts/williamos_restore.py:92-107 | each directory rule of the drill is caught by a directory or prefix rule of the backup |
| BackupRules.ForbiddenExactly | scripts/williamos_backup.py:32-38 | which names are a secret's, spelled out |
| BackupRules.LeftOutExactly | scripts/williamos_backup.py:84-105 | a backup leaves a file out exactly for a forbidden name, one of the listed directories, prefixes or workspace files |
| BackupRules.DrillRejectsExactly | scripts/williamos_restore.py:85-107 | the drill rejects exactly a secret's name, the listed directories and the workspace files |
| BackupRules.RelExactly | scripts/williamos_backup.py:123-131 | a listed path is taken without `./` in front |
| BackupReports.ScanInOrder | scripts/williamos_backup.py:123-148 | the included files and the forbidden ones, in the order of the listing |
| BackupReports.RefusalReasons | scripts/williamos_backup.py:192-212 | why no backup is made, in the order the reasons are looked for |
| BackupReports.BackupWrites | scripts/williamos_backup.py:214-240 | a finished backup writes the manifest, the archive named after its time, and its checksum line, and nothing else |
| BackupReports.ReceiptTells | scripts/williamos_backup.py:242-251 | its receipt names the archive, the digest and both counts |
| BackupReports.ReportInFull | scripts/williamos_backup.py:373-425 | the verification report in full, the four required files spelled out |
| BackupReports.ChecksumSays | scripts/williamos_restore.py:122-137 | what a checksum file says of an archive |
| BackupReports.DrillReports | scripts/williamos_restore.py:195-214 | what the drill lists |
| BackupReports.CollapseExactly | scripts/williamos_backup.py:229-233 | how an archive collapses the components of a name |
| BackupReports.ExtractionExactly | scripts/williamos_restore.py:158-163 | and how extraction drops `..` |
| BackupArchive.ScanSources | scripts/williamos_backup.py:123-148 | the scan loop returns the specified lists |
| BackupArchive.Digest | scripts/williamos_backup.py:235-239 | feeding 8192-byte chunks gives the digest of the whole file |
| BackupArchive.Machine.CreateArchive | scripts/williamos_backup.py:192-251 | result and disk after a backup, every error branch included; members carry the names `zipfile` stores |
| BackupArchive.Machine.VerifyArchive | scripts/williamos_backup.py:373-425 | the verification report |
| BackupArchive.Machine.VerifyChecksum | scripts/williamos_restore.py:122-137 | no checksum file, match or mismatch |
| BackupArchive.Machine.Extract | scripts/williamos_restore.py:158-163 | extraction writes the members in order, under the names `extractall` gives them |
| BackupArchive.Machine.CheckForbiddenFiles | scripts/williamos_restore.py:195-214 | the drill's lists of forbidden and suspicious files |
| BackupLaws.ScanPartitions | scripts/williamos_backup.py:123-148 | every file is included or excluded, never both, never lost; excluded exactly by rule; every forbidden one reported |
| BackupLaws.RefusedExactly | scripts/williamos_backup.py:192-212 | a backup into a directory succeeds if and only if no listed file is forbidden; any refusal leaves every file as it was |
| ZipNames.PlainKept | scripts/williamos_backup.py:229-233 | a name without empty, `.` and `..` components is stored and restored unchanged |
| ZipNames.StoredBelow | scripts/williamos_backup.py:229-233 | plain names below any folder are stored below the folder collapsed, and restored below what is left of it without `..` |
| BackupLaws.RestoredCopy | scripts/williamos_backup.py:229-233 | extracting an archive of plainly named files into nothing restores exactly the files it was made of |
| BackupLaws.RestoresTheBackup | scripts/williamos_backup.py:220-233 | the restored copy of a plain listing is the scan's included files and the manifest, byte for byte, the manifest under the name it is restored by |
| BackupLaws.ChecksumRoundTrip | scripts/williamos_backup.py:235-240 | the digest written to the checksum file is the one read back |
| BackupLaws.BackupVerifies | scripts/williamos_backup.py:373-425 | a finished backup's checksum verifies; of a plain listing its forbidden-name check passes if and only if the manifest's stored name is not forbidden |
| BackupLaws.ManifestName | scripts/williamos_backup.py:20-22 | whatever the vault, the manifest keeps its file name in the archive and when restored |
| BackupLaws.NoForbiddenNames | scripts/williamos_backup.py:373-425 | so, patterns read as `fnmatch` reads them, a finished backup of a plain listing never fails the check of forbidden names |
| BackupLaws.DrillPassesExactly | scripts/williamos_restore.py:195-214 | of any backup: the drill's check passes if and only if no added file is restored under a forbidden name |
| BackupLaws.PassesExactly | scripts/williamos_backup.py:386-415 | verification passes if and only if every required file is there, no member is forbidden and no checksum mismatches |
| BackupLaws.BackupSurvivesRestore | scripts/williamos_restore.py:195-214 | however the restored files are listed: of a plain listing the drill's check passes if and only if the name the manifest is restored under is not forbidden |
| BackupLaws.TamperingShows | scripts/williamos_restore.py:122-137 | a changed archive fails the checksum exactly when its digest changed |
| BackupLaws.ManifestRestored | scripts/williamos_backup.py:20-22 | a plainly named vault given by an absolute path or from one folder up has its manifest restored as if it lay in the working directory |
| BackupLaws.DefaultManifest | scripts/williamos_backup.py:20-22 | the default vault's manifest is restored under a name the drill accepts |
| BackupLaws.DefaultBackupSurvives | scripts/williamos_restore.py:195-214 | so every backup of a plain listing from the default vault survives its own restore drill |
| BackupLaws.RejectedVault | scripts/williamos_backup.py:220-225 | a vault below `venv/`, named from the working directory, from one folder up or from the root of the disk, gives backups the drill rejects |
| ReviewDuplicates.Meet | scripts/williamos_review.py:231-262 | one key of one item against its seen-map: reported with the first item that has the key |
| ReviewDuplicates.DetectPossibleDuplicates | scripts/williamos_review.py:224-287 | the three seen-maps and the pairwise token pass return the specified entries |
| ReviewDuplicateLaws.DetectionComplete | scripts/williamos_review.py:264-285 | every pair whose titles share at least 7 tenths of their tokens is named by some entry |
| ReviewDuplicateLaws.TokenPassNeverRepeats | scripts/williamos_review.py:274-285 | the result is the equal-key entries, then token entries none of which repeats an earlier pair in either orientation |
| ReviewDuplicateLaws.DetectionSound | scripts/williamos_review.py:224-287 | every entry is justified by its reason; equal-key entries name the first item with the key |
| ReviewDuplicateLaws.TitleEntryExactly | scripts/williamos_review.py:231-239 | a same-title entry is there if and only if its item has the normalised title of an earlier one, and it names the first that has it |
| ReviewDuplicateLaws.SourceEntryExactly | scripts/williamos_review.py:241-250 | likewise by source path, where there is one |
| ReviewDuplicateLaws.HeadingEntryExactly | scripts/williamos_review.py:252-262 | likewise by first heading, normalised, where there is one |
| ReviewDuplicateLaws.EntriesInOrder | scripts/williamos_review.py:224-287 | the order of the result: item after item, for each the title, then the source, then the heading; behind them the token entries, row after row |
| ReviewDuplicateLaws.EntriesCounted | scripts/williamos_review.py:230-262 | for each key, entries number the items that have it less the distinct keys |
| ReviewDuplicateLaws.SameTitlesCounted | scripts/williamos_review.py:231-239 | same-title entries number the items less the distinct normalised titles |
| ReviewOrder.PriorityMonotone | scripts/williamos_review.py:290-301 | more items, more stale items or a destination never lower a lane's priority |
| ReviewOrder.PriorityExactly | scripts/williamos_review.py:290-301 | the four priorities with their thresholds of 5 and 3, and their ranks |
| ReviewOrder.RecommendedOrder | scripts/williamos_review.py:375-378 | exactly the lanes with items, none behind one of lower priority or of equal priority and fewer items, lanes that tie as given |
| ReviewOrder.RecommendedHavePriority | scripts/williamos_review.py:375-378 | a lane of priority `none` is never recommended |
| SearchChunks.CutWindows | scripts/williamos_search.py:101-106 | the `start`/`end` loop ends and yields window k at 1000k, ceil(n/1000) of them |
| SearchChunks.ChunkText | scripts/williamos_search.py:78-111 | the chunks of a note, numbered in order |
| SearchChunks.BuildIndex | scripts/williamos_search.py:119-157 | the two lists of the index are parallel: entry k of each describes chunk k |
| SearchChunkLaws.LinesHoldNoEnding | scripts/williamos_search.py:85-92 | no line holds a character that ends lines |
| SearchChunkLaws.LinesRoundTrip | scripts/williamos_search.py:85-92 | lines joined by newlines split into themselves |
| SearchChunkLaws.EndingsDoNotMatter | scripts/williamos_search.py:85-92 | splitting depends on the lines alone, not on how each was ended |
| SearchChunkLaws.SectionsPartition | scripts/williamos_search.py:83-92 | sections concatenate to the lines, none empty, a heading only first, every section but the first starting with one |
| SearchChunkLaws.WindowSizes | scripts/williamos_search.py:101-106 | ceil(n/1000) windows, none empty, none over 1200 characters |
| SearchChunkLaws.WindowsRebuild | scripts/williamos_search.py:101-106 | the first window and every later one without its first 200 characters rebuild the section |
| SearchChunkLaws.EachPositionOnceOrTwice | scripts/williamos_search.py:101-106 | position p lies in window p/1000, in the one before exactly when p%1000 < 200, in no other |
| SearchChunkLaws.LastWindowRedundant | scripts/williamos_search.py:101-106 | the last of several windows adds nothing if and only if at most 200 characters were left for it |
| SearchChunkLaws.SectionRecovered | scripts/williamos_search.py:94-106 | a section of 20 or more characters is recovered from its chunks; a shorter one has none |
| SearchChunkLaws.ChunkSizes | scripts/williamos_search.py:94-106 | no chunk is empty or over 1200 characters |
| SearchChunkLaws.IndexIsComplete | scripts/williamos_search.py:119-157 | every chunk of every note stands at one computed place of the index with its own number, and nothing else does |
| SearchNotes.FrontmatterExactly | scripts/williamos_search.py:62-67 | a note starting with three dashes loses everything up to the next three, if there are any; every note the space around it |
| SearchNotes.HeadingExactly | scripts/williamos_search.py:83-92 | a heading is one to three number signs and a space |
| SearchNotes.SectionGives | scripts/williamos_search.py:94-106 | a section under 20 characters gives no chunk, one up to 1200 itself, a longer one its windows at 1000k |
| SearchNotes.NoteInFull | scripts/williamos_search.py:78-111 | from the text of a note to its chunks: frontmatter off, lines parted into sections, the chunks of each in order |
| DeviceOnboarding.CertificateBodies | lib/device-onboarding.ts:28-36 | the loop over PEM blocks keeps the non-empty base64 bodies in order |
| DeviceOnboardingLaws.FirstBlock | lib/device-onboarding.ts:25-36 | in any text the first certificate runs from the first begin marker to the nearest end marker behind it, and the rest is read behind that |
| DeviceOnboardingLaws.NoBlock | lib/device-onboarding.ts:25-36 | a text without an end marker behind a begin marker has none |
| DeviceOnboardingLaws.BodyExactly | lib/device-onboarding.ts:32-34 | a block counts if and only if it is not blank and holds only base64 and spaces |
| DeviceOnboardingLaws.EscapesEachCharacter | lib/device-onboarding.ts:38-44 | the four replacements in sequence are one map over the characters |
| DeviceOnboardingLaws.EscapeRoundTrip | lib/device-onboarding.ts:38-44 | escaped text is accepted by a parser of XML character data and parses back to the original (sections 2.4 and 4.6 of XML 1.0) |
| DeviceOnboardingLaws.EscapeInjective | lib/device-onboarding.ts:38-44 | escaping is injective |
| DeviceOnboardingLaws.EscapeLeavesNoMarkup | lib/device-onboarding.ts:38-44 | no `<`, `>` or `"` is left |
| DeviceOnboardingLaws.WrappedLines | lib/device-onboarding.ts:46-49 | all lines but the last have exactly 64 characters, the last 1 to 64, and together they are the text (section 2 of RFC 7468) |
| DeviceOnboardingLaws.WrapRoundTrip | lib/device-onboarding.ts:46-49 | dropping the line breaks gives the text back |
| DeviceOnboardingLaws.BundleRoundTrip | lib/device-onboarding.ts:25-36 | any list of wrapped certificates, with any dash-free text around them, comes back from its bundle in order |
| DeviceOnboardingLaws.PayloadsDiffer | lib/device-onboarding.ts:80-91 | payloads of different certificates differ in identifier and UUID |
| DeviceOnboardingLaws.IdentityDiffers | lib/device-onboarding.ts:152-173 | no certificate payload has the identity payload's or the profile's identifier |
| DeviceOnboardingLaws.TrustProfileCarriesAll | lib/device-onboarding.ts:59-91 | refused exactly without a certificate; otherwise one non-empty payload per certificate, in order, that unwraps to it |
| DeviceOnboardingLaws.PayloadInFull | lib/device-onboarding.ts:79-91 | payload i has the identifier with `.cert.` and i, and the UUID given, from the second on with its number |
| DeviceOnboardingLaws.IdentityInFull | lib/device-onboarding.ts:131-174 | refused as the trust profile is, and for a bundle that is empty or holds a foreign character; otherwise the trust payloads and then the identity |
| DeviceOnboardingLaws.IdentityCarriesKey | lib/device-onboarding.ts:131-174 | the identity payload unwraps to the bundle without spaces, and is non-empty if and only if the bundle has a character that is not a space |
| DeviceOnboardingLaws.BlankBundleAccepted | lib/device-onboarding.ts:134-134 | a bundle of one space passes the check and gives an empty payload |
| DeviceLink.CreateDeviceLinkCode | lib/device-link.ts:34-44 | one batch of eight bytes ends the loop with exactly the eight symbols it encodes |
| DeviceLinkLaws.NoBias | lib/device-link.ts:38-39 | for any alphabet of 1 to 256 symbols the threshold leaves every symbol exactly floor(256/size) bytes |
| DeviceLinkLaws.NothingRejected | lib/device-link.ts:29-38 | the 32-symbol alphabet rejects no byte |
| DeviceLinkLaws.CodesUniform | lib/device-link.ts:34-44 | every code is drawn by exactly 8^8 of the byte batches |
| DeviceLinkLaws.PatternIsAlphabet | lib/device-link.ts:29-31 | the pattern accepts exactly the eight-character strings over the alphabet |
| DeviceLinkLaws.DrawnExactly | lib/device-link.ts:28-44 | eight symbols, each the one its byte modulo 32 picks, never I, L, O or U |
| DeviceLinkLaws.ReadsEach | lib/device-link.ts:49-54 | the replacements in sequence read character by character |
| DeviceLinkLaws.ReadAsSpelled | lib/device-link.ts:47-56 | any string reads as a code if and only if it spells it: separators anywhere, a look-alike for each symbol, and beyond ASCII what a character's upper case is read as |
| DeviceLinkLaws.NormalizeIdempotent | lib/device-link.ts:47-56 | whatever is read is a code, and reading it again changes nothing |
| DeviceLinkLaws.DrawnCodesNormal | lib/device-link.ts:34-56 | a drawn code reads as itself |
| DeviceLinkLaws.FormatRoundTrip | lib/device-link.ts:64-69 | formatting fails exactly when reading does, and reading undoes it |
| DeviceLinkLaws.FormatExactly | lib/device-link.ts:64-69 | whatever spells a code is formatted as its first and last four characters around a dash |
| DeviceLinkLaws.SpellingsHashAlike | lib/device-link.ts:58-62 | every spelling of a code has the code's digest |
| DeviceLinkLaws.UsableWhileFresh | lib/device-link.ts:81-90 | a link is usable until consumed, for exactly its lifetime, two minutes by default |
| DeviceLinkLaws.InspectExactly | lib/device-link.ts:80-86 | used before expired: a used link is told so even when it has expired; one without a valid date has expired |
| DeviceRedemption.AlwaysGood | app/api/device-link/route.ts:18-46 | over every interleaving of the statements of any requests: digests are distinct, every row was written by a finished mint of its user for two minutes, every claim holds a marked row of its own, every grant an answered claim of its own |
| DeviceRedemptionLaws.OneGrantPerCode | app/api/device-link/redeem/route.ts:29-44 | however requests race, no two sessions or profiles come from one code |
| DeviceRedemptionLaws.GrantedExactly | app/api/device-link/redeem/route.ts:46-52 | each goes to the user whose mint made the code, for an input with its digest, spent within two minutes of the mint |
| DeviceRedemptionLaws.SpendExactly | app/api/device-link/redeem/route.ts:26-44 | without digest collisions: a request claims a link if and only if its input spells the code, the link is unspent and under two minutes old; a request that claims none changes nothing |
| DeviceRedemptionLaws.AnswerExactly | app/api/device-link/redeem/route.ts:46-52 | a claim is granted if and only if the answer can be made and, for a sign-in, the application's clock has not passed the two minutes either |
| DeviceRedemptionLaws.SecondLook | app/api/device-link/redeem/route.ts:46-48 | the second check refuses nothing while that clock is not ahead of the claim |
| DeviceRedemptionLaws.RetiredForGood | app/api/device-link/route.ts:27-33 | a link its user held when minting anew is never claimed afterwards |
| DeviceRedemptionLaws.AtMostOneExactly | app/api/device-link/route.ts:27-37 | the promise of one live link per user, now or once the mints under way are done, holds through a run if and only if no mint of the user begins while another is under way |
| DeviceRedemptionLaws.OneLink | app/api/device-link/route.ts:28-29 | so a user whose mints come one after the other has at most one unspent link |
| DeviceRedemptionLaws.TwoLinks | app/api/device-link/route.ts:27-37 | two mints that both retire before either inserts leave two links, and each can be spent |
| DeviceRedemptionLaws.MintedAlone | app/api/device-link/route.ts:27-37 | a mint with no other under way leaves its user the new link alone, which its code spends |
| DeviceRedemption.InsertKeeps | app/api/device-link/route.ts:34-37 | writing a row keeps all of it: the table refuses a digest it holds and a link already over |
| OriginSignature.SignatureInjective | lib/auth-origins.ts:131-137 | equal signatures come from equal environments, whatever characters the values hold (section 7 of RFC 8259) |
| AuthOrigins.OriginTable.AddOrigin | lib/auth-origins.ts:94-119 | one value added to the map under its origin or to the invalid list |
| AuthOrigins.Resolver.Compute | lib/auth-origins.ts:143-193 | the configuration computed from the environment |
| AuthOrigins.Resolver.ResolveTrustedOriginConfig | lib/auth-origins.ts:139-196 | the result is the fresh computation; it is the cached object itself while the signature stays, otherwise a new one, and the old one is as it was |
| AuthOrigins.Resolver.GetOriginDiagnostics | lib/auth-origins.ts:250-289 | the report shares the arrays of origins and entries with the cached object; its list of invalid origins and every record in it are new, and the cached object with all its records is as it was |
| AuthOrigins.Resolver.Redacted | lib/auth-origins.ts:277-281 | a new list of new records, each with its value redacted |
| AuthOriginLaws.CacheTransparent | lib/auth-origins.ts:139-196 | under any sequence of environments every call returns what a fresh computation would |
| AuthOriginLaws.TrustedExactly | lib/auth-origins.ts:143-191 | the trusted origins are exactly those some input normalises to, each once, in order |
| AuthOriginLaws.SourcesExactly | lib/auth-origins.ts:181-186 | an entry's sources are exactly those that give its origin, strictly sorted |
| AuthOriginLaws.InvalidExactly | lib/auth-origins.ts:143-179 | the invalid list is the base URL's failure, then every failing input in order |
| AuthOriginLaws.TokensRoundTrip | lib/auth-origins.ts:34-39 | tokens joined by a comma or any space split into themselves |
| AuthOriginLaws.TokenEndsOnce | lib/auth-origins.ts:164-173 | every configured token is trusted under its origin or reported invalid, never both |
| AuthOriginLaws.BaseIsTrusted | lib/auth-origins.ts:146-162 | a configured base origin is always trusted with itself as a source |
| AuthOriginLaws.TrustedAreNormal | lib/auth-origins.ts:62-87 | every trusted origin normalises to itself |
| AuthOriginLaws.WarnsExactly | lib/auth-origins.ts:250-275 | the report warns about the request's origin if and only if no input gives it |
| AuthOriginLaws.RedactionHides | lib/auth-origins.ts:240-248 | rejected values that agree on protocol, host and having a path give the same report, whatever their credentials, path, query and fragment |
| AuthOriginRules.StrictExactly | lib/auth-origins.ts:62-87 | an origin must be present, absolute, of the web's protocols, without wildcard in its host, without path, query and fragment; the first that fails is the reason |
| AuthOriginRules.BaseExactly | lib/auth-origins.ts:41-60 | a base URL may have a path: its origin is taken |
| AuthOriginRules.InputsInFull | lib/auth-origins.ts:143-179 | what gives an origin: the base URL, the tokens of the list, and in development the two local addresses |
| AuthOriginRules.BaseReported | lib/auth-origins.ts:146-162 | a base URL without an origin is reported with the reason |
| AuthOriginRules.TokensExactly | lib/auth-origins.ts:34-39 | tokens are parted by commas and spaces, any number of them |
| AuthOriginRules.RankedByName | lib/auth-origins.ts:181-186 | sources are sorted by their names |
| AuthOriginRules.RedactExactly | lib/auth-origins.ts:240-248 | a rejected value is shown as protocol and host, with a mark for a path, and not at all unless it is a web URL |
| AuthOriginRules.ReportExactly | lib/auth-origins.ts:250-289 | the report: the configuration with rejected values redacted, whether the request's origin is trusted, and the warnings in order |

## Left out

- Reports, manifests, checklists, plans and HTML: their text is a parameter or absent; so are edge evidence strings and `status` fields, which nothing reads back.
- Regular expressions that extract tags, links, citations and title words, signal scoring, frontmatter parsing, embeddings and TF-IDF: their results are inputs.
- Theme counts and relationship summaries: counting comprehensions that would add only easy members.
- File-system errors, permissions and symbolic links: files are a map from paths to contents, and only the modelled program changes it. A path is followed by its components alone, so `..` behind a folder that is missing is followed too.
- The vault search for a draft by file name: what it finds is an input of the call.
- Similar-name and missing-frontmatter warnings of a plan: they never block it.
- File times and permissions copied with a draft, and the text encoding of contents.
- A destination folder that is a file, and a backup started twice in one second into the same folder.
- Drive letters and backslashes in the names an archive stores, and a vault whose name holds a backslash where that is no separator.
- Empty directories made after extraction, the required-file check and the commands of the restore drill.
- Suspicious names are a given predicate: they never fail the drill.
- Floating point in the Jaccard thresholds: the ratio is compared as integers, which agrees with the rounded quotient for all sets of realistic size.
- Lone surrogates in JavaScript strings: strings are sequences of Unicode scalar values.
- Writes by a caller into the arrays a configuration shares with the cache: nothing in the program makes them, and `Valid` of the resolver excludes them. An entry of the list is a value, its own list of sources included.
- The request's origin headers and the proxy rule: their outcome is the `current` input of a report; recovery texts follow the warnings one to one.
- The rest of a profile's XML, and the onboarding steps shown to the owner.
- Who may ask for a device link, HTTP answers, cookies and how a session or a profile is made: whether one can be made is an input of the answer. A mint that the database fails stays without its row.
- Termination of the code generator for an alphabet that rejects whole batches: the program only uses the 32-symbol one.
- Identity of review items beyond their file names: duplicates are reported by file name, as in the source.
- The control center, smoke runner, git, release, maintenance and drive-backup scripts, the command line and the user interface.
