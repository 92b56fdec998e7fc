# Archive collection and relevance annotation, modelled in Dafny

This project models three scripts of a speech-data collection pipeline.

- **The search script** (`Collection/archive_search.py`) builds one advanced-search query over the Internet Archive. The query asks for conversational content terms and for community keywords in movies and audio items that are not access-restricted. The script keeps the Creative Commons licensed results and appends their identifiers and licence URLs to a save file. An identifier is never written twice within a run.
- **The download script** (`Collection/archive_download.py`) turns an identifier list into a work list. A `.txt` list can have a "done" list subtracted from it; a gzip JSON-lines list is read record by record. For each identifier the script does the following:
  - it removes a stale item directory and stops;
  - otherwise it downloads the `_files.xml` and `_meta.xml` descriptors;
  - it checks the licence;
  - it optionally fetches one caption file;
  - it chooses the media files, first the direct mp3/mp4 match and then a blocklist plus extension allow-lists;
  - it downloads them.

  Every failure path removes the item directory.
- **The annotation script** (`annotate/filtering_annotate_evaluate.py`) puts each part of each transcript to a chat model. It retries on errors and gives up on a part after more than ten rate-limit errors. It judges a file relevant when at least half its parts were answered "yes". Against a ground-truth set it counts false positives and false negatives.

The model is organised as follows:

- `text.dfy` holds the string operations the scripts use (`lower`, `strip`, `endswith`, `in`, newline removal).
- `work_list.dfy` holds the work-list resolution.
- `manifest.dfy` holds suffix matching, the licence gate, the media selection and caption discovery.
- `pipeline.dfy` holds the per-identifier pipeline:
  - as the class `SaveDirectory`, whose state is the set of item directories on disk and the log of every download call;
  - and as the specification functions `Run`, `Gates`, `Transfer` and `RunAll`, which its methods are proved against.
- `search.dfy` holds the query and the append filter.
- `annotate.dfy` holds the retry loop, the per-file verdict and the summary counters.

What the archive and the chat model answer is a parameter:

- a `RemoteItem` says which download patterns raise, and what the two descriptor files contain once downloaded;
- a part's model calls are a sequence of `Attempt`s.

Three behaviours of the code are worth stating outright:

- An exception while downloading a content file (archive_download.py:166-167) is caught by the handler that covers the licence gate, the manifest reading, the captions, the selection and the content downloads (archive_download.py:134-171). The item directory is therefore removed and the item counts as failed: one raising content download aborts the item, even after earlier ones succeeded. The descriptor downloads have their own handler (archive_download.py:125-131), and the stale-directory check (archive_download.py:120-122) has none.
- `download_captions` returns after the first caption download that does not raise (archive_download.py:55-59). It fetches one caption file at most, not every file of the first matching suffix.
- The annotation script lists the ground-truth directory (filtering_annotate_evaluate.py:57) before it opens the result file. Listing the empty path raises, so with the default `relevant_files=""` the script writes nothing; the tests `relevant_files != ""` at lines 154, 158 and 166 are only reached when they hold.

## Model

| member | source | states |
|---|---|---|
| Text.Lower | Collection/archive_download.py:52 | lower-casing keeps the length and maps each character through ASCII lower-casing |
| Text.ContainsAt | Collection/archive_download.py:113 | `sub in s` holds exactly when some position of `s` starts a copy of `sub` |
| Text.DropNewlines | Collection/archive_download.py:17 | the result holds no newline, and a string without newlines is unchanged |
| Text.DropNewlinesAppend | Collection/archive_download.py:17 | removal works character by character: removing from a concatenation concatenates the two results, so the other characters keep their order and number |
| Text.DropNewlinesKeeps | Collection/archive_search.py:53 | every non-newline character survives newline removal |
| Text.Strip | Collection/archive_download.py:19 | the result is a contiguous piece of the input with no white space at either end |
| Text.StripCuts | Collection/archive_download.py:19 | what is cut off before and after the result is all white space, so the result is determined |
| Text.StripBlank | Collection/archive_download.py:19 | a string of white space only strips to the empty string |
| Text.StripKeepsNoNewline | Collection/archive_download.py:17-19 | stripping a line whose newlines were removed leaves no newline |
| WorkList.AllIds | Collection/archive_download.py:16-19 | at most one identifier per line, none holding a newline |
| WorkList.AllIdsMembers | Collection/archive_download.py:16-19 | an identifier is listed exactly when some line, its newlines removed, is non-empty and strips to it |
| WorkList.AllIdsAppend | Collection/archive_download.py:16-19 | lines are read in order: the identifiers of two lists are those of each, concatenated |
| WorkList.BlankLineKept | Collection/archive_download.py:17-19 | a line of blanks passes the emptiness test, which comes before stripping, and yields the empty identifier |
| WorkList.BlankLineExample | Collection/archive_download.py:17-19 | the line of two blanks and a newline yields `""` |
| WorkList.DoneIds | Collection/archive_download.py:25-27 | the done list never holds the empty string |
| WorkList.Unfinished | Collection/archive_download.py:30-33 | the definition: the listed identifiers not done, in order with repeats; `UnfinishedMembers`, `UnfinishedCounts` and `UnfinishedAppend` state its properties |
| WorkList.Prepared | Collection/archive_download.py:14-35 | the definition: the stripped identifiers of the all list less the done identifiers; `PrepareListOfIds` is proved against it |
| WorkList.PrepareListOfIds | Collection/archive_download.py:14-35 | the loop returns the listed identifiers not done, in order; an identifier remains exactly when it is listed and not done |
| WorkList.UnfinishedMembers | Collection/archive_download.py:30-33 | membership in the result is "in the all list and not in the done list", both directions |
| WorkList.UnfinishedCounts | Collection/archive_download.py:30-33 | a remaining identifier occurs as often as in the all list, so repeats are kept |
| WorkList.UnfinishedAppend | Collection/archive_download.py:30-33 | resolving a concatenation resolves each part in order, so order is kept |
| WorkList.DoneIdsMembers | Collection/archive_download.py:26-27 | an identifier is done exactly when it is non-empty and some done line is that identifier once its newlines are dropped |
| WorkList.DoneIdsAppend | Collection/archive_download.py:26-27 | reading two done lists one after the other gives the concatenation of the two results |
| WorkList.ResumeLeavesOnlyBlanks | Collection/archive_download.py:14-35 | resuming with the resolved identifiers appended to the done list leaves only empty identifiers, which come from blank lines |
| WorkList.NonEmpty | Collection/archive_download.py:178 | the driver's filter drops exactly the empty identifiers and keeps every other one as often as it is listed |
| WorkList.NonEmptyAppend | Collection/archive_download.py:178 | the filter keeps the order of what it keeps |
| WorkList.PlanCounts | Collection/archive_download.py:177-178 | the driver's plan for a `.txt` list holds each non-empty identifier that is not done as often as the all list does |
| WorkList.ResumeIsEmpty | Collection/archive_download.py:177-178 | after the driver's filter, a resumed run whose done list holds the first result has nothing to fetch |
| WorkList.NonEmptyOfBlanks | Collection/archive_download.py:178 | a list of empty identifiers filters to nothing |
| WorkList.ResolveWorkList | Collection/archive_download.py:173-184 | the run does nothing exactly when the list file or save directory is missing or the list file does not exist; a planned list never holds "" |
| WorkList.RecordIdsMembers | Collection/archive_download.py:180-184 | a JSON-lines list yields exactly the identifiers of its records, with the done list ignored |
| WorkList.RecordIds | Collection/archive_download.py:180-183 | the definition: the records' identifiers in order, or failure at the first record without one; `RecordIdsMembers` and `MissingIdentifierFails` state its properties |
| WorkList.MissingIdentifierFails | Collection/archive_download.py:183 | a record without an `identifier` key makes reading the list fail |
| ItemPipeline.ReadRecordIds | Collection/archive_download.py:180-183 | the append loop over the records agrees with the record reading, including the failure |
| Manifest.EndingIn | Collection/archive_download.py:51-52 | keeps exactly the names whose lower-cased form ends in the suffix, each as often as listed |
| Manifest.BySuffix | Collection/archive_download.py:86-91 | the definition: the names ending in each suffix, suffix after suffix; `BySuffixMembers`, `BySuffixCounts` and `CollectBySuffix` state its properties |
| Manifest.BySuffixMembers | Collection/archive_download.py:50-52 | a name is collected exactly when it is in the manifest and ends in some suffix |
| Manifest.BySuffixCounts | Collection/archive_download.py:86-91 | a name is collected once per matching suffix for each manifest entry |
| Manifest.SuffixHitsPositive | Collection/archive_download.py:87-88 | a name has a hit exactly when it ends in one of the suffixes |
| Manifest.HitCounted | Collection/archive_download.py:87-91 | each matching suffix adds a hit beyond those of the suffixes before it |
| Manifest.CollectBySuffix | Collection/archive_download.py:50-52 | the suffix loop builds the suffix-ordered collection; membership both ways |
| LicenseGate.IsCcLicensed | Collection/archive_download.py:101-115 | true exactly when the first `licenseurl` has text that contains "creativecommons" in any case; raises exactly on a malformed document or a first element without text; false when there is no `_meta.xml` |
| LicenseGate.MarkerAnywhere | Collection/archive_download.py:113 | the marker may stand at any position of the URL, in any letter case |
| LicenseGate.NoMarkerNoLicence | Collection/archive_download.py:112-113 | only the first `licenseurl` counts: one without the marker leaves the item unlicensed, whatever follows it |
| LicenseGate.NoMarkerExample | Collection/archive_download.py:112-113 | a first URL too short to hold the marker leaves the item unlicensed even when a later one names Creative Commons |
| MediaSelector.DirectMatch | Collection/archive_download.py:155-157 | exactly the manifest names that end in mp3 (audio, both) or mp4 (movies, both), each as often as listed |
| MediaSelector.DirectHit | Collection/archive_download.py:155-157 | the definition: a lower-cased name ending in `mp3` for audio or both, or in `mp4` for movies or both, with no dot required |
| MediaSelector.Blocked | Collection/archive_download.py:71-78 | the definition: a lower-cased name ending in one of the six blocklisted extensions |
| MediaSelector.Unblocked | Collection/archive_download.py:71-78 | exactly the manifest names without a blocklisted extension |
| MediaSelector.UnblockedCounts | Collection/archive_download.py:71-78 | an unblocked name is kept as often as the manifest lists it, a blocked one never |
| MediaSelector.Fallback | Collection/archive_download.py:83-91 | the definition: all video-extension matches first, then all audio-extension matches, each for the media values that ask for them |
| MediaSelector.FallbackManifestCounts | Collection/archive_download.py:71-91 | over the manifest, an unblocked name is listed once per manifest entry and matching extension, a blocked one never |
| MediaSelector.FindOriginal | Collection/archive_download.py:66-98 | the definition: `None` when nothing is unblocked or nothing matches an extension, else the fallback list; `SelectionFromManifest` and `FallbackMembers` state its properties |
| MediaSelector.SelectMedia | Collection/archive_download.py:155-163 | the definition: the direct match when non-empty, else `FindOriginal`; `SelectionPriority` states its properties |
| MediaSelector.FallbackMembers | Collection/archive_download.py:83-91 | a fallback name is an unblocked manifest name with an extension the media type allows, and conversely |
| MediaSelector.FallbackCounts | Collection/archive_download.py:86-91 | a fallback name is repeated once per matching extension in the lists the media type asks for |
| MediaSelector.FallbackSplit | Collection/archive_download.py:86-91 | the fallback count is the sum of the video and the audio counts for the media type |
| MediaSelector.SelectionFromManifest | Collection/archive_download.py:155-163 | a selection is non-empty, comes from the manifest, and holds no blocklisted name when it is a fallback |
| MediaSelector.SelectionPriority | Collection/archive_download.py:155-163 | the direct match is chosen exactly when some manifest name is a direct hit; otherwise the fallback decides |
| MediaSelector.DirectHitExample | Collection/archive_download.py:155-157 | `x.mp3` is chosen and `x.flac` passed over for audio |
| MediaSelector.BlockedOnlyExample | Collection/archive_download.py:71-81 | a manifest of a `.JPG` and a `.txt` selects nothing |
| MediaSelector.RepeatedFlv | Collection/archive_download.py:68 | `.flv` is listed twice among the video extensions, so a lone `.flv` file is selected at least twice |
| MediaSelector.FlvIsCandidate | Collection/archive_download.py:71-78 | a `.flv` name is neither blocklisted nor a direct hit |
| MediaSelector.FlvHitsTwice | Collection/archive_download.py:68 | a `.flv` name ends in at least two video extensions |
| MediaSelector.UnknownMediaSelectsNothing | Collection/archive_download.py:86-96 | a media value other than both, audio or movies selects nothing |
| CaptionFetcher.CaptionAttempts | Collection/archive_download.py:55-63 | fetches a prefix of the candidates in which every fetch but the last raised; it ends on a success exactly when some candidate can be fetched |
| CaptionFetcher.CaptionCandidates | Collection/archive_download.py:48-52 | the definition: the manifest names ending, lower-cased, in each caption suffix, suffix after suffix; `BySuffixMembers` states its members |
| CaptionFetcher.CaptionAttemptsStop | Collection/archive_download.py:55-59 | fetching stops at the first candidate whose download does not raise |
| CaptionFetcher.CaptionAttemptsExhaust | Collection/archive_download.py:55-63 | when every download raises, every candidate is tried and nothing is found |
| ItemPipeline.ContentAttempts | Collection/archive_download.py:166-167 | downloads the selected names in order until one raises; it ends on a raise exactly when some selected name raises |
| ItemPipeline.ContentAttemptsStop | Collection/archive_download.py:166-171 | the downloads stop at the first raising name |
| ItemPipeline.ContentAttemptsExhaust | Collection/archive_download.py:166-167 | when nothing raises, every selected name is downloaded |
| ItemPipeline.Run | Collection/archive_download.py:119-171 | the definition of `get_data`: the stale check, the two descriptor downloads, then `Gates`; the lemmas below and `GetData` state its properties |
| ItemPipeline.Gates | Collection/archive_download.py:134-148 | the definition: the licence gate when asked for, then reading `_files.xml`, then `Transfer` |
| ItemPipeline.Transfer | Collection/archive_download.py:150-171 | the definition: captions when asked for, the media selection, then the content downloads up to the first raise |
| ItemPipeline.StageOrder | Collection/archive_download.py:119-167 | nothing is downloaded exactly when the directory pre-existed; `_files.xml` comes first and `_meta.xml` second, and captions and content only after both gates |
| ItemPipeline.CaptionsNeverDecide | Collection/archive_download.py:150-152 | the outcome is the same with or without caption fetching |
| ItemPipeline.UncheckedLicenceIgnored | Collection/archive_download.py:136 | with the licence check off, the `_meta.xml` contents change nothing |
| ItemPipeline.CompletedRun | Collection/archive_download.py:119-167 | a completed item was fresh, passed the licence gate when asked, had a readable `_files.xml`, and downloaded exactly the descriptors, the caption attempts and then its media selection without a raise |
| ItemPipeline.RaisingContentAborts | Collection/archive_download.py:134-171 | for a fresh item with readable descriptors that passes the licence gate (or is not checked), one raising content download makes the item fail |
| ItemPipeline.RunAll | Collection/archive_download.py:186-187 | one outcome per listed identifier |
| ItemPipeline.Sequenced | Collection/archive_download.py:186-187 | handling identifiers one after another with any per-identifier handler gives one outcome per identifier |
| ItemPipeline.SequencedLast | Collection/archive_download.py:186-187 | one more identifier appends its outcome, logs only its own downloads and touches only its own directory |
| ItemPipeline.SequencedIsolation | Collection/archive_download.py:186-187 | for any handler, unlisted directories are untouched and every download is for a listed identifier |
| ItemPipeline.SequencedDistinct | Collection/archive_download.py:186-187 | for any handler and distinct identifiers, each outcome is the handler's on the initial directory state |
| ItemPipeline.RunAllIsolation | Collection/archive_download.py:186-187 | unlisted directories are untouched, and every download is for a listed identifier |
| ItemPipeline.RunAllDistinct | Collection/archive_download.py:186-187 | with distinct identifiers, each is handled as if alone, and its directory remains exactly when it completed |
| ItemPipeline.RepeatedIdentifier | Collection/archive_download.py:120-122 | an identifier listed twice ends up removed: a completed first handling is undone by the stale check |
| ItemPipeline.SaveDirectory.constructor | Collection/archive_download.py:186 | the directories present at the start, with an empty log |
| ItemPipeline.SaveDirectory.RemoveDir | Collection/archive_download.py:38-43 | the item directory is gone and nothing else changes |
| ItemPipeline.SaveDirectory.Fetch | Collection/archive_download.py:126-127 | one logged download call that leaves the item directory in place and raises as the archive decides |
| ItemPipeline.SaveDirectory.DownloadCaptions | Collection/archive_download.py:46-63 | reports success exactly when some candidate can be fetched, and logs exactly the caption attempts |
| ItemPipeline.SaveDirectory.FetchCaptions | Collection/archive_download.py:55-63 | the fetch loop logs the caption attempts and returns at the first success |
| ItemPipeline.SaveDirectory.FetchNext | Collection/archive_download.py:57 | one download of a fetch loop extends the log by exactly that pattern and raises as the archive decides |
| ItemPipeline.SaveDirectory.FindOriginalFile | Collection/archive_download.py:66-98 | returns the fallback selection and removes the directory exactly on the two empty cases |
| ItemPipeline.SaveDirectory.FetchContent | Collection/archive_download.py:166-167 | logs the content attempts; it raised exactly when the last attempt raised |
| ItemPipeline.SaveDirectory.GetData | Collection/archive_download.py:119-171 | outcome and download log are those of the stage functions; the directory is present afterwards exactly when the item completed |
| ItemPipeline.SaveDirectory.DownloadManifestFiles | Collection/archive_download.py:150-171 | captions, selection and content agree with `Transfer`; the directory is removed unless the item completed |
| ItemPipeline.SaveDirectory.GetAll | Collection/archive_download.py:186-187 | the directories, outcomes and log are those of handling the identifiers one after another |
| ItemPipeline.SaveDirectory.DownloadData | Collection/archive_download.py:173-187 | resolves the work list, then handles exactly the planned identifiers |
| ArchiveSearch.Joined | Collection/archive_search.py:22-25 | the joined text starts with the first clause, and is that clause when it is alone |
| ArchiveSearch.Query | Collection/archive_search.py:21-31 | the definition: head, joined content clauses, middle, joined keyword clauses with the last content term as subject, tail; `BuildQuery` and `QueryFrame` state its properties |
| ArchiveSearch.ContentClauses | Collection/archive_search.py:22-25 | one clause per content term, with the term in all four fields |
| ArchiveSearch.KeywordClauses | Collection/archive_search.py:27-30 | one clause per keyword, with the given subject in the subject field |
| ArchiveSearch.JoinedStep | Collection/archive_search.py:27-30 | each further clause adds the separator and the clause |
| ArchiveSearch.BuildQuery | Collection/archive_search.py:21-31 | the two loops build the query of the term lists, with the last content term in every keyword's subject |
| ArchiveSearch.AppendContentClauses | Collection/archive_search.py:22-25 | the content loop appends the joined content clauses and leaves its loop variable on the last term |
| ArchiveSearch.AppendClause | Collection/archive_search.py:23-25 | each step adds the separator unless first, then the clause |
| ArchiveSearch.AppendKeywordClauses | Collection/archive_search.py:27-30 | the keyword loop appends the joined keyword clauses |
| ArchiveSearch.GetQuery | Collection/archive_search.py:9-33 | the query of the fixed term lists |
| ArchiveSearch.QueryFrame | Collection/archive_search.py:21-31 | the query opens with the media-type restriction and closes with the access restriction |
| ArchiveSearch.KeywordSubjectIsTedtalk | Collection/archive_search.py:30 | as written, every keyword clause asks for "tedtalk" in the subject field |
| ArchiveSearch.SubjectMismatch | Collection/archive_search.py:30 | a clause whose subject differs in length from its term is not the term-in-all-fields clause |
| ArchiveSearch.KeywordSubjectNotKeyword | Collection/archive_search.py:30 | as written, no keyword clause asks for its own keyword in the subject field |
| ArchiveSearch.JoinedContains | Collection/archive_search.py:27-30 | every clause occurs in the joined text |
| ArchiveSearch.IntendedKeywordSubjects | Collection/archive_search.py:27-30 | the corrected query asks for every keyword in the subject field |
| ArchiveSearch.IntendedQuery | Collection/archive_search.py:27-30 | the definition of the corrected query: each keyword in all four fields of its clause |
| ArchiveSearch.Ids | Collection/archive_search.py:64 | the identifiers of the records, position by position |
| ArchiveSearch.Accepts | Collection/archive_search.py:62 | the definition: the check is on, a licence URL is present, and its lower-cased text contains "creativecommons" |
| ArchiveSearch.KnownLines | Collection/archive_search.py:50-58 | the definition: the save file's lines with newlines removed and empty lines dropped, or nothing when the file cannot be read |
| ArchiveSearch.Lines | Collection/archive_search.py:65-66 | one written line per appended record: identifier, blank, licence URL, newline |
| ArchiveSearch.Scan | Collection/archive_search.py:60-67 | the final list is the known lines plus the appended identifiers; every appended record is an input record that passes the licence filter |
| ArchiveSearch.ScanAppend | Collection/archive_search.py:61-66 | records are taken in order: scanning two lists scans the first, then the second from the list it left, appending in that order |
| ArchiveSearch.ScanFirstAccepted | Collection/archive_search.py:61-66 | an accepted record whose identifier is neither known nor carried by an earlier accepted record is appended, so its own licence URL is the one written |
| ArchiveSearch.ScanTakes | Collection/archive_search.py:63-64 | such a record is appended at its own step |
| ArchiveSearch.AppendAccepted | Collection/archive_search.py:50-67 | reads the save file, with an unreadable file counting as empty, then appends and writes exactly as `Scan` says |
| ArchiveSearch.ScanFresh | Collection/archive_search.py:63-64 | no appended identifier was already known, and none is appended twice |
| ArchiveSearch.ScanComplete | Collection/archive_search.py:61-64 | every accepted record's identifier is listed at the end |
| ArchiveSearch.UncheckedAddsNothing | Collection/archive_search.py:62 | with the licence check off, nothing is appended or written |
| ArchiveSearch.ForeignKnownIgnored | Collection/archive_search.py:63 | known lines that are no record's identifier do not change what is appended |
| ArchiveSearch.ResumeRewrites | Collection/archive_search.py:50-65 | the save file's lines hold a blank after the identifier, so a second run over the same records writes them all again |
| ArchiveSearch.WrittenLineHasBlank | Collection/archive_search.py:65 | a written line still holds the blank after its identifier once its newline is dropped |
| AnnotateEvaluate.GetLimit | annotate/filtering_annotate_evaluate.py:13-21 | a limit pair exists exactly for the four known models, and the prompt budget is positive and below the context size |
| AnnotateEvaluate.BeforeReply | annotate/filtering_annotate_evaluate.py:116-138 | the failed calls before the first reply, as a prefix of the calls |
| AnnotateEvaluate.Ask | annotate/filtering_annotate_evaluate.py:114-140 | the definition of the retry loop over the calls made: a reply answers, an overload retries, a rate-limit error retries and counts, and a count past ten abandons; `AskCharacterized` states its properties |
| AnnotateEvaluate.AskCharacterized | annotate/filtering_annotate_evaluate.py:114-140 | a part is abandoned exactly when more than ten counted rate-limit errors precede the first reply; it is answered by that reply exactly when there is one and at most ten precede it |
| AnnotateEvaluate.NoRateLimitNeverAbandoned | annotate/filtering_annotate_evaluate.py:126-137 | overload and other errors alone never make the script give up on a part |
| AnnotateEvaluate.QueryPart | annotate/filtering_annotate_evaluate.py:114-140 | the retry loop ends as `Ask` says |
| AnnotateEvaluate.Results | annotate/filtering_annotate_evaluate.py:112 | one result per part, in order |
| AnnotateEvaluate.Answers | annotate/filtering_annotate_evaluate.py:120 | the successes never exceed the parts |
| AnnotateEvaluate.YesAnswers | annotate/filtering_annotate_evaluate.py:141-142 | the "yes" answers never exceed the successes |
| AnnotateEvaluate.SaysYes | annotate/filtering_annotate_evaluate.py:141-142 | the definition: the lower-cased reply contains "yes" |
| AnnotateEvaluate.TallyParts | annotate/filtering_annotate_evaluate.py:110-145 | the part loop counts the "yes" answers and the successes |
| AnnotateEvaluate.RatioThreshold | annotate/filtering_annotate_evaluate.py:150-152 | the script's ratio test at 0.5 agrees with the integer test that twice the yes count reaches the part count |
| AnnotateEvaluate.Tally | annotate/filtering_annotate_evaluate.py:64-164 | the total never exceeds the number of files |
| AnnotateEvaluate.Unanswered | annotate/filtering_annotate_evaluate.py:146-149 | at most one per file |
| AnnotateEvaluate.TallyCounts | annotate/filtering_annotate_evaluate.py:146-164 | the total is the number of files less those without any answer, with one verdict line each; each part count is positive and bounds the yes count; false positives are relevant verdicts outside the ground truth and false negatives irrelevant ones inside it |
| AnnotateEvaluate.MistakesBounded | annotate/filtering_annotate_evaluate.py:152-159 | false positives and false negatives together never exceed the verdicts |
| AnnotateEvaluate.Evaluation | annotate/filtering_annotate_evaluate.py:57-169 | the definition: nothing when the ground-truth listing raises, as it always does for the empty path; otherwise the verdict lines and the summary |
| AnnotateEvaluate.Evaluate | annotate/filtering_annotate_evaluate.py:57-169 | the listing, the file loop and the summary produce `Evaluation` |
| AnnotateEvaluate.EvaluationSummary | annotate/filtering_annotate_evaluate.py:57-169 | nothing is written exactly when the relevant-files path is empty or cannot be listed; otherwise verdict lines come first and a summary line closes the output, repeating the final counters, with the total equal to the verdicts and the errors never exceeding it |

## Left out

- The network is not modelled. The Internet Archive's search, item metadata and download calls, and the chat-model API, are parameters: a `RemoteItem` per identifier, the search results as a sequence of `Metadata`, and the model calls of each part as a sequence of `Attempt`s.
- XML parsing is not modelled. The descriptor files are given already parsed, as the file names of `_files.xml` and the `licenseurl` texts of `_meta.xml`.
- Only the first matching `_meta.xml` or `_files.xml` in a directory listing is used, as in the script. The directory listing itself is not modelled.
- ItemPipeline.SaveDirectory.Fetch: every download call leaves the item directory in place, even one that raises. This is the worst case for cleanup; which files land on disk is not modelled.
- ItemPipeline.SaveDirectory.RemoveDir: the `os.remove` fallback and the exception when the path is absent (archive_download.py:40-43) are not modelled. Removal simply takes the identifier out of the directory set.
- The thread pools are not modelled: five workers for downloads (archive_download.py:186) and fifteen for metadata (archive_search.py:47). Identifiers are handled one after another in list order, so `RunAll` does not capture interleavings between identifiers listed twice.
- `lower()` covers ASCII letters only, and `strip()` the ASCII white space plus `\x1c`-`\x1f`, `\x85` and `\xa0`. Other Unicode case mappings and spaces are not modelled.
- The search script's `licenseurl` is a string. A list value, which `str()` would render with brackets, is not modelled.
- The search script's results, the metadata fetch and the progress bars (archive_search.py:37-48) are not modelled. The filter starts from the metadata records.
- JSON decoding errors of a gzip list line are not modelled; a record missing its `identifier` key is.
- AnnotateEvaluate.Evaluate: the transcript chunking with the tokenizer (filtering_annotate_evaluate.py:76-108) is not modelled. Each file comes with its parts already cut.
- AnnotateEvaluate.Evaluate: it requires that every part is answered or abandoned within the calls given. A part whose calls keep failing without a rate-limit error loops for ever in the script.
- The verdict ratio is a float in the script; it is modelled by the integer test, and `RatioThreshold` proves the two agree.
- Reading the instruction and transcript files, listing and sorting the transcript directory, and the `dir_path[0]` passed to the listing (filtering_annotate_evaluate.py:54) are not modelled. The files arrive as a sequence. The ground-truth listing is a parameter: its names, or `None` when listing raises; the empty path always raises.
- An unknown model name makes `get_limit` return `None`, which the script cannot unpack (filtering_annotate_evaluate.py:79); the chunking step that uses the limits is not modelled, so neither is that failure.
- The result file's text formatting is modelled as structured lines; the float ratio is shown as the yes count over the part count.
- Printing, sleeping between retries, and the finish-reason report are not modelled. The command-line parsing of all three scripts is not modelled.

## Findings

| source | as written | input that shows it | evidently intended | confidence | as-written member | corrected member |
|---|---|---|---|---|---|---|
| Collection/archive_search.py:30 | each keyword clause puts `c`, the leftover last content term "tedtalk", in the `subject:` field | keyword "latin american" gives `subject:(tedtalk)` | the keyword itself in the `subject:` field, as the content clauses do | high, not executed | ArchiveSearch.KeywordSubjectNotKeyword | ArchiveSearch.IntendedKeywordSubjects |
