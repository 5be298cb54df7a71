# Loop client import script and web router, modelled in Dafny

This project models two parts of the Loop standalone client repository.

- **The mozilla-central import script** (`extract_from_hg.py`, module
  `HgImport` in `extract_from_hg.dfy`). The script walks a range of Mercurial
  changesets and skips merges. It ports every changeset with a file under one of
  Loop's four path prefixes: each interesting file is written out under its
  translated loop-client name (or deleted when the changeset removed it), and
  the two translated test pages have their script paths patched. Each ported
  changeset is committed with its author, its date and a message naming the
  mozilla-central revision. When anything was ported, the last visited
  changeset is recorded in `last_m_c_import_rev.txt` and committed.
  Effects on the working tree and on git are modelled as a log of `Action`s.
  The Mercurial repository is a sequence of `Changeset` values indexed by
  revision number.
- **The Python string operations the script relies on** (module `PyStr` in
  `pystr.dfy`):
  - `str.startswith` is the sequence prefix `<=`;
  - `in` is `Contains`;
  - ASCII `lower()` is `Lower`;
  - `str.replace` is `ReplaceAll`. `ReplaceAll` is a left-to-right,
    non-overlapping replace-all. It is proved equal to an independent
    reference: split at the leftmost occurrences, then join with the
    replacement.
- **The web client's router and conversation form** (`content/js/webapp.js`,
  module `Webapp` in `webapp.dfy`):
  - `stripQuotes`, used by the unsupported-browser view;
  - `ConversationFormView`: its construction checks, its session-error
    notification, and submitting the form;
  - `WebappRouter`: its construction checks, its session event handlers, and
    its four routes.

  The conversation model and the notification list are small classes with the
  fields these members read and update. A JavaScript `throw` in `initialize`
  becomes a static `Create` method that returns `Err` with the same message.
  Whether the browser meets the call SDK's requirements is a boolean parameter.

`common.dfy` holds the `Option` and `Result` types.

## Model

| member | source | states |
|---|---|---|
| PyStr.NoOccurrenceUnchanged | extract_from_hg.py:42-45 | `replace` leaves a string that does not contain the pattern unchanged |
| PyStr.JoinSplit | extract_from_hg.py:54 | replace-all equals splitting at the pattern and joining the pieces with the replacement |
| PyStr.SplitJoin | extract_from_hg.py:54 | joining the pieces with the pattern itself gives back the original string |
| PyStr.SplitLeftmost | extract_from_hg.py:54 | the pieces are cut at leftmost, non-overlapping occurrences: no piece, extended by a proper prefix of the pattern, contains the pattern, and the last piece does not contain it |
| PyStr.ReplaceLeadingOccurrence | extract_from_hg.py:42-45 | a leading occurrence is replaced and a rest free of the pattern is kept as it is |
| PyStr.Lower | extract_from_hg.py:170 | `lower()` keeps the length and maps each ASCII capital to its small letter, leaving every other character alone |
| PyStr.ContainsLower | extract_from_hg.py:170 | if a string contains a word, its lower-cased form contains the lower-cased word |
| HgImport.RewrittenNamesAreInteresting | extract_from_hg.py:34-38 | every path under one of the four rewritten directories is interesting |
| HgImport.InterestingWithoutSlash | extract_from_hg.py:34-46 | the interesting test has no trailing slash: a name that continues the standalone prefix with anything but `/`, and names no rewritten directory later on, is interesting and is not renamed |
| HgImport.TranslateMovesDirectory | extract_from_hg.py:41-46 | a path under one of the four directories moves to the matching loop-client directory (standalone becomes the root), provided the rest of the path mentions none of the four |
| HgImport.TranslateLeavesOthersAlone | extract_from_hg.py:41-46 | a name mentioning none of the four directories is not renamed |
| HgImport.TestPagesNeedTranslation | extract_from_hg.py:41-50 | the two mozilla-central test pages translate to `test/standalone/index.html` and `test/shared/index.html`, the two names whose content is patched; `standalone/test/shared/index.html` also lands on the second name, so it is patched too |
| HgImport.TranslateTestFileReplacesOnlyScriptRefs | extract_from_hg.py:52-54 | the patched page equals the page cut at the leftmost occurrences of `src="../../standalone/` and joined with `src="../../`; rejoining with the old path gives the page back |
| HgImport.TranslateTestFileWithoutRefs | extract_from_hg.py:52-54 | a page without the standalone script path is written unchanged |
| HgImport.WriteCset | extract_from_hg.py:80-96 | the loop over the changeset's files produces exactly the per-file actions, in file order |
| HgImport.FilesActionsFromInterestingFiles | extract_from_hg.py:80-96 | every action of `writeCset` belongs to an interesting file of the changeset and uses its translated name; it is a write or add exactly when the file is present; it is never a commit |
| HgImport.FilesActionsCoverInterestingFiles | extract_from_hg.py:57-96 | every interesting present file is written (patched when it is a test page) and added; every interesting deleted file is removed and `git rm`-ed |
| HgImport.FilesActionsEmpty | extract_from_hg.py:80-96 | `writeCset` does nothing exactly when no file of the changeset is interesting |
| HgImport.ScanForInterestingFile | extract_from_hg.py:173-180 | the early-exit scan reports true exactly when some file is interesting |
| HgImport.VisitChangeset | extract_from_hg.py:170-188 | one turn of the loop reports a port exactly when the changeset is not a merge and touches an interesting file, and then logs its file actions followed by its commit; otherwise it logs nothing |
| HgImport.Import | extract_from_hg.py:156-194 | the loop over `firstRev` .. `lastRev` - 1 produces the specified log; `committedFiles` holds exactly when some visited changeset was ported; `lastCset` is the last changeset visited |
| HgImport.AnyPortedStep | extract_from_hg.py:182-188 | `committedFiles` becomes true exactly at the first ported changeset and stays true |
| HgImport.MergesAreSkipped | extract_from_hg.py:170-171 | a description containing "merge" in any ASCII capitalisation makes the changeset skipped |
| HgImport.CommitNamesChangeset | extract_from_hg.py:99-105 | a port commit is signed with the changeset's author and date; its message starts with the description and contains the changeset id |
| HgImport.PortCommits | extract_from_hg.py:182-188 | visiting a changeset makes one commit when it is ported and none otherwise |
| HgImport.LatestRevCommits | extract_from_hg.py:108-116 | recording the latest revision makes exactly one commit, with the fixed message |
| HgImport.PortedRevisions | extract_from_hg.py:163-188 | every revision the run ports lies in the range |
| HgImport.PortedRevisionsQualify | extract_from_hg.py:170-188 | every revision the run ports is not a merge and touches an interesting file |
| HgImport.PortedRevisionsIncreasing | extract_from_hg.py:163 | revisions are ported in strictly increasing order |
| HgImport.PortedRevisionsComplete | extract_from_hg.py:163-188 | every qualifying revision of the range is ported |
| HgImport.CommitsForElements | extract_from_hg.py:163-188 | the port commits of a run list, position by position, the commit of each ported revision |
| HgImport.RangeCommits | extract_from_hg.py:163-188 | the commits in the log of a range are one per ported changeset, in revision order |
| HgImport.ImportCommits | extract_from_hg.py:156-194 | a whole run commits once per ported changeset in revision order, then once more for the latest-revision file exactly when it ported something (these are the `git commit` calls issued; their outcome is not modelled) |
| HgImport.ImportActionsEmpty | extract_from_hg.py:163-194 | a run leaves anything in the log, the latest-revision file included, exactly when it ported some changeset |
| HgImport.LatestRevRecorded | extract_from_hg.py:163-194 | a run that ported something ends its log by writing the id of the last visited changeset, ported or not, to the latest-revision file |
| HgImport.RecordedChangesetIsRevisited | extract_from_hg.py:163-194 | a next run starting at the recorded revision visits that changeset again and, when it was ported, its log starts with that changeset's file actions and its `git commit`, issued again. For a changeset that only wrote files, git then finds nothing to commit. For one that deleted a file, see `HgImport.RevisitRemovesAgain` |
| HgImport.RevisitRemovesAgain | extract_from_hg.py:163-194 | when the recorded changeset deleted an interesting file, the run that ported it issued the removal of that file (lines 87-92), and the next run's log starts with the same removal again. In the source that second `os.remove` raises on the missing file, so the run ends before `commitCset` and `writeLatestRev`; the recorded revision never advances, and every later run fails the same way |
| Webapp.StripQuotes | content/js/webapp.js:55-63 | the result is at most two characters shorter than the text |
| Webapp.StripQuotesUndoesQuote | content/js/webapp.js:55-63 | stripping undoes surrounding a text with quotes, whatever the text holds |
| Webapp.StripQuotesKeepsUnquoted | content/js/webapp.js:55-63 | a text with no quote at either end is returned unchanged |
| Webapp.StripQuotesLeadingOnly | content/js/webapp.js:55-58 | only one leading quote is removed |
| Webapp.StripQuotesTrailingOnly | content/js/webapp.js:59-60 | only one trailing quote is removed |
| Webapp.StripQuotesOfQuotesOnly | content/js/webapp.js:55-63 | a lone quote and an empty pair of quotes both become the empty text |
| Webapp.StripQuotesDropsOnlyEnds | content/js/webapp.js:55-63 | the result is the text with nothing, its first, its last, or both end characters removed |
| Webapp.ConversationFormView.constructor | content/js/webapp.js:101-108 | stores the model and the notifier and subscribes the form to `session:error`, leaving the model's attributes alone |
| Webapp.ConversationFormView.Create | content/js/webapp.js:95-109 | a missing model fails first, with "missing required model"; a missing notifier fails next, with "missing required notifier", and subscribes nothing; otherwise it gives a fresh, enabled form |
| Webapp.ConversationFormView.OnSessionError | content/js/webapp.js:111-117 | appends exactly one error notification with the `unable_retrieve_call_info` text |
| Webapp.ConversationFormView.Initiate | content/js/webapp.js:128-135 | asks the model for one outgoing call on the base server URL and disables the form |
| Webapp.WebappRouter.constructor | content/js/webapp.js:169-180 | stores both collaborators, subscribes to `session:ready` then `session:ended`, and shows the home view |
| Webapp.WebappRouter.Create | content/js/webapp.js:164-181 | a missing conversation fails first and a missing notifier next, each with its own message; otherwise it gives a fresh router on the home view |
| Webapp.WebappRouter.OnSessionReady | content/js/webapp.js:186-188 | navigates to `call/ongoing` and nothing else |
| Webapp.WebappRouter.OnSessionEnded | content/js/webapp.js:193-195 | navigates to `call/` followed by the conversation's `token` (the text `undefined` when unset) |
| Webapp.WebappRouter.HomeRoute | content/js/webapp.js:200-202 | shows the home view |
| Webapp.WebappRouter.UnsupportedRoute | content/js/webapp.js:204-206 | shows the unsupported view |
| Webapp.WebappRouter.InitiateRoute | content/js/webapp.js:214-225 | on an unsupported browser it only navigates to `unsupported`; otherwise it sets `loopToken` and shows a fresh form bound to the conversation and the notifier |
| Webapp.WebappRouter.ConversationRoute | content/js/webapp.js:231-257 | four exclusive outcomes: `unsupported`; back to `call/<loopToken>` when there is no session but a token; one error notification and `home` when there is neither; otherwise the in-call view |
| Webapp.InitiateThenEarlyConversation | content/js/webapp.js:214-257 | after initiating with a token, reaching `call/ongoing` before the session is ready sends the browser back to that token's page |

## Left out

- Mercurial and git themselves are left out: no repository is opened, pulled or pushed (`updateRepos`, `gitOrigin.pull()`, `--push-result`, `gitRepo.push()`). The pre-run checks for a bare or dirty repository and argument parsing are left out as well. Only the script's effects on files and the git index are modelled, as the action log.
- Reading `last_m_c_import_rev.txt` and resolving revision names (`hgRepo[firstRevText]`, `"default"`) are left out. `Import` takes the two revision numbers as parameters. Both are valid revisions of the repository, which is all the source relies on.
- Every `Action` is a call the model assumes succeeds. `open` in a missing directory (line 58) and `os.remove` of a missing file (line 66) raise and end the run in the source; the model does not show that. The return codes of `git add`, `git rm` and `git commit` are ignored by the script and are not modelled either, so a `GitCommit` in the log is a commit that was requested, not necessarily one git made.
- `print` output and `console.error` are left out because they have no effect on the model's state.
- HgImport.CommitAction: the commit carries the raw Mercurial date (seconds and zone offset). Converting it to a `datetime` string for `--date` is not modelled, because it is time-zone library work.
- HgImport.FileActions: a missing file is detected as a path absent from the changeset's `contents` map. This is what the bare `except` around `cset[filename]` catches in practice; other exceptions it would also swallow are not modelled.
- PyStr.Lower: only ASCII letters are mapped. This matches Python 2 `str.lower()` on byte strings in the default locale.
- PyStr.ReplaceAll: an empty pattern is excluded by its precondition. Every pattern the script passes is a non-empty literal.
- Webapp DOM work is left out. `disableForm` is modelled as a `disabled` flag; how `UnsupportedView.render` and `HomeView` fill in the page is not modelled. `stripQuotes` itself is modelled.
- The call SDK (the `TB.checkSystemRequirements()` result becomes a parameter, and `OT` is the in-call view's content), the translation service (`__(key)` is the opaque `Translated(key)`) and `init()` are left out.
- The toolkit's URL-to-handler matching and event dispatch are left out. Route handlers and event handlers are called directly, `navigate` only records its target, and `listenTo` records a subscription. A consequence: the model does not show that `navigate("home")` in the conversation route matches no entry of the routes table, which maps the home page to `""`.
- Webapp.WebappRouter: the `{trigger: true}` option of every `navigate` (in `OnSessionReady`, `OnSessionEnded`, `InitiateRoute` and `ConversationRoute`) is not modelled. It asks the toolkit to run the handler the target names; the model never runs that handler. So after `navigate("unsupported")`, for instance, the model's `currentView` stays as it was, where the browser would show the unsupported view.
- The `Conversation` and `NotificationList` classes, apart from the fields read or written above, are not part of this model. They are defined elsewhere in the repository (`loop.shared.models`, `loop.shared.views`).
- Each run visits revisions up to, but excluding, the tip named by `"default"`. The next run starts at the recorded revision inclusive (line 163), so it visits that changeset again; `HgImport.RecordedChangesetIsRevisited` proves this. That is harmless only when the changeset wrote files. When it deleted an interesting file, the second `os.remove` (line 66, called from line 91) raises in the source and ends the run before anything is committed or recorded (lines 187 and 194), and the same happens on every later run. `HgImport.RevisitRemovesAgain` proves the removal is issued again. The model's actions cannot fail (see the line on actions above), so it does not show the run ending there.
