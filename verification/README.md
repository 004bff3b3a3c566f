# Handle multiple issues — a Dafny model

This is a model of a GitHub Action that runs when an issue is opened. It
looks up the other open issues of the same author. If there are any, it
labels the new issue. Depending on its inputs it may also comment on the new
issue with references to the earlier ones (`#3, #7`), and it may close the
new issue.

The project has six modules:

- `Policy` (policy.dfy) models `src/index.ts`:
  - `Configure` reads the configuration from the raw inputs.
  - `Eligible` is the gate on the token, the ignore list and collaborators.
  - `DuplicateSet` is the duplicate set.
  - `CommentBody` is the comment text.
  - `Plan` is the ordered plan of label, comment and close writes.
  - `HandleMultipleIssues` is the whole run. Its `Outcome` records where
    the run stopped, which tracker reads it made, and which writes it
    issued, in the order the action awaits them.
- `Legacy` (legacy.dfy) models the first version, `index.ts`. That version
  closes every other open issue of the author. The module compares the two
  versions.
- `Links` (links.dfy) renders the reference list `#a, #b, …`. It also
  parses the list back, as the rendering's inverse.
- `JsString` (js_string.dfy) models the JavaScript built-ins the action
  relies on:
  - `String.prototype.trim`, over the ECMAScript WhiteSpace and
    LineTerminator code points;
  - `split` with a one-character separator;
  - `Array.prototype.join`;
  - the decimal rendering of an issue number.
- `Seqs` (seqs.dfy) holds an order-preserving `Filter` and its algebra.
- `Wrappers` (wrappers.dfy) holds `Option`.

The tracker is not called. What the tracker returns comes in as parameters:
- the first page of logins the collaborator listing returns;
- the first page of the author's open issues the issue listing returns, each
  with its number and assignee logins.

The action's inputs come in as the strings `core.getInput` returns, with ""
for an unset input. The triggering issue's number and author are plain
parameters.

Some of what the code does is easy to miss:
- **Default comment.** With `issueNumber` on and a blank comment, the code
  writes `<links> is already opened by you.`, or `<links> has been opened by
  you and is also assigned to you.` when `assign` is on
  (src/index.ts:133-138).
- **Label list.** The label list is never empty. An unset `label` input
  splits to `[""]`, and the action then adds the label `""`
  (src/index.ts:24-27, 108-115).
- **Ignore list.** An unset `ignoreUsers` input becomes the list `[""]`,
  not an empty list (src/index.ts:32-35). No real login equals "".
- **Failures.** The missing token is the only failure signal
  (`Status.MissingToken`, src/index.ts:11-16). Every exception after it is
  caught and only logged as a notice (src/index.ts:177-180).
- **Comment text.** The code posts `comment` exactly as `core.getInput`
  returned it (src/index.ts:141, 159). The `trim` at src/index.ts:39 only
  decides whether the comment is blank; the model does not trim the posted
  text a second time.

## Model

| member | source | states |
|---|---|---|
| Policy.ParseList | src/index.ts:24-27 | The list has one more entry than there are commas in the input. Every entry is comma-free and has no whitespace at either end. |
| Policy.ParseListNonEmpty | src/index.ts:32-35 | A list input never yields an empty list. An unset input yields `[""]`. |
| Policy.ParseListJoin | src/index.ts:24-27 | Reading back a comma-joined list of comma-free entries gives every entry, trimmed, in order. |
| Policy.ParseListOne | src/index.ts:24-27 | A single comma-free entry with no surrounding whitespace reads back as the one-entry list of itself. |
| Policy.Configure | src/index.ts:24-37 | The labels and the ignore list are the comma-list readings of their inputs, so both are non-empty. The comment input is kept verbatim. Each of `assign`, `issueNumber`, `close` and `ignoreCollaborators` is on exactly when its input reads "true". |
| JsString.Trim | src/index.ts:27 | The result is a contiguous piece of the input with no whitespace at either end. Only whitespace lies around it. |
| JsString.TrimCuts | src/index.ts:27 | The cut points of `trim` are the only ones that leave only whitespace outside and no whitespace at either edge of what is kept. |
| JsString.TrimUnique | src/index.ts:35 | Converse of `Trim`: whitespace around a trimmed core is removed, and exactly that core remains. |
| JsString.TrimIdempotent | src/index.ts:35 | Trimming twice is the same as trimming once. |
| JsString.TrimEmptyIff | src/index.ts:39 | A string trims to "" if and only if it is all whitespace. |
| JsString.Split | src/index.ts:26 | Splitting on a character yields one more piece than there are separators. No piece contains the separator. |
| JsString.JoinSplit | src/index.ts:34 | Joining the pieces of a split with the separator gives back the original string. |
| JsString.SplitJoin | src/index.ts:26 | Splitting a join of separator-free pieces gives back the pieces. |
| JsString.Decimal | src/index.ts:103 | The rendering of a number is a non-empty string of digits. It starts with '0' only for zero. |
| JsString.DecimalRoundTrip | src/index.ts:103 | Reading back the decimal rendering of a number gives the number. |
| Links.Link | src/index.ts:103 | A reference is `#` followed by the number's decimal digits. |
| Links.ParseLinks | src/index.ts:102-104 | The list reader succeeds exactly on text that starts with `#` and a digit. It reads at least one number and returns a proper suffix of its input. |
| Links.ParseIssueLinks | src/index.ts:102-104 | Parsing inverts the rendering. The reference list of a non-empty number list, followed by text that cannot continue it, reads back as the same numbers and that text. |
| Links.IssueLinksInjective | src/index.ts:102-104 | Distinct non-empty number lists render to distinct reference lists. |
| Links.IssueLinksStart | src/index.ts:102-104 | A non-empty reference list starts with `#` and a digit. |
| Links.IssueLinksExample | src/index.ts:102-104 | The numbers 3, 7, 12 render as `#3, #7, #12`. |
| Policy.Eligible | src/index.ts:11-65 | Eligibility needs a token and an author off the ignore list. The collaborator list matters only when collaborators are exempt: then an author in it is not eligible, and one not in it is eligible exactly when the token and ignore gates pass. |
| Policy.GatesStop | src/index.ts:11-65 | A run stops at a gate (missing token, ignored user, exempt collaborator) exactly when the author is not eligible. It then writes nothing and reads at most the collaborator list. |
| Policy.IsBlank | src/index.ts:39 | A comment input is blank if and only if it is all whitespace. |
| Policy.Numbers | src/index.ts:97 | One number per listed issue, in listing order. |
| Seqs.Filter | src/index.ts:76-80 | The kept elements all satisfy the test, and there are no more of them than in the input. `FilterMembers`, `FilterConcat` and `FilterCons` pin down which ones and in what order. |
| JsString.Join | src/index.ts:104 | Joining nothing gives ""; otherwise the result starts with the first part. `JoinSplit` and `SplitJoin` pair it with `Split`. |
| Links.IssueLinks | src/index.ts:102-104 | The reference list is empty exactly for no duplicates, and otherwise opens with the first duplicate's reference. `ParseIssueLinks` reads every such list back. |
| Legacy.Closes | index.ts:25-30 | One close per number, in order, each for that number. |
| Policy.Narrow | src/index.ts:76-80 | With `assign` off, the listing is kept unchanged. With it on, every kept issue has the author among its assignees, and nothing is added. |
| Policy.NarrowMembers | src/index.ts:76-80 | Every kept issue comes from the listing. Every listed issue assigned to the author (or every listed issue, with `assign` off) is kept. |
| Policy.DuplicateSet | src/index.ts:95-97 | The duplicate set never contains the triggering issue. It is no longer than the listing. |
| Policy.DuplicateSetMembers | src/index.ts:76-97 | A number is in the duplicate set if and only if some listed issue has that number, is not the triggering issue and, with `assign` on, is assigned to the author. |
| Policy.DuplicateSetConcat | src/index.ts:95-97 | The duplicate set keeps listing order: the set of a concatenated listing is the concatenation of the two sets. |
| Policy.DuplicateSetSingle | src/index.ts:95-97 | A one-issue listing contributes its number exactly when that issue qualifies. |
| Policy.ExampleDuplicates | src/index.ts:95-97 | Listing 3, 7, 10 for trigger 10 gives the duplicates 3, 7. |
| Policy.CommentBody | src/index.ts:129-163 | A comment exists if and only if `issueNumber` is on or the comment input is not blank. With `issueNumber` on, the comment opens with the reference list. It continues with a space and the comment input, or with the default sentence matching `assign`. With `issueNumber` off, the comment input is posted verbatim. |
| Policy.DefaultCommentExample | src/index.ts:133-138 | Duplicate #5 with a blank comment input gives `#5 is already opened by you.`. |
| Policy.VerbatimCommentExample | src/index.ts:152-160 | With `issueNumber` off, the comment input is posted as written. |
| Policy.NoCommentExample | src/index.ts:129-163 | With `issueNumber` off and a blank comment input, no comment is posted. |
| Policy.LabelActions | src/index.ts:107-115 | One label write per configured label, for the triggering issue, in configured order. |
| Policy.CommentActions | src/index.ts:129-163 | At most one comment write. There is one exactly when a comment body exists, and it carries that body. |
| Policy.CloseActions | src/index.ts:166-175 | At most one close. There is one exactly when `close` is on, and it closes the triggering issue. |
| Policy.Plan | src/index.ts:99-175 | No writes without duplicates. Otherwise:<br>- every write targets the triggering issue;<br>- labels come before the comment, and the comment before the close;<br>- the configured labels come first, in order;<br>- with `close` on the last write closes the triggering issue;<br>- with `close` off nothing is closed. |
| Policy.OrderedPlanSplits | src/index.ts:99-175 | A phase-ordered write sequence is exactly its labels, then its comments, then its closes. |
| Policy.PlanParts | src/index.ts:99-175 | The plan's labels are exactly the label writes. Its comments are exactly the comment write for the comment body. Its closes are exactly the close write. |
| Policy.CommentNamesDuplicates | src/index.ts:129-149 | With `issueNumber` on, the plan's one comment reads back, through the reference-list parser, as exactly the duplicate set. |
| Policy.ExamplePlan | src/index.ts:99-175 | Duplicates 3, 7 with label "dup", references on and close on give: label, then comment `#3, #7 is already opened by you.`, then close, all for issue 10. |
| Policy.ExampleConfig | src/index.ts:24-37 | Concrete inputs give the expected configuration, with `[""]` as the ignore list. |
| Policy.HandleMultipleIssues | src/index.ts:4-176 | A missing token fails with no reads and no writes. The collaborator list is read exactly when collaborators are exempt and the author passed the token and ignore gates. The open issues are read exactly for an eligible author. The run stops with "no open issues" exactly when the narrowed listing is empty. There are writes if and only if the author is eligible and the duplicate set is non-empty. Every write targets the triggering issue and never a duplicate. |
| Policy.RunIssuesPlan | src/index.ts:82-99 | Past the gates, the run issues exactly the plan for the duplicate set. |
| Policy.CollaboratorsUnused | src/index.ts:51-65 | When collaborators are not exempt, the collaborator list does not affect the run. |
| Policy.EndToEndExample | src/index.ts:4-176 | Issue 10 by alice, who also has 3 and 7 open, gives: one read of alice's issues, then label "dup", comment `#3, #7 is already opened by you.` and close, all on issue 10. |
| Legacy.LegacyRun | index.ts:13-34 | The first version closes the author's listed issues other than the trigger, in listing order, one close each. That is exactly the later version's duplicate set with `assign` off. It never closes the trigger. Every other listed issue is closed. It closes nothing exactly when every listed issue is the trigger. |
| Legacy.VersionsCompared | index.ts:23-34 | For an eligible author with duplicates and `assign` off, the later version closes only the triggering issue (when `close` is on), which the first version never closes. With `issueNumber` on, the later version's comment names exactly the issues the first version closes. |

## Left out

- Tracker I/O is not modelled: authentication, the repository owner and name, and the REST calls. The results of reads are parameters, and writes are the emitted `Action` sequence.
- The tracker's answer to each write is not modelled. In the code, a write that throws ends the run through the `catch`, so later writes are skipped. The plan models only the writes the action attempts when every call succeeds.
- Failing reads are not modelled: the `catch` only logs two notices, with no other effect.
- Pagination is not modelled. The code passes no page size and reads only the first page (30 entries by default) of both the issue listing (src/index.ts:69-74) and the collaborator listing (src/index.ts:53-56). The model takes those pages as given, so an issue or a collaborator beyond the first page plays no part, as in the code. Pull requests, which the listing endpoint also returns, are issues like any other here.
- Log and notice output is not modelled: the token debug line and the step, skip, label, comment and close notices. They have no effect on the tracker.
- A missing event payload is not modelled. With no payload the author is `undefined`; the model's author is always a login string.
- The scalar-label branch (src/index.ts:116-124) is not modelled. It is unreachable, because the label list is always an array.
- The close guard `issueNumberToLabel === context.issue.number` (src/index.ts:166) always holds, so only `close` decides.
- Input defaults from the action's metadata file are not modelled: that file is not part of this model. Inputs come in as the strings `core.getInput` returns, which it has already stripped of surrounding whitespace. The model also accepts input strings with surrounding whitespace, which `core.getInput` never returns; for those it does what the code would do with such a string (a flag reading " true" is off, and a comment is posted with its whitespace).
- Legacy.LegacyRun: does not model the first version's `setFailed` on an exception, or its console output. In particular, an empty `GITHUB_TOKEN` input makes the client library throw when the client is created (index.ts:6-7, inside the library, which is not part of this model), so that run fails and closes nothing; the model assumes the client was created.
- Issue numbers are exact naturals. The code compares JavaScript numbers with `!==` (src/index.ts:96, index.ts:24) and renders them with a template literal (src/index.ts:103). Both agree with the model only for integers below 2^53, which every issue number is in practice.
