# Mailosh, modelled in Dafny

Mailosh is a webmail server that speaks JMAP to a mail store. This project models four
parts of it and proves what each is for:

- **Search.** The text of a search box becomes tokens, then a filter tree, bounded in
  length, terms and bracket depth, with hints for everything that could not be used and an
  independent guard over the finished tree (`Strings`, `Tokenizer`, `Terms`, `Amounts`,
  `Calendar`, `Operators`, `Filters`, `Parser`, `ParserLaws`, `Meaning`, `Malformed`, `Guard`,
  `SearchQuery`, `BracketLimit`).
- **Triage.** Snapshot, one write, report; undo and its compact token; label drains and
  emptied folders; the list page and its rows; the label forest (`MailStore`, `Queries`,
  `Actions`, `Triage`, `Undo`, `UndoCodec`, `Badges`, `Labels`, `LabelTree`, `ThreadList`,
  `Lifetime`).
- **Live updates.** Per-user hubs, listeners, the idle sweep and the fan-out connection, as
  atomic steps between awaits, with every interleaving allowed (`SseHub`, `HubRegistry`,
  `HubSafety`, `HubStreams`, `NotifyBus`), and the race to create a role mailbox (`RoleMailbox`).
- **Login limiting.** Failure counters with a window, an exponential lock and a pruning rule
  (`RateLimit`).

How it is put together: what the program updates step by step is a class or a method with a
loop, proved equal to a function of its inputs or its old state; the lemmas are about those
functions. Protocols are `Next` functions over a `Step` datatype, with an invariant that every
step keeps and a statement over every run. The mail store is a map of messages, each with its
thread, its set of mailboxes, its keywords, its time of arrival and what a list row shows of it;
patches follow section 5.3 of RFC 8620 and queries section 4.4 of RFC 8621. The server may refuse
the update of any message, and the writes then change the others only.

Assumptions that the results state or rest on: no other client changes an account while one
action, drain or page is under way; the server lists each message and each mailbox once, and
starts out with every message in some mailbox; the clock does not go back; `/events` starts its stream
within the idle time of arming the listener (`HubSafety.LateStartIsOrphaned` shows what happens
otherwise); a closed fan-out bus is started again only after its supervisor has unwound.

## Where the code and its documentation part

- The guard over the finished filter is described as unreachable. Up to 171 compiled terms it
  is; on any account with no label called x, 1792 characters (`- in:x` 256 times over) build 1025
  nodes, and a query that means "everything" is answered with nothing
  (`SearchQuery.GuardIsReachable`).
- A bracket past the depth limit is said to lose nothing but the grouping. It loses the minus
  sign in front of it (`BracketLimit.MinusLostAtTheLimit`, and `SearchQuery.MinusLostInText` in a
  text). Whatever the query, the reader is told exactly when it is more than 24 deep, and one who
  is not told has a tree that means it (`BracketLimit.ToldExactlyWhenTooDeep`,
  `SearchQuery.TypedBrackets`).
- A label is said to drain when it has fewer than 4000 conversations. The fortieth pass has to
  find it empty, so the figure is 3900, inclusive (`Labels.Drain`).
- A label with others nested inside is refused before anything is touched. One with a *role*
  mailbox nested inside is not seen to be: its mail is drained, and then the destroy is refused.
  `Labels.DeleteLabel` has the exact condition and `Labels.NestedFolderBlocks` such an account.
- At most one listener of a user runs at a time, but for a close under way: it forgets every
  listener at once and cancels them one after another, and a user who dials again in between has
  two, neither of them cancelled. `HubSafety.TwoAtOnceExactly` has the exact condition and
  `HubSafety.ArmedDuringClose` such a run.
- Undoing a spam report (or its reverse) on a message whose `$junk` was already as the action
  wanted it leaves that keyword inverted; `Undo.JunkIsLost` is one such message and `Undo.UndoInverts` the exact condition.
- Emptying Trash or Spam always reports unchanged badges, which is true exactly when nothing
  emptied was also unread in the Inbox or in Drafts (`Badges.EmptiedCounts`).
- The scope predicates agree with the filter sent on every filed message; on a message in no
  mailbox they part exactly when nothing is excluded (`ThreadList.ScopeAgrees`).
- A fan-out bus that is closed and started again dials and listens but never reports another
  loss (`NotifyBus.ClosedForGood`).

## Model

| member | source | states |
|---|---|---|
| Strings.LowerSame | mailosh/services/search_query.py:525-530 | lower-casing tells apart exactly what differs in more than its capitals, and leaves none |
| Strings.UnquoteIs | mailosh/services/search_query.py:457-468 | a value is what is left without one quotation mark and the space at either end |
| Amounts.SizeReads | mailosh/services/search_query.py:629-649 | every number of up to 12 digits, with space or not, with k, m or g or none and a b or none in any capitals, is read as that many times a power of 1024 |
| Amounts.SizeShape | mailosh/services/search_query.py:629-649 | and nothing else is a size |
| Amounts.AgeReads | mailosh/services/search_query.py:613-627 | every number of up to 6 digits and d, w, m or y is read as that age |
| Amounts.AgeShape | mailosh/services/search_query.py:613-627 | and nothing else is an age |
| Amounts.IsoDateReads | mailosh/services/search_query.py:746-766 | year, month and day with either separator, with zeros or not, are the day they name, if there is such a day |
| Amounts.UsDateReads | mailosh/services/search_query.py:746-766 | and so are month, day and year with slashes |
| Amounts.DateShape | mailosh/services/search_query.py:746-766 | and nothing else is a date |
| Calendar.ShiftBackAntitone | mailosh/services/search_query.py:769-788 | a larger amount never lands later, for each unit; zero is now itself, and nothing lands after it |
| Calendar.MonthsLandExactly | mailosh/services/search_query.py:769-798 | months and years land exactly that many months earlier with the day clamped to the length of that month, or on the first instant of year 1 |
| Calendar.DaysLandExactly | mailosh/services/search_query.py:769-788 | going back some days subtracts exactly that from the day number, and fails exactly when the result would be negative |
| Calendar.MinusDaysAntitone | mailosh/services/search_query.py:769-788 | going back more days never lands later, a failure counting as the first instant |
| Calendar.DayBeforeOrdinal | mailosh/services/search_query.py:769-788 | stepping to the previous day lowers the day number by exactly one |
| Calendar.YearsAndMonths | mailosh/services/search_query.py:791-798 | the lengths of the months, and of the years: one leap year in four but for three centuries in four |
| Calendar.OrderIsTime | mailosh/services/search_query.py:600-626 | the order of the fields is the order of the moments counted in microseconds |
| Calendar.AgesLandExactly | mailosh/services/search_query.py:769-788 | an age in days or weeks goes back exactly that many days, or to the first moment |
| Filters.CombineMeaning | mailosh/services/search_query.py:256-278 | an erasing AND or OR of filters is true of exactly the messages that every, or some, kept branch is true of |
| Filters.NotMeaning | mailosh/services/search_query.py:281-297 | negation, with its collapsing of a double NOT, is true exactly when the operand is not |
| Filters.CombineNormal | mailosh/services/search_query.py:256-278 | AND and OR keep the normal form: at least two branches, no NOT directly under a NOT |
| Filters.NotNormal | mailosh/services/search_query.py:281-297 | negation keeps the normal form |
| Guard.IsAllowedFilter | mailosh/services/search_query.py:1068-1100 | the stack loop accepts exactly the trees that are recursively well formed and have at most 1024 nodes |
| Guard.ToNodeCount | mailosh/services/search_query.py:240-297 | the dictionary tree of a filter has as many nodes as the filter |
| Guard.ParserTreesWellFormed | mailosh/services/search_query.py:1068-1100 | every normal filter is a well-formed dictionary tree, so size alone decides whether it is kept |
| Terms.TermLaws | mailosh/services/search_query.py:705-738 | whatever a term is, its filter does not depend on the sign it stands under, is normal and small, and a term with no filter either chose the scope or left a hint naming it |
| Terms.ReadingLaws | mailosh/services/search_query.py:513-702 | the same for each operator handler on its own |
| Terms.UnresolvedMatchesNothing | mailosh/services/search_query.py:533-597 | an `in:` or `label:` whose own lookup fails becomes a filter no message satisfies, whatever else resolves; one that succeeds is true of exactly the messages in that mailbox |
| Terms.BoundsPartition | mailosh/services/search_query.py:600-626 | before and after one moment, and larger and smaller than one size, each split all messages in two |
| Operators.FieldsSay | mailosh/services/search_query.py:513-516 | `from:`, `to:`, `cc:`, `bcc:`, `subject:` and `body:`, in any capitals, look for their value in that field |
| Operators.IsSays | mailosh/services/search_query.py:525-530 | `is:unread` is without `$seen`, `is:read` with it, `is:starred` with `$flagged`; any other value is looked for as text, with a hint |
| Operators.HasSays | mailosh/services/search_query.py:519-522 | `has:attachment` is with an attachment; any other value is looked for as text, with a hint |
| Operators.FileNameSays | mailosh/services/search_query.py:651-665 | `filename:` looks for its value anywhere, with a hint |
| Operators.InSays | mailosh/services/search_query.py:533-569 | `in:` a folder is that folder by its role, `in:anywhere` is no condition, anything else is a label; which lookup, hint and choice of scope each makes |
| Operators.LabelSays | mailosh/services/search_query.py:572-597 | `label:` is that label, or nothing with a hint |
| Operators.SizeSays | mailosh/services/search_query.py:629-649 | `larger:` is at least that many bytes, `smaller:` is less, up to 2^53-1; what is not a size is dropped with a hint |
| Operators.DateSays | mailosh/services/search_query.py:600-610 | `before:` is earlier than the start of that day and `after:` from then on; what is not a date is dropped with a hint |
| Operators.AgeSays | mailosh/services/search_query.py:613-627 | `older_than:` and `newer_than:` are the same of the moment that long ago, to the second |
| Operators.WordSays | mailosh/services/search_query.py:705-738 | a word without a colon is looked for as it stands |
| Operators.PhraseSays | mailosh/services/search_query.py:705-716 | a phrase is looked for as what is inside the quotation marks, and an empty one dropped with a hint |
| Operators.NothingSays | mailosh/services/search_query.py:731-737 | each of the 17 operators with nothing after it is dropped with a hint |
| Operators.UnknownSays | mailosh/services/search_query.py:718-729 | any other name before a colon is text, with a hint exactly when it looks like an operator and no web address |
| Tokenizer.Tokenize | mailosh/services/search_query.py:411-454 | the index loop computes the token list and the quote hints of the recursive specification, for every text |
| Tokenizer.TokensSpellText | mailosh/services/search_query.py:411-454 | the tokens put back together are the text without the space between them |
| Tokenizer.TokensNotBlank | mailosh/services/search_query.py:411-454 | no term token is empty or blank |
| Tokenizer.TokensOfWritten | mailosh/services/search_query.py:411-454 | writing out any tokenizer-stable token list and tokenizing it gives the list back |
| Tokenizer.SymbolTokens | mailosh/services/search_query.py:411-454 | space is dropped, and a bracket or a minus sign where a term could start stands for itself |
| Tokenizer.WordTokens | mailosh/services/search_query.py:411-454 | a word goes on to the next space or bracket, minus signs in it included; `OR` in capitals alone is the operator |
| Tokenizer.PhraseTokens | mailosh/services/search_query.py:411-454 | and through a quoted phrase whatever is in it |
| Tokenizer.OpenPhraseTokens | mailosh/services/search_query.py:411-454 | a quotation mark that never closes takes the rest, with a hint |
| Tokenizer.Prepare | mailosh/services/search_query.py:1013-1035 | the prepared text is within the length limit, and says it was cut exactly when the text was longer |
| Tokenizer.PrepareKeeps | mailosh/services/search_query.py:1013-1035 | a text within the limit and without control characters is left as it is |
| Tokenizer.PrepareIs | mailosh/services/search_query.py:1013-1035 | control characters become spaces and nothing else changes |
| Tokenizer.PrepareCuts | mailosh/services/search_query.py:1013-1035 | a text over 4096 characters is cut at the last space within them, or at the limit if there is none |
| Parser.Parser.Parse | mailosh/services/search_query.py:833-834 | the running parser reads the whole input and builds what the grammar functions say |
| Parser.Parser.Sequence | mailosh/services/search_query.py:842-863 | the loop over branches, with its progress guard, is the sequence function, hints and counters included |
| Parser.Parser.OrSequence | mailosh/services/search_query.py:865-882 | the loop over alternatives is the OR function |
| Parser.Parser.Unary | mailosh/services/search_query.py:884-923 | minus signs, then a group or a term, against the budget |
| Parser.Parser.Group | mailosh/services/search_query.py:925-958 | a bracketed query, an unclosed one, an empty one, and one past the depth limit |
| ParserLaws.ParseLaws | mailosh/services/search_query.py:842-962 | for every token list the whole input is read; each of the first 256 terms, by its number, has all it compiles to in the result: its condition in the tree, its hint, its choice of scope; past them the reader is told; hints are distinct, and the tree is normal with at most 6n-2 nodes |
| Meaning.SequenceReads | mailosh/services/search_query.py:842-958 | parsing the printed tokens of a query within the depth limit elaborates exactly its syntax tree, at any place in a larger input |
| Meaning.ElaborateMeans | mailosh/services/search_query.py:842-962 | the tree elaborated from a query is true of exactly the messages the query means |
| Meaning.ElaborateMark | mailosh/services/search_query.py:533-577 | the scope is explicit, and the lookup marked as misbehaving, exactly when some term within the budget, under the sign it stands under, makes it so |
| Meaning.ParsePrinted | mailosh/services/search_query.py:842-962 | end to end on tokens: print, parse, and the filter means the query; minus binds tightest, then OR, then AND, and erased terms are erased alike |
| BracketLimit.MinusLostAtTheLimit | mailosh/services/search_query.py:925-941 | one bracket past 24 deep, a query builds the exact opposite of what it means |
| BracketLimit.ToldExactlyWhenTooDeep | mailosh/services/search_query.py:925-941 | for every query, the hint about dropped brackets is given exactly when it is more than 24 deep, and without that hint the tree means the query |
| Malformed.ToldExactly | mailosh/services/search_query.py:842-958 | for every token list with brackets at most 24 deep: told of a closing bracket exactly when one has nothing to close, of an open one exactly when one is left, of a minus sign exactly when nothing follows it, of an `OR` exactly when a side is missing |
| SearchQuery.ParseQuery | mailosh/services/search_query.py:970-1010 | the method computes the result of the whole pipeline |
| SearchQuery.TypedQueryMeans | mailosh/services/search_query.py:970-1010 | from any text that spells a query at most 24 deep, spaced and bracketed as anyone types it: the tree means it, the result is the tree exactly when it has at most 1024 nodes, and the scope and excluded folders are the right ones |
| SearchQuery.WrittenSpells | mailosh/services/search_query.py:411-454 | every typeable query has such a text |
| SearchQuery.TypedBrackets | mailosh/services/search_query.py:925-941 | from any text that spells a query, of whatever depth: told exactly when more than 24 deep, and when not told the tree means the query |
| SearchQuery.MinusLostInText | mailosh/services/search_query.py:925-941 | on every account and for every word that compiles, a text one bracket too deep is answered with exactly the messages it excludes |
| SearchQuery.NothingTypedIsLost | mailosh/services/search_query.py:842-1010 | for every text, cut or not: each of the first 256 terms read has its condition, its hint and its choice of scope in the result; of later terms and of a cut the reader is told; hints distinct, at most 6n-2 nodes, and the guard decides by size alone, never against 171 terms or fewer |
| SearchQuery.MalformedTold | mailosh/services/search_query.py:842-1010 | the same from the text |
| SearchQuery.OneTermSays | mailosh/services/search_query.py:970-1010 | a search for one term finds what the term says |
| SearchQuery.UnreadIsFound | mailosh/services/search_query.py:488-492 | the search `is:unread` finds exactly the messages without `$seen` |
| SearchQuery.DefaultScope | mailosh/services/search_query.py:1046-1065 | what is left out is exactly Spam and Trash, those found, and nothing when the reader chose a scope |
| SearchQuery.ScopeTold | mailosh/services/search_query.py:1046-1065 | when one of them could not be looked up, and no term had that trouble before, the reader is told |
| SearchQuery.SizeBoundAttained | mailosh/services/search_query.py:240-297 | for every n up to the budget some query of n words builds exactly 6n-2 nodes |
| SearchQuery.GuardIsReachable | mailosh/services/search_query.py:982-995 | on every account with no label x a text of 1792 characters, which asks for everything, is answered with a filter that matches nothing |
| SearchQuery.UnresolvableTerm | mailosh/services/search_query.py:533-597 | such a term exists wherever no label is called x |
| MailStore.SnapshotIsCurrent | mailosh/jmap/client.py:1278-1300 | a snapshot names exactly the selected messages that exist, each once, as they are |
| MailStore.PatchBetween | mailosh/services/actions.py:134-143 | the patch names exactly what changes and turns the one mailbox set into the other |
| MailStore.Server.GetEmailStates | mailosh/jmap/client.py:1248-1300 | one state per distinct known id, in the order asked |
| MailStore.Server.SetMailboxesPatch | mailosh/jmap/client.py:1302-1349 | per-message patches and a shared rider; the updates the server refuses are left out and the others made; empty ones are not sent and change nothing; an error exactly when a message that was sent is unknown or refused |
| MailStore.Server.EnsureRole | mailosh/services/mailbox_tree.py:318-363 | look, create, look again: an existing mailbox is returned and nothing created; it fails only if there is none and creation is refused |
| MailStore.ListingAfterDestroy | mailosh/jmap/client.py:1635-1668 | after a destroy the remaining messages are still listed, once each, newest first |
| Actions.Write | mailosh/services/actions.py:169-206 | all changes in one write, through either call; a refusal before anything is sent exactly when a changed message would be left nowhere; an error exactly when the server refuses a changed message, the others being changed all the same |
| Actions.PatchesWrite | mailosh/services/actions.py:189-206 | one patched write makes exactly the changes |
| Actions.KeywordsWrite | mailosh/services/actions.py:189-206 | when nothing moves, one keyword write makes exactly the changes |
| Triage.WrittenIsOutcome | mailosh/services/actions.py:161-206 | leaving out messages that are already as they should be loses nothing: the store is the one where every selected message was moved and ridden |
| Triage.ArchiveMessages | mailosh/services/actions.py:299-347 | every selected message leaves the Inbox and nothing else, or goes to Archive if that would leave it nowhere; Archive is created only when needed; an error exactly when some message is not so; the report removes every selected conversation |
| Triage.Delete | mailosh/services/actions.py:350-364 | every selected message is in Trash alone, but for those whose update was refused, with an error exactly when there are such; or there is no Trash and nothing changed; the report likewise |
| Triage.ReportSpam | mailosh/services/actions.py:367-380 | likewise in Spam alone with `$junk`; the report likewise |
| Triage.Star | mailosh/services/actions.py:383-397 | the keyword is set or cleared on every selected message whose update is not refused, and nothing else changes; the report removes no row |
| Triage.MarkRead | mailosh/services/actions.py:400-413 | likewise for `$seen` |
| Triage.Restore | mailosh/services/actions.py:416-432 | every selected message not refused is in the Inbox alone; the report likewise |
| Triage.MarkNotSpam | mailosh/services/actions.py:435-448 | every selected message not refused is in the Inbox alone without `$junk`; the report likewise |
| Triage.Destroy | mailosh/services/actions.py:451-467 | exactly the selected messages are gone, and the report is the one of their leaving every mailbox |
| Triage.ApplyLabels | mailosh/services/labels.py:504-572 | labels on and off for every selected message, Archive for one that would be left nowhere, and refusal of an empty or overlapping request; a write refused in part is an error with the number of messages that ended as asked, out of those that were not so before; the report removes no row |
| Triage.NowhereIs | mailosh/services/labels.py:545-547 | Archive is looked for exactly when some selected message would be left nowhere |
| Triage.MoveTo | mailosh/services/labels.py:575-601 | every selected message is in the target alone; a write refused in part is an error with the same two numbers; the report removes every selected conversation |
| Triage.Landed | mailosh/services/labels.py:491-501 | reading the messages again counts exactly the changes in force |
| Triage.LandedIs | mailosh/services/labels.py:157-176 | after a write refused in part those are the changes the server did not refuse, and the whole selection is as asked exactly when it refused none |
| Triage.RetryFinishes | mailosh/services/labels.py:157-176 | the same action asked again on the half-changed selection leaves every message as the first was to |
| Triage.RelabellingSettles | mailosh/services/labels.py:545-557 | which holds of label changes, since a message so placed would be placed there again |
| Triage.PlacingSettles | mailosh/services/actions.py:299-448 | and of archiving, of every move into one mailbox and of the keyword actions |
| Triage.StaysFiled | mailosh/services/actions.py:189-206 | an action leaves every message in some mailbox, whether it came through, was refused in part or failed |
| Triage.ActionsMean | mailosh/services/actions.py:299-448 | what each action makes of one message, in mailboxes and keywords |
| Triage.ReportTells | mailosh/services/actions.py:238-297 | what an action reports: its kind; as removed, the conversation of every selected message that exists, changed or not, each once and in order, or none; to undo, exactly the messages that changed and where those that moved were |
| MailStore.DedupOrder | mailosh/services/actions.py:289-293 | each thing once, in the order of first appearance |
| Badges.WrittenCounts | mailosh/services/actions.py:209-235 | the reported deltas are the true changes in unread Inbox messages and in Drafts |
| Badges.PerformedCounts | mailosh/services/actions.py:209-277 | the same for whatever action was performed |
| Badges.DestroyedCounts | mailosh/services/actions.py:451-467 | the same for a destroy |
| Badges.EmptiedCounts | mailosh/services/actions.py:470-500 | the zero deltas of emptying a folder are true exactly when nothing emptied was also counted elsewhere |
| Undo.Apply | mailosh/services/undo.py:335-388 | snapshot, patches and keyword, riding along or separately, make the undone store whenever the server refuses none of it; an undo that fails leaves each message as it was, undone or half undone, and the refused ones as they were |
| Undo.UndoneChange | mailosh/services/undo.py:363-388 | what undo leaves of one changed message, precisely |
| Undo.UndoInverts | mailosh/services/undo.py:335-388 | undo restores every placement and touches nothing else; it restores the whole store exactly when there was no keyword or every moved message had it flipped |
| Undo.UndoReturns | mailosh/services/undo.py:335-388 | the same for any action and the report it gave |
| Undo.KeywordOnlyUndone | mailosh/services/actions.py:383-413 | an action that moves nothing, as star and mark-read do, is undone whole |
| Undo.JunkIsLost | mailosh/services/undo.py:363-388 | one message already marked as junk, reported and undone, loses the mark |
| Undo.UndoStaysFiled | mailosh/services/undo.py:356-361 | undo never leaves a message nowhere, whatever the spec |
| UndoCodec.Encode | mailosh/services/undo.py:184-234 | the tables are duplicate-free, every index is in range, and each message has its own placement |
| UndoCodec.Decode | mailosh/services/undo.py:237-262 | the loops compute the decoding, with failure where an index or a length is wrong |
| UndoCodec.RejectedExactly | mailosh/services/undo.py:237-262 | a payload is rejected exactly when a mailbox or group is out of range, negative indices counting from the end, or messages and placements are not as many |
| UndoCodec.RoundTrip | mailosh/services/undo.py:184-262 | what was encoded is decoded: spec, placements of the listed messages, expiry and scope, for arbitrary repeats |
| UndoCodec.ActionSpecsUnrestricted | mailosh/services/actions.py:238-277 | an action lists every message it recorded, so its spec comes back whole |
| Lifetime.TokenUndoes | mailosh/services/undo.py:184-388 | an action undone by way of its token: every placement comes back, and the exact condition for the whole store |
| Lifetime.StaysFiledThroughout | mailosh/services/actions.py:189-206 | through any sequence of actions, undos, drains, destroys and emptyings, with any part of them refused, every message stays filed, changes in its mailboxes and keywords alone, and none is lost except to the last two |
| Lifetime.BadgesAddUp | mailosh/services/actions.py:209-235 | over any sequence of actions and destroys the deltas add up to the true change in both badges, less what actions that failed part of the way did |
| Lifetime.NoDrift | mailosh/services/actions.py:209-235 | which is nothing when every action that failed left the store alone |
| Queries.RepresentativesAre | mailosh/jmap/client.py:1015-1031 | sorting and collapsing gives each matching thread once, by its newest match, newest first |
| Queries.Query | mailosh/jmap/client.py:1079-1108 | the chained answers are put together into the page: threads in order, and every message of each, grouped by thread |
| ThreadList.ScopeAgrees | mailosh/services/thread_list.py:251-285 | each scope predicate agrees with the filter sent on every filed message, and exactly when it does not otherwise |
| ThreadList.ViewsAre | mailosh/services/thread_list.py:251-285 | All mail is of what is anywhere but in Spam and Trash, Starred of what is flagged besides, a mailbox of what is in it: for the rows and for the filter alike |
| ThreadList.RowForThread | mailosh/services/thread_list.py:220-248 | a row exists exactly when some message is in scope, and everything it shows, senders, subject, preview, attachment, flags, chips, count and time, is over those messages alone |
| ThreadList.RowShows | mailosh/services/thread_list.py:169-248 | each thread of a page has a row, which shows the representative the server sorted by and carries the whole thread |
| ThreadList.BuildPage | mailosh/services/thread_list.py:331-373 | no row is dropped, total and next position are the list's own, and an unprovisioned folder is an empty page |
| ThreadList.RowsNewestFirst | mailosh/services/thread_list.py:180-190 | down a page no row is newer than the one above it |
| ThreadList.ChainShowsRest | mailosh/services/thread_list.py:365-373 | pages chained from any position to the end show exactly the threads from there on, in order |
| ThreadList.ChainIsShort | mailosh/services/thread_list.py:365-373 | however pages are chained, ended or not, there are no more of them than threads, or there is one |
| ThreadList.PageThrough | mailosh/services/thread_list.py:365-373 | following the next position from the top ends, for every account, view and page size |
| ThreadList.PagingIsComplete | mailosh/services/thread_list.py:365-373 | the pages so followed show exactly the threads with a message that belongs to the view, each once, and down all of them together no row is newer than one above it |
| LabelTree.BuildLabelTree | mailosh/services/mailbox_tree.py:235-278 | each level of the forest is exactly the shown labels that hang there, sorted by lower-cased name |
| LabelTree.Forest.Attach | mailosh/services/mailbox_tree.py:262-268 | every node is appended to its parent's children, or to the roots |
| LabelTree.Forest.SortLevel | mailosh/services/mailbox_tree.py:272-277 | the recursive sort ends, and leaves each level nested and sorted |
| LabelTree.ForestHolds | mailosh/services/mailbox_tree.py:235-278 | a shown label is in the forest exactly when its parents lead to the top, and then exactly once; no other is |
| LabelTree.LevelIs | mailosh/services/mailbox_tree.py:235-278 | each level is exactly the shown labels whose parent is there, or at the top those with no shown parent, in alphabetical order whatever the capitals |
| LabelTree.EveryLabelHasItsPlace | mailosh/services/mailbox_tree.py:235-278 | every shown label has its place exactly when no parents go round in a loop |
| LabelTree.ChipsFor | mailosh/services/thread_list.py:154-166 | the early-stopping walk finds the first three carried labels in preorder |
| LabelTree.ChipsAre | mailosh/services/thread_list.py:133-166 | chips are carried, shown and distinct, at most three, and the first in the order of the forest |
| Labels.Drain | mailosh/services/labels.py:389-436 | with no message refused ends well exactly when at most 3900 conversations carry the label, with the two counts exact; an error for a refused message exactly when a conversation reached has one; at any end only carriers changed, and all those reached but the refused |
| Labels.DrainPass | mailosh/services/labels.py:411-435 | one pass takes exactly one page of conversations out of the label, but for refused messages, and creates Archive only for a message that needs it |
| Labels.PatchAll | mailosh/services/labels.py:424-435 | one patch and one count for every message of the page, and whether the server took them all |
| Labels.DrainLeaves | mailosh/services/labels.py:389-436 | afterwards nothing carries the label, every message is where it was without it or in Archive alone, and the counts make up the number that carried it |
| Labels.DrainStaysFiled | mailosh/services/labels.py:424-435 | a drain cut short anywhere, or refused in part, leaves every message filed |
| Labels.DeleteLabel | mailosh/services/labels.py:439-473 | refused before anything is touched, exactly when there is no such label or a label is nested in it; otherwise drained, and then gone exactly when no role mailbox is nested in it; no message is deleted |
| Labels.DeletePlan | mailosh/services/labels.py:370-386 | which refusal is told beforehand, and exactly when |
| Labels.NestedFolderBlocks | mailosh/services/labels.py:439-473 | an account whose Archive is nested in the label: its mail is drained and the label stays |
| Labels.EmptyMailbox | mailosh/services/actions.py:470-500 | ends, with exactly the messages that were in the folder gone |
| SseHub.SseHub.Subscribe | mailosh/sse.py:171-176 | a stream is registered, or turned away when nothing feeds the hub |
| SseHub.SseHub.Take | mailosh/sse.py:177-185 | an event is yielded and the sentinel ends the stream |
| SseHub.SseHub.EndStreams | mailosh/sse.py:187-213 | every queue is made room in and given a sentinel, without latching |
| SseHub.SseHub.UpstreamLost | mailosh/sse.py:215-239 | the same, latched |
| SseHub.SseHub.Publish | mailosh/sse.py:249-273 | every queue with room gets the event |
| SseHub.StreamOfHub | mailosh/sse.py:177-273 | each stream of a hub goes through what the hub goes through, and another stream starting, taking or leaving, a touch and a re-opening leave it alone |
| SseHub.DeliversInOrder | mailosh/sse.py:177-273 | over any run a queue holds at most 100 items, and what is delivered and queued is an in-order part of what was published while the stream was open |
| SseHub.EndStaysQueued | mailosh/sse.py:187-213 | once told to end, a stream stays told until it ends, whatever is published or told again |
| SseHub.NothingDropped | mailosh/sse.py:249-273 | a reader that keeps up gets everything |
| HubRegistry.Registry.EnsureListener | mailosh/sse.py:481-514 | arming refines the arming step: at most one task, the hub opened before it starts |
| HubRegistry.Registry.ListenerFinished | mailosh/sse.py:599-633 | the callback refines its step: only the registered task deregisters and ends the streams |
| HubRegistry.Registry.SweepUser | mailosh/sse.py:663-674 | one user's turn of the sweep is its step |
| HubRegistry.Registry.StopIdle | mailosh/sse.py:635-674 | a sweep forgets exactly the users whose hub has no stream and has been idle so long, cancels exactly their listeners, and touches nobody else; no hub it leaves is due |
| HubRegistry.Registry.DeliverRemote | mailosh/sse.py:554-576 | a peer's note reaches a hub with a stream open and otherwise touches nothing |
| HubRegistry.Registry.OnFanoutLost | mailosh/sse.py:578-597 | every registered hub's streams are ended and none latched |
| HubRegistry.Registry.Shut | mailosh/sse.py:708-715 | up to its first await a close forgets everything, ends every stream and cancels one task |
| HubRegistry.Registry.Resume | mailosh/sse.py:714-715 | and each time it goes on it cancels the next it has collected |
| HubSafety.StepSafe | mailosh/sse.py:424-721 | every step keeps the invariant, those of a close between its awaits included |
| HubSafety.SweepExactly | mailosh/sse.py:663-674 | in any state a user keeps the hub in a sweep exactly when it has a stream or was active since the cutoff; one who loses it loses the listener, which is cancelled; nothing else changes |
| HubSafety.AlwaysPossible | mailosh/sse.py:424-721 | which steps nothing may hold back: a browser can always leave, an event always come, a fan-out always be lost, a listener finish and its callback run exactly when due |
| HubSafety.RequestsAlwaysPossible | mailosh/sse.py:503-674 | a new request is never turned away at the registry, and a sweep reaches no further than half an hour back |
| HubSafety.EveryRunIsSafe | mailosh/sse.py:424-721 | in every state of every run each open stream has a sentinel queued or a registered listener that runs or whose callback is due, and each user has at most one listener neither cancelled nor collected by a close |
| HubSafety.TwoAtOnceExactly | mailosh/sse.py:481-721 | a user has two running listeners, neither cancelled, exactly while a close has still to cancel the old one and a new one is registered |
| HubSafety.ArmedDuringClose | mailosh/sse.py:708-715 | a run that gets there: two users, a close awaiting the first, the second dialling again |
| HubSafety.RedialIsServed | mailosh/sse.py:503-514 | after any such state a new request gets a stream on a fed hub |
| HubSafety.FanoutEndsEveryStream | mailosh/sse.py:578-597 | a lost fan-out leaves a sentinel on every stream then open and no hub latched |
| HubSafety.LateCallbackIsHarmless | mailosh/sse.py:620-623 | the late callback of a replaced listener changes nothing but its own task |
| HubSafety.LateStartIsOrphaned | mailosh/web/events.py:85-88 | a request that waits out the idle time can open a stream nothing will feed |
| HubStreams.ClockIsLastUse | mailosh/sse.py:171-273 | in every state of every run the clock a sweep looks at is the time of the hub's last use: opened, notified, left or told to end |
| HubStreams.StreamIsRun | mailosh/sse.py:171-273 | in every state of every run of the registry, the queue of each open stream is what its own history makes of an empty one |
| HubStreams.StreamGoes | mailosh/sse.py:177-185 | a stream goes only when its browser leaves or it takes its sentinel |
| HubStreams.EveryStreamInOrder | mailosh/sse.py:171-273 | so over every run what a stream has sent, then what it has queued, is an in-order part of what its hub was notified of since it opened, within 100 items |
| HubStreams.KeptUpStreamIsWhole | mailosh/sse.py:249-273 | and all of it while the queue has had room and the stream has not been told to end |
| NotifyBus.PostgresNotifyBus.Finally | mailosh/db/notify.py:497-509 | the loss is reported exactly when the connection had been working and the bus is not closing |
| NotifyBus.ReportedExactly | mailosh/db/notify.py:470-511 | over every run the step that reports is the death of a working connection, never a failed attempt or the close |
| NotifyBus.EveryConnectionAccounted | mailosh/db/notify.py:470-511 | every connection that ever listened was reported once, or ended silently by or after a close, or is being served |
| NotifyBus.OncePerLoss | mailosh/db/notify.py:470-511 | short of a close, one report per loss and one loss or service per connection |
| NotifyBus.ClosedForGood | mailosh/db/notify.py:423-468 | after a close no later run reports anything |
| NotifyBus.CloseEnds | mailosh/db/notify.py:423-468 | a close takes the supervisor down from every state of every run, and reports nothing |
| NotifyBus.WaitsDouble | mailosh/db/notify.py:470-511 | the waits since the last successful LISTEN are 1, 2, 4, 8, 16, 30, 30 and so on |
| NotifyBus.AlwaysRecovers | mailosh/db/notify.py:470-511 | from every state of every run the way back to a working connection is open: it wakes, dials, listens and serves, none left out |
| RoleMailbox.StepExclusive | mailosh/services/mailbox_tree.py:353 | one call per process is inside the lock |
| RoleMailbox.AllAgree | mailosh/services/mailbox_tree.py:352-363 | over every interleaving all returned ids are the same, at most one create succeeds, a call raises only if the create was refused while the role was free, and a process never loses the race to itself |
| RoleMailbox.CallGetsThrough | mailosh/services/mailbox_tree.py:352-363 | a call that gets its turn returns the mailbox there is, or creates one, or raises when refused; overtaken, it returns what the other made; each step and state named |
| RateLimit.LoginLimiter.RetryAfter | mailosh/security/ratelimit.py:74-94 | zero exactly when neither key is locked |
| RateLimit.LoginLimiter.Bump | mailosh/security/ratelimit.py:109-133 | one failure on one key, with the window reset and the lock |
| RateLimit.LockNeverShortened | mailosh/security/ratelimit.py:119-133 | an ungated failure during a lock never moves its end earlier |
| RateLimit.GatedBound | mailosh/security/ratelimit.py:31-42 | over any gated run a key never counts more than its threshold plus four, and the k-th of those came at least 60(2^k-1) seconds into the window |
| RateLimit.BoundAttained | mailosh/security/ratelimit.py:31-42 | and for every threshold some gated run reaches it |
| RateLimit.GatedTable | mailosh/security/ratelimit.py:74-107 | a login asked first and recorded only on a zero keeps the table within the gate |
| RateLimit.HistoryIs | mailosh/security/ratelimit.py:55-64 | after any calls the row of an account is what the failures, successes and reaps of all its spellings make of none, and of an address likewise |
| RateLimit.AnswerIs | mailosh/security/ratelimit.py:74-94 | what a caller is told is the longer of those two waits and depends on nothing else |
| RateLimit.LoginsBounded | mailosh/security/ratelimit.py:74-107 | over any gated logins at most 9 failures within one window over all spellings of an account, and 24 from an address |
| RateLimit.LockIs | mailosh/security/ratelimit.py:127-133 | a minute at the threshold, doubling, never above an hour |
| RateLimit.WindowIs | mailosh/security/ratelimit.py:113-126 | a failure counts with the first up to fifteen minutes after it and starts anew later |
| RateLimit.DelayIs | mailosh/security/ratelimit.py:86-94 | waiting as long as told is enough and a second less is not |
| RateLimit.PruningUnobservable | mailosh/security/ratelimit.py:147-174 | deleting any of the selected rows changes no later answer |
| RateLimit.PruningExact | mailosh/security/ratelimit.py:166-174 | of the rows a key can have, exactly the selected ones cannot be told from none |

## Left out

- Lower-casing, digits and white space are the ASCII ones; Unicode categories, normalisation and the wording of hints are not modelled, only which hint and about what.
- Text that is not a string, and the catch-all that turns an unexpected exception into an empty result.
- Ids are numbers, and so their sorted order is numeric; the names, colours, counts and visibility tokens of mailboxes appear only where a result needs them.
- The inner loops of the tokenizer and of the minus signs are methods of their own (`ScanTerm`, `NextToken`, `LeadingMinuses`).
- Labels.EmptyMailbox: one page of the loop is a method of its own, and the `ValueError` for another folder is an error result.
- MailStore.Server.SetMailboxesPatch: which messages the server refuses does not depend on the patch and does not change during one operation, and a patch that would empty a placement is not refused; that none is sent is proved of the services. Destroys are not refused.
- LabelTree.Forest.SortLevel: the shared list objects are entries of a map by label, so that two variables naming one list are not modelled.
- HubRegistry.Registry.EnsureListener: hub objects and tasks are entries of maps by number, not heap objects, so that steps on one hub are updates of one entry.
- SseHub.DeliversInOrder: events are numbers; their JSON bodies and ids are not modelled.
- NotifyBus.WaitsDouble: the supervisor's endless loop is one method per await, and its backoff the default 1 and 30 seconds.
- The writer of the fan-out bus, its outbox and its health probe: they reach the supervisor only as a connection that went down.
- The back-off of the upstream listener itself, which repeats the supervisor's.
- Signing, key derivation, base64, compression and the JSON text of undo tokens and notes, and the toast an undo spec carries.
- The wording of a list row: how senders are shortened, dates shown and chips coloured.
- HTTP, the database, connection pooling and sessions.
- Other clients changing the account while one of the modelled operations is under way.
- Composing, conversations, quoting, sanitising, the admin client and the command line: further members, none harder than these.
