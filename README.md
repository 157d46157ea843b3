# Blue Brain bot core, modelled in Dafny

This project models the core of the Blue Brain Discord bot (repository
Aoi-Yuito/Butterfly) and proves properties of the model:

- `selectors.dfy` models the reaction-driven menu selectors (`Selector`,
  `NumericalSelector`, `PageControls`). They are classes whose `page`,
  `selection`, `last_selection` fields and menu event log change in place.
  `response` is a loop over the results of `wait_for`, proved against the
  functions `NumericalRun` and `ControlsRun`.
- `readiness.dfy` models the startup tracker `Ready`. Its per-extension
  attributes become a map from extension name to readiness.
- `oauth.dfy` models `oauth_url`, which builds the invite URL step by step.
- `presence.dfy` models `PresenceSetter`. This covers the part of
  `str.format` it relies on, the activity type getter and setter, and the
  rotating message queue.
- `warn.dfy` models the warning system. Its two tables (`warntypes`,
  `warns`) are sequences of rows held by `WarnTables`. The model includes
  the warn loop with its ban rules, `warn list`, and the `warntype`
  commands.
- `tags.dfy` models the tag commands over a `tags` table held by `TagTable`.
  This covers the "did you mean" loop and the sorted list pages with their
  escaped content previews.
- `text.dfy`, `rows.dfy` and `wrappers.dfy` hold shared helpers:
  - Python's `str(n)` and `f"{n:,}"`, `join`, `split` and string order;
  - the `DELETE ... WHERE` filter over rows;
  - `Option` and `Result`.

The model has no Discord or database I/O. A reply or a Discord request
becomes either an event appended to a log or a returned value. Database
queries are functions over the table sequences. Values that come from the
clock, such as fresh ids, are parameters.

## Model

| member | source | states |
|---|---|---|
| Text.HasNonLowercase | bluebrain/bot/extensions/warn.py:54 | the identifier test holds exactly when some character is outside `a`..`z` |
| Text.GroupedIsDecimal | bluebrain/utils/menu/selectors.py:100-102 | `f"{n:,}"` with its thousands separators removed is `str(n)` |
| Readiness.ToLower | bluebrain/utils/ready.py:11 | `lower()` maps each character `A`..`Z` to its lower-case letter and keeps every other character, at the same position |
| Readiness.AllReady | bluebrain/utils/ready.py:16 | `all(...)` holds exactly when every listed extension has a flag that is true |
| Readiness.InitialisedInOrder | bluebrain/utils/ready.py:18-20 | `initialised_extensions` is the in-order subsequence of the listed extensions that are ready: its `j`-th entry is the extension at the `j`-th ready position, the positions increase, and they are exactly the ready ones |
| Readiness.InitialisedAll | bluebrain/utils/ready.py:14-31 | the initialised list is the whole extension list, or equivalently `int(ready)` equals the number of extensions, exactly when all of them are ready |
| Readiness.ForeignFlagIgnored | bluebrain/utils/ready.py:10-20 | setting a flag for a name outside the list changes neither `ok` nor `initialised_extensions` |
| Readiness.ReportReadsBack | bluebrain/utils/ready.py:22-25 | the `__str__` text splits into its words; the boot sentence says "not" exactly when the bot has not booted, and the two counts read back as the initialised and total numbers |
| Readiness.Ready.constructor | bluebrain/utils/ready.py:2-8 | a new tracker is not booted and not synced, and it holds a false flag for exactly the listed extensions |
| Readiness.Ready.Up | bluebrain/utils/ready.py:10-12 | `up` sets the flag of the lower-cased name to true and changes no other flag |
| Readiness.Ready.Count | bluebrain/utils/ready.py:30-31 | `int(ready)` is the number of listed positions whose extension is ready, so it never exceeds the number of extensions |
| Readiness.OkIffAllCounted | bluebrain/utils/ready.py:14-34 | `ok` holds exactly when the bot has booted and `int(ready)` equals the number of extensions; `bool(ready)` is `ok` |
| Readiness.UpForeignIgnored | bluebrain/utils/ready.py:10-20 | `up` with a name that is not listed after lower-casing leaves `ok` and `initialised_extensions` unchanged |
| OAuth.ScopesOrBot | bluebrain/utils/oauth_url.py:28 | `scopes or ('bot',)` is never empty; truthy scopes are used as given, and it is `['bot']` exactly when the scopes are missing, empty or just `bot` |
| OAuth.OAuthUrl | bluebrain/utils/oauth_url.py:18-39 | the URL built by appending is the endpoint followed by the `&`-joined segments, in the builder's order |
| OAuth.QueryReadsBack | bluebrain/utils/oauth_url.py:18-39 | splitting the query on `&` gives back the segments; their names are client id and scope, then each supplied option in order, so a segment appears exactly when its option was given; the client id segment comes first, the scope segment holds the scopes joined with `+`, and each supplied option's segment carries its value (decimal permissions and guild id, `code`, the encoded redirect URI, `true`) |
| OAuth.SegmentKeys | bluebrain/utils/oauth_url.py:27-38 | the segment names are exactly the expected names for the options that were supplied |
| Presence.FormatPlain | bluebrain/utils/presence.py:28-29 | `format` leaves a template without braces unchanged, whatever the keyword arguments |
| Presence.FormatField | bluebrain/utils/presence.py:29 | a `{name}` field is replaced by the value of that keyword argument, followed by the formatted rest |
| Presence.InitialName | bluebrain/utils/presence.py:13-29 | with the initial template and a message without braces, `name` is the help prompt, then the message, then the version |
| Presence.Attribute | bluebrain/utils/presence.py:37 | `getattr(ActivityType, name)` finds the member of that name, and nothing when no member has that name |
| Presence.TypeOf | bluebrain/utils/presence.py:35-37 | the intended getter returns the stored member, or the member a stored string names with `WATCHING` as the fallback, and agrees with the getter as written on strings |
| Presence.AcceptedTypeBreaksGetter | bluebrain/utils/presence.py:35-44 | after any accepted assignment, the getter as written raises while the intended one returns the member; the initial `"watching"` falls back to `WATCHING` |
| Presence.RotateLeft | bluebrain/utils/presence.py:48 | `rotate(-1)` moves the front message to the back and keeps the order of the others |
| Presence.RotatedSplit | bluebrain/utils/presence.py:48 | `k` rotations move the first `k` messages, in order, behind the others |
| Presence.FullTurn | bluebrain/utils/presence.py:48 | as many rotations as there are messages restore the queue |
| Presence.FourSetsRestoreQueue | bluebrain/utils/presence.py:15-48 | the four initial messages come round again after four `set` calls, each at the front once and in order |
| Presence.PresenceSetter.constructor | bluebrain/utils/presence.py:10-22 | a new setter holds the initial template, the type `"watching"` and the four initial messages |
| Presence.PresenceSetter.SetName | bluebrain/utils/presence.py:31-33 | the `name` setter replaces the template |
| Presence.PresenceSetter.SetType | bluebrain/utils/presence.py:35-44 | the `type` setter accepts exactly the four listed members; a refused value leaves the type unchanged; after an accepted one the getter as written raises while the intended getter returns the member |
| Presence.PresenceSetter.Set | bluebrain/utils/presence.py:26-48 | `set` reads `name`, then `type`, and the first that raises ends the call with the queue unchanged; otherwise it publishes both and rotates the queue, so after any accepted type assignment it never publishes or rotates |
| Presence.PresenceSetter.SetIntended | bluebrain/utils/presence.py:26-48 | `set` with the intended `type` getter publishes the current name and stored type and rotates the queue; only a name that cannot be formatted stops it |
| Selectors.BuildPages | bluebrain/utils/menu/selectors.py:69-77 | there are `len // 9 + 1` pages; item `i` is stored on page `i // 9` under `option{i % 9 + 1}`; each page holds exactly the keys of its items |
| Selectors.PageSizes | bluebrain/utils/menu/selectors.py:69-77 | a page holds at most 9 entries; with a multiple of 9 items the last page is empty |
| Selectors.Clamp | bluebrain/utils/menu/selectors.py:92-94 | the `page` setter keeps the index in `[0, max_page - 1]` (just 0 when there are no pages) and keeps a value already in range |
| Selectors.Navigate | bluebrain/utils/menu/selectors.py:143-150 | step-back goes to the first page, page-back and page-next move by one without wrapping, and step-next goes to the last page |
| Selectors.Classify | bluebrain/utils/menu/selectors.py:139-152 | a reaction counts as exit or navigation exactly when the menu's author made it on the menu's message with that name, and each navigation is the one its emoji name names |
| Selectors.BuildSelection | bluebrain/utils/menu/selectors.py:109-126 | the list built by inserts is: back controls, then `option1`..`option{k}`, then forward controls, then the base |
| Selectors.InsertControls | bluebrain/utils/menu/selectors.py:110-121 | the control inserts put back controls before and forward controls after the base, and leave the insertion point after the back controls |
| Selectors.InsertBackControls | bluebrain/utils/menu/selectors.py:115-117 | the two `insert(0, ...)` calls put step-back first, then page-back |
| Selectors.InsertForwardControls | bluebrain/utils/menu/selectors.py:119-121 | the two `insert(insert_point, ...)` calls put page-next, then step-next, at the insertion point |
| Selectors.ControlsShown | bluebrain/utils/menu/selectors.py:109-126 | with more than one page, back controls are offered exactly when the page is not the first and forward controls exactly when it is not the last; the exit control always comes last |
| Selectors.NumericalStep | bluebrain/utils/menu/selectors.py:134-155 | after `wait_for`, a round of `NumericalSelector.response` keeps the page in range, and a finished round is never pending |
| Selectors.NumericalRun | bluebrain/utils/menu/selectors.py:128-155 | the page stays in range; a run never consumes more inputs than given, and is pending only when it consumed them all |
| Selectors.ControlsStep | bluebrain/utils/menu/selectors.py:227-246 | a round of `PageControls.response` keeps the page in range, and ends only on a timeout or an exit |
| Selectors.ControlsRun | bluebrain/utils/menu/selectors.py:221-246 | the page stays in range; `PageControls.response` never returns an item, only a timeout or an exit |
| Selectors.NumericalEndIsFinal | bluebrain/utils/menu/selectors.py:128-155 | once a numerical session has ended, later reactions change nothing |
| Selectors.NumericalAgree | bluebrain/utils/menu/selectors.py:128-155 | two input sequences that agree up to where a numerical session ends give the same outcome and state |
| Selectors.ControlsEndIsFinal | bluebrain/utils/menu/selectors.py:221-246 | once a paging session has ended, later reactions change nothing |
| Selectors.ControlsAgree | bluebrain/utils/menu/selectors.py:221-246 | two input sequences that agree up to where a paging session ends give the same outcome and state |
| Selectors.ControlsIgnoreOthers | bluebrain/utils/menu/selectors.py:232-246 | reactions by other users or on other messages never move a paging session's page and never end it |
| Selectors.ForeignReactionKeepsPage | bluebrain/utils/menu/selectors.py:139-152 | another user's reaction never moves a numerical session's page; it ends the round with the entry of that name, or with the `KeyError` |
| Selectors.CheckNotConsulted | bluebrain/utils/menu/selectors.py:14-31 | `_default_check` is never consulted: another user's `option1` selects the first item although the check would refuse it |
| Selectors.ExitByAuthor | bluebrain/utils/menu/selectors.py:139-142 | an exit by the author ends the session with no item, and stops the menu exactly when `auto_exit` is set |
| Selectors.NavigationByAuthor | bluebrain/utils/menu/selectors.py:143-155 | a navigation reaction by the author moves the page as the setter allows, asks the menu to switch, and starts a new round |
| Selectors.ControlsExitByAuthor | bluebrain/utils/menu/selectors.py:232-235 | an exit by the author ends a paging session with no item, and stops the menu exactly when `auto_exit` is set |
| Selectors.ControlsNavigationByAuthor | bluebrain/utils/menu/selectors.py:236-246 | a navigation reaction by the author moves a paging session's page as `Navigate` states, asks the menu to switch, and starts a new round |
| Selectors.BaseOutcome | bluebrain/utils/menu/selectors.py:40-51 | `Selector.response` returns nothing exactly on a timeout or on an author's exit under `auto_exit`; otherwise it returns the reaction's name |
| Selectors.PageInfoReadsBack | bluebrain/utils/menu/selectors.py:100-102 | `page_info` splits into four words whose second and fourth give the one-based page and the page count once the separators are dropped |
| Selectors.Selector.constructor | bluebrain/utils/menu/selectors.py:10-16 | a selector keeps its menu context and its base selection, and has asked nothing of its menu yet |
| Selectors.Selector.SetSelection | bluebrain/utils/menu/selectors.py:22-24 | the base `selection` setter replaces the selection |
| Selectors.Selector.Response | bluebrain/utils/menu/selectors.py:40-51 | one round serves the selection, waits once, stops the menu on an author's exit under `auto_exit`, and returns what `BaseOutcome` states |
| Selectors.NumericalSelector.constructor | bluebrain/utils/menu/selectors.py:65-77 | a new numerical selector starts on page 0 with empty selections, and its pages are those `BuildPages` states |
| Selectors.NumericalSelector.SetPage | bluebrain/utils/menu/selectors.py:92-94 | the `page` setter stores the clamped value |
| Selectors.NumericalSelector.SetSelection | bluebrain/utils/menu/selectors.py:83-86 | `set_selection` moves the old list to `last_selection` and stores the list for the current page |
| Selectors.NumericalSelector.Response | bluebrain/utils/menu/selectors.py:128-155 | the loop ends with the outcome, the inputs consumed and the state that `NumericalRun` gives |
| Selectors.NumericalSelector.Open | bluebrain/utils/menu/selectors.py:129-132 | the start of a round stores the new list, and serves it only when it differs from the last one |
| Selectors.NumericalSelector.Round | bluebrain/utils/menu/selectors.py:134-155 | the rest of a round does what `NumericalStep` states |
| Selectors.PageControls.constructor | bluebrain/utils/menu/selectors.py:170-178 | a new paging selector starts on page 0 with empty selections and one page per page map |
| Selectors.PageControls.SetPage | bluebrain/utils/menu/selectors.py:193-195 | the `page` setter stores the clamped value |
| Selectors.PageControls.SetSelection | bluebrain/utils/menu/selectors.py:205-219 | `set_selection` moves the old list to `last_selection` and stores the controls around the base |
| Selectors.PageControls.Response | bluebrain/utils/menu/selectors.py:221-246 | the loop ends with the outcome, the inputs consumed and the state that `ControlsRun` gives |
| Selectors.PageControls.Open | bluebrain/utils/menu/selectors.py:222-225 | the start of a round stores the new list, and serves it only when it differs from the last one |
| Selectors.PageControls.Round | bluebrain/utils/menu/selectors.py:227-246 | the rest of a round does what `ControlsStep` states |
| Tags.Names | bluebrain/bot/extensions/tags.py:39 | the name column holds exactly the names of the guild's tags |
| Tags.Contents | bluebrain/bot/extensions/tags.py:143 | the content column holds exactly the contents of the guild's tags |
| Tags.Lookup | bluebrain/bot/extensions/tags.py:51 | the record lookup finds a row exactly when the name is among the guild's names, and the row it finds has that guild and name |
| Tags.LookupFinds | bluebrain/bot/extensions/tags.py:51 | with names unique in a guild, looking up a tag's name finds that tag |
| Tags.FirstSharing | bluebrain/bot/extensions/tags.py:43-48 | the suggestion is the first name that starts with the unknown name's first letter; there is none exactly when no name shares that letter; an empty name raises when its turn comes |
| Tags.SuggestName | bluebrain/bot/extensions/tags.py:41-48 | the suggestion loop returns at its first match with a one-name cache, which is what `FirstSharing` states |
| Tags.CheckCreate | bluebrain/bot/extensions/tags.py:96-113 | `tags new` proceeds exactly when the name is lower case, at most 25 characters long and not yet taken in the guild |
| Tags.CheckEdit | bluebrain/bot/extensions/tags.py:134-150 | `tags edit` proceeds exactly when the name is lower case, the tag exists, the author owns it, and no tag of the guild already has the new content |
| Tags.CheckDelete | bluebrain/bot/extensions/tags.py:173-186 | `tags delete` proceeds exactly when the name is lower case, the tag exists and the author owns it |
| Tags.EditShowsContent | bluebrain/bot/extensions/tags.py:132-161 | after an edit the tag shows the new content, with its owner, id and name unchanged; every other tag is unchanged |
| Tags.DeleteUndoesCreate | bluebrain/bot/extensions/tags.py:181-183 | deleting a tag just created gives back the table as it was |
| Tags.Escape | bluebrain/bot/extensions/tags.py:254 | `replace('<', '\\<')` leaves every `<` preceded by a backslash |
| Tags.EscapeRoundTrip | bluebrain/bot/extensions/tags.py:254 | escaping loses nothing: reading `\<` back as `<` restores the content |
| Tags.Preview | bluebrain/bot/extensions/tags.py:254 | a preview is at most 353 characters long |
| Tags.PreviewReadsBack | bluebrain/bot/extensions/tags.py:254 | a preview is the whole escaped content when it fits in 350 characters, and otherwise its first 350 characters, followed by `...`; a content that fits reads back whole |
| Tags.Insert | bluebrain/bot/extensions/tags.py:242 | inserting into a sorted list keeps it sorted and adds exactly the one record |
| Tags.Sort | bluebrain/bot/extensions/tags.py:242 | `sorted(records)` is ordered by (name, id) and is a permutation of the records |
| Tags.Entries | bluebrain/bot/extensions/tags.py:230 | the records query returns exactly the (name, id) pairs of the guild's tags, or of the owner's tags when an owner is given |
| Tags.SortedEntries | bluebrain/bot/extensions/tags.py:242 | the sorted records are a permutation of the records, and each names a tag of the guild |
| Tags.ListingSorted | bluebrain/bot/extensions/tags.py:303-331 | a list has one page per listed record, in name order |
| Tags.ListingPageIsTag | bluebrain/bot/extensions/tags.py:312-329 | each page shows a listed tag's name and id and the preview of its content |
| Tags.ListingCoversTag | bluebrain/bot/extensions/tags.py:312-329 | every listed tag has its page |
| Tags.TagTable.Show | bluebrain/bot/extensions/tags.py:34-53 | `tag` refuses a name that is not lower case, shows the content of a known tag, and gives the suggestion for an unknown one |
| Tags.TagTable.Create | bluebrain/bot/extensions/tags.py:94-123 | `tags new` refuses as `CheckCreate` states, and otherwise appends one row owned by the author; names stay unique and well formed |
| Tags.TagTable.Edit | bluebrain/bot/extensions/tags.py:132-161 | `tags edit` refuses as `CheckEdit` states, and otherwise sets the content; the table stays valid |
| Tags.TagTable.Delete | bluebrain/bot/extensions/tags.py:171-188 | `tags delete` refuses as `CheckDelete` states, and otherwise removes the row so the name is free again |
| Tags.TagTable.Info | bluebrain/bot/extensions/tags.py:195-217 | `tags info` refuses a bad or unknown name, and otherwise returns the owner and id of the tag of that name |
| Tags.TagTable.BuildPages | bluebrain/bot/extensions/tags.py:310-329 | the loop appends one page per sorted record, which gives the listing |
| Tags.TagTable.ListAll | bluebrain/bot/extensions/tags.py:303-343 | `tags list` counts the guild's tags and shows the listing of all of them |
| Tags.TagTable.ListMember | bluebrain/bot/extensions/tags.py:224-273 | `tags all` lists the target's tags, or the author's when no target is given, out of the guild's total; it refuses exactly when they own none |
| Warnings.StrikeLimit | bluebrain/bot/extensions/warn.py:94-99 | `max_strikes or 3` is 3 when the guild has no settings row, a null or a zero, and the stored value otherwise |
| Warnings.PointLimit | bluebrain/bot/extensions/warn.py:94-108 | `max_points or 12` is 12 when the guild has no settings row, a null or a zero, and the stored value otherwise |
| Warnings.DefaultLimitsBan | bluebrain/bot/extensions/warn.py:94-108 | with no settings row, a target is banned on their third warning of the type, or else once they hold 12 points |
| Warnings.TypeNames | bluebrain/bot/extensions/warn.py:235 | the warn type column holds exactly the names of the guild's types |
| Warnings.PointsOf | bluebrain/bot/extensions/warn.py:65-70 | `type_map` has an entry exactly for the guild's type names, and the entry is the points of a row of that name |
| Warnings.OfMember | bluebrain/bot/extensions/warn.py:91-93 | a member's records are exactly that member's warnings in the guild |
| Warnings.CheckWarn | bluebrain/bot/extensions/warn.py:51-73 | `warn` proceeds exactly when there are targets, the type is lower case, any override is 1..20, any comment is at most 256 characters, and the type exists |
| Warnings.Judge | bluebrain/bot/extensions/warn.py:99-112 | a member is banned for strikes exactly when their count for this type reaches the strike limit; otherwise, for points exactly when their total reaches the point limit |
| Warnings.Process | bluebrain/bot/extensions/warn.py:75-116 | the target loop reports at most one verdict per target and only appends rows |
| Warnings.ProcessReports | bluebrain/bot/extensions/warn.py:75-116 | report `i` is about `targets[i]`, skipped exactly when that target is a bot; every target is reported unless the loop stopped at a ban, which is then the last report |
| Warnings.ProcessWrites | bluebrain/bot/extensions/warn.py:75-116 | the loop writes one row per judged target, each recording the call for a human target; only the last report can be a ban |
| Warnings.OnlyBots | bluebrain/bot/extensions/warn.py:75-78 | when every target is a bot nothing is written and every target is reported skipped |
| Warnings.FirstTargetBanned | bluebrain/bot/extensions/warn.py:99-104 | a strike ban of the first human target ends the loop after one row |
| Warnings.ListShowsOldest | bluebrain/bot/extensions/warn.py:150-184 | `warn list` totals all the member's points and counts `min(n, 10)` of `n`; the ten warnings it shows are the oldest ten, newest of them first |
| Warnings.ProcessKeepsConsistent | bluebrain/bot/extensions/warn.py:75-116 | warning members writes rows of an existing type only, so the tables stay consistent |
| Warnings.AddKeepsConsistent | bluebrain/bot/extensions/warn.py:220-251 | a new type with a fresh lower-case name and 1..20 points keeps the tables consistent while the guild has fewer than 25 types |
| Warnings.DeleteKeepsConsistent | bluebrain/bot/extensions/warn.py:342-355 | deleting a type and its warnings keeps the tables consistent, and the name is gone |
| Warnings.RenameRepointAsWrittenLosesType | bluebrain/bot/extensions/warn.py:284-303 | the edit of both fields as written renames warnings but not the type, so the warnings name a type that does not exist |
| Warnings.RenameKeepsConsistent | bluebrain/bot/extensions/warn.py:304-314 | a rename to a fresh lower-case name keeps the tables consistent; the old name is gone and the new one exists |
| Warnings.RepointKeepsConsistent | bluebrain/bot/extensions/warn.py:315-333 | a points edit in range keeps the tables consistent, renames nothing, and the type reads back with the new points |
| Warnings.RenameRepointKeepsConsistent | bluebrain/bot/extensions/warn.py:284-303 | the corrected edit of both fields keeps the tables consistent; the type is found under its new name with its new points |
| Warnings.RenameRoundTrip | bluebrain/bot/extensions/warn.py:304-314 | renaming a type to a fresh name and back restores both tables |
| Warnings.CheckNew | bluebrain/bot/extensions/warn.py:222-244 | `warntype new` proceeds exactly when the name is lower case and at most 25 characters long, the points are 1..20, the guild does not have exactly 25 types, and the name is fresh |
| Warnings.CheckEdit | bluebrain/bot/extensions/warn.py:260-282 | `warntype edit` proceeds exactly when supplied points are 1..20 and a supplied name is lower case, differs from the old one, is fresh, and the old type exists |
| Warnings.EditKeepsConsistent | bluebrain/bot/extensions/warn.py:258-333 | every edit that passes the checks keeps the tables consistent, with the corrected edit of both fields (`Edit`); the as-written one does not (`EditAsWrittenDiffers`) |
| Warnings.EditAsWrittenAgrees | bluebrain/bot/extensions/warn.py:284-332 | the as-written and the corrected edit make the same update unless a new name and new points are both given |
| Warnings.EditAsWrittenDiffers | bluebrain/bot/extensions/warn.py:284-303 | `warntype edit spam 3 flood` passes the checks; as written it leaves a warning naming a missing type, while the corrected edit keeps every warning's type |
| Warnings.DeleteUndoesNew | bluebrain/bot/extensions/warn.py:342-355 | deleting a type just created gives back both tables |
| Warnings.WarnTables.WarnMembers | bluebrain/bot/extensions/warn.py:41-116 | `warn` refuses as `CheckWarn` states and then writes nothing; otherwise it runs the target loop with the override or the type's points, and the tables stay consistent |
| Warnings.WarnTables.RunTargets | bluebrain/bot/extensions/warn.py:75-116 | the loop's reports and rows are what `Process` states |
| Warnings.WarnTables.Visit | bluebrain/bot/extensions/warn.py:75-112 | one pass skips a bot, or writes a row and judges the target, stopping at a ban |
| Warnings.WarnTables.Remove | bluebrain/bot/extensions/warn.py:123-130 | `warn remove` deletes the warnings with that id, in any guild, and refuses exactly when there are none |
| Warnings.WarnTables.Reset | bluebrain/bot/extensions/warn.py:136-145 | `warn reset` deletes the member's warnings in the guild, and refuses exactly when they have none |
| Warnings.WarnTables.NewType | bluebrain/bot/extensions/warn.py:220-251 | `warntype new` refuses as `CheckNew` states, and otherwise adds the type, whose points then read back |
| Warnings.WarnTables.EditType | bluebrain/bot/extensions/warn.py:258-333 | `warntype edit` refuses as `CheckEdit` states and then changes nothing; otherwise it makes the update of the branch the supplied fields choose, with the corrected edit of both fields |
| Warnings.WarnTables.DeleteType | bluebrain/bot/extensions/warn.py:342-355 | `warntype delete` refuses a bad name with `BadIdentifier` and a missing type with `NoSuchType`; otherwise it removes the type and its warnings; either way the name is not a type afterwards |

## Left out

- Discord and database calls are not performed, and awaiting is not modelled:
  - replies, embeds and their wording;
  - reaction serving and the guild emoji fetch;
  - bans;
  - `update_presence`;
  - the REST lookups of users.
- A reply is a returned value, and a request to the menu is a logged event.
- Concurrency between commands is not modelled: each command runs to its end
  against the tables.
- `wait_for` results are an input sequence, and `None` stands for a timeout.
  Running out of inputs is the outcome `Pending`.
- Timeouts are kept as real numbers. Their formatting by `chron.long_delta`
  is not modelled.
- The emoji ids in a selection are not parsed. `_serve` calls `int(e)` on
  every entry, which would raise on the `option` keys; the model only logs
  the list it was asked to serve.
- The optional `check` argument of the selectors is stored by the source
  but never consulted, so it is not modelled. `Selectors.CheckNotConsulted`
  shows what this means for `_default_check`.
- The `table` property, the `__repr__` methods and the presence scheduler
  job are not modelled.
- The `MISSING` sentinel is the constructor `Missing` of an optional
  argument, and the builder's `is not MISSING` is `Given?`. The sentinel's
  `__eq__` is not modelled, because the builder never compares with `==`.
  Its falsiness is modelled where the builder relies on it: `scopes or
  ('bot',)` in `OAuth.ScopesOrBot`.
- `oauth_url` receives permissions and guild as numbers, and its redirect
  URI encoding (`urlencode`) as a function parameter. Nothing is assumed of
  that encoding except, in `OAuth.QueryReadsBack`, that its result holds no
  `&`.
- Readiness.ToLower: only ASCII letters are lower-cased. Python's Unicode
  case mapping is not modelled.
- The `PresenceSetter` class keeps both `type` getters: `Type` as written,
  which `Set` uses, and `IntendedType`, which `SetIntended` uses. The
  scheduler calls `set` as written.
- Presence.Format: only keyword fields and doubled braces are modelled.
  Format specifications, conversions and positional or indexed fields are
  not.
- Fresh warn ids and tag ids are inputs, because the bot derives them from
  the clock.
- Warn and tag creation times are not modelled. The order of rows stands
  for `WarnTime`.
- Guild settings (`warn` table) are read-only input. No command in the core
  changes them.
- Warnings.ListWarns has no contract of its own; `Warnings.ListShowsOldest`
  states its result for a resolved member.
- The `warntype` and `tags` group listings of subcommands are left out: they
  only render help text.
- `warntype list` is left out: it only renders the guild's type rows.
- `tags raw` is left out: `escape_markdown` is outside the core.
- The `IndexError` fallback of the two tag list commands is left out. A list
  always has a page per record here, and an empty list gives no pages.
- `tags edit` and `tags delete` on an unknown name fail when they unpack the
  missing record. That failure is modelled as the refusal `NoSuchTag`.
- After a successful delete, `tags delete`'s "does not exist" reply cannot
  be reached. The model has no such branch.
- Several replies call `ctx.repond`, which would raise `AttributeError`.
  This is a reply-only difference: the table is unchanged either way.
- Warnings.WarnTables.EditType / Warnings.Edit / Warnings.EditKeepsConsistent:
  with both a new name and new points, the class applies the corrected edit
  `RenameRepoint`, not the source's update of the warnings alone, because the
  as-written update breaks `Referenced`, which `Valid()` keeps. The
  as-written command is `Warnings.EditAsWritten`, and
  `Warnings.EditAsWrittenDiffers` shows where the two part.
- `warntype edit` with an empty new name or zero new points: an empty name
  is falsy and renames nothing, as `Warnings.Edit` models. Zero points are
  refused by the range check first.

## Findings

| source | as written | input that shows it | evidently intended | confidence | as-written member | corrected member |
|---|---|---|---|---|---|---|
| bluebrain/utils/presence.py:35-44 | the `type` getter passes the stored value to `getattr` as an attribute name, but the setter stores an `ActivityType` member, so every read after an accepted assignment raises `TypeError` | `setter.type = ActivityType.PLAYING`, then `setter.type` | the getter returns the stored member, and names a member only while the initial string is stored | not executed | Presence.AcceptedTypeBreaksGetter | Presence.TypeOf |
| bluebrain/bot/extensions/warn.py:284-303 | with both a new name and new points, `warntype edit` updates only the `warns` rows and never the `warntypes` row, so warnings name a type that no longer matches any type | type `spam` (2 points) with one warning; `warntype edit spam 3 flood` with retroactive updates off | rename the type and its warnings, then set the new points as the points branch does | not executed | Warnings.RenameRepointAsWrittenLosesType | Warnings.RenameRepointKeepsConsistent |
