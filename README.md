# Auto-unlock scheduler and episode access model

A Dafny model of the core of the WordPress plugin *Gemini Patreon Automation*
(`gemini-prompt.php`). The plugin sells early access to web-novel episodes:

- An episode in the `advance` category of the `chapter-categories` taxonomy is for patrons.
- An episode in the `free` category is public.

The model covers:

- **The per-novel auto-unlock scheduler.**
  - `gpc_run_novel_unlock` walks the saved schedules. For each one it reads the novel's
    next due date, or computes the first one.
  - When the schedule is due, it frees the novel's oldest `advance` episode and moves the
    due date on with `calculate_next_unlock_date`.
  - `get_oldest_advance_episode_for_novel` chooses that episode.
- **The access-state appliers.** They rewrite a post's category, the Patreon plugin's tier
  meta and an ACF field:
  - `unlock_episode` for the scheduled path;
  - `update_patreon_plugin_access`;
  - the WordPress side of `execute_episode_action`, the command path driven by the language
    model's reply.
- **The small parsers and classifiers around them:**
  - `extract_episode_number` and the counters of `perform_episode_sync`;
  - the first-`{…}` extraction from the model's reply;
  - the earliest enabled run time used for the daily trigger;
  - the Patreon PATCH body and the classification of its answer.

How the model is built:

- The WordPress data is one value, `Snapshots.Snapshot`. It holds the posts (each with its
  stored title, the title `get_the_title()` shows, its type and its status), the query
  listing, the term table, each post's terms, post meta, ACF fields, each novel's
  `gpc_next_unlock_date`, and whether the code runs on an admin screen with an
  administrator logged in (`inAdmin`) or from cron.
- Each operation is a function on snapshots with its contract and lemmas. "Now", the Patreon
  HTTP answer and `json_decode` are parameters.
- The class `Unlocker.Store` holds the same data as mutable fields. Its methods are the
  plugin's operations written as the source writes them, step by step and with loops. Each
  method is proved to leave the store exactly as the specification function describes.
- Time is modelled as `Calendar.Moment(day, sec)`: a local day number (day 0 is Thursday
  1 January 1970) and the second of the day. One day is always 86400 seconds.
- PHP behaviour the source relies on is written out in `PhpText`:
  - `empty()` is true for `""` and `"0"`;
  - `intval`;
  - loose `==` between a string and an integer;
  - string `<`.

Modules, in dependency order: `Wrappers`, `PhpText`, `Calendar`, `Schedules`, `Snapshots`,
`EpisodeNumbers`, `GeminiReply`, `Patreon`, `Access`, `Selection`, `EpisodeSync`, `Runner`,
`Unlocker`.

Where the code and the plugin's stated behaviour differ, the model follows the code:

- The settings form shows a "Skip Sat/Sun" checkbox, ticked by default. The save handler
  never stores it (gemini-prompt.php:613-620). The runner therefore reads it as false, both
  at the bootstrap (869) and in the calculator call (899). See "## Findings".
- `unlock_episode` never calls the Patreon API, and it writes the hard-coded ACF field
  `section`. It looks up the Free term by name only. The command path looks it up by name
  and then by slug, and writes the configured ACF field.
- The Patreon call succeeds only on status 200 exactly. Any other 2xx is a failure.
- The selector compares the novel's stored title with each episode's filtered title
  (`get_the_title()`), so a title that `wptexturize` changes can hide every episode of a
  novel. See "## Findings".
- `empty("0")` is true. An episode whose `episode_number` is `"0"` is never selected
  (982). During sync, a title whose detected number is 0 counts as "No number found" (528).

## Model

| member | source | states |
|---|---|---|
| Calendar.CalculateNextUnlockDate | gemini-prompt.php:1030-1050 | the loop's result is the day reached by counting `days_interval` days at the same time of day; with `days_interval` ≤ 0 the input is returned; otherwise the result is strictly later, is a counting day (never Saturday or Sunday when skipping) and exactly `days_interval` counting days lie in (input, result] |
| Calendar.NextCountingDay | gemini-prompt.php:1034-1047 | the next day the loop counts is 1 to 3 days later, counts, and every day skipped before it is a weekend day |
| Calendar.SkippedDayChangesNothing | gemini-prompt.php:1040-1043 | stepping onto a weekend day that is skipped (`continue` without counting) does not change where the count ends |
| Calendar.AdvanceDaysCounts | gemini-prompt.php:1034-1047 | for an interval ≥ 1, the result is later than the start, is a counting day, and exactly n counting days lie in (start, result] |
| Calendar.AdvanceDaysUnique | gemini-prompt.php:1034-1047 | the counting characterisation is complete: any later counting day with exactly n counting days up to it is the calculator's result |
| Calendar.AdvanceDaysPlain | gemini-prompt.php:1030-1050 | without weekend skipping the result is exactly n calendar days later (the input when n ≤ 0) |
| Calendar.AdvanceDaysNotEarlier | gemini-prompt.php:1030-1050 | the calculator never moves a date backwards |
| Calendar.FirstDueDate | gemini-prompt.php:847-876 | the bootstrap is at the schedule's time of day, strictly after now, on a counting day (Sunday moved +1, Saturday +2 when skipping), and no earlier such day exists |
| Schedules.KeptIndices | gemini-prompt.php:611-612 | the positions of the rows the save handler keeps, in increasing order: exactly the rows whose novel id is not empty |
| Schedules.SaveFrom | gemini-prompt.php:611-622 | the foreach builds one schedule per kept row in form order, the j-th from the row at the j-th kept position, nothing merged, dropped or reordered |
| Schedules.SaveSchedules | gemini-prompt.php:607-625 | the saved list has one schedule per kept form row, in form order; the j-th has the intval'd novel id and interval, the texts and enabled flag of the row at the j-th kept position, and `skipWeekends` false |
| Schedules.SavedSchedulesNeverSkipWeekends | gemini-prompt.php:613-620 | whatever the form holds, no saved schedule skips weekends |
| Schedules.TickedSkipWeekendsIsLost | gemini-prompt.php:613-620 | the default new row, with "Skip Sat/Sun" ticked, is saved as a schedule that does not skip weekends |
| Schedules.SaveSchedulesKeepingSkip | gemini-prompt.php:613-620 | the corrected save handler: the same schedules, with the checkbox stored in `skipWeekends` |
| PhpText.FirstFrom | gemini-prompt.php:852 | the position of the first occurrence of a character at or after j (the ':' that `explode` splits on, the '}' that closes `[^}]+`), and none when it does not occur |
| Schedules.AnchorSeconds | gemini-prompt.php:852-858 | a run time whose `(int)` hour and minute are in range denotes a second within the day |
| Schedules.ParseWellFormedTime | gemini-prompt.php:852-854 | exploding an "HH:MM" value on ':' and casting both parts gives its hour and minute, so it is a valid run time |
| Schedules.WellFormedTimeOrder | gemini-prompt.php:631 | for "HH:MM" values PHP's string `<` agrees with the order of the times of day, in both directions |
| Schedules.StrLessIrreflexive | gemini-prompt.php:631 | string `<` is irreflexive |
| Schedules.StrLessTransitive | gemini-prompt.php:631 | string `<` is transitive |
| Schedules.StrLessTotal | gemini-prompt.php:631 | any two strings are equal or ordered one way by `<` |
| Schedules.EarliestFrom | gemini-prompt.php:629-634 | the fold returns the start value or an enabled schedule's time, and nothing it saw (start or enabled time) is string-smaller than the result |
| Schedules.EarliestIsMinimumTime | gemini-prompt.php:629-634 | with "HH:MM" times, the earliest time is a time of day no later than 23:59 and no later than any enabled schedule's time |
| Schedules.FirstTriggerTime | gemini-prompt.php:635-638 | the trigger is today at that time unless that is already past, then tomorrow: the earliest moment at that time not before now |
| Schedules.DailyTrigger | gemini-prompt.php:628-639 | a trigger is set exactly when some schedule was saved; it is then exactly the first moment, not before now, at the earliest enabled time (`FirstTriggerTime`), so its time of day is no later than any enabled schedule's |
| Snapshots.UpdateMeta | gemini-prompt.php:347 | update_post_meta sets one key of one post and changes no other key, post or table |
| Snapshots.DeleteMeta | gemini-prompt.php:345-346 | delete_post_meta removes one key of one post and changes no other key, post or table |
| Snapshots.UpdateField | gemini-prompt.php:1023 | update_field sets one field of one post, keeps the post's other fields, and changes nothing else |
| Snapshots.SetTerms | gemini-prompt.php:1015 | wp_set_object_terms without append makes the post's terms exactly the one term and changes nothing else |
| Snapshots.GetTermBy | gemini-prompt.php:1006 | get_term_by returns the first term whose name (or slug) matches, and none exactly when no term matches |
| Snapshots.GetTermByAppend | gemini-prompt.php:1006-1012 | after a term is appended, the lookup finds the earlier match if there was one, else the new term exactly when it matches |
| Snapshots.InsertTerm | gemini-prompt.php:1008 | wp_insert_term appends one term with the given name and the slug, or the slug with "-2" exactly when the slug is already taken, and changes nothing else |
| Access.FreeTermForUnlock | gemini-prompt.php:1006-1012 | the term unlock_episode assigns is named "Free" and is the first such term; the table is unchanged or the term was appended |
| Access.ClearGate | gemini-prompt.php:1018-1020 | after the two deletes and the update, `_ppwp_patreon_level` is absent and `patreon-level` is "0"; other keys and posts are unchanged |
| Access.ClearGateWhenCleared | gemini-prompt.php:1018-1020 | clearing an already cleared gate changes nothing |
| Access.UnlockEpisode | gemini-prompt.php:1005-1025 | afterwards the post's terms are exactly one term named "Free", `_ppwp_patreon_level` is absent, `patreon-level` is "0", other meta keys keep their values, with ACF the field `section` is "free" and the post's other fields are kept (no field is written without ACF); other posts, the listing and due dates are untouched, and the term table is only extended |
| Access.UnlockEpisodeIdempotent | gemini-prompt.php:1005-1025 | unlocking twice leaves exactly what unlocking once leaves |
| Access.UnlockedEpisodeLeavesAdvance | gemini-prompt.php:1005-1016 | an unlocked episode carries no `advance` term, unless the term named "Free" itself has the slug `advance` |
| Access.PluginAccess | gemini-prompt.php:341-360 | 'free' deletes `_ppwp_patreon_level` and sets `patreon-level` to "0"; any other type with a configured tier sets both keys to the tier id; with an empty tier id nothing changes; no other key or post changes |
| Access.AdvanceThenFree | gemini-prompt.php:344-359 | making an episode advance and then free leaves exactly what making it free leaves |
| Access.FreeIdempotent | gemini-prompt.php:344-348 | making an episode free twice equals making it free once |
| Access.UnlockMetaMatchesFreeCommand | gemini-prompt.php:1018-1020 | the scheduled unlock leaves the same post meta as the plugin update for 'free' |
| Access.AccessTerm | gemini-prompt.php:263-304 | the command path's term is the first term named "Advance"/"Free" when there is one; otherwise the first with slug "advance"/"free"; otherwise a newly inserted term, and only then does the table change |
| Access.FindEpisodeByNumber | gemini-prompt.php:201-241 | the first 'episodes' post in query order that the default query shows (published; on an admin screen also draft, pending, future and private) whose number meta is the number written as a string, and none exactly when no post qualifies |
| Access.TermAndGate | gemini-prompt.php:285-304 | the post's terms become exactly the term `AccessTerm` picks, the post meta becomes what `PluginAccess` writes, and posts, listing, fields and due dates are untouched |
| Access.FreeAndClear | gemini-prompt.php:1006-1020 | the post's terms become exactly the "Free" term `FreeTermForUnlock` picks, the post meta becomes what `ClearGate` writes, and posts, listing, fields and due dates are untouched |
| Access.ApplyAccess | gemini-prompt.php:263-318 | after an episode is found, its terms are exactly the term `AccessTerm` picks; 'free' clears the plugin gate, another type with a configured tier sets both keys to it, and with an empty tier both keys keep their values; with ACF the configured field holds the access type and the post's other fields are kept; nothing else changes but the term table's extension |
| Access.PatreonStepFor | gemini-prompt.php:320-333 | the Patreon API is called exactly when the post's Patreon id is not empty; a request goes out exactly when a token is configured; the post is made public exactly for 'free'; success is exactly status 200 |
| Access.ExecuteEpisodeAction | gemini-prompt.php:177-339 | the command fails exactly when a field is missing, the access type is not 'free'/'advance', or no episode has the number; "missing fields" exactly when a field is absent; "invalid access type" exactly when both fields are present and the type is neither 'free' nor 'advance' (187-192); any other failure is "episode not found" carrying the requested number (233-238); a failure changes nothing; success applies the access to the episode found and calls Patreon with the post's Patreon id read after the writes |
| Access.PatreonAnswerDoesNotDecide | gemini-prompt.php:320-338 | the command's writes and its success do not depend on what the Patreon API answers |
| Access.FreeCommandMatchesUnlock | gemini-prompt.php:285-318 | when a term named "Free" exists and the ACF field is configured as `section`, the command's 'free' writes are exactly the scheduled unlock's |
| Patreon.PayloadFor | gemini-prompt.php:382-403 | the PATCH body names the Patreon post, has type "post", and is public exactly for 'free' |
| Patreon.Prefix200 | gemini-prompt.php:433 | the quoted body is all of it when it has at most 200 characters, else exactly its first 200 |
| Patreon.Classify | gemini-prompt.php:370-435 | the token is missing exactly when it is empty; success exactly for a configured token and an HTTP answer with status 200; a rejection carries the status, which is not 200 |
| Patreon.OnlyStatus200Succeeds | gemini-prompt.php:425 | among 2xx statuses only 200 counts as success |
| Patreon.UpdatePostAccess | gemini-prompt.php:370-435 | a request is sent exactly when a token is configured, it is public exactly for 'free', and success means a request was sent and status 200 came back |
| GeminiReply.BracedFrom | gemini-prompt.php:165 | preg_match of `/\{[^}]+\}/` returns the leftmost match, and none exactly when no position matches |
| GeminiReply.InterpretReply | gemini-prompt.php:165-174 | the first braced fragment's decoding when there is a fragment and it decodes; the whole reply's decoding when there is no fragment or it does not decode |
| GeminiReply.EmbeddedObjectRecovered | gemini-prompt.php:165-170 | a flat JSON object after prose without '{' is exactly what the extraction returns, whatever follows it |
| EpisodeNumbers.FirstMatch | gemini-prompt.php:591 | preg_match returns the leftmost match of a pattern, and none exactly when no position matches |
| EpisodeNumbers.ExtractWith | gemini-prompt.php:590-596 | trying patterns in order, a number comes back exactly when some pattern matches; it is the leftmost match of the first matching pattern, and every earlier pattern matches nowhere |
| EpisodeNumbers.ExtractEpisodeNumber | gemini-prompt.php:581-597 | the same for the fixed list Episode, Ep, Chapter, trailing number, # |
| EpisodeNumbers.EpisodeTitleRoundTrip | gemini-prompt.php:583 | a title "Episode " followed by n's digits yields n |
| PhpText.IntValOfIntToString | gemini-prompt.php:535 | intval of the string update_post_meta stores for an integer gives the integer back, and that string is numeric |
| PhpText.LooseEqualsOwnString | gemini-prompt.php:529 | the stored string of an integer is loosely equal to exactly that integer |
| EpisodeSync.EpisodesOf | gemini-prompt.php:486-494 | the query yields exactly the 'episodes' posts of the listing whose status is not 'trash' or 'auto-draft' (post_status 'any'), without repeats when the listing has none |
| EpisodeSync.Decide | gemini-prompt.php:528-549 | "No number found" exactly when nothing or 0 is detected; "Already set" exactly when a non-zero number is detected and the stored value loosely equals it; otherwise an update to the detected number |
| EpisodeSync.Count | gemini-prompt.php:532-548 | each row raises exactly one counter by one |
| EpisodeSync.SyncStep | gemini-prompt.php:533-536 | the meta is written, with the detected number, only when saving an update; otherwise nothing changes, and only that post's meta can change |
| EpisodeSync.SyncTotal | gemini-prompt.php:504-549 | updated + skipped + failed equals the number of episodes scanned, saving or not |
| EpisodeSync.PreviewWritesNothing | gemini-prompt.php:533-543 | a preview leaves the store unchanged |
| EpisodeSync.PreviewTallyMatchesSave | gemini-prompt.php:528-549 | over distinct episodes a preview counts exactly what a saving run counts |
| EpisodeSync.SyncStepSettles | gemini-prompt.php:529-536 | an episode just synced no longer needs an update |
| EpisodeSync.SavedNumbersAreSet | gemini-prompt.php:517-549 | after a saving run no scanned episode needs an update |
| EpisodeSync.SecondSyncUpdatesNothing | gemini-prompt.php:517-549 | a second saving run updates no episode |
| Selection.CustomSearchTerm | gemini-prompt.php:940-948 | the search term of the first schedule for the novel whose term is not empty, and none exactly when no schedule supplies one |
| Selection.SearchTerm | gemini-prompt.php:940-953 | the custom term when there is one, else the novel's title |
| Selection.OldestCandidate | gemini-prompt.php:975-1002 | none exactly when no post qualifies; otherwise a qualifying post with the smallest number that no earlier qualifying post ties (the stable sort's first element) |
| Selection.OldestAdvanceEpisode | gemini-prompt.php:933-1003 | nothing for a missing novel; otherwise nothing exactly when no advance episode that the default query shows has a shown title (`get_the_title()`) containing the search term, ignoring case, and a non-empty number; else such an episode with the smallest intval number, and the first in query order among those with that number |
| Selection.OldestAdvanceEpisodeByPostTitle | gemini-prompt.php:952-982 | the corrected selector compares stored episode titles: the search term is unchanged, nothing exactly when no episode qualifies by its stored title, else the first of the smallest-numbered such episodes in query order |
| Selection.ByPostTitleFindsTitledEpisode | gemini-prompt.php:952-982 | with no custom term, a shown advance episode with a number whose stored title contains the novel's stored title is always found by the corrected selector |
| Selection.TexturizedTitleHidesEpisode | gemini-prompt.php:952-982 | for the novel "Hero's Path" and its advance episode "Hero's Path Episode 3", shown as "Hero&#8217;s Path Episode 3", the selector as written finds nothing and the corrected one finds the episode |
| Selection.EpisodeZeroNeverChosen | gemini-prompt.php:982 | the chosen episode's number is never "0" |
| Runner.CurrentDue | gemini-prompt.php:845-876 | the stored due date when there is one, else the bootstrapped first due date, which is after now |
| Runner.NextDue | gemini-prompt.php:899 | the new due date is computed from the old due date, keeps its time of day and is not earlier |
| Runner.SelectionIgnoresDueDates | gemini-prompt.php:878-890 | storing the bootstrapped due date does not change which episode the selector picks |
| Runner.UnlockIgnoresDueDates | gemini-prompt.php:896 | unlock_episode reads and writes no due date |
| Runner.ActOnDue | gemini-prompt.php:889-907 | for a due schedule, a row other than "Unlocked" changes nothing; "Unlocked" happens only outside preview, and it stores a next due date that is not earlier than the current one |
| Runner.ActOnDueStatus | gemini-prompt.php:889-907 | the due schedule's status is "No episodes" exactly when the selector finds none, "Will unlock" exactly in preview when it finds one, "Unlocked" exactly outside preview when it finds one, and the episode named is the selector's |
| Runner.RunSchedule | gemini-prompt.php:833-918 | no row exactly when the schedule is disabled or its novel is missing; then, and in preview, nothing is written; the row shows the novel and its current due date; no stored due date is dropped or moved back |
| Runner.RunScheduleDueness | gemini-prompt.php:889 | a shown schedule is "not due" exactly when not forced and its due date is after now |
| Runner.RunScheduleEpisode | gemini-prompt.php:889-911 | a due schedule reports no episode exactly when the selector finds none; otherwise it announces (preview) or performs (real run) the unlock of the selector's episode |
| Runner.RunScheduleUnlockWrites | gemini-prompt.php:895-903 | a real unlock step unlocks the episode and stores the due date computed from the old due date, and nothing else |
| Runner.RunScheduleOtherWrites | gemini-prompt.php:847-880 | a real step that does not unlock only stores the due date it shows (the bootstrapped one when there was none) |
| Runner.RunRows | gemini-prompt.php:833-918 | the table has at most one row per schedule |
| Runner.UnlockedCount | gemini-prompt.php:903-906 | unlocked_count is at most the number of rows |
| Runner.PreviewRunWritesNothing | gemini-prompt.php:878-907 | a whole preview run leaves the store unchanged: no bootstrap write, no unlock, no new due date |
| Runner.DueDatesNeverMoveBack | gemini-prompt.php:878-900 | over a whole run no stored due date is dropped or moved earlier |
| Runner.PreviewStepMatchesRealStep | gemini-prompt.php:895-907 | on the same store a preview step and a real step show the same novel, due date and episode and both count it; "Will unlock" exactly when the real step unlocks |
| Runner.SavedScheduleAdvancesByCalendarDays | gemini-prompt.php:899 | with schedules as the save handler stores them, each unlock moves the due date on by exactly the interval in calendar days |
| Runner.KeptSkipUnlocksOnWeekdays | gemini-prompt.php:869-876 | with the checkbox stored, a ticked schedule's first due date and every later one fall on a weekday |
| Unlocker.Store.UpdatePostMeta | gemini-prompt.php:347 | the store afterwards is `Snapshots.UpdateMeta` of the store before |
| Unlocker.Store.DeletePostMeta | gemini-prompt.php:345 | the store afterwards is `Snapshots.DeleteMeta` of the store before |
| Unlocker.Store.SetField | gemini-prompt.php:1023 | the store afterwards is `Snapshots.UpdateField` of the store before |
| Unlocker.Store.SetObjectTerms | gemini-prompt.php:1015 | the store afterwards is `Snapshots.SetTerms` of the store before |
| Unlocker.Store.AddTerm | gemini-prompt.php:1008 | the store and the new id are `Snapshots.InsertTerm` of the store before |
| Unlocker.Store.UnlockEpisode | gemini-prompt.php:1005-1025 | the in-place unlock leaves the store as `Access.UnlockEpisode` describes |
| Unlocker.Store.UpdatePatreonPluginAccess | gemini-prompt.php:341-360 | the in-place plugin update leaves the store as `Access.PluginAccess` describes |
| Unlocker.Store.FindOrCreateAccessTerm | gemini-prompt.php:263-302 | the term lookup, with insertion, leaves the store and returns the id as `Access.AccessTerm` describes |
| Unlocker.Store.ExecuteEpisodeAction | gemini-prompt.php:177-339 | the in-place command leaves the store and returns the result as `Access.ExecuteEpisodeAction` describes |
| Unlocker.Store.SyncPost | gemini-prompt.php:525-548 | one episode of the sync loop returns its `EpisodeSync.StatusIn` status and leaves the store as `EpisodeSync.SyncStep` describes |
| Unlocker.Store.SyncEpisodeNumbers | gemini-prompt.php:485-549 | the loop over all episodes leaves the store and the three counters as `EpisodeSync.SyncState`/`SyncTally` describe |
| Unlocker.Store.RunOneSchedule | gemini-prompt.php:833-918 | one pass of the runner's loop body leaves the store and returns the row as `Runner.RunSchedule` describes |
| Unlocker.Store.RunNovelUnlock | gemini-prompt.php:815-931 | the runner's loop leaves the store and the rows as `Runner.RunState`/`RunRows` describe, and unlocked_count is the number of rows that unlocked or would unlock |
| Unlocker.Store.UnlockAndAdvance | gemini-prompt.php:895-900 | the real unlock leaves the store as `Access.UnlockEpisode` describes with the novel's due date replaced by `Runner.NextDue` of the old one |
| Unlocker.Store.RecordRow | gemini-prompt.php:903-906 | a schedule's row, when there is one, is appended to the run's rows, and the unlocked count stays the number of rows that unlocked or would unlock |

## Left out

- Runner.RunSchedule: requires every enabled schedule's run time to have an `(int)` hour in 0..23 and minute in 0..59. The code passes out-of-range values to `sprintf`/`strtotime`, whose result is not modelled. The same requirement is on `Runner.CurrentDue` and `Unlocker.Store.RunNovelUnlock`.
- Runner.CurrentDue: no stored due date and an empty one are the same thing here; a stored date that `strtotime` cannot parse is not modelled.
- Schedules.DailyTrigger: requires enabled run times of the form "HH:MM", the value the form's time input submits. With other strings, `strtotime` decides, and that is not modelled.
- Calendar.FirstDueDate: treats every day as 86400 seconds. `+86400` across a daylight-saving change, `date`/`strtotime` and the site time zone are not modelled.
- Access.UnlockEpisode: assumes `wp_insert_term` succeeds. The error path (no term is set when insertion fails) is not modelled. The same holds for the command path's "Failed to create … term" return in `Access.ExecuteEpisodeAction`.
- Snapshots.UpdateField: ACF fields are kept apart from post meta. ACF's `update_field` also stores the value under the field's own meta key (such as `section`) and a `_section` reference key, so in WordPress those two meta keys change as well.
- Access.UnlockEpisode: "other meta keys keep their values" holds for the model's meta, which leaves out the keys ACF writes for `section`; the same holds for `Access.ApplyAccess` and the configured field.
- Patreon.Prefix200: counts characters where `substr` counts bytes, so a body with multi-byte UTF-8 characters is cut at a different place.
- Snapshots.InsertTerm: only the "-2" suffix is modelled for a taken slug, not further suffixes.
- Snapshots.GetTermBy: compares names exactly. MySQL's case-insensitive collation is not modelled, and neither is its trailing-space rule, which also applies to the meta comparison in `Access.FindEpisodeByNumber`. `get_term_by` queries with `orderby` 'none', so which of two terms with the same name comes back is up to the database; the model takes the first in the table.
- Snapshots.TitleOf: the title `get_the_title()` returns after the `the_title` filters (`wptexturize`, `convert_chars`, `trim`, and any a theme or plugin adds) is data of the snapshot (`shownTitle`), not computed from the stored title.
- Access.FindEpisodeByNumber: the query's default post status is 'publish' from cron and, on an admin screen with an administrator logged in (`inAdmin`), also 'draft', 'pending', 'future' and 'private'. A logged-in user with fewer capabilities, who sees only their own private posts, is not modelled. The query's date ordering is taken as the listing order. The diagnostic title search (217-232) only prints and is not modelled.
- Selection.OldestAdvanceEpisode: the same default statuses apply to the candidates, with the same limit for users other than an administrator.
- EpisodeSync.EpisodesOf: post_status 'any' is modelled as every status but 'trash' and 'auto-draft'; other statuses a plugin registers as excluded from search are not modelled.
- Access.ExecuteEpisodeAction: `sanitize_text_field` and the decoded JSON's value types are not modelled. The command carries `intval($data['episode_number'])` and the access type as strings. The "current access" display (246-261) and the verification echo (308-311) only print.
- PhpText.IntVal: decimal base 10 only. Overflow at PHP_INT_MAX and exponent or fractional forms are not modelled.
- PhpText.LooseEqualsInt: only integer numeric strings (white space, a sign, digits, white space) compare as numbers. PHP 8 also compares decimal and exponent strings such as "12.0" or "1.2e1" numerically, equal to 12, so for such a stored number the code reports "Already set" (529) where `EpisodeSync.Decide` reports an update.
- Selection.OldestCandidate: models `usort` as a stable sort (PHP 8). Older PHP versions do not guarantee which of two equal-numbered episodes comes first.
- Selection.Candidate: `stripos` follows PHP 8, where an empty search term (a novel with an empty title) matches every title. Earlier PHP versions, where it never matches, are not modelled.
- GeminiReply.InterpretReply: `json_decode` is the parameter `decode`. The Gemini HTTP call (`ask_gemini_for_structure` up to line 161) and `process_gemini_command` are not part of this model.
- Patreon.UpdatePostAccess: the HTTP exchange (`wp_remote_request`) is the parameter `response`. The endpoint URL, headers and JSON encoding of the body are not modelled, and messages are kept only as the data they carry.
- All HTML output, `human_time_diff`, admin menus, the jQuery row editor and the cron registration (`wp_schedule_event`, `wp_clear_scheduled_hook`) are user interface or WordPress plumbing and are not modelled. `Schedules.DailyTrigger` gives the first run time only.
- gemini-patreon-control.php (the settings form writing options) is not part of this model.
- Concurrent runs of the cron hook and the admin pages are not modelled: the code has no locking.
- Runner.RunSchedule: one `now` serves the whole run. The code reads `current_time('mysql')` once (823) for the due comparison, but reads `current_time('timestamp')` again for each schedule's bootstrap (849), so a run that crosses a second boundary can bootstrap from a slightly later moment. The same holds for `Unlocker.Store.RunNovelUnlock`.
- Runner.PreviewStepMatchesRealStep: the equality of `unlocked_count` between a preview and a real run is proved for one step on the same store, not for a whole run. After a real step the store differs, so later steps can see different episodes.

## Findings

| source | as written | input that shows it | evidently intended | confidence | as-written member | corrected member |
|---|---|---|---|---|---|---|
| gemini-prompt.php:952-982 | the search term falls back to the stored novel title (`post_title`, 952), but each episode's title is read with `get_the_title()` (978), which applies the `the_title` filters; `wptexturize` turns a straight apostrophe into `&#8217;`, so the `stripos` test fails | novel "Hero's Path" with advance episode "Hero's Path Episode 3" numbered 3 and no custom search term: the episode is shown as "Hero&#8217;s Path Episode 3", no episode matches and nothing is ever unlocked for the novel | compare the stored titles (`get_post_field('post_title')`, or filter the novel title the same way) | not executed | Selection.TexturizedTitleHidesEpisode | Selection.OldestAdvanceEpisodeByPostTitle |
| gemini-prompt.php:613-620 | the save handler builds each schedule without a `skip_weekends` entry, so the runner reads it as empty at 869 and 899 and never skips weekends | the default new row, novel "12", every 1 day at "02:00", enabled, with "Skip Sat/Sun" ticked (711), is saved with `skipWeekends` false; the edit form then shows the box ticked again (729) | store `isset($_POST['skip_weekends'][$index]) ? 1 : 0` like `enabled`, so that ticked schedules unlock only on weekdays | not executed | Schedules.TickedSkipWeekendsIsLost | Schedules.SaveSchedulesKeepingSkip |

The consequence of the as-written handler is stated by `Runner.SavedScheduleAdvancesByCalendarDays`: every due date moves by the interval in calendar days. The corrected handler's property is stated by `Runner.KeptSkipUnlocksOnWeekdays`: the first due date and every later one fall on a weekday. The runner and the calculator are modelled for any schedule list, so both handlers feed the same runner.

The runner keeps the selector as written, because the code does: `Runner.RunSchedule` unlocks what
`Selection.OldestAdvanceEpisode` picks from the shown titles. The corrected selector is that same
function applied to the snapshot with every shown title replaced by the stored one
(`Selection.PostTitlesShown`), so every property proved of the selector holds for it as well;
`Selection.ByPostTitleFindsTitledEpisode` adds that it finds every episode whose stored title
contains the novel's.
