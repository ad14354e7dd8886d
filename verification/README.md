# Revive Old Post helpers: cron control and post text, in Dafny

This project models two helpers of the Revive Old Post WordPress plugin:

- **Cron helper** (`Rop_Cron_Helper`). It registers the `5min` and `30min` recurrences. It starts
  and stops the plugin's cron hook `rop_cron_job` and reports whether the hook is running. It
  translates a PHP `date()` format into a moment.js format with `strtr` and a fixed table.
- **Post format helper** (`Rop_Post_Format_Helper`). It takes the service from an account id and
  chooses the link shared with a post. It assembles the shared text: the content source, the custom
  text, hashtags collected under a length budget, and the final truncation size.

Modules:

- `Wrappers`: `Option`.
- `Php`: the PHP built-ins the helpers use. These are `explode` (with `Implode`, the model's inverse of it, used to state what `explode` returns), `strtr`, single-character
  `str_replace`, `strtolower` and `empty`.
- `WpCron`: the host scheduler as an abstract queue. It holds the events of the one hook, keyed by
  timestamp, because the host stores at most one event per timestamp for a hook without arguments.
  `wp_next_scheduled`, `wp_schedule_event`, `wp_schedule_single_event`, `wp_unschedule_event` and
  `wp_clear_scheduled_hook` are functions over that queue.
- `CronHelper`: the cron helper as a small state machine. The state is the queue plus a flag for
  the stored start time.
- `PostFormatHelper`: `set_post_format` (service prefix), `build_url` and `build_content`.

Host lookups are parameters: the permalink, post meta, custom field values, category and tag
slugs, tag stripping and the URL pattern match. So are the content helper's `mark_hashtags` and
`token_truncate`, whose source is not part of this model.

## Model

| member | source | states |
|---|---|---|
| `Php.Explode` | includes/admin/helpers/class-rop-post-format-helper.php:137 | `explode` returns at least one piece, no piece holds the separator, and joining the pieces gives the input back |
| `Php.ExplodeImplode` | includes/admin/helpers/class-rop-post-format-helper.php:40 | exploding a join of separator-free pieces returns exactly those pieces |
| `Php.Strtr` | includes/admin/helpers/class-rop-cron-helper.php:162 | with one-character keys, `strtr` equals the concatenation of each character's image, where characters not in the table map to themselves |
| `Php.RemoveAll` | includes/admin/helpers/class-rop-post-format-helper.php:137-145 | `str_replace`/`preg_replace` of one character by nothing: the result holds no such character, keeps every other character, and is shorter by the number of occurrences |
| `Php.RemoveAllConcat` | includes/admin/helpers/class-rop-post-format-helper.php:137-145 | deleting a character from `a + b` is deleting it from `a`, then from `b`, so the remaining characters keep their order |
| `Php.RemoveAllImplode` | includes/admin/helpers/class-rop-post-format-helper.php:137-140 | deleting a non-separator character from a comma-joined list equals joining the pieces with that character deleted |
| `Php.StrToLower` | includes/admin/helpers/class-rop-post-format-helper.php:145 | `strtolower` keeps the length and lower-cases each character (ASCII) at its position |
| `Php.RemoveAllLower` | includes/admin/helpers/class-rop-post-format-helper.php:145 | deleting a character that lower-casing neither produces nor changes, such as `-`, commutes with lower-casing |
| `Php.IsEmpty` | includes/admin/helpers/class-rop-post-format-helper.php:185 | `empty()` on a string: true for `""` and for `"0"`, false for any other one-character string and for every longer string |
| `WpCron.NextScheduled` | includes/admin/helpers/class-rop-cron-helper.php:103 | the next timestamp is absent exactly when nothing is queued; otherwise it is a queued timestamp no later than any other |
| `WpCron.Truthy` | includes/admin/helpers/class-rop-cron-helper.php:119 | the `(bool)` of a `wp_next_scheduled` result: false when nothing is scheduled or the timestamp is 0, true for a positive timestamp |
| `WpCron.ScheduleEvent` | includes/admin/helpers/class-rop-cron-helper.php:89 | `wp_schedule_event` refuses a timestamp `<= 0` and an unregistered recurrence, leaving the queue unchanged; otherwise it queues the recurring event at that timestamp with the registered interval; every event at another timestamp is kept; well-formed queues stay well-formed |
| `WpCron.ScheduleSingleEvent` | includes/admin/helpers/class-rop-cron-helper.php:87 | `wp_schedule_single_event` refuses a timestamp `<= 0`; otherwise it queues a single event there; every event at another timestamp is kept |
| `WpCron.UnscheduleEvent` | includes/admin/helpers/class-rop-cron-helper.php:105 | `wp_unschedule_event` removes the event at a positive timestamp and keeps every other event unchanged; nothing is added |
| `CronHelper.RopCronSchedules` | includes/admin/helpers/class-rop-cron-helper.php:36-51 | afterwards `5min` and `30min` are present; an added entry has interval 300 or 1800; existing entries are never overwritten; no other key is added or changed |
| `CronHelper.RopCronSchedulesIdempotent` | includes/admin/helpers/class-rop-cron-helper.php:36-51 | registering the recurrences twice equals registering them once |
| `CronHelper.GetStatus` | includes/admin/helpers/class-rop-cron-helper.php:118-120 | running implies some event is queued; for a queue the host can hold, running holds exactly when some event is queued |
| `CronHelper.CreateCron` | includes/admin/helpers/class-rop-cron-helper.php:82-93 | always true; a running cron is left unchanged; otherwise, when `5min` is registered and `now > 0`, the recurring `5min` event at `now` is queued, and on a first start the single event at `now + 30` is queued (when `now + 30 > 0`) and the start time set; for a well-formed queue nothing else is queued; well-formed queues stay well-formed |
| `CronHelper.RemoveCron` | includes/admin/helpers/class-rop-cron-helper.php:102-111 | always false and always resets the start time; only existing events are kept, each unchanged; when not running the queue is unchanged; when running on a well-formed queue it removes exactly one event, the earliest |
| `CronHelper.ManageCron` | includes/admin/helpers/class-rop-cron-helper.php:60-73 | creates only on `start`, removes only on `stop`, changes nothing on any other action; the site's date and current time are reported unchanged; for a well-formed queue the reported status holds exactly when some event is queued, and well-formedness is kept |
| `CronHelper.StartIsIdempotent` | includes/admin/helpers/class-rop-cron-helper.php:82-93 | starting twice leaves the same state as starting once |
| `CronHelper.StopAfterStartStillRunning` | includes/admin/helpers/class-rop-cron-helper.php:102-111 | from an idle hook, when `5min` is registered and `now > 0`, `start` then `stop` leaves the single event at `now + 30` queued, and the reported status is still running |
| `CronHelper.ClearCron` | includes/admin/helpers/class-rop-cron-helper.php:102-111 | corrected stop: false, start time reset, nothing queued, status not running |
| `CronHelper.ClearCronAgreesWithRemoveCron` | includes/admin/helpers/class-rop-cron-helper.php:102-111 | for a well-formed queue with at most one event, the corrected stop and `remove_cron` give the same result |
| `CronHelper.ManageCronCorrected` | includes/admin/helpers/class-rop-cron-helper.php:60-73 | with the corrected stop, `stop` always empties the queue and reports not running; `start` creates as `manage_cron` does and any other action changes nothing; for a well-formed queue the reported status holds exactly when some event is queued |
| `CronHelper.CorrectedStopAfterStartStops` | includes/admin/helpers/class-rop-cron-helper.php:60-73 | with the corrected stop, `start` reports running and the following `stop` reports not running |
| `CronHelper.ConvertPhpFormatToJs` | includes/admin/helpers/class-rop-cron-helper.php:122-165 | the date-format translation equals the concatenation of each character's table entry, or the character itself when it has no entry |
| `CronHelper.ConvertDistributes` | includes/admin/helpers/class-rop-cron-helper.php:162 | translating `a + b` equals translating `a`, then `b` |
| `CronHelper.ConvertDoesNotRescan` | includes/admin/helpers/class-rop-cron-helper.php:162 | `d` becomes `DD`, while `DD` becomes `dddddd`, so replacement text is not translated again |
| `CronHelper.NoEquivalentCharsVanish` | includes/admin/helpers/class-rop-cron-helper.php:137-159 | the output contains none of `t L B I O P T Z c r`; each input character yields at most four output characters |
| `CronHelper.ManageCronReportsMomentFormat` | includes/admin/helpers/class-rop-cron-helper.php:69 | the date format `manage_cron` reports is the translation of the site's format; it contains none of `t L B I O P T Z c r` and is at most four times as long as the site's format |
| `CronHelper.ConvertKeepsUnmapped` | includes/admin/helpers/class-rop-cron-helper.php:162 | a format made only of characters outside the table is returned unchanged |
| `PostFormatHelper.ServiceOf` | includes/admin/helpers/class-rop-post-format-helper.php:40-41 | the service is the longest prefix of the account id without `_`, so it is the whole id or is followed by `_` |
| `PostFormatHelper.ServiceOfAccount` | includes/admin/helpers/class-rop-post-format-helper.php:40-41 | the id `service_rest` yields `service` back, whatever `rest` holds |
| `PostFormatHelper.BuildUrl` | includes/admin/helpers/class-rop-post-format-helper.php:67-81 | the link is the permalink unless settings exist, `include_link` and `url_from_meta` hold and the meta key is non-empty; in that case the first pattern match in the meta value is used when there is one |
| `PostFormatHelper.RawContent` | includes/admin/helpers/class-rop-post-format-helper.php:95-114 | title, body, `title + ' ' + body`, the custom field when it is a string and `''` otherwise, or `We found nothing here!!!` for an unknown source |
| `PostFormatHelper.PlaceCustomText` | includes/admin/helpers/class-rop-post-format-helper.php:117-128 | empty custom text changes nothing and reserves 0; otherwise `custom_length = |custom_text| + 1`, the content grows by exactly that much, and the custom text goes before (`beginning`) or after the content, separated by one space, with the content recoverable |
| `PostFormatHelper.Hashtag` | includes/admin/helpers/class-rop-post-format-helper.php:145 | an appended hashtag is ` #` followed by text with no `-` and no upper-case letter, at most two characters longer than the candidate |
| `PostFormatHelper.HashtagOfCandidate` | includes/admin/helpers/class-rop-post-format-helper.php:145 | for every candidate the hashtag is ` #` and the candidate with its dashes deleted, lower-cased; a dash-free candidate is just lower-cased; each dash shortens the tag by one |
| `PostFormatHelper.AddHashtag` | includes/admin/helpers/class-rop-post-format-helper.php:141-146 | a candidate found in the content marks the content and lowers the budget by exactly 1; otherwise its hashtag is appended exactly when `|candidate| + |hashtags| <= budget` or the budget is 0 |
| `PostFormatHelper.AddHashtags` | includes/admin/helpers/class-rop-post-format-helper.php:139-147 | hashtags only grow by appending; each candidate lowers the budget by at most 1; an unchanged budget means an unchanged content |
| `PostFormatHelper.AddHashtagsSplit` | includes/admin/helpers/class-rop-post-format-helper.php:139-147 | the loop over `a + b` equals the loop over `a`, then over `b`, so candidates are taken in order |
| `PostFormatHelper.UnlimitedKeepsEveryHashtag` | includes/admin/helpers/class-rop-post-format-helper.php:144-145 | with budget 0 and no candidate found in the current content, every candidate's hashtag is appended, in candidate order |
| `PostFormatHelper.NoHitsStayWithinBudget` | includes/admin/helpers/class-rop-post-format-helper.php:144-145 | with a positive budget and no candidate found in the current content, the budget stays as it was and the hashtags exceed it by at most 2 characters |
| `PostFormatHelper.ExhaustedBudgetLiftsLimit` | includes/admin/helpers/class-rop-post-format-helper.php:141-146 | with budget 1, a found `news` lowers the budget to 0, and then ` #tag` (5 characters, more than the budget of 1) is appended |
| `PostFormatHelper.AddHashtagCapped` | includes/admin/helpers/class-rop-post-format-helper.php:141-146 | corrected step: with a positive configured budget, an appended hashtag leaves the hashtags at most 2 characters over the current budget |
| `PostFormatHelper.CappedHashtagsWithinBudget` | includes/admin/helpers/class-rop-post-format-helper.php:144 | with the corrected test, a positive configured budget bounds the hashtags by that budget plus 2, whatever the hits |
| `PostFormatHelper.CappedAgreesWithoutHits` | includes/admin/helpers/class-rop-post-format-helper.php:144 | when no candidate is found in the current content, the corrected loop gives the same result as the original |
| `PostFormatHelper.CommonCandidates` | includes/admin/helpers/class-rop-post-format-helper.php:137-140 | the common list yields at least one candidate, and no candidate contains a space, a comma or `#` |
| `PostFormatHelper.CommonCandidatesRoundTrip` | includes/admin/helpers/class-rop-post-format-helper.php:137-140 | for every list, the candidates joined back with commas are the list with every space and `#` deleted; since no candidate holds a comma, they are exactly the comma-separated pieces of that cleaned list |
| `PostFormatHelper.CustomHashtags` | includes/admin/helpers/class-rop-post-format-helper.php:183-196 | gives `''` when the field name is empty, the budget is 0 or the value is longer than the budget; otherwise the value truncated to the budget with the ellipsis turned off |
| `PostFormatHelper.CollectHashtags` | includes/admin/helpers/class-rop-post-format-helper.php:130-200 | the loop modes run the hashtag loop on their candidates (no categories unless the post type is `post`); the other modes keep content and budget, `custom-hashtags` gives exactly what `CustomHashtags` computes for the placed content, and the remaining modes give no hashtags; the budget never grows; the ellipsis is turned off only by `custom-hashtags` |
| `PostFormatHelper.BuildContent` | includes/admin/helpers/class-rop-post-format-helper.php:91-208 | `N/A` without settings; otherwise the text ends with a space and the hashtags, and the part before is the content truncated to `max_length - hashtags_length - custom_length`, using the budget left after the loop |
| `PostFormatHelper.PostTextLengthBound` | includes/admin/helpers/class-rop-post-format-helper.php:202-203 | with a positive budget, `max_length - hashtags_length - custom_length >= 0`, truncation within its size and no candidate of the mode found in the placed content, the text is at most `max_length - custom_length + 3` long |
| `PostFormatHelper.NoHashtagsKeepsReserve` | includes/admin/helpers/class-rop-post-format-helper.php:202-203 | in `no-hashtags` mode the hashtag budget is still subtracted from the size, and the text ends with a space |

## Left out

- Host lookups are uninterpreted parameters or fields of `Post` and `Host`: `get_permalink`, `get_post_meta`, `get_post_custom_values`, `wp_get_post_tags`, `get_the_category`, `wp_strip_all_tags` and `html_entity_decode`.
- RawContent: `get_post_custom_values` is a host function, so the model does not fix what it returns. WordPress documents it as returning an array or null. If that holds, the `custom_field` source always yields `''` at line 113 and the `Text` case is never reached.
- The URL pattern of `build_url` is a "first match" parameter, because PCRE semantics are not modelled.
- `Rop_Content_Helper::mark_hashtags` and `token_truncate` are parameters, because their source is not part of this model. `PostTextLengthBound` assumes that truncation stays within the size asked for.
- The helper's `use_ellipse(false)` is modelled as a flag passed to the truncation. The flag also reaches the final truncation, as it does on the shared helper object.
- The host's cron storage is reduced to the queue of the one hook. Other hooks, event arguments and the running of due events are not modelled.
- `WpCron.ScheduleSingleEvent` omits the host's duplicate check within ten minutes. `create_cron` only schedules the single event when nothing is queued for the hook.
- `time()` is the `now` parameter. The date format, date and current time of `Rop_Scheduler_Model` are parameters of `ManageCron`.
- `Rop_Global_Settings` persistence is reduced to a flag: the start time is set or it is reset.
- The `__()` translation of the recurrence display names is not modelled. The English strings are used.
- `set_post_format` is modelled up to the service prefix. The `Rop_Post_Format_Model` lookup is outside this model.
- The commented-out PRO branch of `categories-hashtags` is not modelled. A non-`post` post type gives no category hashtags.
- The `!empty($hastags_list)` guard is not modelled. `explode` never returns an empty array, as `Php.Explode` proves.
- Settings are a complete record, so a missing key reads as `false` or `""`. An empty settings array counts as no settings.
- Strings are sequences of characters. PHP's `strlen` counts bytes, so multi-byte text is not modelled.
- `strtolower` is the ASCII mapping of PHP 8.2 and later. The older locale-dependent mapping is not modelled.
- `switch` and `==` on strings are modelled as string equality. PHP's loose comparison of numeric strings is not modelled.
- PHP integers are 64-bit. Lengths and budgets here stay far from that bound, so they are unbounded.
- `BuildContent` models the hashtag loop as written. The corrected loop of the findings is proved alongside it and is not substituted into it.

## Findings

| source | as written | input that shows it | evidently intended | confidence | as-written member | corrected member |
|---|---|---|---|---|---|---|
| includes/admin/helpers/class-rop-cron-helper.php:102-111 | `remove_cron` unschedules only the hook's next event, but a first `create_cron` queued two events | idle hook; `start` at `now = 1000`, then `stop`: the single event at 1030 stays queued and `current_status` is still true | stopping clears every event of the hook | medium; not executed | `CronHelper.StopAfterStartStillRunning` | `CronHelper.ManageCronCorrected` |
| includes/admin/helpers/class-rop-post-format-helper.php:144 | "no limit" is decided by the running `hashtags_length`, which every in-content hit decrements | `hashtags_length = 1`, candidates `news` (found in the content) then `tag`: the budget drops to 0 and ` #tag` (5 characters) is appended | "no limit" only when the configured `hashtags_length` is 0 | medium; not executed | `PostFormatHelper.ExhaustedBudgetLiftsLimit` | `PostFormatHelper.CappedHashtagsWithinBudget` |
