# opus-bot subscription registry and daily-prayer selection, in Dafny

opus-bot is a Telegram bot that sends Catholic daily prayers and readings. This project models the two parts of it that hold real logic:

- **The subscription registry of `run.py`.**
  - A chat subscribes to one of four services: jaculatória, santo do dia, meditação diária, Angelus/Regina Caeli.
  - It does so through the `/registrar_servicos` menu (`show_services`, `select_service`). The `register_*` and `stop_*` handlers then add or remove a scheduler job with the id `registra_<service>_<chat id>`, and insert or delete the `(service_type, chat_id)` row of the `user_services` table.
  - At start-up `schedule_services` rebuilds the jobs from that table.
  - Also modelled: the free-text routing of `parse_message` to `broadcast`, which sends a personalised copy of an admin's message to every user.
- **The selection and formatting functions of `opus.py`:**
  - `format_date`;
  - the day's Rosary mysteries and their image folders (`get_rosary`);
  - the filtered random image pick (`get_image_path`) and the bucket listing without folder keys;
  - the Angelus / Regina Caeli choice by liturgical season;
  - the random, by-id or by-tag aspiration lookup (`get_aspiration`);
  - the `show_help` text.

Modelling choices:

- The scheduler is a `map<string, Job>` keyed by job id. The `user_services` table is a `set<Row>`.
- The outcome of each database call is a parameter:
  - `Committed`;
  - `QueryFailed`: an error inside the `try`, which is printed and swallowed;
  - `ConnectFailed`: `connect()` raises. The `finally` block then reads a `connection` that was never bound, so an `UnboundLocalError` escapes.
- Every `randint` outcome is an argument `draw`, constrained to the range `randint` would draw from.
- `datetime.today()` becomes explicit date fields and a weekday.
- The result of `get_liturgical_season` and the bucket listing are arguments.
- Python exceptions are the `Err` side of a `Result`.

The handlers change the scheduler first and call the database afterwards. They swallow its errors. Nothing rolls the scheduler back when the store call fails. `Registry.FailedInsertDiverges` and `Registry.FailedDeleteDiverges` prove that this leaves the scheduler and the table disagreeing.

In `select_service`, eight literal comparisons become `Menu.ParseCallback`. It checks for the `registrar_` or `parar_` prefix and looks up the rest as a service name. `Menu.CallbackRoundTrip` and `Menu.ParseCallbackOnlyButtons` prove that it accepts exactly the eight button texts.

Files, one module each:

| file | module | contents |
|---|---|---|
| `wrappers.dfy` | `Wrappers` | `Option`, `Result` |
| `runtime.dfy` | `Runtime` | exceptions, `randint`, list indexing, uniform pick |
| `strings.dfy` | `Strings` | `str(int)`, substring test, `str.replace`, `lower`, `capitalize` |
| `jobs.dfy` | `Jobs` | services, job ids, cron data |
| `registry.dfy` | `Registry` | handlers, store, start-up rebuild |
| `menu.dfy` | `Menu` | `show_services`, `select_service` |
| `broadcast.dfy` | `Broadcast` | `parse_message`, `broadcast` |
| `dates.dfy` | `Dates` | `format_date` |
| `images.dfy` | `Images` | bucket listing, `get_image_path` |
| `rosary.dfy` | `Rosary` | `get_rosary` |
| `prayers.dfy` | `Prayers` | `angelus_regina_caeli` |
| `aspirations.dfy` | `Aspirations` | `get_aspiration` |
| `help.dfy` | `Help` | `show_help` |

## Model

| member | source | states |
|---|---|---|
| Runtime.Randint | opus.py:329 | `randint(lo, hi)` raises ValueError exactly on an empty range and otherwise yields a value within it |
| Runtime.Index | opus.py:169 | list indexing: IndexError exactly outside `[-len, len)`, and otherwise an element of the list |
| Runtime.Choose | opus.py:345-347 | `xs[randint(0, len(xs) - 1)]` fails, with ValueError, exactly on an empty list, and otherwise yields a member of it |
| Strings.NatToString | opus.py:325 | `str` of a natural number is a non-empty run of digits |
| Strings.IntToString | run.py:253 | `str(chat_id)` is non-empty, starts with '-' exactly for negative ids and with a digit otherwise, and continues with digits only |
| Strings.NatToStringRoundTrip | run.py:253 | reading the decimal digits back gives the number: no two numbers share a text |
| Strings.IntToStringRoundTrip | run.py:253 | `str` of any integer reads back to that integer |
| Strings.IntToStringInjective | run.py:253 | distinct chat ids have distinct texts |
| Strings.OccursAtContains | opus.py:341 | an occurrence at any position makes the `in` test true |
| Strings.ContainsIff | opus.py:341 | Python's `fragment in text` holds exactly when the fragment occurs at some position |
| Strings.NotContainsWithoutFirstChar | opus.py:341 | a text lacking the fragment's first character does not contain it |
| Strings.ReplaceAllAbsent | run.py:127-128 | `replace` of a pattern that does not occur leaves the text unchanged |
| Strings.ReplaceAllLeading | run.py:127 | an occurrence at the start is replaced and the scan resumes after it |
| Strings.ReplaceAllSkips | run.py:128 | a prefix without the pattern's first character is copied unchanged |
| Strings.Lower | opus.py:178 | `lower()` keeps the length, leaves no capital, keeps every character that has no lower case, and replaces each capital by its own small letter |
| Strings.LowerDetermined | opus.py:178 | those clauses of `lower()` allow exactly one result |
| Strings.LowerIdempotent | opus.py:178 | lower-casing twice is lower-casing once |
| Strings.LowerKeepsLowercase | opus.py:318 | a text already in lower case is its own `lower()` |
| Strings.Capitalize | opus.py:318 | `capitalize()` keeps the length and changes only case: the lower-case text is the same, the first character has no upper case left to take, and no later character is a capital |
| Strings.CapitalizeDetermined | opus.py:318 | those clauses of `capitalize()` allow exactly one result |
| Strings.CapitalizeLowerWord | opus.py:318 | capitalising a lower-case word raises its first letter and keeps the rest |
| Jobs.KindOf | run.py:648-672 | the `service_type` dispatch recognises exactly the four service names, each as its own service |
| Jobs.JobIdShape | run.py:253 | every job id starts with "registra_", and its tenth character is the service name's first |
| Jobs.JobIdRoundTrip | run.py:253 | a job id reads back into the service and chat it was built from |
| Jobs.JobIdInjective | run.py:253 | two job ids are equal exactly when their (service, chat) pairs are |
| Jobs.Schedule | run.py:255 | every trigger lists at least one hour, all below 24, and any minute given is below 60 |
| Jobs.OtherPrefixMisses | run.py:253 | the job id prefix of one service never starts the id of another |
| Jobs.DailyJobs | run.py:889-903 | main() adds three data-refresh jobs, none of them a subscription, under ids no subscription can take |
| Registry.ApplyStore | run.py:711-767 | no other row of the table changes; the call's row is stored afterwards exactly when a committed insert wrote it, or when it was stored before and no committed delete removed it |
| Registry.Register | run.py:252-266 | without a job: exactly one job added with the service's trigger, the reply "registered", and an insert issued. The row is stored only if the insert commits. A failed connection raises after the job is added. With a job: nothing changes and the reply is "Serviço já registrado.". Other jobs and rows never change |
| Registry.Stop | run.py:269-277 | with a job: exactly that job removed, the reply "stopped", and a delete issued. The row stays only if the delete fails. Without a job: no change, no reply, no store call. Other jobs and rows never change |
| Registry.RegisterIdempotent | run.py:300-314 | registering a second time changes nothing, makes no store call and reports "already registered" |
| Registry.StopIdempotent | run.py:317-325 | stopping a second time changes nothing, replies nothing and makes no store call |
| Registry.StoreOutcomeDoesNotAffectJobs | run.py:254-264 | the store's outcome never alters the scheduler change or the reply |
| Registry.RowForRoundTrip | run.py:261-264 | the row registration stores names a known service, and restores the id and job registration used |
| Registry.RowIdInjective | run.py:647-672 | distinct known rows get distinct job ids |
| Registry.RegisterKeepsConsistent | run.py:348-365 | with a committed insert, registering keeps scheduler and table in agreement |
| Registry.StopKeepsConsistent | run.py:368-376 | with a committed delete, stopping keeps scheduler and table in agreement |
| Registry.FailedInsertDiverges | run.py:730-731 | a failed insert leaves a scheduled job that the table does not know |
| Registry.FailedDeleteDiverges | run.py:758-759 | a failed delete leaves a stored row whose job is gone |
| Registry.StopUndoesRegister | run.py:396-424 | stopping right after a fresh, committed registration restores the state before it |
| Registry.RegisterUndoesStop | run.py:396-424 | registering right after a committed stop of a consistent subscription restores it |
| Registry.LoadServices | run.py:770-802 | load_services raises exactly when connecting fails, and then UnboundLocalError. It never returns a row the table does not list. It returns the whole listing when the query commits and no row when the query fails |
| Registry.ScheduleRowsAdds | run.py:647-672 | without id clashes, the rebuild keeps every earlier job and adds exactly the known rows' jobs, under their ids |
| Registry.RebuiltJobsWereScheduled | run.py:642-672 | every subscription job the rebuild creates was scheduled, identically, before the restart |
| Registry.ScheduledJobsAreRebuilt | run.py:642-672 | every subscription job scheduled before the restart is rebuilt, identically |
| Registry.SameServiceJobs | run.py:642-672 | two schedulers holding the same subscription jobs under the same ids agree on their subscription part |
| Registry.RestartRestoresSubscriptions | run.py:642-672 | when scheduler and table agree, main()'s daily jobs plus schedule_services reproduce exactly the subscription jobs that existed |
| Registry.RestartKeepsConsistent | run.py:642-672 | after a restart from a consistent state, the rebuilt scheduler agrees with the table again: every subscription job has its row and every row its job |
| Registry.FailedLoadDropsSubscriptions | run.py:790-791 | a failed load at start-up silently drops every subscription |
| Menu.CallbackRoundTrip | run.py:479-495 | select_service recognises each button's data as the command the button was made from |
| Menu.ParseCallbackOnlyButtons | run.py:479-495 | select_service acts on no data other than the eight buttons' own |
| Menu.ShowServices | run.py:427-471 | a 2/1/1 keyboard in the order jaculatória, santo, meditação, angelus. Each button registers its service exactly when the chat has no job for it, and stops it exactly when it has one |
| Menu.SelectService | run.py:474-499 | the register or stop handler for the eight known callbacks; no change, reply or store call for any other data; the conversation ends unless the handler raised |
| Menu.PressingOfferToggles | run.py:427-499 | pressing the offered button flips whether the chat has that service's job, whatever the store does, and leaves all other jobs alone |
| Broadcast.SendAll | run.py:124-134 | one message per user, in order, to that user's chat, with the personalised text |
| Broadcast.HandleBroadcast | run.py:122-141 | the admin reaches every user; anyone else gets the error reply and nobody is sent anything |
| Broadcast.ParseMessage | run.py:600-605 | a text goes to broadcast exactly when it contains "#BROADCAST: " anywhere, and is echoed otherwise |
| Broadcast.RemoveTag | run.py:127 | the tag is removed from a tagged body that holds no further '#' |
| Broadcast.FillPlaceholder | run.py:128 | "[USER]" is replaced by the user's name |
| Broadcast.BroadcastGreetsEachUser | run.py:126-128 | "#BROADCAST: <pre>[USER]<post>" reaches each user as "<pre><name><post>" |
| Broadcast.BroadcastDeliversBody | run.py:120-134 | a tagged message without placeholders reaches every user as the text after the tag |
| Dates.Pad2 | opus.py:92-93 | "%d" and "%m" are two digits that read back as the day or month number |
| Dates.TablesAgree | opus.py:68-89 | the dictionaries map "%w" text w to the w-th weekday name from Sunday, and "%m" text m to the m-th month name |
| Dates.WeekDayKey | opus.py:68-75 | "%w" text of each weekday 0..6 is a key of the weekday dictionary, naming that day |
| Dates.MonthKey | opus.py:76-89 | "%m" text of each month 1..12 is a key of the month dictionary, naming that month |
| Dates.FormatDate | opus.py:67-93 | every valid date is written "<weekday name>, <two-digit day> de <month name> de <year>", the names taken from the Sunday-first weekday list and the January-first month list |
| Dates.WeekDaysCoverExactly | opus.py:68-75 | the weekday table has an entry for exactly the "%w" texts 0 to 6 |
| Dates.MonthsCoverExactly | opus.py:76-89 | the month table has an entry for exactly the "%m" texts 01 to 12 |
| Dates.WeekStartsOnSunday | opus.py:69-75 | "%w" 0 is Domingo and 6 is Sábado |
| Dates.ExampleFields | opus.py:92-93 | the example date's weekday, month, day and year are written "4", "02", "23" and "2023" |
| Dates.FormatDateExample | opus.py:92-93 | 23 February 2023, a Thursday, is written "Quinta-feira, 23 de Fevereiro de 2023" |
| Images.BucketUrls | opus.py:40-50 | one URL per object key, in listing order; each starts with the base URL, and stripping the base gives back the key |
| Images.DropFolders | opus.py:401 | the filter never lengthens the list |
| Images.DropFoldersMembers | opus.py:401 | exactly the items not ending in '/' are kept |
| Images.DropFoldersAppend | opus.py:401 | the filter keeps the items' original order |
| Images.ImageList | opus.py:399-401 | a key's URL is in the image list exactly when it does not end in '/'; nothing else is |
| Images.Matching | opus.py:341 | exactly the images containing the fragment are kept |
| Images.GetImagePath | opus.py:337-353 | with a type: None exactly when no image contains it, and otherwise an image that does. Without one: ValueError exactly on an empty list, and otherwise one of its images |
| Images.GetImagePathCovers | opus.py:339-347 | every image containing the type can be the one picked |
| Images.GetAnyImageCovers | opus.py:349-353 | without a type, every image can be the one picked |
| Rosary.ParseMysteries | opus.py:304-310 | the four type texts, each as its own set of mysteries, and nothing else |
| Rosary.DailyMysteries | opus.py:291-301 | by weekday (0 = Monday): glorious on 2 and 6, joyful on 0 and 5, sorrowful on 1 and 4, luminous on 3 |
| Rosary.DailyMysteriesByDayName | opus.py:294-301 | read against the "%w" day names: glorious on Sunday and Wednesday, joyful on Monday and Saturday, sorrowful on Tuesday and Friday, luminous on Thursday |
| Rosary.PathStrInjective | opus.py:304-307 | distinct sets of mysteries take their images from distinct folders |
| Rosary.ReplaceBracketedAbsent | opus.py:323-325 | a text without '[' is untouched by the template replacements |
| Rosary.ReplaceLeadingTag | opus.py:323-325 | a placeholder right after a text free of '[' becomes the replacement, and the text before it stays |
| Rosary.KeepsSecondTag | opus.py:324 | replacing "[name]" leaves the later "[number]" placeholder and the text around it in place |
| Rosary.ReplaceTwoTags | opus.py:323-325 | the two chained replacements put the path string and the number exactly where the two placeholders were |
| Rosary.TemplateSplit | opus.py:392-396 | the rosary template is the base URL, "rosary/", "[name]", "-mysteries/", "[number]" and "/" |
| Rosary.MysteryFolderShape | opus.py:392-396 | when bucket and region hold no '[', the image folder is "<base>rosary/<path string>-mysteries/<n>/" |
| Rosary.NoBracketInBase | opus.py:392-396 | the formatted base URL holds no '[' when bucket and region hold none |
| Rosary.NoBracketInInt | opus.py:325 | `str(index)` holds no '[' |
| Rosary.PickImages | opus.py:321-331 | one image per folder; the only error is ValueError |
| Rosary.PickImagesOk | opus.py:326-329 | the loop completes exactly when every folder holds an image |
| Rosary.PickImagesInFolders | opus.py:326-331 | each picked image is one of the listed images and lies in its own mystery's folder |
| Rosary.PickImagesCovers | opus.py:326-331 | when every folder holds an image, each image of each folder is the pick for that mystery under some draws |
| Rosary.FoldersSpelledOut | opus.py:321-325 | with no '[' in the bucket or region, the folder get_rosary filters by for mystery i is "<base>rosary/<path string>-mysteries/<i>/" |
| Rosary.GetRosary | opus.py:289-334 | KeyError for a type outside the four. Otherwise the day's mysteries when no type is given, and the named ones when one is. The name is the type capitalised. Each of the five images lies in its mystery's folder. ValueError exactly when a folder has no image |
| Rosary.CapitalizedName | opus.py:318 | the type texts are lower case, so the shown name only raises the first letter |
| Rosary.RosaryName | opus.py:318 | the shown names are Gloriosos, Gozosos, Dolorosos and Luminosos |
| Rosary.ExplicitTypeIgnoresWeekday | opus.py:291 | an explicit type gives the same result on every weekday |
| Prayers.ChoosePrayer | opus.py:277-286 | an explicit type selects the prayer it names, or none for any other text |
| Prayers.SeasonRule | opus.py:277-283 | with no type, the Regina Caeli exactly in Eastertide and the Angelus exactly outside it |
| Prayers.ExplicitTypeOverridesSeason | opus.py:285-286 | a type naming a prayer selects it in every season |
| Prayers.AngelusReginaCaeli | opus.py:272-286 | the chosen prayer's text, or KeyError exactly when the table lacks it; None for a type naming no prayer. The image is one of Our Lady's, or None exactly when there is none |
| Prayers.ScheduledPrayerFollowsSeason | opus.py:279-283 | the scheduled send gives the Regina Caeli in Eastertide and the Angelus otherwise |
| Aspirations.PickText | opus.py:168-169 | the random pick raises ValueError on an empty list; any text it yields belongs to an aspiration of the list |
| Aspirations.FindById | opus.py:173 | the id lookup yields an aspiration with that id, and None exactly when there is none |
| Aspirations.FindByIdFirst | opus.py:173 | the id lookup yields the first aspiration with that id |
| Aspirations.WithTag | opus.py:178 | the tag filter keeps exactly the aspirations whose lower-cased tags contain the lower-cased tag |
| Aspirations.TagIgnoresCase | opus.py:178 | the tag filter gives the same list whatever the tag's case |
| Aspirations.Lookup | opus.py:164-181 | by id: the record or None. By tag: AttributeError when an aspiration is untagged, and otherwise a text whose aspiration carries the tag. Id 0 with no tag returns None. An empty list with no arguments raises ValueError |
| Aspirations.GetAspirationAsWritten | opus.py:164-181 | as written, an id lookup finds a record exactly when an aspiration has that id |
| Aspirations.AsWrittenSingleAspirationFails | opus.py:168-169 | as written, a random request over a single aspiration always raises IndexError |
| Aspirations.AsWrittenTopDrawFails | opus.py:168-169 | as written, the top draw raises IndexError, and the first aspiration is never chosen |
| Aspirations.AsWrittenTagSingleFails | opus.py:176-181 | as written, a tag request matching the single stored aspiration raises IndexError on every draw |
| Aspirations.AsWrittenTagTopDrawFails | opus.py:176-181 | as written, the top draw of a tag request with at least one match raises IndexError |
| Aspirations.GetAspiration | opus.py:164-181 | with the corrected range, a plain random request fails exactly on an empty list |
| Aspirations.RandomPickCoversAll | opus.py:166-169 | with the corrected range, every aspiration can be chosen and no draw fails |
| Aspirations.TaggedPickCoversAll | opus.py:176-181 | with the corrected range, every aspiration carrying the tag can be chosen for it |
| Help.LinesAppend | opus.py:159-160 | the lines of two command lists in a row are the lines of their concatenation |
| Help.LinesAt | opus.py:159-160 | each command's line comes right after the lines of the commands before it |
| Help.LineInMessage | opus.py:159-161 | in the header followed by the lines, each command's line begins right after the header and the lines before it |
| Help.HelpMessage | opus.py:142-161 | the header followed by one "<command>: <description> ;" line per command, each at its position in table order |
| Help.ShowHelp | opus.py:142-161 | the bot's help text is the header followed by the lines of its own ten commands, each at its position in table order |

## Left out

- Cron evaluation: APScheduler's trigger arithmetic, next-fire times, its default minute for triggers that give none (santo, angelus), and the `BackgroundScheduler` thread. Triggers are kept as their literal hour and minute data.
- Rate limiting: `MessageQueueBot` and `messagequeue.MessageQueue(all_burst_limit=30, all_time_limit_ms=1000)` (run.py:59-78, 910) are library code and concurrency-driven.
- The Telegram API calls: replies, message edits, photo sends and the conversation-handler wiring in `main`. A handler's reply is kept as data (`Registry.Reply`, `Broadcast.Handled`); actual delivery is not modelled.
- SQL text, cursors and connections (run.py:675-876, opus.py:96-132) become a set of rows plus a per-call outcome. `register_user`, `get_users` and `get_user_services_count` are not modelled; the user list of `broadcast` is an argument.
- `list_users`, `list_services`, `start`, `help`, `contact`, `show_prayers`, `send_prayer`, `echo`'s emoji, and `file_handler` are message plumbing.
- `send_rosary`, `send_rosary_mysteries` and the other `send_*` job functions only format messages from the modelled results.
- Web scraping (`get_saint_of_the_day`, `get_daily_meditation`), the liturgical-calendar HTTP call, and the S3/DynamoDB/boto3 set-up are external. Their results (season, bucket keys, the prayers table angelus_regina_caeli reads) are arguments; the rosary table is not (see Rosary.GetRosary below).
- Emoji aliases such as `:white_check_mark:` are kept unexpanded, because the emoji library is not modelled.
- Rosary.GetRosary: only the name and the five image URLs are returned. The prayer texts copied from the table, and the in-place mutation of the shared table entry, are not modelled. A type naming one of the table's other entries (`oracao_final`, `salve`, `ladainha`) fails with a different exception in Python; here every type outside the four gives KeyError. The rosary prayers table is not an argument. The model assumes it holds the four sets of mysteries, `oracao_final`, `salve`, `ladainha`, and entries '1' to '5' under each set's `misterios`. In Python, a missing entry raises KeyError, and the model does not return that error.
- Strings.Lower, Strings.Capitalize: only ASCII letters and the Latin-1 letters whose case partner is also Latin-1 are mapped; Python maps more. 'ß' capitalises to "Ss", two characters. 'ÿ' and 'µ' upper-case to U+0178 and U+039C, outside Latin-1. Since Python 3.8 `capitalize` uses title case, which differs from upper case for a few letters such as 'ǆ'. The names and tags this model handles are ASCII.
- Dates.FormatDate: the year is written as `str` writes it; for years below 1000 the padding of "%Y" depends on the platform's C library and is not modelled.

## Findings

| source | as written | input that shows it | evidently intended | confidence | as-written member | corrected member |
|---|---|---|---|---|---|---|
| opus.py:168-169, 180-181 | the random index is drawn with `randint(1, len(list))` and used as a 0-based index | a single stored aspiration: the only draw is 1, and `aspirations[1]` raises IndexError; on any list the top draw raises and index 0 is never drawn | `randint(0, len(list) - 1)`, as get_image_path and get_rosary draw | not executed | Aspirations.AsWrittenTopDrawFails, Aspirations.AsWrittenTagSingleFails, Aspirations.AsWrittenTagTopDrawFails | Aspirations.RandomPickCoversAll, Aspirations.TaggedPickCoversAll |
