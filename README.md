# Open Workshop storage: a verified model of its rules

Open Workshop storage is the file service of the Open Workshop mod catalogue. It stores
uploaded archives and images, serves downloads (asking the manager service before it
serves a mod archive), and deletes files. It also keeps the catalogue tables of the mods
it fetches from the Steam Workshop, counts requests by hour and by day, and can send
traces to Uptrace through OpenTelemetry.

This project models the deterministic rules behind those jobs in Dafny and proves what
they promise. Clock readings, the file system, the database, the manager's replies, the
Steam answers and the environment are all inputs or object state. The modules follow the
source files:

| module | file | what it holds |
|---|---|---|
| `Tools` | `tools.py` | the offered download file name; the token check over an abstract hash comparison |
| `StorageApi` | `main.py` | `download` and `upload` as functions of their inputs; `delete` and its parent pruning as a `FileTree` class over sets of paths |
| `Tool` | `tool.py` | text truncation, sort keys, "parse or empty list", the size check of `zipping` (class `Workshop`), the download counter, the mods count |
| `StatisticsClient` | `sql_statistics_client.py` | the hourly and daily upsert counters (class `StatisticsStore`) and the memoised label map (class `TypeLabelCache`) |
| `SteamTools` | `steam_tools.py` | dependency and screenshot extraction; `set_tags`, `set_dependence_and_screenshots`, `set_game`, `setters` and `checker` over the catalogue tables |
| `Telemetry` | `telemetry.py` | DSN parsing, the OTLP endpoints, setting lookup, exclude-span normalisation, span names, request targets and the once-only set-up |
| `Schema` | `sql_data_client.py` | the catalogue tables as the fields of class `CatalogueDb` |
| `PyStr`, `Wrappers` | — | the Python string built-ins the source relies on (slicing with negative bounds, `find`/`rfind`, `split`, `strip`, `isdigit`, `int()`, `os.path.splitext`/`basename`), plus `Option`/`Result` |

## Model

| member | source | states |
|---|---|---|
| Tools.BuildDownloadFilename | tools.py:9-17 | no name exactly when none, an empty one, or one with a character outside `[A-Za-z0-9_-]` is requested; otherwise the requested name followed by `splitext(real_path)[1]` |
| Tools.DownloadFilenameIsSafe | tools.py:12-17 | an offered name has no `/`; it has a `.` only where the served extension begins, and a space only if that extension has one; it equals the requested name when the served file has no extension |
| Tools.DownloadFilenameSplitsBack | tools.py:16-17 | `splitext` of an offered name gives back exactly the requested name and the served file's extension |
| Tools.CheckToken | tools.py:20-32 | false when no hash is configured under the token name; otherwise exactly the verdict of the hash comparison on the token and the configured hash |
| StorageApi.SecondSegmentIsSplitField | main.py:79-81 | splitting at most twice gives the same second `/`-field as splitting at every `/`, and none exactly when there is no `/` |
| StorageApi.Download | main.py:64-106 | 400 for a type that is not allowed, before anything else; 403 when `safe_path` refuses; 404 for a path that is not a file; any other file outside `archive/mod/` is sent as the resolved path under the built download name; under `archive/mod/`, 404 for an id that does not parse, and otherwise the file is sent exactly when the manager answers 200 with the id in its list, 403 when the list lacks it, 503 for any other status, 500 when the manager call fails or its 200 body is not JSON |
| StorageApi.SecondSegmentOfModPath | main.py:78-80 | the second segment of `mod/<segment>` or `mod/<segment>/...` is `<segment>` |
| StorageApi.ModIdOfModPath | main.py:78-83 | the mod id parsed from `mod/<n>/...` is `n` |
| StorageApi.DownloadModArchiveAccess | main.py:87-102 | an existing `archive/mod/<n>/...` file is sent exactly when the manager answers 200 with a list holding `n`; 403 when the list lacks it; 503 for any other status; 500 when the call fails or the 200 body is not JSON |
| StorageApi.ModIdOfBadSegment | main.py:82-85 | a second segment with no digit yields no mod id |
| StorageApi.DownloadModArchiveBadId | main.py:82-85 | an existing `archive/mod/` file whose id segment has no digit gets 404 |
| StorageApi.RelativeTo | main.py:175 | a path under the base, relative to it, joins back onto the base to give the path |
| StorageApi.Upload | main.py:126-184 | 400 for a type that is not allowed; 403 when `safe_path` refuses; otherwise the file is always stored; an archive member is made exactly for an `archive` upload whose path does not end in `.zip`, and that member is named after the path; any other upload is stored at the resolved path and answers the path as given |
| StorageApi.UploadArchiveStoredAsZip | main.py:151-175 | a non-`.zip` archive upload is stored at the root of its path plus `.zip`; the answer ends in `.zip`, and joined onto the base directory it gives the stored path |
| StorageApi.StoredZipPath | main.py:158-159 | the zip path built from the full path equals the base directory joined with the zip path built from the relative path |
| StorageApi.BasenameAppend | main.py:162-169 | appending `/`-free text to a path appends it to the basename |
| StorageApi.ArchiveMemberKeepsName | main.py:161-169 | without a borrowed extension the member is the basename of the path |
| StorageApi.ArchiveMemberBorrowsExtension | main.py:161-169 | when the path has no `.` and the uploaded name has one, the member is the basename, a `.` and the uploaded name's last extension |
| StorageApi.PrunedStaysInsideRoot | main.py:250-257 | pruning never removes the root or any directory outside it; it removes only the start folder and its ancestors strictly inside the root |
| StorageApi.PrunedWereEmpty | main.py:255-257 | every pruned directory is empty in the final tree, so it was empty when it was removed |
| StorageApi.PruneStopsAtFirstNonEmpty | main.py:250-263 | the pruned set is exactly the ancestors below the stopping folder; that folder is the root, lies outside it, or is not empty |
| StorageApi.FileTree.DeleteFileAndParentFolders | main.py:231-265 | 404 and no change for a path that is not a file; otherwise 200, only that file removed and exactly the pruned directories removed; the tree stays well formed |
| StorageApi.FileTree.Delete | main.py:209-267 | 400 or 403 with no change; otherwise the deletion below `mainDir/type`, with pruning bounded by that base directory |
| Tool.TruncateDefault | tool.py:182-185 | with the default length of 256, the result never exceeds 256 characters, and a text that fits is kept |
| Tool.TruncateKeepsShortText | tool.py:182-185 | a text of at most `length` characters is returned unchanged |
| Tool.TruncateLongText | tool.py:183-184 | with `length >= 3`, a longer text becomes exactly `length` characters: `text[:length-3]` then `...` |
| Tool.TruncatedIsPrefixWithEllipsis | tool.py:183-184 | for every `length`, a truncated text is a prefix of the text followed by `...` |
| Tool.TruncateBelowThreeOverruns | tool.py:183-184 | with `length < 3` the negative slice bound counts from the end: `truncate_text("abcd", 1)` is five characters long |
| Tool.StrToList | tool.py:171-178 | the result is empty for unparsable text or a JSON value that is not an array; a non-empty result is the parsed array's items |
| Tool.StrToListOfArray | tool.py:171-178 | every JSON array comes back as its own items |
| Tool.SortModsInvertedKey | tool.py:92-117 | each plain key sorts ascending, and its `i` form sorts the same column descending |
| Tool.SortModsDefault | tool.py:92-121 | only `i` keys sort descending; `iMOD_DOWNLOADS` sorts by downloads descending; every key that is neither a plain key nor one of the seven `i` keys, `MOD_DOWNLOADS` included, sorts by downloads ascending |
| Tool.SortGamesDefault | tool.py:146-149 | unknown keys sort by mods downloads descending, while `MOD_DOWNLOADS` sorts by them ascending |
| Tool.SortGamesMissesInvertedModsCount | tool.py:142-145 | as written, `iMODS_COUNT` does not sort by mods count: it falls through to the mods-downloads default |
| Tool.SortGamesCorrectedInvertedKey | tool.py:124-149 | with the descending key also accepted as `iMODS_COUNT`, every plain `sort_games` key except `MOD_DOWNLOADS` sorts ascending, and its `i` form sorts the same column descending |
| Tool.TotalSizeConcat | tool.py:27-33 | the size total of two runs of entries is the sum of their totals |
| Tool.TotalSizeIgnoresOrder | tool.py:27-33 | the size total does not depend on the order in which `os.walk` lists the entries |
| Tool.Workshop.Zipping | tool.py:12-52 | true exactly when the directory exists, is non-empty, and its non-symlink file sizes add up to a positive target; the directory is removed in every case; the staged zip is removed; the archive is published only on success |
| Tool.CountDownload | tool.py:152-162 | the update exists exactly when the mod and its game exist, and it keeps both key sets |
| Tool.CountDownloadAddsOne | tool.py:155-160 | one download adds exactly 1 to the mod's downloads and 1 to its game's mods downloads, sets the request date, and changes no other mod or game |
| Tool.DownloadsCountUpdate | tool.py:152-162 | the tables become `CountDownload`'s result, or stay as they were when the mod or its game is missing |
| Tool.GetModsCount | tool.py:165-168 | the count is at most the number of mods, and it is 0 exactly when no mod belongs to the game |
| Tool.GetModsCountAfterInsert | tool.py:165-168 | inserting a mod raises its game's count by one and leaves every other game's count unchanged |
| StatisticsClient.HourBucket | sql_statistics_client.py:107 | the bucket has minute, second and microsecond zero |
| StatisticsClient.HourBucketSameHour | sql_statistics_client.py:107 | two times share a bucket exactly when year, month, day and hour agree; bucketing is idempotent |
| StatisticsClient.Bump | sql_statistics_client.py:110-120 | an upsert adds the key if it is missing, sets its count to the old count plus one (1 for a new row), and leaves every other row alone |
| StatisticsClient.BumpAllCountsOccurrences | sql_statistics_client.py:105-136 | from empty tables, a run of upserts leaves a row exactly for each key that occurred, with its number of occurrences as its count |
| StatisticsClient.StatisticsStore.UpdateHour | sql_statistics_client.py:105-120 | the hourly table becomes the upsert of (current hour bucket, type) |
| StatisticsClient.StatisticsStore.UpdateDay | sql_statistics_client.py:121-136 | the daily table becomes the upsert of (today, type) |
| StatisticsClient.StatisticsStore.Update | sql_statistics_client.py:95-103 | one upsert in the hour bucket and one in the day, for the same type; nothing else changes |
| StatisticsClient.HourlyCountsAfterEvents | sql_statistics_client.py:95-120 | after a run of events in one hour, each type's hourly count is how often it occurred |
| StatisticsClient.OccurrencesOfTagged | sql_statistics_client.py:110 | keying events by one bucket does not change how often a type occurs |
| StatisticsClient.LabelsOfKeysAndValues | sql_statistics_client.py:41-43 | the built map has exactly the types as keys, and each value is the label that type's entry gives for the language |
| StatisticsClient.TypeLabelCache.CacheTypesData | sql_statistics_client.py:37-45 | a non-empty cached map is returned unchanged; a language without a fallback label raises and caches nothing; otherwise the built map is returned and cached; every cached map is the one built for its language |
| StatisticsClient.BuildLabels | sql_statistics_client.py:41-43 | the loop yields the map built from every entry; for a language without a fallback label it raises exactly when there is at least one entry |
| StatisticsClient.LabelsAreNeverEmpty | sql_statistics_client.py:38-44 | a built map is never empty and its keys are exactly the types of `type_map`, so a repeated call is answered from the cache |
| SteamTools.DependencyId | steam_tools.py:51-53 | an id exactly when the link, without the workshop prefix, is all digits; the id is never negative |
| SteamTools.DependencyIdOfWorkshopLink | steam_tools.py:51-53 | a workshop link to item `n` yields `n` |
| SteamTools.DependencyIdNeedsDigits | steam_tools.py:51-53 | a link whose remainder is empty or has a non-digit is dropped |
| SteamTools.ScreenshotUrl | steam_tools.py:73-83 | a kept URL starts with `https://` and is no longer than the `onclick` value |
| SteamTools.ScreenshotUrlBetweenQuotes | steam_tools.py:73-77 | the URL between the first and last quote is taken whole, quotes inside it included |
| SteamTools.QuotePositions | steam_tools.py:73-77 | in `before'url'after` with no quote in `before` or `after`, the first quote is at the end of `before` and the last at the end of the URL |
| SteamTools.ScreenshotUrlWithoutQuotes | steam_tools.py:73-83 | with no quote, the slice runs to one before the end, so the value without its last character is kept when it starts with `https://` |
| SteamTools.FirstMissing | steam_tools.py:48-55 | everything before the index is present, and the attribute at the index is missing |
| SteamTools.CollectMembers | steam_tools.py:48-53 | an item is collected exactly when extraction keeps it from some attribute |
| SteamTools.CollectConcat | steam_tools.py:48-53 | collecting over two runs of attributes is collecting over each in turn |
| SteamTools.ExtractedStopsAtMissing | steam_tools.py:48-55 | a missing attribute ends a loop: what follows it is ignored and what came before is kept |
| SteamTools.CollectUntilMissing | steam_tools.py:65-85 | the loop collects exactly the kept items before the first missing attribute |
| SteamTools.GetHtmlData | steam_tools.py:32-89 | both lists are empty without a page; otherwise each list is what its loop extracts, the two loops independent of each other |
| SteamTools.ExtractedItemsAreWellFormed | steam_tools.py:50-83 | every collected dependency id is non-negative, and every screenshot URL starts with `https://` |
| SteamTools.TagIdOf | steam_tools.py:192 | no id exactly when no row has the name; a found id belongs to a row with that name |
| SteamTools.TagIdOfAppend | steam_tools.py:192-198 | appending a tag row keeps every name's id, and gives a name that had none the new row's id |
| SteamTools.NextTagId | steam_tools.py:194-197 | a new tag's id is larger than every existing id |
| SteamTools.NewTagKeepsIds | steam_tools.py:192-198 | adding a row under a new name keeps every other id and gives the name the new id |
| Schema.WithoutKey | steam_tools.py:139-140 | a row stays exactly when its first column differs from the key |
| Schema.WithoutOwner | steam_tools.py:151-152 | a resource stays exactly when another mod owns it |
| SteamTools.NewTagsOnlyAppend | steam_tools.py:192-198 | tag rows are added only for names of the mod, each once, with increasing ids |
| SteamTools.LinkTag | steam_tools.py:190-214 | the tag is found or added, ids are kept, and the allowed and mod links gain exactly the missing row |
| SteamTools.SetTagsStep | steam_tools.py:190-214 | one handled tag extends the loop invariant: linked and allowed, no link added twice, each added link naming a tag of the mod |
| SteamTools.TableStep | steam_tools.py:200-214 | adding one link only when it is absent keeps a link table free of repeated appends, with each appended link naming a tag of the mod |
| SteamTools.SetTags | steam_tools.py:185-215 | every tag name of the mod exists, is allowed for the game and is linked to the mod; new tags and links are only added once, and only for the mod's names |
| SteamTools.UrlsAppend | steam_tools.py:173-176 | adding a resource adds its URL to the known URLs |
| SteamTools.NewUrlAppend | steam_tools.py:173-181 | a resource whose URL is unknown keeps the table free of repeated URLs |
| SteamTools.AppendNewPair | steam_tools.py:165-169 | adding an absent pair keeps a link table free of repeated appends |
| SteamTools.AddDependencies | steam_tools.py:163-169 | every dependency is linked to the mod; only absent pairs are added, and each belongs to the mod |
| SteamTools.AddResources | steam_tools.py:171-182 | every screenshot URL and the preview URL are known; a row is added only for an unknown URL, each URL once; every added row is owned by the mod, dated at the given time, and is a screenshot of the list or the logo for the preview, a logo only when no screenshot has that URL |
| SteamTools.SetDependenceAndScreenshots | steam_tools.py:160-184 | every found dependency is linked to the mod, only absent pairs added; every found screenshot and the preview are known; each added resource is owned by the mod, dated at the given time, a screenshot of the list, or the logo only when the preview is not also a screenshot |
| SteamTools.NewGameRow | steam_tools.py:223-234 | a new game has zero mods downloads, source `steam`, the given mods count and time, and the app data's texts |
| SteamTools.LinkGenre | steam_tools.py:239-254 | a missing genre is created under its description (`No data` without one), and the game–genre link is added unless present |
| SteamTools.SetGenresStep | steam_tools.py:239-254 | one handled genre extends the loop invariant: the genre is known and linked, old genres keep their names, and links are added once |
| SteamTools.SetGame | steam_tools.py:216-257 | it raises exactly for an unknown game whose app data has no genres; a known game gets its mods count refreshed and nothing else; an unknown game with no app data changes nothing; an unknown game with app data is inserted; without genres nothing else changes, otherwise each of its genres is known and linked once |
| SteamTools.RelinkTags | steam_tools.py:139-142 | every tag of the mod exists, is allowed for the game and linked to the mod; the mod's links are exactly those to its tags; the link table is what the delete kept followed by new links of the mod, each added once; other mods' links are as they were; tags and allowed links only gain rows, each added once |
| SteamTools.RelinkGame | steam_tools.py:144-147 | other games' genre links are as they were; a known game gets its mods count and the link table is exactly what the delete kept; an unknown game without app data changes nothing else and the link table is what the delete kept; an unknown game with app data is inserted; where the answer has no genres, the step raises there, genres are unchanged and the link table is what the delete kept; otherwise the link table is what the delete kept followed by links of the game, each added once, to exactly its genres, each of which exists, old genres keeping their names |
| SteamTools.RelinkDependenceAndScreenshots | steam_tools.py:149-154 | the mod's dependencies become exactly the found ones, appended once each after what the delete kept; every screenshot URL and the preview URL are known, resources after the kept prefix each having a new URL; every resource of the mod is new, dated at the given time, and a found screenshot or the logo for a preview that is no screenshot; other mods' dependency rows and resources are as they were |
| SteamTools.MarkDownloaded | steam_tools.py:156 | the mod's condition becomes 0, and no other mod changes |
| SteamTools.RelinkTagsAndGame | steam_tools.py:139-147 | the tag outcome of the first step still holds after the game step, and the game outcome holds too, including where `set_game` raises |
| SteamTools.KnownGameLosesGenreLinks | steam_tools.py:144-147 | as written, a genre link of a game already in the catalogue does not survive the game half of `setters` |
| SteamTools.RelinkGameKeepingGenres | steam_tools.py:144-147 | corrected: a known game keeps its genres and genre links and gets its mods count; an unknown game is handled as before |
| SteamTools.RelinkDependenceAndMark | steam_tools.py:149-158 | the dependency and resource outcome still holds after the mod is marked downloaded, and only the mod's condition changes |
| SteamTools.Setters | steam_tools.py:137-158 | it stops exactly where `set_game` raises; the tag and game outcomes hold at the end, the game's mods count taken from the mods as they were; when it does not stop, the dependency and resource outcomes hold and the mod's condition becomes 0, no other mod changing; when it stops, dependencies, resources and mods are as they were; `games_mods` is untouched |
| SteamTools.FirstBinding | steam_tools.py:110-114 | no game exactly when the mod has no binding; a found game is bound to the mod |
| SteamTools.Checker | steam_tools.py:108-134 | no record gives nothing; an existing zip is served under the mod's name; a directory at the base path leads to the repair branch; otherwise the record and its bindings are deleted, and only in that case does anything change |
| SteamTools.RemovedRecordHasNoBinding | steam_tools.py:127-134 | once a record is removed, the mod has no binding, and its archive path falls back to `null/` |
| Telemetry.HostInfo | telemetry.py:21 | the host text is the part of the network location after its last `@`, and it holds no `@` |
| Telemetry.Hostname | telemetry.py:21 | a host name is never empty, and only a non-empty network location has one |
| Telemetry.PortOf | telemetry.py:47 | a readable port lies in 0..65535 |
| Telemetry.QueryValue | telemetry.py:55-58 | a found value is non-empty and comes from a `name=value` field; none exactly when no field has a non-empty value under that name |
| Telemetry.ParseDsn | telemetry.py:19-23 | a refusal always carries the invalid-URL message |
| Telemetry.ParseDsnRejects | telemetry.py:19-23 | refused exactly without a scheme or without a host name; otherwise the split DSN |
| Telemetry.AcceptedDsnHasSchemeAndSlashes | telemetry.py:19-23 | an accepted DSN has a scheme followed by `://` |
| Telemetry.TraceEndpointExtendsGrpc | telemetry.py:43-64 | without a `grpc` query value, the trace endpoint is the gRPC endpoint followed by `/v1/traces`, and both fail together |
| Telemetry.GrpcQueryWinsOverPort | telemetry.py:57-64 | a `grpc` query value is used as the port in preference to the DSN's own port, even an unreadable one |
| Telemetry.TraceEndpointIsClean | telemetry.py:43-50 | the trace endpoint keeps no user info, query or fragment of the DSN |
| Telemetry.ReadSettingPrecedence | telemetry.py:26-40 | a non-blank environment value wins over the configuration, which wins over the default; a given default always yields a value |
| Telemetry.ReadSettingIsTrimmed | telemetry.py:28-36 | a value other than the default is non-blank and has no surrounding whitespace |
| Telemetry.KeptSpansMembers | telemetry.py:93-97 | only `receive` and `send` are kept, and each is kept exactly when it occurs among the normalised items |
| Telemetry.KeptSpansDistinct | telemetry.py:95-97 | no span kind is kept twice |
| Telemetry.KeptSpansOrdered | telemetry.py:95-97 | kept kinds are in the order of their first occurrence |
| Telemetry.KeptSpansEmpty | telemetry.py:99 | nothing is kept exactly when no item is a span kind |
| Telemetry.KeepSpanKinds | telemetry.py:94-97 | the loop's list is the kept span kinds of the items |
| Telemetry.ParseFastapiExcludeSpans | telemetry.py:89-99 | the result is `ExcludeSpans` of the setting: `None` gives `["receive", "send"]`; otherwise the kept kinds of the stripped, lower-cased, non-blank items, or `None` when nothing is kept |
| Telemetry.SpanNameParts | telemetry.py:102-107 | a span name is the verb with no lower-case ASCII letter, a space, then the path, or `/` for an empty path |
| Telemetry.Latin1RoundTrip | telemetry.py:77 | Latin-1 decoding gives characters below 256 and encodes back to the same bytes |
| Telemetry.RequestTargetSplitsBack | telemetry.py:73-77 | with a non-empty query, the target is the path, `?`, and text that encodes back to the query bytes |
| Telemetry.RequestTargetWithoutQuery | telemetry.py:73-77 | without a non-empty query, the target is the path, or `/` when the scope has none |
| Telemetry.ExporterFor | telemetry.py:156-192 | a built exporter carries the DSN as `uptrace-dsn` and the normalised exclude spans |
| Telemetry.ProtocolInference | telemetry.py:168-171 | with no protocol set, the exporter speaks gRPC exactly when a gRPC endpoint is configured or the DSN has a `grpc` query value, and HTTP otherwise |
| Telemetry.UnknownProtocolFails | telemetry.py:191-192 | a protocol other than `http` and `grpc` makes the set-up fail |
| Telemetry.EndpointChoice | telemetry.py:173-190 | a built exporter speaks `grpc` or `http`; it uses the configured endpoint for its protocol, or else the one derived from the DSN |
| Telemetry.Configure | telemetry.py:141-244 | an exporter is built only with a DSN, and it carries that DSN |
| Telemetry.ConfigureMeaning | telemetry.py:141-244 | set-up succeeds exactly with a DSN, the packages, a valid configuration and working wiring, and it builds the configured exporter |
| Telemetry.Instrumentation.SetupUptraceTelemetry | telemetry.py:131-244 | once set up, it answers true and changes nothing; otherwise it answers whether `Configure` succeeds, and sets both flags exactly on success |

## Left out

- `tools.safe_path` and `tools.is_allowed_type` are called but not defined in `tools.py`. Their verdicts are inputs, and an accepted path is given as its normalised part relative to the base directory.
- The bcrypt comparison in `check_token` is a foreign library call, so it is a function parameter. Since `check_token` is never awaited in `upload` and `delete`, the model takes the 403 branches at main.py:134-135 and main.py:217-218 as never taken.
- File copying, zip writing (`zip_single_file`, `copy_fileobj_to_path`), `os.makedirs` and the temporary file of `upload` are left out. A second `safe_path` failure on the `.tmp` path is not modelled either. `upload` is modelled by where the file ends up and what it answers.
- `calculate_uncompressed_size` and `zip_standart` in `tool.py` only call the `zipfile` library, so they are not part of this model.
- Tool.Workshop.Zipping: the entries `os.walk` lists are a sequence per directory, and the archive's content is that sequence. The relative member names and the directory entries written into the zip are not modelled.
- SteamTools.SetGame: only a missing `genres` key is modelled among the KeyErrors of `get_app`'s answer. A missing `name`, `type`, `header_image`, `short_description` or `detailed_description` raises before the insert, and a genre without `id` raises partway through the genre loop; `AppData` and `Genre` always carry these fields.
- StorageApi.Download: a 200 body that is JSON but not a list of ids (an object, a list of strings) is not modelled; `Replied` carries either a list of ids or nothing decodable.
- `get_mod`, `get_app` and the page fetch in `get_html_data` are network calls, and BeautifulSoup parsing is a library. Their results are inputs: the app data, the tag names, and the `href`/`onclick` attributes in document order.
- SteamTools.Checker: the repair branch returns an outcome without state change. The `tool.zipping` call there lacks its `target_size` argument and would raise.
- SteamTools.AddResources: every row it inserts gets the same `now`, where the source reads `datetime.now()` afresh for each screenshot and for the logo. `SetGame` and `Setters` likewise take one `now` for the game's `creation_date`.
- Duplicate statistics rows cannot occur in `StatisticsStore`, because the counters are maps from key to count. The source's `first()` would pick one of several rows.
- `create_processing` reads the clock and uses floating-point milliseconds, so it is not part of this model. The clock readings of `update_hour` and `update_day` are parameters.
- StatisticsClient.TypeLabelCache.CacheTypesData: proved against the map built from the cache's `typeMap`, which the constructor sets to `type_map`.
- `DownloadsCountUpdate` takes the downloads count the caller already read as `seenDownloads`. A stale count is written back as it is, as in the source.
- `isdigit`, `lower` and `upper` are modelled on ASCII only. The Unicode digits that `isdigit` accepts and `int()` refuses are not modelled.
- Telemetry.Hostname: `urlsplit` is written out without IPv6 brackets or the removal of control characters (it does no percent-decoding, and neither does the model). The port rules follow Python 3.12: an empty port is no port, and a port that is not an ASCII number in 0..65535 raises.
- Telemetry.PortOf: Python words a non-number port and a port above 65535 differently; both texts only reach the log, so the model carries one refusal text for both.
- Telemetry.QueryValue: `parse_qs` turns `+` into a space and percent-decodes names and values after splitting; the model compares and returns the raw text. The test for an empty value is made on the raw text in both.
- The OpenTelemetry wiring (tracer provider, instrumentors, `atexit`) is a set of library calls. Whether the packages import and whether the wiring succeeds are parameters. The service name, version, environment and excluded URLs are read but only passed on, so they are not modelled.
- The settings read from the environment and `ow_config` are passed to the set-up as a value read by `ReadSettings`.
- The fallback of `_aiohttp_span_name` to `HTTP` on an exception, and the span attributes set by the request hooks, are left out. Only the span name and the target text are modelled.

## Findings

| source | as written | input that shows it | evidently intended | confidence | as-written member | corrected member |
|---|---|---|---|---|---|---|
| steam_tools.py:144-147, 255-256 | the game's genre links are deleted before `set_game`, which re-creates them only for a game it inserts | a mod of a game already in the catalogue is refreshed: that game is left with no genre links | a known game keeps its genre links | not executed; plausible, the delete mirrors the tag half, where `set_tags` rebuilds every link | SteamTools.KnownGameLosesGenreLinks | SteamTools.RelinkGameKeepingGenres |
| tool.py:144-145 | the descending form of `MODS_COUNT` is matched as `iMOD_COUNT`, unlike every other `i` key, which is `i` + plain key | `sort_games("iMODS_COUNT")` sorts by mods downloads, descending, instead of mods count | `iMODS_COUNT` sorts by mods count, descending | not executed; the manager may send `iMOD_COUNT` on purpose | Tool.SortGamesMissesInvertedModsCount | Tool.SortGamesCorrectedInvertedKey |
