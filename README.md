# Modeler's Rift seeding jobs in Dafny

Modeler's Rift is a web app that shows League of Legends champion models and sounds. Its
assets sit in an S3 bucket, and its Postgres database has a `character` table and an
`asset` table. Both tables are filled by scripts under `bin/`. This project models the core
of those scripts and proves properties of the model:

- **The bucket traversal** (`performOnAllObjects`, module `S3`). It lists the bucket page by
  page, following continuation tokens, and hands each page to a callback before asking for
  the next one.
- **The add-characters job** (module `AddCharacters`).
  - Every `models/<name>/` directory of the bucket becomes a `character` record, found by
    name or created. A created record is typed champion, Teamfight Tactics, Summoner's Rift
    or unknown.
  - Once the listing ends, every champion record gets its display name.
- **The add-assets job** (module `AddAssets`). It runs over the `models`, `sfx` and `vo`
  listings. Each page's objects become asset records:
  - the type comes from the key;
  - the skin token is matched in the key;
  - the name is either the data-dragon skin name, a "Chroma n" counter that runs through
    each character's group, or the capitalised sound file name;
  - the uri and url are built from the bucket and the key.

  The records are grouped by character in first-occurrence order. Each group is upserted by
  uri in one transaction. A group whose character is missing ends the page.
- **The helpers of `bin/utils.ts`** (module `Utils`):
  - character type, display name, capitalisation and the data-dragon JSON name;
  - the voice-line file name rule and the per-directory counter loop of `renameOggFiles`;
  - the skin directory → `.bin` rule and the nested loops of `extractBnkContent`.
- **The database** (module `Database`). The two tables are a class `Db` whose maps its
  methods update in place: `findFirst`, `create`, `update` and `$transaction` of upserts.
- **Support modules.** `Text` holds the JavaScript string operations the scripts use. `Wrappers`
  holds `Option`.

What is not modelled, and why:

- **The champion-name list and the skin table** come from a constants file and an HTTP API.
  They are parameters (`known`, `skinsByChampion`).
- **The bucket contents** are a parameter too: a map from a continuation token to the page
  the store answers with.
- **The bucket name** comes from the environment and is a parameter (`bucket`).

Each method is proved against a specification function of its inputs and old state, for
example:

- `Insert` ends with `db.assets == InsertPage(...)`;
- `AddCharactersPage` ends with the roster equal to `FindOrCreate(...)`;
- `RenameOggFiles` ends with `Run(logged, completed) == RenamePlan(...)`;
- `PerformOnAllObjects`, and the jobs built on it, end with the pages and the completion flag
  equal to `Traversal(listing)`: the pages reached from the first request by the continuation
  tokens, up to the last page or the first rejected request.

Lemmas then state what those functions promise: round trips, idempotence, first-occurrence
order, which groups get written, chroma numbering, and the invariants of the tables.

## Model

| member | source | states |
|---|---|---|
| Text.Lower | bin/utils.ts:9-10 | `toLowerCase` maps every character and keeps the length; no upper-case letter remains |
| Text.ReplaceFirst | bin/jobs/add-characters.ts:15 | a pattern that does not occur leaves the string unchanged; otherwise its first occurrence (at `indexOf`) is replaced by `rep` and the text before and after it is kept |
| Text.ReplaceAtStart | bin/utils.ts:200-201 | a string that starts with the pattern loses exactly that prefix |
| Text.Split | bin/utils.ts:188 | `split("/")` gives at least one part; joining the parts with the separator gives back the string, and no part contains the separator |
| Text.SplitAppend | bin/utils.ts:188 | a separator between a and b splits into the parts of a followed by the parts of b |
| Text.SplitOn | bin/utils.ts:87 | `split` gives at least one part, two or more exactly when the separator occurs; joining the parts with the separator gives back the string, and no part contains the separator |
| Text.TrimEnd | bin/utils.ts:261 | `trimEnd` keeps a prefix that does not end in whitespace and drops only whitespace |
| Text.StripLeadingZeros | bin/utils.ts:88 | `replace(/^0+/, "")` keeps a suffix that does not start with '0' and drops only zeros |
| Text.NatToString | bin/jobs/add-assets.ts:102 | a number in a template literal is a non-empty run of digits without a leading zero |
| Text.NatToStringValue | bin/jobs/add-assets.ts:102 | the digits, read as a decimal numeral, give back the number |
| Text.NatToStringInjective | bin/jobs/add-assets.ts:102 | different numbers are written differently |
| Text.RemoveEveryAbsent | bin/utils.ts:202 | a global replace of a pattern that does not occur leaves the string unchanged |
| Text.FirstFoundAtEnd | bin/utils.ts:211 | `indexOf` of a pattern appended to a string without it, the pattern having no repeat of its first character, is where it was appended |
| Utils.FindKnown | bin/utils.ts:9-11 | the first entry equal to the name ignoring case, none exactly when the name is not a known champion |
| Utils.GetCharacterType | bin/utils.ts:8-20 | champion iff the name is known ignoring case; otherwise team_fight_tactics iff it contains "tft"; otherwise summoners_rift iff it contains "sru"; otherwise unknown |
| Utils.GetCharacterDisplayName | bin/utils.ts:23-31 | "Jarvan IV" for jarvaniv in any case; otherwise defined iff the name is known, and then the first matching entry with a space before each capital |
| Utils.JoinWithSpaces | bin/utils.ts:29-30 | splitting before capitals and joining with " " puts a space before every capital but the first character |
| Utils.DisplayNameRemoveSpaces | bin/utils.ts:28-30 | removing the spaces of a display name gives back the known entry it came from |
| Utils.JoinWithNothing | bin/utils.ts:273-274 | splitting before capitals and joining with "" gives back the entry unchanged |
| Utils.Capitalize | bin/utils.ts:251-262 | "" for a missing or empty string; otherwise the first letter and each letter after a space upper-cased, the rest kept, trailing whitespace removed |
| Utils.CapitalizedSplit | bin/utils.ts:254-260 | the `reduce` over the words split at " " equals upper-casing each word start and appending one space |
| Utils.HttpSafeName | bin/utils.ts:266-270 | the cleaned name has no '.', ''', '&', space or upper-case letter |
| Utils.HttpSafeNamePlain | bin/utils.ts:266-270 | a name with none of '.', ''', '&', space and neither "Willump" nor "Glasc" is only lower-cased |
| Utils.HttpSafeNameWithWillump | bin/utils.ts:266-270 | such a name followed by " & Willump" gives the name lower-cased: the separators and then "Willump" are removed |
| Utils.HttpSafeNameWithGlasc | bin/utils.ts:266-270 | such a name followed by " Glasc" gives the name lower-cased |
| Utils.HttpSafeNameOfNunu | bin/utils.ts:266-270 | "Nunu & Willump" gives "nunu" |
| Utils.HttpSafeNameOfRenata | bin/utils.ts:266-270 | "Renata Glasc" gives "renata" |
| Utils.GetJsonName | bin/utils.ts:265-275 | defined iff some entry lower-cased equals the cleaned name, and then it is the first such entry itself |
| Utils.FirstSkinPartIndex | bin/utils.ts:190-192 | `indexOf` of the part `find` returned is the index of that first "skin" part |
| Utils.CleanVoiceLineName | bin/utils.ts:199-204 | the cleaned sound name contains no '_' |
| Utils.CleanVoiceLineOfVo | bin/utils.ts:195-204 | "Play_vo_" + the capitalised champion + "Skin" + digits + "_" + x cleans to x, for x without '_' and without the champion's name |
| Utils.CleanVoiceLineOfSfx | bin/utils.ts:195-204 | "Play_sfx_" + the capitalised champion + "Skin" + digits + "_" + x cleans to x under the same conditions |
| Utils.CounterSuffix | bin/utils.ts:206-208 | the suffix is empty exactly when the counter is 0 |
| Utils.VoiceLineTargetOf | bin/utils.ts:188-212 | for a target, the named directory is the part right after the first part containing "skin", that part being neither the first nor the last; `indexOf` finds the named directory first right after the directory prefix, which is a prefix of the path |
| Utils.VoiceLineTargetAt | bin/utils.ts:188-198 | first "skin" part at index 0: no name; the last part: the named directory is missing; any other part: a target |
| Utils.VoiceLineTargetShape | bin/utils.ts:188-198 | no name iff no "skin" part or it is the first part; missing directory iff the first "skin" part is the last part |
| Utils.VoiceLineNoTarget | bin/utils.ts:188-193 | no name iff no part contains "skin" or the first part does |
| Utils.VoiceLineTargetMissing | bin/utils.ts:190-198 | the named directory is missing iff only the last part contains "skin" |
| Utils.FormatVoiceLineFileName | bin/utils.ts:184-215 | undefined and the TypeError exactly in the cases above; otherwise the path is the directory prefix, then the cleaned name of the named directory, then " <counter>" unless the counter is 0, then ".ogg" |
| Utils.VoiceLineCounterSuffix | bin/utils.ts:206-214 | whether a name is produced does not depend on the counter; a non-zero counter only inserts " <counter>" before ".ogg" |
| Utils.RenameChampionFiles | bin/utils.ts:228-246 | the inner loop logs exactly the plan `RenameFrom` of the directory's files, stopping at a thrown TypeError |
| Utils.RenameOggFiles | bin/utils.ts:217-248 | the outer loop logs exactly `RenamePlan`: each champion directory in order, the counter restarting in each |
| Utils.RenameStep | bin/utils.ts:230-244 | one loop step for a file that gets a name puts its name, with its counter, before the names of the files after it |
| Utils.SameDirectoryNumbering | bin/utils.ts:233-238 | files in the directory already being tracked get the counters that follow, in order |
| Utils.FreshDirectoryNumbering | bin/utils.ts:228-244 | files of one directory entered from another are numbered 0, 1, 2, … in listing order |
| Utils.RenameSkips | bin/utils.ts:230-241 | a file that gets no name logs nothing and moves the counter (restart or advance) but leaves the tracked directory as it was |
| Utils.RenameNames | bin/utils.ts:230-244 | a file that gets a name is logged, with the counter it was formatted with, before the rest, and its directory becomes the tracked one |
| Utils.UnnamedFileBetween | bin/utils.ts:228-246 | d/a named, then x unnamed, then d/b named: a gets no number, and b gets " 1" when x lies outside d and " 2" when x lies in d, since only a named file updates the tracked directory |
| Utils.BinFileName | bin/utils.ts:83-89 | "base" gives skin0; another name without "skin" throws; otherwise the result starts with "skin" and does not continue with '0' |
| Utils.StripZerosBeforeNumber | bin/utils.ts:88 | zeros before a number that does not start with '0' are all removed |
| Utils.BinFileAfterLeadingSkin | bin/utils.ts:86-89 | "skin" followed by a part without "skin" gives "skin" and that part without its leading zeros |
| Utils.BinFileOfNumberedSkin | bin/utils.ts:83-89 | skin01 → skin1: "skin", any zeros, then a positive number n give "skin<n>" |
| Utils.ExtractBnkContent | bin/utils.ts:74-117 | the nested loops queue exactly `ExtractPlan`: one job per skin directory in order, stopping where a name throws |
| Utils.SkinJobsNamed | bin/utils.ts:80-97 | every job queued for a champion uses the `.bin` name of its skin directory |
| Utils.ExtractJobsNamed | bin/utils.ts:74-97 | every queued job uses the `.bin` name of its skin directory |
| Utils.SkinJobsComplete | bin/utils.ts:80-116 | when every entry is "base" or contains "skin", all the champion's entries are queued in listing order: job k is the champion, entry k and that entry's `.bin` name |
| Utils.ExtractPlanCompletes | bin/utils.ts:74-117 | when every entry is "base" or contains "skin", the loops complete and queue one job per entry: each champion's entry jobs, the champions concatenated in listing order |
| Database.ApplyUpsert | bin/jobs/add-assets.ts:125-129 | an upsert by uri writes the fields; an existing asset keeps its character, a new one gets the write's character; other uris are unchanged |
| Database.LastWrite | bin/jobs/add-assets.ts:124-132 | the data of the last write in the batch that names the uri; none exactly when no write names it |
| Database.ApplyUpsertsAt | bin/jobs/add-assets.ts:124-132 | after a batch, a uri is present iff it was before or a write names it, and then holds its last write's fields; an existing asset keeps its character and a new one gets a writer's character; others are unchanged |
| Database.ApplyUpsertsConcat | bin/jobs/add-assets.ts:132 | two batches in turn come to the same table as one batch of both |
| Database.ApplyUpsertsTwice | bin/jobs/add-assets.ts:124-132 | re-running a batch of upserts changes nothing |
| Database.UpsertsKeepValid | bin/jobs/add-assets.ts:124-132 | upserts that name existing characters keep every asset under its uri and attached to an existing character |
| Database.SetDisplayName | bin/jobs/add-characters.ts:50-57 | an update leaves id, name and type alone; an undefined display name leaves the field as it was |
| Database.AddCharacterKeepsValid | bin/jobs/add-characters.ts:26-31 | a record under a new name with the next id keeps names, ids and asset owners valid |
| Database.Db.FindCharacter | bin/jobs/add-assets.ts:119-121 | `findFirst` by name finds the record of that name, none exactly when there is none |
| Database.Db.CreateCharacter | bin/jobs/add-characters.ts:26-31 | `create` adds the record with the next id and no display name, and advances the id |
| Database.Db.UpdateDisplayName | bin/jobs/add-characters.ts:50-57 | `update` changes only that record's display name and keeps the tables valid |
| Database.Db.Transaction | bin/jobs/add-assets.ts:132 | the batch is applied as a whole to the asset table; characters are unchanged |
| S3.Present | app/lib/s3.server.ts:78-80 | a field is sent exactly when its value is present and non-empty |
| S3.Request | app/lib/s3.server.ts:74-81 | the request carries the token, delimiter and prefix under that rule |
| S3.PerformOnAllObjects | app/lib/s3.server.ts:69-89 | the pages handed to the callback and whether the traversal ended normally are exactly `Traversal` of the listing; the first request has no token and each later one carries the previous page's next token, with the same prefix and delimiter; the traversal returns the first page without a next token, or fails at the first rejected request before its callback |
| S3.PagesFromFuel | app/lib/s3.server.ts:69-89 | the pages from a token do not depend on the bound used to reach the last one |
| S3.Traversal | app/lib/s3.server.ts:69-89 | the pages from the first request on, whatever bound on their number is used |
| S3.LoggedFrom | app/lib/s3.server.ts:69-89 | a log that follows the request and stop rule is, from any of its requests on, the pages from that request's token |
| S3.LogIsTraversal | app/lib/s3.server.ts:69-89 | such a log, from the first request, is exactly `Traversal` of the listing |
| AddAssets.CharacterName | bin/jobs/add-assets.ts:66-77 | a key without '/' has character name "" |
| AddAssets.CharacterNameOfKey | bin/jobs/add-assets.ts:67-71 | the segment after the first '/' is the character name, with or without further segments |
| AddAssets.StoredObjects | bin/jobs/add-assets.ts:65-78 | one object per content entry, in order, keyed by the entry's key (or "" when it has none) and carrying the character name of that key |
| AddAssets.AssetTypeOf | bin/jobs/add-assets.ts:86-91 | model iff the key contains "model"; otherwise sfx iff it contains "sfx"; otherwise vo |
| AddAssets.SkinMatch | bin/jobs/add-assets.ts:84 | the regex matches exactly when "skin", ignoring case, occurs in the key |
| AddAssets.SkinToken | bin/jobs/add-assets.ts:84-85 | the skin token has no '/' or '.', and is "" when the key has no skin match |
| AddAssets.SkinTokenOfSegment | bin/jobs/add-assets.ts:84-85 | a key whose first "skin" starts "skin<digits>", with only '/' and '.' around it up to a word character or the end of the key, gives exactly "skin<digits>" as the skin token |
| AddAssets.SkinTokenOfRuns | bin/jobs/add-assets.ts:84-85 | removing '/' and '.' from such a match leaves "skin<digits>" |
| AddAssets.SkinTokenOfModelKey | bin/jobs/add-assets.ts:84-85 | the model key "models/aatrox/skin0.glb" has skin token "skin0" |
| AddAssets.KnownSkinName | bin/jobs/add-assets.ts:97-98 | the name of the first skin of the character (lower-cased) whose `skin<num>` equals the token; none iff the character has no skins or none matches |
| AddAssets.RemoveOggExtension | bin/jobs/add-assets.ts:106 | a file name whose only ".ogg"/"playsfx_" match is its final ".ogg" loses exactly those four characters |
| AddAssets.RemoveSoundAffixes | bin/jobs/add-assets.ts:106 | a file name "playsfx_<x>.ogg" with no other match inside becomes x |
| AddAssets.SoundName | bin/jobs/add-assets.ts:105-106 | a sound name contains no '_' |
| AddAssets.FileNameAfterSlash | bin/jobs/add-assets.ts:93-94 | the file name of a key `p/f` is f when f contains no '/' |
| AddAssets.SoundNameOfPlaysfx | bin/jobs/add-assets.ts:93-106 | a key `p/playsfx_<x>.ogg` with no other ".ogg" or "playsfx_" match inside x is named by x with every '_' a space, capitalised word by word |
| AddAssets.SoundNameOfOgg | bin/jobs/add-assets.ts:93-106 | a key `p/<x>.ogg` with no other ".ogg" or "playsfx_" match is named by x with every '_' a space, capitalised word by word |
| AddAssets.KeyOfUri | bin/jobs/add-assets.ts:111 | a key read back from a uri builds that uri |
| AddAssets.UriRoundTrip | bin/jobs/add-assets.ts:111 | the uri gives back its key, so distinct keys have distinct uris |
| AddAssets.DraftOf | bin/jobs/add-assets.ts:84-115 | type, skin, uri and url come from the key; a sound is named by its file; a model is named by the skin table unless it takes a chroma number, exactly when the table gives no (non-empty) name |
| AddAssets.Complete | bin/jobs/add-assets.ts:100-102 | a chroma is named "Chroma <counter + 1>"; every other field is the draft's |
| AddAssets.NumberAt | bin/jobs/add-assets.ts:81-116 | the asset at position i uses the counter advanced once per chroma before i |
| AddAssets.ClassifiedAt | bin/jobs/add-assets.ts:81-116 | the i-th asset of a group is the object's own asset, named with chroma number 1 + the chromas before it, plus one |
| AddAssets.ChromaCountConcat | bin/jobs/add-assets.ts:100 | chromas of two runs add up |
| AddAssets.ChromaNumbersIncrease | bin/jobs/add-assets.ts:81-102 | a later draft of a group sees strictly more chromas before it than an earlier chroma draft |
| AddAssets.ChromaNameInjective | bin/jobs/add-assets.ts:102 | "Chroma <m>" and "Chroma <n>" are equal only when m and n are |
| AddAssets.NumberedChromasDistinct | bin/jobs/add-assets.ts:81-102 | numbering gives two chroma drafts different names |
| AddAssets.ChromaNamesDistinct | bin/jobs/add-assets.ts:81-116 | no two chroma models of a group get the same name |
| AddAssets.NumberKeepsUri | bin/jobs/add-assets.ts:109-113 | numbering changes only names, never the uri |
| AddAssets.ClassifiedUri | bin/jobs/add-assets.ts:83-116 | the k-th asset of a group has the uri of the k-th object |
| AddAssets.MapObject | bin/jobs/add-assets.ts:83-115 | the map callback returns the object's asset for the current counter and advances the counter exactly when it names a chroma |
| AddAssets.ClassifyGroup | bin/jobs/add-assets.ts:81-116 | the counter starts at 1 and the `map` gives exactly `Classify` of the group |
| AddAssets.Members | bin/jobs/add-assets.ts:80 | a group holds exactly the objects with its character name |
| AddAssets.MembersConcat | bin/jobs/add-assets.ts:80 | the group of two listings in turn is the two groups in turn, so a group keeps the listing's order and repeats |
| AddAssets.GroupBy | bin/jobs/add-assets.ts:80 | one group per group name, in that order, with its members |
| AddAssets.FirstOccurrence | bin/jobs/add-assets.ts:80 | the first index holding the name, none exactly when it does not occur |
| AddAssets.GroupNamesSpec | bin/jobs/add-assets.ts:80 | groups are exactly the names that occur, each once, ordered by first occurrence |
| AddAssets.GroupUpserts | bin/jobs/add-assets.ts:124-130 | one upsert per asset, in order, each carrying the group's character id |
| AddAssets.InsertPage | bin/jobs/add-assets.ts:59-63 | a page without contents leaves the asset table unchanged |
| AddAssets.WriteGroupsAsBatch | bin/jobs/add-assets.ts:80-133 | one transaction per group comes to the same table as the page's upserts as one batch |
| AddAssets.MissingCharacterEndsPage | bin/jobs/add-assets.ts:119-122 | a group whose character is missing writes nothing, and neither do all later groups |
| AddAssets.InsertPageTwice | bin/jobs/add-assets.ts:58-134 | inserting a page a second time changes nothing |
| AddAssets.PageWritesUseCharacters | bin/jobs/add-assets.ts:119-128 | every write of a page names an existing character |
| AddAssets.PageWritesCover | bin/jobs/add-assets.ts:80-130 | when all groups up to a member's group have their character, the page writes that member's uri |
| AddAssets.InsertPageCovers | bin/jobs/add-assets.ts:58-134 | when every object's character exists, every object's uri is in the asset table afterwards |
| AddAssets.Insert | bin/jobs/add-assets.ts:58-134 | `insert(response)` leaves exactly `InsertPage` in the asset table, keeps the characters, and keeps the tables valid |
| AddAssets.InsertListing | bin/jobs/add-assets.ts:136-143 | the pages handed to `insert`, and whether the traversal completed, are exactly `Traversal` of the listing; each of them is applied, in order |
| AddAssets.AddAssets | bin/jobs/add-assets.ts:136-161 | the pages are those of the models traversal, then the sfx one, then the vo one, each started only when the one before completed; all of them are applied in that order |
| AddAssets.InsertPagesConcat | bin/jobs/add-assets.ts:136-161 | pages of consecutive traversals apply as one run |
| AddCharacters.NameOfPrefix | bin/jobs/add-characters.ts:14-16 | a missing prefix gives ""; a prefix with "models/" loses at least those seven characters |
| AddCharacters.NameOfPrefixRoundTrip | bin/jobs/add-characters.ts:14-16 | the prefix "models/<name>/" gives back the name |
| AddCharacters.NamesOfPrefixes | bin/jobs/add-characters.ts:14-16 | one name per common prefix |
| AddCharacters.NamesOfPrefixesAt | bin/jobs/add-characters.ts:14-16 | the k-th name is the name of the k-th prefix |
| AddCharacters.PageNames | bin/jobs/add-characters.ts:8-16 | a page without common prefixes gives no names |
| AddCharacters.FindOrCreateStep | bin/jobs/add-characters.ts:20-33 | the loop is find-or-create of the first name, then of the rest |
| AddCharacters.FindOrCreateKeys | bin/jobs/add-characters.ts:20-33 | afterwards there is a record for every name and every old record, nothing else, and the id advanced by the number of records added |
| AddCharacters.FindOrCreateKeepsRecords | bin/jobs/add-characters.ts:20-24 | existing records are left as they were |
| AddCharacters.FindOrCreateNewRecords | bin/jobs/add-characters.ts:25-31 | each added record is the one `create` makes: its name, `getCharacterType` of it, no display name, an id handed out by this pass |
| AddCharacters.FindOrCreateExisting | bin/jobs/add-characters.ts:20-24 | names that all exist change nothing |
| AddCharacters.FindOrCreateTwice | bin/jobs/add-characters.ts:20-33 | running the callback's loop again on the same names changes nothing |
| AddCharacters.FindOrCreateKeepsValid | bin/jobs/add-characters.ts:20-33 | find-or-create keeps names, ids and asset owners valid |
| AddCharacters.AddCharactersPage | bin/jobs/add-characters.ts:7-34 | the callback leaves exactly `FindOrCreate` of the page's names and does not touch assets |
| AddCharacters.WithDisplayNames | bin/jobs/add-characters.ts:39-58 | the display-name pass keeps exactly the same records by name |
| AddCharacters.DisplayNameAt | bin/jobs/add-characters.ts:39-58 | id, name and type are kept; non-champions are unchanged; a known champion (or jarvaniv) gets its display name; an unknown one keeps its old display name |
| AddCharacters.DisplayNamesTwice | bin/jobs/add-characters.ts:39-58 | a second display-name pass changes nothing |
| AddCharacters.DisplayNamesKeepValid | bin/jobs/add-characters.ts:39-58 | the pass keeps the tables valid |
| AddCharacters.CreatedChampionsNamed | bin/jobs/add-characters.ts:20-58 | every record the job creates as a champion ends with a display name |
| AddCharacters.UpdateDisplayNames | bin/jobs/add-characters.ts:39-58 | `findMany` of champions and one `update` each leave exactly `WithDisplayNames` of the old table |
| AddCharacters.AddCharacters | bin/jobs/add-characters.ts:5-59 | the pages and completion are exactly `Traversal` of the listing; the job leaves find-or-create of every page's names, then the display names exactly when the traversal completed |

## Left out

- Case mapping covers the ASCII letters only. JavaScript's `toLowerCase` and `toUpperCase` follow Unicode.
- `new RegExp(capitalizedChampName, "g")` is modelled as removing the literal name everywhere. Regex metacharacters in a champion directory name are not interpreted.
- `Object.entries(groupBy(...))` is modelled in first-occurrence order. JavaScript lists integer-like keys first, in ascending order, which the model does not capture.
- The data-dragon requests that build the skin table and the JSON names (bin/jobs/add-assets.ts:12-56) are network I/O. The table is the parameter `skinsByChampion`.
- The list of HTTP-safe champion names lives in bin/constants.ts, which is not part of this model. It is the parameter `known`.
- `BUCKET_NAME` is read from the environment and is the parameter `bucket`.
- The file system, `PQueue` concurrency, `exec` of `bnk-extract`, the command and path strings, and the logging are not modelled.
  - `extractBnkContent` is modelled as the sequence of jobs it queues, each a champion, a skin directory and a `.bin` name.
  - `renameOggFiles` is modelled as the sequence of names it logs.
  - `findFilesInFolder` order is the order of the listing given as a parameter.
- Utils.ExtractBnkContent: completion of the queued `exec` jobs and their errors are not modelled, only what is queued and where the loop throws.
- S3 and database errors other than a rejected listing request are not modelled: network failures, a failing `create` or `update`, a failing transaction.
  - `findFirstOrThrow` is modelled as throwing only when no record has the name.
  - A transaction applies its whole batch or, absent errors, nothing else.
- The character table is keyed by name, so two records with the same name cannot be represented. The jobs create a record only when none has that name.
- Callbacks of a traversal are applied in page order after the listing has been read. The source awaits each callback before the next request. The listing does not depend on the database, so the resulting tables are the same.
- The order of `findMany` results is not modelled. The display-name updates touch distinct records and commute.
- Utils.NumberedNames: the numbering lemmas state whole runs of files (`RenameFrom == Run(NumberedNames(...), true)`), not each position separately.
- Utils.CleanVoiceLineName: its own contract states only that no '_' remains. Its value is stated by CleanVoiceLineOfVo and CleanVoiceLineOfSfx for sound directory names of the documented shape, not for every string.
- Utils.HttpSafeName: its value is stated by lemmas for names without the removed characters, alone or followed by " & Willump" or " Glasc", not for every string.
- Text.RemoveChars: it does not state that each remaining character comes from the input. Only its length bound and the absence of the removed characters are stated.
- AddCharacters.NewCharacter: it carries no contract of its own. Its type is `GetCharacterType`, whose contract states the classification.
- AddAssets.Drafts: it states only its length. The element-wise statement is `ClassifiedAt`, through `DraftOf`.
- S3.PerformOnAllObjects, AddAssets.InsertListing, AddAssets.AddAssets, AddCharacters.AddCharacters: they require the continuation-token chain from the first request to end (`EndsWithin`). A store whose tokens form a cycle would make the source loop forever, which the model does not represent.
- The web app (routes, UI components), the seed commands and every other job in the repository are outside this model.
