# Movie recommender — a verified model of its core

The movie recommender is a Vue frontend over an Express/Sequelize backend that
proxies The Movie Database (TMDB). A user swipes movies (LIKE or DISLIKE). The
app keeps a watchlist, stores per-user genre and period preferences, builds
TMDB discover queries from them, filters adult content and ranks
personalised recommendations.

This project models the deterministic logic of that system in Dafny and proves
what it promises:

- **Interaction ledger** (`InteractionLedger`, `InteractionStats`, `TableRows`).
  The interaction and watchlist tables are row sequences in one class. Their
  unique (user, movie) index is an invariant that every swipe, add, remove and
  clear keeps. A transaction that rolls back leaves the state unchanged.
- **Watchlist statistics** (`WatchlistStats`, `TmdbGenres`). These cover sort
  normalisation, the week and month counters, the decade and genre tallies and
  the averages. The statistics loop is proved against a fold.
- **Discovery** (`MovieDiscovery`). This covers:
  - the 19-flag first-match priority chain;
  - the discover parameter builder;
  - the TMDB record normaliser;
  - the adult-content blocklist filter;
  - the liked-movie filter;
  - runtime enrichment on an array;
  - the genre toggle.
- **Recommendations** (`Recommendation`). This covers:
  - the genre and year profile;
  - the additive score;
  - first-occurrence deduplication;
  - the interacted-movie and child-mode filters;
  - the discovery complement;
  - pool composition, sorting and truncation.
- **Preferences**:
  - `PreferenceRow` and `PreferencesBackend` model the server-side validator, defaults, update and delete;
  - `YearRange` models the year-range presets;
  - `FrontendPreferences` models the client-side validator, summary and completeness score.
- **Strings and requests**:
  - `Messages`: the i18n lookup, locale sniffing and `{var}` substitution;
  - `Validation`: the request validators and the sanitiser;
  - `Settings`: the settings whitelist;
  - `UserService`: the password-recovery state machine.
- **Frontend helpers**:
  - `FrontendMovie`, `HungarianGenres` and `MovieTranslation`: the movie normaliser and the Hungarian genre translation;
  - `Locales`: the locale-table merge;
  - `Router`: the route guard;
  - `Theme`: the theme service.

`JsValues` holds the JavaScript semantics the rest relies on:

- the `JsValue` type;
- truthiness, as ToBoolean in section 7.1.2 of ECMA-262;
- `trim`, `split` and `join`;
- `parseInt`, `Math.round` and `Math.ceil`, computed exactly on integers and reals.

## Model

| member | source | states |
|---|---|---|
| InteractionLedger.ParseKind | Backend/controllers/interaction.controller.js:147-149 | an interaction type is accepted exactly when it is the string LIKE or DISLIKE (strict equality) |
| InteractionLedger.SwipeUser | Backend/controllers/interaction.controller.js:140 | a missing or falsy user id falls back to user 3, a truthy one is used as given |
| InteractionLedger.KindOfAt | Backend/dbo/user-movie-interaction/index.js:43-48 | under the unique (user, movie) index every row with a key carries the one kind recorded for that key |
| InteractionLedger.SetKindSpec | Backend/controllers/interaction.controller.js:184-229 | recording a kind keeps the unique index, updates an existing row or inserts exactly one, and leaves every other key's kind unchanged |
| InteractionLedger.SameKindElsewhere | Backend/dbo/user-movie-interaction/index.js:43-48 | two indexed tables that agree on a key's rows agree on its kind |
| InteractionLedger.Ledger.AddToWatchlistIfNotExists | Backend/controllers/interaction.controller.js:578-599 | afterwards the watchlist holds exactly one row for the key; a row is inserted only when none existed; the interactions are untouched |
| InteractionLedger.Ledger.RemoveFromWatchlistIfExists | Backend/controllers/interaction.controller.js:611-624 | afterwards the watchlist holds no row for the key and every other row is kept |
| InteractionLedger.Ledger.Swipe | Backend/controllers/interaction.controller.js:135-281 | the checks run in source order: missing fields 400, unknown type 400, unknown user 404, then an unfetchable movie 404, and every failure leaves all tables unchanged; on success the kind is recorded (isUpdate iff a row existed), a LIKE leaves exactly one watchlist row, a DISLIKE leaves none, and addedToWatchlist is kind == LIKE; the unique indexes are kept |
| InteractionLedger.Ledger.RemoveInteraction | Backend/controllers/interaction.controller.js:460-502 | 404 for an uncached movie or a missing interaction with nothing changed; otherwise the interaction row and the watchlist row for that key are both deleted, whatever the kind |
| InteractionLedger.Ledger.ClearAllFavorites | Backend/controllers/interaction.controller.js:515-564 | every LIKE row and every watchlist row of the user is deleted, DISLIKE rows and other users' rows are kept, and the two reported counts are the numbers of rows deleted |
| InteractionLedger.Ledger.AddToWatchlist | Backend/controllers/watchlist.controller.js:90-176 | 400 without both ids, 404 for an unknown user, 404 for an uncached movie, then 409 for an already listed movie, each with nothing changed; otherwise one watchlist row is added and the interaction becomes LIKE (inserted, switched from DISLIKE, or left) |
| InteractionLedger.Ledger.RemoveFromWatchlist | Backend/controllers/watchlist.controller.js:179-216 | deletes only the watchlist row and never the interaction; 404 with nothing changed for an uncached movie or no row |
| InteractionLedger.SetKindUnchanged | Backend/controllers/watchlist.controller.js:126-161 | re-recording LIKE on a row that is already LIKE writes nothing |
| InteractionStats.ListInteractions | Backend/controllers/interaction.controller.js:298-322 | the listing holds only rows of the table that belong to the user and have the requested kind, and every such row; a type other than LIKE or DISLIKE selects every kind |
| InteractionStats.JsCeilDiv | Backend/controllers/interaction.controller.js:339 | the page count is the least integer not below count / limit: for a positive limit the ceiling, for a negative one the r with r·limit ≤ count < (r-1)·limit |
| InteractionStats.Paginate | Backend/controllers/interaction.controller.js:301-341 | page and limit default to 1 and 20; the offset is (page-1)·limit; totalPages is ceil(count/limit) and absent for a zero limit; totalItems is the count |
| InteractionStats.PagesCoverItems | Backend/controllers/interaction.controller.js:311-339 | with a positive limit, the page that holds item i is never past the last page |
| InteractionStats.PastLastPageEmpty | Backend/controllers/interaction.controller.js:311-339 | a page past the last one starts at or beyond the end of the result |
| InteractionStats.ProcessStats | Backend/controllers/interaction.controller.js:401-430 | the grouped counts become likes/dislikes (the last group of each kind wins) and recent.total is the sum of the recent groups |
| InteractionStats.GroupedStatsMatchTable | Backend/controllers/interaction.controller.js:380-430 | for counts grouped from the table, likes, dislikes and recent.total are exactly the numbers of the user's matching rows |
| InteractionStats.LikeRatio | Backend/controllers/interaction.controller.js:432-438 | 0 when there are no interactions, otherwise the percentage of likes, between 0 and 100 |
| TableRows.Keep | Backend/controllers/interaction.controller.js:527-553 | a bulk delete keeps exactly the rows the condition does not match, and the kept and deleted counts add up to the table size |
| TableRows.IndexOf | Backend/controllers/interaction.controller.js:578-586 | a lookup by key finds a row with that key, and finds none only when no row has it |
| TableRows.KeepDistinct | Backend/dbo/user-watchlist/index.js:64-69 | deleting rows never breaks a unique index |
| TableRows.DistinctCountKey | Backend/dbo/user-watchlist/index.js:64-69 | under a unique index a key has at most one row |
| TableRows.InsertIfAbsentOnce | Backend/controllers/interaction.controller.js:578-599 | inserting when absent keeps the index, leaves exactly one row for the key and no other key's count changes |
| TableRows.DropKeyCounts | Backend/controllers/interaction.controller.js:611-624 | deleting a key leaves it no row and every other key's row count as it was |
| WatchlistStats.NormaliseSort | Backend/controllers/watchlist.controller.js:15-25 | an unknown sort field becomes added_date and an order that is not ASC or DESC after upper-casing becomes DESC; known values are kept |
| WatchlistStats.NormaliseSortIdempotent | Backend/controllers/watchlist.controller.js:15-25 | normalising a normalised sort changes nothing |
| WatchlistStats.Decade | Backend/controllers/watchlist.controller.js:286-290 | the decade is the multiple of ten at or below the year, within ten years of it |
| WatchlistStats.TallyIsMultiset | Backend/controllers/watchlist.controller.js:286-290 | a tally has a bucket exactly for the values that occur, holding their number of occurrences |
| WatchlistStats.Decades | Backend/controllers/watchlist.controller.js:286-290 | one decade per entry that has a release date |
| WatchlistStats.NamesOf | Backend/controllers/watchlist.controller.js:296-300 | each genre id becomes its getGenreName label, one for one |
| WatchlistStats.TallyGenres | Backend/controllers/watchlist.controller.js:296-300 | the inner genre loop adds one to the tally for each genre label |
| WatchlistStats.AccumulateMeaning | Backend/controllers/watchlist.controller.js:255-304 | the counter fold counts entries added since each bound, sums ratings and positive runtimes, and tallies decades and genre labels |
| WatchlistStats.ComputeStats | Backend/controllers/watchlist.controller.js:255-311 | the statistics loop gives the week and month counts, the decade and genre tallies, the rounded mean runtime over positive runtimes (0 when none) and the mean rating |
| WatchlistStats.WeekWithinMonth | Backend/controllers/watchlist.controller.js:255-271 | when the month bound is not later than the week bound, every entry counted this week is counted this month |
| WatchlistStats.DecadeTallyCounts | Backend/controllers/watchlist.controller.js:286-290 | a decade has a bucket iff some dated entry falls in it |
| WatchlistStats.SumRuntimeBounds | Backend/controllers/watchlist.controller.js:280-311 | the runtime sum lies between count·lo and count·hi for runtimes in [lo, hi] |
| WatchlistStats.AverageRuntimeBounds | Backend/controllers/watchlist.controller.js:307-311 | when every positive runtime lies in [lo, hi], so does the rounded average |
| TmdbGenres.GenreLabel | Backend/controllers/movie.controller.js:677 | a known id gets its English name, any other the "Genre id" label |
| TmdbGenres.GenreNameInjective | Backend/controllers/watchlist.controller.js:322-345 | two ids with the same getGenreName are the same known id, so genre tallies never merge two known genres |
| PreferenceRow.Defaults | Backend/controllers/preferences.controller.js:21-58 | every genre flag null, years 1900 to the current year, rating 0, runtime any, classic 0, modern 1, recent 1, child mode 0 |
| PreferenceRow.Apply | Backend/controllers/preferences.controller.js:119-146 | an update overwrites exactly the fields the validated patch carries and keeps every other column |
| PreferenceRow.ApplyFlags | Backend/controllers/preferences.controller.js:119-146 | each genre flag after an update is the patch's when given and the stored one otherwise |
| PreferenceRow.ApplySwitches | Backend/controllers/preferences.controller.js:119-146 | each boolean switch after an update is the patch's when given and the stored one otherwise |
| PreferenceRow.ApplyIdempotent | Backend/controllers/preferences.controller.js:119-146 | applying the same patch twice is applying it once |
| PreferencesBackend.AcceptedFlags | Backend/controllers/preferences.controller.js:190-199 | the accepted genre flags are exactly the present ones whose value is null, 0 or 1 |
| PreferencesBackend.AcceptedSwitches | Backend/controllers/preferences.controller.js:252-262 | the accepted switches are the present ones that are 0, 1, true or false, stored as 1 or 0 |
| PreferencesBackend.CheckGenres | Backend/controllers/preferences.controller.js:190-199 | the genre loop keeps the accepted flags and reports an error iff some present flag is not null, 0 or 1 |
| PreferencesBackend.CheckSwitches | Backend/controllers/preferences.controller.js:252-262 | the switch loop stores the accepted switches and reports an error iff some present switch is not boolean or 0/1 |
| PreferencesBackend.CheckYears | Backend/controllers/preferences.controller.js:202-218 | no error iff each present year parses to an integer in [1900, current] and [1900, current+5] respectively |
| PreferencesBackend.CheckOthers | Backend/controllers/preferences.controller.js:221-248 | no error iff a present rating parses into [0, 10], a present runtime is a known bucket and present languages are null or a list |
| PreferencesBackend.CheckScalars | Backend/controllers/preferences.controller.js:202-248 | no error iff every present scalar field passes its check |
| PreferencesBackend.ValidatePreferencesData | Backend/controllers/preferences.controller.js:176-264 | the error is null iff every present field is valid; absent fields never reach the data |
| PreferencesBackend.LooseFlagRejected | Backend/controllers/preferences.controller.js:190-199 | a genre flag of true or "1" is rejected |
| PreferencesBackend.NullYearRejected | Backend/controllers/preferences.controller.js:202-209 | a present null min_year is rejected |
| PreferencesBackend.InvertedRangeAccepted | Backend/controllers/preferences.controller.js:202-218 | min_year 2020 with max_year 1950 is accepted: there is no ordering check |
| PreferencesBackend.OnlyYearsValid | Backend/controllers/preferences.controller.js:202-218 | a body with only years is valid iff both years are in range |
| PreferencesBackend.ReadAfterWrite | Backend/controllers/preferences.controller.js:119-146 | after an update the user reads back the row with the patch applied (defaults for a new row), and other users read what they read before |
| PreferencesBackend.WriteIdempotent | Backend/controllers/preferences.controller.js:119-146 | writing the same patch twice is writing it once |
| PreferencesBackend.UpdatePreferences | Backend/controllers/preferences.controller.js:109-153 | an invalid body gives 400 and writes nothing; otherwise the user's row is created from the defaults or updated with exactly the provided fields |
| PreferencesBackend.SetPreferences | Backend/controllers/preferences.controller.js:69-106 | a missing user id, then an unknown user, is an error with nothing written; an invalid body writes nothing; a valid one is written like an update and reports whether the row is new |
| PreferencesBackend.DeletePreferences | Backend/controllers/preferences.controller.js:156-173 | always succeeds; deleted is true iff the user had a row, which is gone afterwards while other rows stay |
| PreferencesBackend.ReadAfterDelete | Backend/controllers/preferences.controller.js:10-66 | after a delete the user reads the defaults |
| YearRange.PresetsAreValidRanges | Backend/service/helpers/year-range.helper.js:18-43 | all_time, modern, recent, latest and classics map to (null, null), (2000, null), (2015, null), (2020, null) and (1970, 1999) |
| YearRange.OnlyClassicsIsBounded | Backend/service/helpers/year-range.helper.js:18-43 | classics is the only preset with an upper year |
| YearRange.ChosenYears | Backend/service/helpers/year-range.helper.js:15-44 | a known preset decides both years (no bound is null) and otherwise the caller's years are kept |
| YearRange.Written | Backend/service/helpers/year-range.helper.js:48-53 | a left-out year keeps the stored column, null clears it and a year replaces it |
| YearRange.SetYearRange | Backend/service/helpers/year-range.helper.js:10-68 | succeeds iff the chosen min_year is null, left out or in [1900, currentYear] and max_year is null, left out or in [1900, currentYear + 5], the bounds of the column validators (Backend/dbo/user-preferences/index.js:123-140); a rejected update throws and no row changes; on success the result carries the chosen years and the preset, only min_year and max_year of an existing row change, and no row is created |
| YearRange.PresetsAccepted | Backend/service/helpers/year-range.helper.js:18-43 | from 2020 on, every known preset passes the column validators |
| YearRange.GetYearFilters | Backend/service/helpers/year-range.helper.js:71-85 | a truthy min gives the gte date "min-01-01", a truthy max the lte date "max-12-31", and nothing else is set |
| YearRange.AllTimeClearsFilters | Backend/service/helpers/year-range.helper.js:71-85 | after the all_time preset the stored row yields no year filter |
| Messages.UnknownLocaleIsHungarian | Backend/service/helpers/messages.helper.js:8-12 | a locale without a table of its own answers every key exactly as Hungarian does |
| Messages.DetectLocale | Backend/service/helpers/messages.helper.js:19-33 | Accept-Language, else Accept, is scanned for the first language tag; the locale is its first letter lower-cased, then the next letter lower-cased, or a hyphen when a one-letter tag has a subtag; no letter gives the fallback |
| Messages.RegionalTagGivesLanguage | Backend/service/helpers/messages.helper.js:19-33 | hu-HU,hu;q=0.9,en;q=0.8 gives hu |
| Messages.QualityIgnored | Backend/service/helpers/messages.helper.js:19-33 | q-values are ignored: en;q=0.1,hu;q=0.9 gives en |
| Messages.JsonClientGetsAp | Backend/service/helpers/messages.helper.js:22-32 | without Accept-Language, an Accept of application/json gives the locale "ap" |
| Messages.Step | Backend/service/helpers/messages.helper.js:53 | one reducer step yields a property only of a truthy object and is undefined otherwise |
| Messages.LookupFromUndefined | Backend/service/helpers/messages.helper.js:53 | once a step misses the whole walk misses |
| Messages.LookupAppend | Backend/service/helpers/messages.helper.js:46-53 | walking a longer path is walking its prefix then the rest |
| Messages.LookupNested | Backend/service/helpers/messages.helper.js:46-53 | walking nested objects by the pieces of a key finds the leaf |
| Messages.SubstituteNoVars | Backend/service/helpers/messages.helper.js:70-74 | with no variables the text is unchanged |
| Messages.SubstituteNoBraces | Backend/service/helpers/messages.helper.js:70-74 | text without an opening brace is unchanged |
| Messages.SubstitutePlaceholder | Backend/service/helpers/messages.helper.js:70-74 | a {name} whose name is a variable is replaced by its value, and the rest is substituted after it |
| Messages.SinglePass | Backend/service/helpers/messages.helper.js:70-74 | a substituted value that looks like a placeholder is not expanded again |
| Messages.T | Backend/service/helpers/messages.helper.js:39-74 | a message found in the locale has its placeholders substituted; a defined non-string (a namespace) gives the key with no retry; an undefined one takes the Hungarian message, or the key when Hungarian has none either |
| Messages.MissingKeyAnsweredInHungarian | Backend/service/helpers/messages.helper.js:56-61 | a key the locale does not define is answered exactly as Hungarian answers it |
| Messages.FoundMessage | Backend/service/helpers/messages.helper.js:46-65 | a message present in the locale comes back verbatim without variables |
| Messages.FallsBackToHungarian | Backend/service/helpers/messages.helper.js:56-61 | a message missing in English but present in Hungarian comes out in Hungarian |
| Messages.NamespaceGivesKey | Backend/service/helpers/messages.helper.js:65 | a key that resolves to an object gives the key itself, with no fallback |
| Validation.ValidateRequiredFields | Backend/service/middlewares/validation.middleware.js:15-32 | the missing fields are those whose value is falsy or trims to empty, in listed order, and the request proceeds iff there are none |
| Validation.RequiredFieldExamples | Backend/service/middlewares/validation.middleware.js:21 | 0, false and a string of spaces count as missing |
| Validation.EmailOkIffPattern | Backend/service/middlewares/validation.middleware.js:48 | the structural description (no whitespace, one @, non-empty local part, a dot with text on both sides in the domain) is exactly what the regular expression matches |
| Validation.ValidateEmail | Backend/service/middlewares/validation.middleware.js:39-55 | a falsy email passes; otherwise the request proceeds iff the pattern matches the value's text, and a rejection names the field |
| Validation.ArrayEmailAccepted | Backend/service/middlewares/validation.middleware.js:48-49 | the array ["a@b.c"] is tested by its text and passes |
| Validation.AcceptsConsecutiveDots | Backend/service/middlewares/validation.middleware.js:48 | a..b@c..d is accepted although section 3.4.1 of RFC 5322 forbids it |
| Validation.RejectsQuotedSpace | Backend/service/middlewares/validation.middleware.js:48 | a quoted local part with a space, valid in section 3.4.1 of RFC 5322, is rejected |
| Validation.ValidatePassword | Backend/service/middlewares/validation.middleware.js:63-113 | a falsy password passes with no error; otherwise the recorded errors are exactly `PasswordErrors` of the value's length and text, in the order the rules are checked |
| Validation.PasswordErrors | Backend/service/middlewares/validation.middleware.js:83-105 | each rule's error is present iff that rule fails: too short and too long independently by `<` and `>` on the length, each character class only when its option is on and its pattern misses the text; no other error appears |
| Validation.StringPasswordLength | Backend/service/middlewares/validation.middleware.js:83-89 | for a string password the length rules compare its character count |
| Validation.NumericPasswordSkipsLength | Backend/service/middlewares/validation.middleware.js:83-89 | a number or boolean has no length, so neither length rule fails for it |
| Validation.PasswordVerdict | Backend/service/middlewares/validation.middleware.js:100-112 | the request proceeds iff the password check found no error |
| Validation.Messages | Backend/service/middlewares/validation.middleware.js:100-112 | one message per password error, in order |
| Validation.ValidateUsername | Backend/service/middlewares/validation.middleware.js:120-137 | a falsy username passes; otherwise it is accepted iff its text has 3 to 50 letters, digits or underscores |
| Validation.NonStringUsernames | Backend/service/middlewares/validation.middleware.js:130-131 | the number 12345 and the boolean true pass, tested by their text |
| Validation.AcceptedValuesAreTrimmed | Backend/service/middlewares/validation.middleware.js:120-137 | an accepted username or email has nothing to trim |
| Validation.SanitizeFields | Backend/service/middlewares/validation.middleware.js:144-154 | the listed string fields of the request body are trimmed in place and every other field is untouched |
| Validation.SanitizedIdempotent | Backend/service/middlewares/validation.middleware.js:144-154 | sanitising twice is sanitising once |
| Validation.ValidateRequired | Backend/service/middlewares/request-validation.middleware.js:10-21 | the handler runs iff every listed field is truthy, else a 400 with the missing-fields message key and no field list |
| Validation.RequiredFieldsImplyPresent | Backend/service/middlewares/request-validation.middleware.js:12 | a body passing the stricter trimming check passes the presence check |
| Validation.AnyTruthyValueIsPresent | Backend/service/middlewares/request-validation.middleware.js:12 | only presence is checked: a number passes as a required text |
| Validation.ValidateEmailTemplate | Backend/service/middlewares/request-validation.middleware.js:26-35 | the template, its subject and its html must be truthy, else a 400 whose message is "Email template is required"; text is not checked |
| Validation.TextIsOptional | Backend/service/middlewares/request-validation.middleware.js:26-35 | a template without text, with a numeric subject, passes |
| Settings.Filtered | Backend/routers/api/settings/index.js:38-48 | only the five allowed fields of the body are kept, with their values |
| Settings.SettingsStore.GetSettings | Backend/routers/api/settings/index.js:8-31 | the stored row, or language hu, theme light, 60, 25 and normal when there is none |
| Settings.SettingsStore.CopyAllowed | Backend/routers/api/settings/index.js:38-48 | the copying loop yields exactly the filtered body |
| Settings.SettingsStore.PostSettings | Backend/routers/api/settings/index.js:34-82 | a truthy language, theme or speed outside its set gives 400 with nothing written; otherwise the row of user 1 is created from the defaults or updated with exactly the filtered fields |
| Settings.DefaultsPassChecks | Backend/routers/api/settings/index.js:14-24 | the defaults are exactly the allowed fields and pass every check |
| Settings.PostReadsBack | Backend/routers/api/settings/index.js:63-71 | an allowed posted field reads back as posted |
| Settings.PostIdempotent | Backend/routers/api/settings/index.js:63-71 | posting the same body twice is posting it once |
| Settings.UnlistedFieldIgnored | Backend/routers/api/settings/index.js:38-48 | a field outside the whitelist, such as user_id, never reaches the row |
| UserService.UserStore.Login | Backend/service/business/user.service.js:22-37 | the first user with that login name logs in, as the formatUser record without any hash, iff the password verifies against that user's hash; an unknown name or a failed check gives invalid credentials |
| UserService.UserStore.FindFirst | Backend/service/business/user.service.js:147-158 | the scan returns the first user, in table order, satisfying the test |
| UserService.UserStore.Register | Backend/service/business/user.service.js:39-58 | the answer is UsernameTaken iff the username is taken, EmailTaken iff only the email is taken, and Registered iff neither is; on either refusal nothing is created; on Registered exactly one user is appended with the next id and formatted |
| UserService.UserStore.ForgotPassword | Backend/service/business/user.service.js:60-84 | an unknown email succeeds and changes nothing; otherwise the token hash and a 24-hour expiry are stored, and a mail failure gives EMAIL_FAILED with the token kept |
| UserService.UserStore.ResetPassword | Backend/service/business/user.service.js:86-102 | no verifying token gives INVALID_TOKEN and an expired one TOKEN_EXPIRED, both with nothing changed; otherwise the hash is replaced and both recovery fields cleared |
| UserService.ResetTokenIsSpent | Backend/service/business/user.service.js:95-101 | after a reset that user no longer matches any token |
| UserService.StoredTokenIsFound | Backend/service/business/user.service.js:67-72 | a token just stored for a user is found by the scan at that user, when no earlier user redeems it, and is not yet expired |
| UserService.AppendKeepsValid | Backend/service/business/user.service.js:39-58 | appending a user with the next id keeps ids increasing and names and emails unique |
| UserService.UpdateKeepsValid | Backend/service/business/user.service.js:86-102 | changing only recovery fields and the hash keeps the table invariant |
| UserService.PrepareEmailContent | Backend/service/business/user.service.js:170-181 | html and a non-empty text are the template with every {recoveryLink}, then every {userFullName}, replaced; a missing text stays empty; a template without placeholders is unchanged |
| UserService.ReplaceAllAbsent | Backend/service/business/user.service.js:172-178 | text without the placeholder is unchanged |
| UserService.ReplaceAllAfter | Backend/service/business/user.service.js:172-178 | the first occurrence is replaced, whatever other text precedes it, and the scan carries on after it |
| UserService.ReplaceFirst | Backend/service/business/user.service.js:172-178 | the only occurrence of a placeholder is replaced and the text around it is kept |
| UserService.LinkThenNameFilled | Backend/service/business/user.service.js:170-181 | a template with one link placeholder and, after it, one name placeholder gets the link and the name in their places, braces elsewhere in the html notwithstanding |
| UserService.NameOrDefault | Backend/service/business/user.service.js:170 | the caller's name, or "Felhasználó" when none is passed |
| UserService.DefaultNameUsed | Backend/service/business/user.service.js:170-173 | without a name the name placeholder becomes "Felhasználó" |
| MovieDiscovery.FirstMatchPicksEarliest | Backend/controllers/movie.controller.js:98-192 | the lookup returns the source of the earliest flag equal to 1 |
| MovieDiscovery.FirstMatchNone | Backend/controllers/movie.controller.js:183-187 | with no flag equal to 1 the source is the popular list |
| MovieDiscovery.ChooseSourceIsFirstMatch | Backend/controllers/movie.controller.js:98-192 | the if/else chain over documentary, anime, action, … western is the first-match lookup in that order |
| MovieDiscovery.DiscoverMovies | Backend/controllers/movie.controller.js:47-205 | a falsy userId gives 400; otherwise the chosen source's movies with totalPages = ceil(n/20), and language hu when there is no preferences row |
| MovieDiscovery.BaseParams | Backend/controllers/movie.controller.js:259-268 | the list's base keys, with language=hu-HU only for Hungarian |
| MovieDiscovery.AddPreferenceFilters | Backend/controllers/movie.controller.js:281-312 | each truthy preference adds its key: the year dates, the rating floor and the runtime window of the bucket |
| MovieDiscovery.BuildParams | Backend/controllers/movie.controller.js:252-343 | the parameter map is the base keys then the preference filters, and no other key |
| MovieDiscovery.RuntimeInfoMatchesWindow | Backend/controllers/movie.controller.js:784-815 | a bucket has runtime info iff it has a discover window, and its estimate lies within that window's bounds |
| MovieDiscovery.ConvertTmdb | Backend/controllers/movie.controller.js:666-699 | ids and texts are copied; poster and backdrop URLs exist iff their paths do, with the w500 and w1280 prefixes; genres map one for one; runtime is runtime or null |
| MovieDiscovery.ConvertKeepsIds | Backend/controllers/movie.controller.js:666-699 | the genre tags keep the ids in order and the poster URL gives the path back |
| MovieDiscovery.SomeTermAt | Backend/controllers/movie.controller.js:644-647 | the search succeeds on any term that occurs |
| MovieDiscovery.SomeTermWitness | Backend/controllers/movie.controller.js:644-647 | the search succeeds only on a term that occurs |
| MovieDiscovery.LowerAll | Backend/controllers/movie.controller.js:620-623 | each keyword name is lower-cased, one for one |
| MovieDiscovery.IsBlocked | Backend/controllers/movie.controller.js:606-658 | one loop step blocks a movie exactly when a named title or a blocklist term occurs in it |
| MovieDiscovery.FilterByBlocklist | Backend/controllers/movie.controller.js:580-663 | the loop keeps exactly the unblocked movies, in order |
| MovieDiscovery.FilterAdultContent | Backend/controllers/movie.controller.js:580-663 | a movie is kept iff no blocklist term occurs in its lower-cased title, overview or space-joined keywords (a failed fetch reads as none) |
| MovieDiscovery.SpecificTitlesAreBlocklisted | Backend/controllers/movie.controller.js:630-638 | the named-title checks decide nothing the blocklist would not |
| MovieDiscovery.TitleTermBlocks | Backend/controllers/movie.controller.js:644-647 | a blocklist term in the title blocks the movie |
| MovieDiscovery.TermAcrossKeywords | Backend/controllers/movie.controller.js:620-623 | a two-word term matches across two adjacent keywords, neither of which contains it |
| MovieDiscovery.EnhanceWithRuntime | Backend/controllers/movie.controller.js:719-781 | the same movies come back in place; with a runtime preference each gets the bucket's category and estimate only, without one the first five get their reported runtime and the rest null |
| MovieDiscovery.FilterAlreadyLiked | Backend/controllers/movie.controller.js:880-916 | unchanged without a user, for an empty list or a failed lookup; otherwise exactly the movies whose tmdb_id or id is not liked are kept |
| MovieDiscovery.Toggle | Backend/controllers/movie.controller.js:842 | the new flag is 0 iff the old one was 1 |
| MovieDiscovery.ToggleTwice | Backend/controllers/movie.controller.js:842 | toggling twice restores 0 or 1, and a null ends at 0 |
| MovieDiscovery.SetGenre | Backend/controllers/movie.controller.js:824-871 | no row gives an error and changes nothing; otherwise only the named flag is toggled |
| Recommendation.Matches | Backend/controllers/recommendation.controller.js:537-539 | the matches count the ids in the top genres, repeats included |
| Recommendation.MatchesAppend | Backend/controllers/recommendation.controller.js:537-539 | one more id adds one match iff it is a top genre |
| Recommendation.YearBonus | Backend/controllers/recommendation.controller.js:547-551 | the year bonus is max(0, 20 - distance to the mean year), 0 without a date or a profile |
| Recommendation.ScoreGenreBonus | Backend/controllers/recommendation.controller.js:534-540 | a top genre added to a movie raises the raw score by 20 |
| Recommendation.ScoreIgnoresOtherGenres | Backend/controllers/recommendation.controller.js:534-540 | a genre outside the top genres leaves the score unchanged |
| Recommendation.ScoreMovies | Backend/controllers/recommendation.controller.js:526-559 | each movie gets userScore = round(10·rating + 20·matches + year bonus + popularity/10) in place, and nothing else changes |
| Recommendation.CountGenres | Backend/controllers/recommendation.controller.js:562-575 | the tally loop counts, for each genre, the liked movies listing it (repeats included) |
| Recommendation.ExtractGenrePreferences | Backend/controllers/recommendation.controller.js:562-582 | at most five liked genres, each outranking the next (more likes, or as many and a smaller id); a liked genre left out means five were kept, each outranking it |
| Recommendation.TopOfRanked | Backend/controllers/recommendation.controller.js:575-581 | the first five of the ranking are the top genres by count |
| Recommendation.ExtractYearPreferences | Backend/controllers/recommendation.controller.js:584-601 | null iff no liked movie is dated; otherwise the average is the rounded mean of the dated years, min and max are the least and greatest dated years, and min ≤ average ≤ max |
| Recommendation.MeanBounds | Backend/controllers/recommendation.controller.js:592-598 | the unrounded mean lies between the bounds of the values |
| Recommendation.WithoutMembers | Backend/controllers/recommendation.controller.js:603-609 | a genre survives the removal iff it is in the list and not a top genre |
| Recommendation.DiscoveryGenresMembers | Backend/controllers/recommendation.controller.js:603-609 | the discovery genres are the fixed pool minus the top genres |
| Recommendation.WithoutIsSubsequence | Backend/controllers/recommendation.controller.js:603-609 | the result is the list read at increasing positions, and those positions are exactly the ones holding a genre that is not a top genre |
| Recommendation.WithoutLength | Backend/controllers/recommendation.controller.js:603-609 | the removal never adds, and keeps the whole list iff no top genre is in it |
| Recommendation.DiscoveryWithoutProfile | Backend/controllers/recommendation.controller.js:603-609 | with no top genres the whole pool is used |
| Recommendation.PreferredGenres | Backend/controllers/recommendation.controller.js:611-635 | the result is the first occurrence of each collected id in mapping order, so no id is listed twice (anime and animation give 16 once); an id is listed iff some genre mapped to it has flag 1 |
| Recommendation.CollectFlagged | Backend/controllers/recommendation.controller.js:622-631 | the loop collects the ids of the flags equal to 1 in mapping order |
| Recommendation.FlaggedIdsMembers | Backend/controllers/recommendation.controller.js:622-631 | an id is collected iff some genre mapped to it has flag 1 |
| Recommendation.UniqueIdsMembers | Backend/controllers/recommendation.controller.js:634 | removing repeats keeps exactly the same ids |
| Recommendation.RemoveDuplicates | Backend/controllers/recommendation.controller.js:639-648 | the first movie per tmdb_id is kept, in order, and no two kept share a tmdb_id |
| Recommendation.RemoveDuplicatesIdempotent | Backend/controllers/recommendation.controller.js:639-648 | deduplicating twice is deduplicating once |
| Recommendation.Unique | Backend/controllers/recommendation.controller.js:639-648 | every kept movie is from the input with an unseen key, keys are distinct, and every input key is kept |
| Recommendation.ApplyUserFilters | Backend/controllers/recommendation.controller.js:473-523 | every movie the user interacted with is dropped, and in child mode every adult, horror/thriller/crime, low-vote, low-rated or non-family movie; every other movie is kept. This is the intended child filter; the one as written is under Findings |
| Recommendation.ApplyUserFiltersKeyDistinct | Backend/controllers/recommendation.controller.js:473-523 | filtering keeps the tmdb_ids distinct |
| Recommendation.SortByScore | Backend/controllers/recommendation.controller.js:305 | the result is sorted by descending score and is a permutation of the input |
| Recommendation.SortByScoreKeys | Backend/controllers/recommendation.controller.js:305 | sorting keeps the tmdb_ids distinct |
| Recommendation.ExcludeWatchedDefault | Backend/controllers/recommendation.controller.js:21 | the exclusion runs only for the text "true": the boolean default true does not enable it |
| Recommendation.SliceToAtMost | Backend/controllers/recommendation.controller.js:307 | the slice holds at most limit items, taken from the front |
| Recommendation.PooledShares | Backend/controllers/recommendation.controller.js:275-293 | the pooled list holds at most ceil(limit·0.4) + ceil(limit·0.35) + ceil(limit·0.2) + ceil(limit·0.05) items |
| Recommendation.CollectPools | Backend/controllers/recommendation.controller.js:273-293 | the loop builds exactly the pooled list: each pool sliced to its share and appended in order |
| Recommendation.Deduplicate | Backend/controllers/recommendation.controller.js:296-301 | exactly the first occurrence of each tmdb_id, passed through the user filters when exclusion is on; hence distinct tmdb_ids, every movie from the collected list |
| Recommendation.RankCandidates | Backend/controllers/recommendation.controller.js:304-307 | exactly the filtered movies scored, sorted by descending score and sliced to limit; hence at most limit movies with distinct tmdb_ids |
| Recommendation.RankingKeepsBest | Backend/controllers/recommendation.controller.js:304-307 | a ranking keeps min(limit, n) movies, and no scored movie left out scores above a kept one |
| Recommendation.RankedOrigin | Backend/controllers/recommendation.controller.js:296-307 | every ranked movie is a scored movie drawn from the pools |
| Recommendation.GenerateRecommendations | Backend/controllers/recommendation.controller.js:271-313 | [] when a fetch fails; otherwise exactly the ranking of the filtered, deduplicated capped pools, so at most limit movies sorted by descending userScore with distinct tmdb_ids, and with exclusion on none interacted with and all child-safe in child mode |
| Recommendation.ChildFilterAsWritten | Backend/controllers/recommendation.controller.js:495-520 | on movies carrying their stored genre text, the filter throws iff some movie is not adult and has the text; otherwise it keeps only child-safe movies without the text |
| Recommendation.TaggedFilterKeepsNothing | Backend/controllers/recommendation.controller.js:498-502 | when every movie carries its genre text, the filter as written throws or keeps nothing |
| Recommendation.ChildModeAsWrittenIsEmpty | Backend/controllers/recommendation.controller.js:296-311 | as written, child mode with exclusion on recommends nothing when every pooled movie carries its `genre_ids` text |
| Recommendation.ChildSafeMovieThrows | Backend/controllers/recommendation.controller.js:502 | a child-safe family movie that the intended filter keeps makes the filter as written throw |
| Recommendation.ScoredKeys | Backend/controllers/recommendation.controller.js:556 | scoring changes no tmdb_id |
| Recommendation.ScoredChildSafe | Backend/controllers/recommendation.controller.js:556 | scoring does not change whether a movie passes the child filter |
| PreferenceRow.GenreRank | Frontend/src/services/preferences.js:134-158 | each genre flag has a position in the genre list, which holds it there |
| FrontendPreferences.GenreNameInjective | Frontend/src/services/preferences.js:134-158 | no two genres share a display name |
| FrontendPreferences.GenreErrorsIff | Frontend/src/services/preferences.js:207-212 | there is a genre message iff some defined genre value is not null, 0 or 1 |
| FrontendPreferences.CheckFields | Frontend/src/services/preferences.js:183-204 | the year, order, rating and runtime checks push their messages in order |
| FrontendPreferences.CheckGenres | Frontend/src/services/preferences.js:206-213 | each genre that is defined and holds something other than null, 0 or 1 pushes its message, in list order, after the messages already collected |
| FrontendPreferences.ValidatePreferences | Frontend/src/services/preferences.js:178-218 | every failing check pushes its message, and isValid iff none was pushed |
| FrontendPreferences.ValidIff | Frontend/src/services/preferences.js:178-218 | valid iff truthy years are in range and ordered, a truthy rating is in [0, 8.5], the runtime is a bucket and every defined genre is null, 0 or 1 |
| FrontendPreferences.RatingTighterThanServer | Frontend/src/services/preferences.js:196-198 | a rating of 9 is refused here although the server accepts up to 10 |
| FrontendPreferences.InvertedRangeRejected | Frontend/src/services/preferences.js:189-191 | min_year above max_year is refused here although the server stores it |
| FrontendPreferences.FalsyValuesSkipChecks | Frontend/src/services/preferences.js:183-198 | zero and empty years and ratings skip their checks |
| FrontendPreferences.GetPreferencesSummary | Frontend/src/services/preferences.js:225-245 | liked and disliked are the names of genres exactly 1 and exactly 0 in list order; yearRange is `String(min_year) + " - " + String(max_year)` for every stored value, "undefined" and "null" included; rating and runtime are passed through; hasPreferences holds iff some genre is exactly 0 or 1; the completeness is attached and lies in 0..100 |
| FrontendPreferences.WholeYearRange | Frontend/src/services/preferences.js:239 | whole-number years render as their decimal digits around " - ", e.g. 1990 and 2024 give "1990 - 2024" |
| FrontendPreferences.SummaryLists | Frontend/src/services/preferences.js:228-234 | a genre's name is liked iff its value is 1 and disliked iff it is 0, so the lists are disjoint |
| FrontendPreferences.HasPreferencesIff | Frontend/src/services/preferences.js:242 | hasPreferences iff some genre is exactly 0 or 1 |
| FrontendPreferences.CalculateCompleteness | Frontend/src/services/preferences.js:252-271 | the loop counts set genres and the four other fields and gives round(100·completed/23) |
| FrontendPreferences.CompletenessBounds | Frontend/src/services/preferences.js:252-271 | the percentage is in [0, 100], 0 iff nothing is filled and 100 iff all 23 fields are |
| FrontendPreferences.FullyComplete | Frontend/src/services/preferences.js:252-271 | 100 iff every genre is set, the years and rating are truthy and a runtime other than any is chosen |
| FrontendPreferences.DefaultData | Frontend/src/services/preferences.js:91-128 | the local defaults: no genre set, 1990 to the current year, rating 6.0, any runtime |
| FrontendPreferences.DefaultsAreValid | Frontend/src/services/preferences.js:91-128 | from 1990 on the defaults pass validation, are 13% complete and state no genre preference |
| FrontendPreferences.DefaultsDifferFromServer | Frontend/src/services/preferences.js:117-119 | the local defaults start at 1990 and 6.0 where the server's start at 1900 and 0 |
| FrontendPreferences.GetPreferences | Frontend/src/services/preferences.js:14-33 | an answer gives its body's members without `success` and `message`, flat; a 404 gives the local defaults (min_year 1990, rating 6.0) wrapped under `data`; any other failure is an error |
| FrontendPreferences.SuccessBody | Backend/service/helpers/api-response.helper.js:8-20 | the success body holds `success: true`, the message and every member of the data, a data member overriding either of the first two |
| FrontendPreferences.AnswerRoundTrip | Frontend/src/services/preferences.js:18-22 | taking `success` and `message` off the server's success body gives back the preferences sent, when none of them is named `success` or `message` |
| FrontendMovie.GenreEntries | Frontend/src/services/movie.js:103-106 | each id becomes one {id, name} entry, in order |
| FrontendMovie.DigitRuns | Frontend/src/services/movie.js:124 | the runs are non-empty and made of digits |
| FrontendMovie.RunsCoverDigits | Frontend/src/services/movie.js:124 | the runs hold every digit of the text and nothing else, in order |
| FrontendMovie.RunsSplitAtNonDigit | Frontend/src/services/movie.js:124 | a non-digit separates the runs on either side of it: two runs never merge across it |
| FrontendMovie.MaximalBlockIsOneRun | Frontend/src/services/movie.js:124 | runs are maximal: a block of digits with no digit on either side is found as one whole run, neither split nor extended |
| FrontendMovie.RunIds | Frontend/src/services/movie.js:126 | each run is read as its decimal value |
| FrontendMovie.ProcessGenres | Frontend/src/services/movie.js:95-147 | number arrays are mapped through the genre map, other arrays pass, text that parses to a JSON list is that list mapped, any other text falls back to its digit runs, any other truthy genres value gives [], genre_ids is used only without genres and throws when truthy but not a list, and neither gives [] |
| FrontendMovie.GenreIdsIgnored | Frontend/src/services/movie.js:138 | with truthy genres, genre_ids does not matter |
| FrontendMovie.MalformedTextUsesRuns | Frontend/src/services/movie.js:120-131 | the text [28, 12 gives Akció and Kaland |
| FrontendMovie.TextGenres | Frontend/src/services/movie.js:110-136 | a non-JSON genre text goes through its digit runs |
| FrontendMovie.UnknownIdFallback | Frontend/src/services/movie.js:105 | an id missing from the map is named "Műfaj id" |
| FrontendMovie.ProcessMovieData | Frontend/src/services/movie.js:31-88 | null for a falsy movie; otherwise the display record with the poster and backdrop precedence, field defaults, the year's source, `parseFloat` of the first truthy rating (else 0), `parseInt` of the first truthy vote count (else 0) and the copied fields unchanged, unless a member call throws |
| FrontendMovie.YearOf | Frontend/src/services/movie.js:58-60 | a truthy release date is the year's source; otherwise a truthy `year`, else null |
| FrontendMovie.MissingVotesAreZero | Frontend/src/services/movie.js:71-72 | a movie with neither rating nor vote count in either field shows 0 for both |
| FrontendMovie.TmdbRatingFallback | Frontend/src/services/movie.js:71 | the TMDB rating is used when the movie's own rating is missing |
| FrontendMovie.TextVoteCount | Frontend/src/services/movie.js:72 | a text vote count is read up to its first non-digit |
| FrontendMovie.DisplayFieldsPresent | Frontend/src/services/movie.js:31-88 | a processed movie always has a truthy title, overview and poster URL, a truthy or null backdrop, and a truthy or false adult flag |
| FrontendMovie.PosterUrlWins | Frontend/src/services/movie.js:35-46 | a movie with a poster URL keeps it, whatever its path |
| HungarianGenres.GenreMapLookup | Frontend/src/services/movie.js:4-24 | the map is read by the key's text, so 28, "28" and [28] all find Akció |
| HungarianGenres.NameOr | Frontend/src/services/movie.js:105 | a known id gets its Hungarian name, any other the fallback prefix with the id |
| HungarianGenres.TablesAgree | Frontend/src/services/movieTranslation.js:161-181 | every English name translates to the name the genre map gives its TMDB id |
| HungarianGenres.NumberAndTextAgree | Frontend/src/services/movie.js:4-24 | a numeric id and its decimal text find the same name |
| MovieTranslation.TranslateGenre | Frontend/src/services/movieTranslation.js:42-84 | an object with a truthy id keeps its other fields and gets `GENRE_MAP[id]` as its name, or its own name when the id is not in the map, a number becomes {id, name}, a known English name its Hungarian one, anything else is kept, and null throws |
| MovieTranslation.HungarianNameIsFixed | Frontend/src/services/movieTranslation.js:161-181 | a Hungarian name produced from English is not translated again |
| MovieTranslation.TranslateGenreIdempotent | Frontend/src/services/movieTranslation.js:42-84 | translating a genre twice is translating it once |
| MovieTranslation.TranslateGenres | Frontend/src/services/movieTranslation.js:42-84 | the genre list is translated element by element, length kept, and it throws iff some genre is null |
| MovieTranslation.TranslateGenresIdempotent | Frontend/src/services/movieTranslation.js:42-84 | translating the list twice is translating it once |
| MovieTranslation.TranslateMovieData | Frontend/src/services/movieTranslation.js:33-87 | a falsy movie or a locale other than hu is returned as is; otherwise a copy with its genres translated |
| MovieTranslation.TranslateMovieIdempotent | Frontend/src/services/movieTranslation.js:33-87 | translating a translated movie changes nothing |
| MovieTranslation.TranslateMoviesArray | Frontend/src/services/movieTranslation.js:95-101 | a non-list or a non-hu locale is returned as is; otherwise each movie is translated |
| MovieTranslation.TranslateEach | Frontend/src/services/movieTranslation.js:95-101 | the list succeeds iff every movie does, one result per movie |
| MovieTranslation.GetHungarianGenreName | Frontend/src/services/movieTranslation.js:108-110 | a known id gets its Hungarian name, any other "Genre id" |
| MovieTranslation.TrimmedPieces | Frontend/src/services/movieTranslation.js:139 | the pieces kept are trimmed and non-empty, in order |
| MovieTranslation.CommaListRoundTrip | Frontend/src/services/movieTranslation.js:138-139 | joining trimmed comma-free names with commas and reading them back gives the names |
| MovieTranslation.ProcessedGenres | Frontend/src/services/movieTranslation.js:118-144 | falsy gives [], a list is kept, JSON text gives the parsed value, other text with a comma gives its trimmed non-empty pieces, other non-empty text is a single entry, and any other truthy value gives [] |
| MovieTranslation.CommaTextPieces | Frontend/src/services/movieTranslation.js:136-139 | non-JSON text with a comma becomes its trimmed, non-empty, comma-free pieces |
| MovieTranslation.ProcessAndTranslateGenres | Frontend/src/services/movieTranslation.js:118-191 | the processed list, translated element by element for hu and left untranslated otherwise |
| MovieTranslation.CommaTextTranslated | Frontend/src/services/movieTranslation.js:118-191 | "Action, Drama" in Hungarian gives Akció, Dráma |
| Locales.MergeTranslations | Frontend/src/locales/index.js:11-24 | the result has exactly the keys hu and en, each the merge of the sources' sections in order |
| Locales.MergedKeys | Frontend/src/locales/index.js:14-21 | a key is merged into a locale iff some source defines it there |
| Locales.LastWriterWins | Frontend/src/locales/index.js:14-21 | a key's merged value is the last defining source's value, replaced whole |
| Locales.MissingSectionIgnored | Frontend/src/locales/index.js:14-21 | a source without a locale's section leaves that locale as it was |
| Locales.AppSources | Frontend/src/locales/index.js:26-35 | the fixed order: common, auth, dashboard, profile, settings, preferences, movies, favoriteMovies |
| Locales.MoviesShadowPreferences | Frontend/src/locales/index.js:26-35 | keys shared with the movies file take the movies file's value |
| Locales.SavingFromPreferences | Frontend/src/locales/index.js:26-35 | saving comes from the preferences file when the unseen files do not define it |
| Router.Guard | Frontend/src/router/index.js:128-146 | a protected route without a token goes to /login, /login or /register with a token goes to /dashboard, and anything else proceeds |
| Router.TargetOf | Frontend/src/router/index.js:19-120 | the navigation target keeps the requested path and needs a login exactly when a route of the table with that path carries `requiresAuth` |
| Router.LoginRoute | Frontend/src/router/index.js:27-31 | /login needs no token |
| Router.DashboardRoute | Frontend/src/router/index.js:75-99 | /dashboard needs a token |
| Router.OnlyRootRedirects | Frontend/src/router/index.js:19-120 | only the root route carries a redirect |
| Router.ProtectedNeedsToken | Frontend/src/router/index.js:130-140 | a protected path without a token lands on /login |
| Router.RootDestination | Frontend/src/router/index.js:21-24 | / ends at /dashboard with a token and at /login without |
| Router.LegacyLoginRoute | Frontend/src/router/index.js:49-73 | /auth/login is a route of its own, with no redirect and no auth requirement |
| Router.LegacyLoginNotRedirected | Frontend/src/router/index.js:143-145 | /auth/login is not redirected, even with a token |
| Router.GuardRedirectIsFinal | Frontend/src/router/index.js:128-146 | a redirect target is never redirected again |
| Router.DestinationSettles | Frontend/src/router/index.js:128-146 | the final destination passes the guard |
| Theme.InitialTheme | Frontend/src/services/theme.js:14-27 | a valid saved theme wins, else dark when the system prefers it, else light |
| Theme.Toggled | Frontend/src/services/theme.js:45-48 | the toggle is the other theme |
| Theme.ToggledTwice | Frontend/src/services/theme.js:45-48 | toggling twice restores the theme |
| Theme.Notifications | Frontend/src/services/theme.js:77-79 | one call per listener, in registration order, with the theme |
| Theme.Without | Frontend/src/services/theme.js:60-62 | every occurrence of the callback is removed and the others keep their order |
| Theme.WithoutAbsent | Frontend/src/services/theme.js:60-62 | removing a callback that is not registered changes nothing |
| Theme.AddThenRemove | Frontend/src/services/theme.js:56-62 | adding then removing a new callback restores the list |
| Theme.ThemeService.constructor | Frontend/src/services/theme.js:3-6 | light, no listeners, nothing applied, the stored theme recorded |
| Theme.ThemeService.Init | Frontend/src/services/theme.js:8-12 | the initial theme becomes current and is applied, a system watcher is added, and nothing is saved or notified |
| Theme.ThemeService.GetInitialTheme | Frontend/src/services/theme.js:14-27 | the saved theme when valid, else the system preference |
| Theme.ThemeService.SetTheme | Frontend/src/services/theme.js:29-39 | an unknown theme changes nothing; a known one is applied, saved and notified to each listener once, in order |
| Theme.ThemeService.GetTheme | Frontend/src/services/theme.js:41-43 | the current theme |
| Theme.ThemeService.GetCurrentTheme | Frontend/src/services/theme.js:64-66 | the current theme |
| Theme.ThemeService.ToggleTheme | Frontend/src/services/theme.js:45-48 | sets the other theme, with the effects of SetTheme |
| Theme.ThemeService.ApplyTheme | Frontend/src/services/theme.js:50-53 | the document carries the theme attribute and the theme class, and the theme, saved value and listeners are unchanged |
| Theme.ThemeService.AddThemeChangeListener | Frontend/src/services/theme.js:56-58 | the callback is appended |
| Theme.ThemeService.RemoveThemeChangeListener | Frontend/src/services/theme.js:60-62 | every occurrence of the callback is removed |
| Theme.ThemeService.AddListener | Frontend/src/services/theme.js:69-71 | the callback is appended |
| Theme.ThemeService.RemoveListener | Frontend/src/services/theme.js:73-75 | every occurrence of the callback is removed |
| Theme.ThemeService.NotifyListeners | Frontend/src/services/theme.js:77-79 | each listener is called once, in order, with the theme |
| Theme.ThemeService.SetupSystemThemeListener | Frontend/src/services/theme.js:82-84 | one system watcher is added where the media query exists |
| Theme.ThemeService.WatchSystemTheme | Frontend/src/services/theme.js:86-96 | one system watcher is added where the media query exists |
| Theme.ThemeService.OnSystemThemeChange | Frontend/src/services/theme.js:88-94 | a system change is applied only while nothing is saved, so only the first one takes effect |
| JsValues.Lower | Backend/controllers/movie.controller.js:608-622 | lower-casing keeps the length and leaves no upper-case letter |
| JsValues.Upper | Backend/controllers/watchlist.controller.js:25 | upper-casing keeps the length and leaves no lower-case letter |
| JsValues.Trim | Backend/service/middlewares/validation.middleware.js:149 | the trim is no longer than the text and neither starts nor ends with whitespace |
| JsValues.TrimCutsSpace | Backend/service/middlewares/validation.middleware.js:149 | the trim is an infix of the text, and every character cut from either side is whitespace |
| JsValues.TrimIdempotent | Frontend/src/services/movieTranslation.js:139 | trimming twice is trimming once |
| JsValues.Split | Backend/service/helpers/messages.helper.js:46 | at least one piece, none containing the separator |
| JsValues.JoinSplit | Backend/service/helpers/messages.helper.js:46 | joining the pieces with the separator gives the text back |
| JsValues.SplitJoin | Frontend/src/services/movieTranslation.js:139 | splitting a join of separator-free pieces gives the pieces back |
| JsValues.IntToStringRoundTrip | Backend/controllers/movie.controller.js:281-285 | the year in a "year-01-01" date string reads back as the year |
| JsValues.ParseInt | Backend/controllers/preferences.controller.js:203 | a number is truncated toward zero; booleans, null, undefined and objects give NaN |
| JsValues.ParseIntOfText | Backend/controllers/preferences.controller.js:203 | `parseInt(v)` reads `String(v)` for every value: a number, an array, a boolean, null, undefined or an object parses exactly as its text does |
| JsValues.NumberTextParses | Backend/controllers/preferences.controller.js:203 | the text of any number, fraction digits included, reads back under `parseInt` as the number truncated toward zero |
| JsValues.HexYear | Backend/controllers/preferences.controller.js:203 | with no radix, "0x7D0" reads as 2000 |
| JsValues.NegativeHex | Backend/controllers/preferences.controller.js:203 | with no radix, "-0x10" reads as -16: the sign goes before the hexadecimal prefix |
| JsValues.ArrayYear | Backend/controllers/preferences.controller.js:203 | the one-item array [2000] reads as 2000 |
| JsValues.WholeNumberText | Frontend/src/services/movieTranslation.js:109 | a whole number renders as its integer's decimal text, so numeric and text ids find the same key |
| JsValues.FractionalNumberText | Backend/controllers/preferences.controller.js:203 | a number with a fraction renders with a decimal point |
| JsValues.ParseFloat | Backend/controllers/preferences.controller.js:222 | a number is kept; a text is read as a decimal literal prefix; a non-empty array reads as its first item (the comma ends the literal) and an empty one as NaN; booleans, null, undefined and objects give NaN |
| JsValues.FloatExponent | Backend/controllers/preferences.controller.js:222 | `parseFloat` reads the exponent: "5e1" is 50 |
| JsValues.ToNumber | Frontend/src/services/preferences.js:183-196 | `<` and `>` convert a number to itself, true to 1 and false to 0, null to 0, undefined and objects to NaN, a text by StringToNumber; an empty array to 0, an array of two or more items to NaN (its text holds a comma), and a one-item array as its item's text (ItemToNumber) |
| JsValues.ItemToNumber | Frontend/src/services/preferences.js:183-196 | the text of a lone array item converts as follows: null and undefined give "" (0), booleans and objects give NaN, a number is itself and a text converts by StringToNumber |
| JsValues.HexNumber | Frontend/src/services/preferences.js:183 | `Number` reads the text "0x7D0" as 2000 |
| JsValues.ArrayNumber | Frontend/src/services/preferences.js:183 | `Number` reads the one-item array [1800] as 1800 |
| PreferencesBackend.HexYearAccepted | Backend/controllers/preferences.controller.js:202-208 | a hexadecimal text year "0x7D0" is accepted as 2000 |
| PreferencesBackend.ArrayYearAccepted | Backend/controllers/preferences.controller.js:202-208 | a one-item array year [2000] is accepted as 2000 |
| PreferencesBackend.ExponentRatingRejected | Backend/controllers/preferences.controller.js:221-227 | the rating "5e1" parses to 50 and is rejected as above 10 |
| FrontendPreferences.HexTextYearAccepted | Frontend/src/services/preferences.js:183 | the text year "0x7D0" converts to 2000 and passes the minimum-year check |
| FrontendPreferences.TextYearsCompareByCharacters | Frontend/src/services/preferences.js:191 | two text years compare by characters: "10000" is not greater than "2000" |
| JsValues.RoundDiv | Frontend/src/services/preferences.js:270 | the integer nearest to a/b, halves rounded up |
| JsValues.RoundDivBounds | Backend/controllers/watchlist.controller.js:310 | a rounded mean stays within integer bounds of the values |
| JsValues.CeilDiv | Backend/controllers/movie.controller.js:194-199 | the least integer not below a/b |
| JsValues.CeilPercent | Backend/controllers/recommendation.controller.js:278-293 | the least integer not below x·pct/100 |
| JsValues.SliceTo | Backend/controllers/recommendation.controller.js:307 | slice(0, n), a negative end counting from the back |
| JsValues.ContainsIff | Backend/controllers/movie.controller.js:644-647 | includes holds iff the term occurs at some offset |

## Left out

- TMDB HTTP calls are not made. Discover results, keyword lists, movie details, runtimes and the movie fetch of a swipe are inputs of the members that use them.
- Sequelize and MySQL are in-memory tables: row sequences, or maps keyed by user. A rolled-back transaction is modelled as unchanged state.
- Concurrency is not modelled, including two simultaneous swipes racing on the unique index.
- `processAndCacheMovies` persistence is not modelled. Neither are the field-name mismatches between controllers and the dbo schemas.
- Floating point: `likeRatio.toFixed(1)` and the watchlist `averageRating` are exact reals, and so are the numbers `parseFloat` reads. The score weights are exact reals rounded once by `Math.round`.
- InteractionStats.LikeRatio: states the ratio before `toFixed(1)`, because decimal rendering of floats is not modelled.
- WatchlistStats.ComputeStats: states `averageRating` as an exact real mean, because `toFixed` is not modelled.
- Dates and the clock are integer inputs:
  - years and timestamps;
  - the week and month bounds;
  - `generateExpiration` and `isExpired` times.

  `formatReleaseDate`, `getMovieYear` and the `new Date(release_date).getFullYear()` of `processMovieData` are not modelled (FrontendMovie.YearOf names the date the year is read from).
- bcrypt, sha512 and JWT are function parameters (verify and hash). Sending mail is the `mailSent` input of `ForgotPassword`.
- HTTP plumbing is not modelled: Express routers, `app.js`, `asyncHandler`, `ApiResponse`, the status codes' response bodies and `email.helper.js`. Results are datatypes carrying the status and message key.
- Router.TargetOf: paths are matched exactly. vue-router's case-insensitive matching and its optional trailing slash are not modelled, so "/Dashboard" and "/dashboard/" count as unknown paths here.
- The reset link built from `FRONTEND_URL` in `forgotPassword` is not modelled; the mail's content is not an input of `ForgotPassword`.
- The static `addInteraction` in `Backend/controllers/interaction.controller.js` is not modelled. It is unreachable code that refers to undeclared models.
- The frontend `MovieService` fetch wrappers, `notification.js`, `api.js`, `emailTemplates.js`, the Vue composables, `main.js` and `utils/index.js` are browser plumbing. They are not part of this model.
- `getUserProfile` and the candidate-pool fetchers in `recommendation.controller.js` are inputs. The profile and the four pools are parameters, because they are database and TMDB queries.
- `toLowerCase`, `toUpperCase` and `trim` act on ASCII letters and whitespace only. Unicode case mapping is not modelled.
- UserService.PrepareEmailContent: replacement values are inserted literally. The `$`-pattern semantics of `String.prototype.replace` are not modelled.
- JSON.parse is an input (`Option<JsValue>`) wherever the code parses arbitrary text. `None` stands for a parse failure.
- JsValues.NumberText: the exponent renderings that `String(n)` uses for very large or very small numbers are not modelled. The fraction is cut after 20 digits rather than rendered as the shortest round-tripping decimal.
- JsValues.ParseFloat: the text "Infinity" reads as NaN rather than as an infinity. The rating check rejects both.
- `Frontend/src/locales/auth.js` and `profile.js` are not part of this model. Their contents are parameters of `Locales.AppSources`.
- Router: vue-router's path matching is a flat table of full paths. Nested routes are listed with their full path, and history and lazy component loading are not modelled.
- Theme: the DOM attribute and class, `localStorage` and the media-query watcher are fields of `ThemeService`. Listener calls are recorded in order, not executed.
- The rate-limit delay between TMDB requests in `enhanceMoviesWithRuntime` is not modelled.
- Logging (`console.*`) is not modelled. This includes the list of missing fields that `validateRequired` only logs.
- YearRange.SetYearRange: a year in the request body is left out, null or a whole number. Texts, fractions and other values, which Sequelize's integer validators coerce or reject, are not modelled. The route's `userId` check and its 500 answer are not modelled either: `None` stands for the thrown validation error.
- Recommendation.ExtractGenrePreferences: tied genres are ranked by the smaller id. `Object.entries` gives that order only for array-index keys (0 to 2^32 - 2); a negative or larger id would keep its insertion order among ties, e.g. likes [[-1, 5]] give [5, -1] there but [-1, 5] here. TMDB genre ids are small positive integers.
- Validation.Verdict carries the message key and the details, not the `VALIDATION_ERROR` error code that `ApiResponse.validationError` adds to every rejection.

## Findings

| source | as written | input that shows it | evidently intended | confidence | as-written member | corrected member |
|---|---|---|---|---|---|---|
| Backend/controllers/recommendation.controller.js:502 | the child filter calls `genre_ids.some(...)` on the movie's `genre_ids`, which line 454 passes to `create` as `JSON.stringify` text. For a record that carries that text, a string has no `some`, so the TypeError reaches the catch at line 309, which answers [] | child mode on, `excludeWatched=true`, and a candidate that is not adult and whose record carries the `genre_ids` text, for example a family movie with 100 votes rated 7. The Movie schema (Backend/dbo/movie/index.js:5-165) declares no `genre_ids` column, so a record loaded with `findOne` has none and skips the `.some` call | filter on the decoded genre ids, as the scorer does at line 536 | medium, not executed: only for a record carrying `genre_ids`, which the Movie schema does not define | Recommendation.ChildModeAsWrittenIsEmpty | Recommendation.GenerateRecommendations |
