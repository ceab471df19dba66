# Securities ingestion core, modelled in Dafny

This project models the core of a securities-master service for Indian listed
companies. The core has three parts, and every operation is paired with the
properties proved about it.

1. **The Prowess batch client** (`scripts/security_upsert.py`).
   - It submits a batch, polls `getbatch` until the reply is the zip archive
     rather than a JSON status message, or until the attempts run out.
   - It then saves and extracts the archive, stores `output/1.json`, removes
     the zip, and checks the extracted listing for the `<token>.lst` manifest.
2. **The transformer** (`scripts/security_upsert.py`).
   - It turns the provider's tabular JSON into records.
   - It keeps the listed companies (an NSE symbol or a BSE scrip code), expands
     the abbreviations in their names, renames the columns to snake case and
     writes the five repeated columns twice.
   - It then offers each record to the database, counting the refusals without
     stopping.
3. **The abbreviation cache and the security service** (`services/`).
   - The abbreviation cache is a write-through map from an abbreviation to its
     expansion, filled by a language model. Name normalisation and name
     matching are built on it.
   - The security service does the identifier dispatch (ISIN, then NSE symbol,
     then BSE code), the input guards of the lookups, the `has_more` flag of
     the listing, the de-duplication of search results by ISIN, and the
     validation of a record before it is stored.

## How the model represents the program

- **Dictionaries.** A Python dict is an insertion-ordered association list with
  distinct keys (`Dicts.Dict`). Assigning to a present key keeps its position,
  and assigning to a new key appends it. Key order matters twice here:
  normalisation applies the cache entries in map order, and a record's columns
  keep their header order.
- **Collaborators.** The collaborators are parameters:
  - the `sendbatch` reply, and the `getbatch` reply of each attempt;
  - the outcome of saving and extracting the archive;
  - the language model (a function from an abbreviation to an answer, or to
    `None` when the call raises);
  - the repository queries (`Securities.Repository`);
  - the database upsert;
  - what `float(text)` accepts.
- **Side effects.** The effects of `fetch_data` are an ordered list of events:
  send, poll, sleep, save, extract, store raw file, remove zip. The
  abbreviation cache records every map written to `abbreviations.json`, the
  pauses between model calls, and the abbreviations the model was asked about,
  all in ghost fields.
- **Loops.** Loops stay loops:
  - the poll loop;
  - the filtering, renaming and record-building loops;
  - the upsert loop;
  - the abbreviation loops;
  - the search de-duplication;
  - the two validation loops.

  Each loop is proved against a function that states what it computes, and the
  properties are proved about that function.
- **The abbreviation cache** is a class, `Abbreviations.AbbreviationService`,
  whose methods update the `entries` field in place.

## Where the code and its documented design differ

The model follows the code in each case below.

- **Attempt bound.** The attempt bound is `max(1, int(wait*60/interval))`, the
  floor of the window over the interval, not the ceiling (`MaxAttemptsIsFloor`).
- **No separate transport-failure outcome.** A `getbatch` exception is treated
  like a status reply. An exception on the last attempt therefore ends in the
  timeout error.
- **Failed expansions are retried.** A failed expansion is stored as `""`, but
  the cache does not serve `""`. The abbreviation is asked about again on the
  next run (`FailedEntryRetried`).
- **Normalisation is not idempotent.** An expansion can recreate a key it
  replaced (`NormalizeNotIdempotent`).
- **Colliding column names.** A column whose snake-cased name equals the first
  copy of a repeated column overwrites it. For example, `Date 1` and `Date` both
  become `date_1` (`CollidingColumn`).
- **Two strip calls in the company-name lookup.** It checks blankness with
  `strip()`, but then removes only quote characters. Surrounding whitespace is
  therefore kept, and `"A"` in quotes is rejected as too short
  (`QuotedLetterRejected`).

## Model

| member | source | states |
|---|---|---|
| Prowess.LStripBytesHead | scripts/security_upsert.py:114 | `lstrip()` leaves nothing exactly when the body is all whitespace; otherwise its first byte is the body's first non-whitespace byte |
| Prowess.JsonLeadAgrees | scripts/security_upsert.py:114-116 | the "body starts with `{` or `[` after whitespace" test, stated by position, agrees with the first byte `lstrip()` leaves |
| Prowess.CascadeTests | scripts/security_upsert.py:99-123 | a response is taken for the zip exactly when it has the PK signature, or names an archive content type, or neither starts with a JSON bracket nor names a json/text type |
| Prowess.ClassifierFollowsRules | scripts/security_upsert.py:99-123 | the cascade decides exactly as the ordered decision table (signature, archive type, JSON lead, textual type, otherwise) whose first holding rule gives the verdict |
| Prowess.ClassificationOrder | scripts/security_upsert.py:99-123 | `None` is never a zip; the signature and archive types win over everything; without them the verdict is zip iff neither JSON lead nor textual type; an empty headerless body counts as a zip |
| Prowess.ExtractionReport | scripts/security_upsert.py:158-168 | the report keeps the listing; without a (non-empty) token both manifest fields are absent; with one, the expected name is `<token>.lst` and `has_lst` says whether the listing holds it |
| Prowess.MaxAttemptsIsFloor | scripts/security_upsert.py:193 | the attempt bound is at least one, is the largest count of whole intervals fitting in the waiting window (when above one), and one more interval would overrun the window |
| Prowess.DefaultMaxAttempts | scripts/security_upsert.py:193 | with a 30 s interval and a 30 min window the loop makes at most 60 attempts |
| Prowess.Materialize | scripts/security_upsert.py:211-242 | the zip branch saves, extracts, stores the raw file when present and removes the zip, failing at save or extraction; outcome and events are those of the finishing specification |
| Prowess.FetchData | scripts/security_upsert.py:173-257 | the submit-and-poll loop returns exactly the outcome and the ordered side effects of the poll specification, for every send reply, reply sequence and archive outcome |
| PollProperties.FinishQuiet | scripts/security_upsert.py:211-242 | once the archive has arrived no further poll or sleep happens |
| PollProperties.PollFromStep | scripts/security_upsert.py:198-257 | one attempt: a zip reply finishes after one poll; otherwise a poll, a sleep unless it was the last attempt, then the rest of the loop; after the last attempt, the timeout |
| PollProperties.PollFromHit | scripts/security_upsert.py:211-242 | a zip reply on the next attempt ends the loop with the finishing outcome after one poll and no sleep |
| PollProperties.PollFromNext | scripts/security_upsert.py:198-254 | a status reply before the last attempt costs one poll and one sleep and leaves the outcome to the remaining attempts |
| PollProperties.PollFromLast | scripts/security_upsert.py:253-257 | a status reply on the last attempt times out after one poll and no sleep |
| PollProperties.PollFromCounts | scripts/security_upsert.py:198-254 | the loop polls at least once and at most the remaining attempts, and sleeps once fewer than it polls |
| PollProperties.PollFromTimedOut | scripts/security_upsert.py:198-257 | the loop times out exactly when no remaining attempt gets a zip reply |
| PollProperties.PollFromTimeoutPolls | scripts/security_upsert.py:198-257 | a timed-out loop has used every remaining attempt |
| PollProperties.FinishNeverTimesOut | scripts/security_upsert.py:211-242 | the finishing branch never reports a timeout |
| PollProperties.PollFromTimeout | scripts/security_upsert.py:198-257 | timeout iff no zip reply remains, and then the poll count is the full remaining budget |
| PollProperties.PollFromFirstZip | scripts/security_upsert.py:198-242 | a loop that does not time out stops at the first zip reply: that attempt's reply is a zip, none before it is, and the outcome is the finishing outcome |
| PollProperties.FetchPolling | scripts/security_upsert.py:173-257 | send failure and missing token fail without polling; with a token the loop polls between 1 and the attempt bound times, sleeps one fewer, times out iff no attempt gets a zip (then using all attempts) and otherwise stops at the first zip |
| PollProperties.FinishShape | scripts/security_upsert.py:211-242 | finishing succeeds iff saving and extracting succeed; it then reports the token and listing, ends by removing `<token>.zip`, stores `output/1.json` just before when it exists, and stores nothing else |
| PollProperties.PersistThenCleanup | scripts/security_upsert.py:221-242 | a successful fetch had a token, reports the extracted listing, removes the zip last and stores the raw file just before that when it exists |
| PollProperties.FetchWithToken | scripts/security_upsert.py:183-198 | with a truthy token the fetch is the send followed by the poll loop from attempt zero |
| PollProperties.FetchSuccessHasToken | scripts/security_upsert.py:185-187 | a successful fetch always received a truthy token |
| PollProperties.FetchEndsWithFinish | scripts/security_upsert.py:173-242 | a successful fetch has the finishing outcome and its events end with the finishing events |
| PollProperties.StoresRawFileOnly | scripts/security_upsert.py:221-227 | the only file ever sent to long-term storage is `output/1.json` |
| PollProperties.PollStoresRawOnly | scripts/security_upsert.py:198-257 | the poll loop stores no file but `output/1.json` |
| PollProperties.PollEndsWithFinish | scripts/security_upsert.py:198-242 | a loop that does not time out ends with the finishing events |
| PollProperties.StatusReplyIsNotZip | scripts/security_upsert.py:114-116 | a JSON status object served as `application/json` is not taken for the zip |
| PollProperties.JsonHeaderIsNotArchive | scripts/security_upsert.py:110-111 | an `application/json` content type names no archive type |
| PollProperties.ZipReplyIsZip | scripts/security_upsert.py:106-107 | a body starting with `PK` is taken for the zip |
| PollProperties.ThreePollScenario | scripts/security_upsert.py:173-257 | two status replies then a zip: the fetch succeeds with the listing after three polls and two sleeps, and the manifest `T1.lst` is reported missing |
| Transform.BuildRowsLookup | scripts/security_upsert.py:285-289 | each row built by `dict(zip(...))` has distinct keys and holds, per header, the value of its last occurrence, cells past the shorter side dropped |
| Transform.ListedRowsFails | scripts/security_upsert.py:292-297 | the filter fails exactly when some row's NSE symbol (or, when that is blank, BSE code) is not text |
| Transform.ListedRowsFirstError | scripts/security_upsert.py:292-297 | a failing filter reports the error of the first row that raises, every row before it being checked cleanly |
| Transform.ListedRowsStep | scripts/security_upsert.py:292-297 | a successful filter of one more row keeps the earlier result and appends the row exactly when it is listed |
| Transform.ListedRowsPicks | scripts/security_upsert.py:292-297 | a successful filter keeps exactly the listed rows, in input order |
| Transform.ListedRowsFailurePersists | scripts/security_upsert.py:292-297 | once a prefix fails, the whole filter fails with that error |
| Transform.FilterListed | scripts/security_upsert.py:292-297 | the filtering loop returns exactly the listed-rows specification, error included |
| Transform.CompanyNamesSpec | scripts/security_upsert.py:302-305 | the name list fails iff some truthy name is not text; otherwise it holds exactly the non-empty string names of the rows |
| Transform.RenameCompanyLookups | scripts/security_upsert.py:308-311 | renaming changes only the company-name column, and only for a non-empty text name, to its normalised form |
| Transform.ExpandedNameOf | scripts/security_upsert.py:308-311 | a row's name is found in the expanded-names map, with its normalised form, exactly when it is non-empty |
| Transform.ApplyExpandedNames | scripts/security_upsert.py:308-311 | the renaming loop leaves every row renamed as the rename specification says, one output per row |
| Transform.SnakeCaseChars | scripts/security_upsert.py:333 | snake-casing keeps the length and maps each character on its own: space and slash to `_`, capitals to lower case |
| Transform.RenamedStep | scripts/security_upsert.py:318-334 | mapping one more column assigns its value under its output key |
| Transform.TransformRow | scripts/security_upsert.py:314-343 | the record-building loop produces exactly the transformed record of the row |
| Transform.DuplicatedUnfold | scripts/security_upsert.py:337-341 | the second copies are written in order `date_2` … `shares_traded_2`, each the source value or `None` |
| Transform.AddCopiesOther | scripts/security_upsert.py:337-341 | writing the second copies leaves every other key unchanged |
| Transform.AddCopiesSecond | scripts/security_upsert.py:337-341 | each second copy holds the source column's value, `None` when absent |
| Transform.RenamedLastValue | scripts/security_upsert.py:318-334 | when one column alone maps to an output key, that key's last value is that column's value |
| Transform.TargetValue | scripts/security_upsert.py:318-343 | a non-second-copy output key that only one column maps to holds that column's value in the record |
| Transform.FirstCopy | scripts/security_upsert.py:320-329 | the first copy of a repeated column holds the source value, when no other column collides with it |
| Transform.SecondCopy | scripts/security_upsert.py:337-341 | the second copy of a repeated column always exists and holds the source value or `None` |
| Transform.DuplicatedColumns | scripts/security_upsert.py:318-341 | a present repeated column appears twice in the record with the same value |
| Transform.DuplicatedTable | scripts/security_upsert.py:320-341 | each repeated column maps to its first copy, first copies are not second copies, second copies are distinct |
| Transform.OtherColumn | scripts/security_upsert.py:330-334 | any other column appears under its snake-case name with its value, when nothing collides with it |
| Transform.DateOneTarget | scripts/security_upsert.py:333 | a column named `Date 1` snake-cases to `date_1` |
| Transform.CollidingRenamed | scripts/security_upsert.py:318-334 | in the row `Date 1`=1, `Date`=2 both columns map to `date_1` |
| Transform.CollidingFirst | scripts/security_upsert.py:318-334 | the later column wins: `date_1` holds 2 |
| Transform.CollidingLast | scripts/security_upsert.py:318-334 | the last value mapped to `date_1` is 2 |
| Transform.NoSecondCopyIsFirstDate | scripts/security_upsert.py:337-341 | no second copy writes `date_1` |
| Transform.CollidingSecond | scripts/security_upsert.py:337 | `date_2` holds the `Date` value 1 |
| Transform.CollidingDate | scripts/security_upsert.py:337 | `Date` is the first repeated column and holds 1 in the colliding row |
| Transform.CollidingColumn | scripts/security_upsert.py:318-341 | after a collision the two copies of `Date` disagree |
| Transform.TransformRows | scripts/security_upsert.py:314-343 | one record per renamed row, each the transformed row |
| Transform.ProcessProwessData | scripts/security_upsert.py:270-346 | no header row, a non-text code or a non-text name fail with the service untouched; otherwise the cache is updated as the abbreviation expansion of the listed names promises (each abbreviation resolved against the starting cache, every other key unchanged, no key moved, one question per abbreviation without a usable cached expansion, one save per question with the last holding the final cache, one pause per answer, nothing changed when all were cached), and there is one record per listed row, in order, each its company renamed under the updated cache and transformed |
| Transform.ReportsExtend | scripts/security_upsert.py:367-391 | offering one more record extends the failure report by its failure exactly when it is refused |
| Transform.FailuresInOrder | scripts/security_upsert.py:367-391 | the errors are exactly the refused records' failures, one each, in record order |
| Transform.UpsertToDatabase | scripts/security_upsert.py:352-394 | the loop never aborts: it reports success, all records processed, upserted plus failed equal to the total, and one error per refused record in order |
| Abbreviations.DottedWordsAppend | services/abbreviation_service.py:65-68 | one more word adds itself to the abbreviations exactly when it ends in `.` |
| Abbreviations.AbbreviationService.constructor | services/abbreviation_service.py:18-33 | the cache starts with the stored map, or empty when there is none, nothing saved and no model call made |
| Abbreviations.AbbreviationService.ExtractAbbreviations | services/abbreviation_service.py:48-70 | the extraction loop returns the tokens ending in `.` of the non-empty names |
| Abbreviations.AbbreviationService.ExpandAbbreviation | services/abbreviation_service.py:72-105 | a non-empty cached expansion is returned untouched; otherwise the model is asked once, its stripped answer (or `""` on failure) stored and saved, the pause taken on success only, the failure reported; no other key changes and no key moves, a new key going last |
| Abbreviations.AbbreviationService.ExpandAbbreviationsInNames | services/abbreviation_service.py:107-143 | every abbreviation of the names is resolved whatever the others do, no other entry changes and no key moves (new keys come after the old ones); the model is asked exactly once about each abbreviation without a usable cached expansion and about nothing else; each question adds one save, the last of which holds the final cache; each answer adds one pause; when every abbreviation was cached, nothing changes; each name maps to its normalisation under the updated cache |
| Abbreviations.AbbreviationService.ResolveAll | services/abbreviation_service.py:122-128 | in any order, each abbreviation ends up holding its resolution against the starting cache, no other key changes and no key moves (new keys come after the old ones); the model is asked exactly once about each abbreviation without a usable cached expansion and about nothing else; each question adds one save, the last of which holds the final cache; each answer adds one pause; when every abbreviation was cached, the cache, the saves, the questions and the pauses are all unchanged |
| Abbreviations.AbbreviationService.ResolveOne | services/abbreviation_service.py:123-128 | one expansion whose failure is swallowed resolves one more abbreviation: it alone changes in the cache, no old key moves, and a question, a save of the new cache and, on an answer, a pause are added exactly when the starting cache held no usable expansion for it |
| Abbreviations.AbbreviationService.NormalizeNames | services/abbreviation_service.py:130-141 | every name, and only those, is mapped to its normalised form, the empty name to itself |
| Abbreviations.AbbreviationService.GetAbbreviationMap | services/abbreviation_service.py:145-152 | the copy answers every lookup as the cache does |
| Abbreviations.AbbreviationService.AddAbbreviation | services/abbreviation_service.py:154-164 | the entry is set, nothing else changes, and the new map is saved |
| Abbreviations.AbbreviationService.NormalizeCompanyName | services/abbreviation_service.py:166-184 | the rewriting loop applies each entry with a non-empty expansion occurring in the name, in map order; the empty name is returned as is |
| Abbreviations.AbbreviationService.MatchCompanyNames | services/abbreviation_service.py:186-212 | an empty name never matches, and two non-empty names with the same normalisation always match |
| Abbreviations.AbbreviationsInTokens | services/abbreviation_service.py:58-70 | a word is extracted iff it is a whitespace token ending in `.` of some name, so it is non-empty and free of whitespace |
| Abbreviations.ExtractionExample | tests/test_security_service.py:68-78 | the test names yield `Ltd.` and `Pvt.` |
| Abbreviations.EmptyExpansionsInert | services/abbreviation_service.py:176-184 | entries holding `""` never change a name |
| Abbreviations.UntouchedName | services/abbreviation_service.py:176-184 | a name containing no key with a non-empty expansion is returned unchanged |
| Abbreviations.NormalizationExample | tests/test_security_service.py:80-89 | `Test Company Ltd.` normalises to `Test Company Limited` under `Ltd.`→`Limited` |
| Abbreviations.NormalizeNotIdempotent | services/abbreviation_service.py:176-184 | normalising twice can differ from once (`abb`→`ab`→`a` under `ab`→`a`) |
| Abbreviations.FailedEntryRetried | services/abbreviation_service.py:82-83 | an abbreviation whose entry is `""` is not served from the cache |
| Abbreviations.CanonicalForms | services/abbreviation_service.py:201-202 | the lower-cased stripped forms of the two test names |
| Abbreviations.CanonicalFormsDiffer | services/abbreviation_service.py:209-210 | neither test form contains the other |
| Abbreviations.MatchingExample | tests/test_security_service.py:91-103 | with `Ltd.` and `Pvt.` cached, `Test Company Ltd.` matches `Test Company Limited` and not `Different Company Pvt.` |
| Abbreviations.MatchSymmetric | services/abbreviation_service.py:186-212 | matching does not depend on the order of the two names |
| Securities.BlankSpaces | services/security_service.py:32-35 | a string is blank iff it is all whitespace iff it strips to nothing, and stripping keeps blankness |
| Securities.Routes | services/security_service.py:41-56 | a lookup is tried exactly when the identifier has its shape |
| Securities.EmptyBeforeShift | services/security_service.py:41-56 | an empty first lookup moves the "all earlier lookups empty" mark one route on |
| Securities.FirstHitFound | services/security_service.py:41-56 | a found security is the non-empty answer of some route all of whose predecessors answered empty |
| Securities.FirstHitRaised | services/security_service.py:41-56 | a raised error comes from some route all of whose predecessors answered empty |
| Securities.FirstHitNotFound | services/security_service.py:41-59 | the lookup is not found iff every route answered empty |
| Securities.FirstHitOutcome | services/security_service.py:41-59 | the three outcomes of the dispatch together: first non-empty answer, first exception, or not found iff all empty |
| Securities.IdentifierDispatch | services/security_service.py:18-59 | a non-blank identifier is trimmed and tried along its shape-selected routes, first hit winning |
| Securities.IdentifierInvalid | services/security_service.py:32-33 | the identifier is rejected as invalid iff it is all whitespace |
| Securities.IdentifierTrimmed | services/security_service.py:35 | surrounding whitespace never changes the result |
| Securities.SixDigitCodeRoutes | services/security_service.py:47-56 | six digits are tried as an NSE symbol and then as a BSE code |
| Securities.SixDigitCodeNseFirst | services/security_service.py:47-50 | a six-digit code found as an NSE symbol is returned without asking for the BSE code |
| Securities.Found | services/security_service.py:84-89 | the lookup succeeds iff the repository answers with a non-empty list, which it returns |
| Securities.CompanyNameGuards | services/security_service.py:61-89 | rejected iff all whitespace or shorter than two once quotes are removed; otherwise succeeds iff the unquoted name finds records, which are returned |
| Securities.QuotedLetterRejected | services/security_service.py:79-82 | a quoted single letter passes the blank check but is too short |
| Securities.IndustryGuards | services/security_service.py:91-118 | rejected iff fewer than two characters remain after trimming; otherwise succeeds iff the trimmed industry finds records, which are returned |
| Securities.GetAllSecurities | services/security_service.py:138-162 | the listing succeeds iff both queries do, returning the page, the count and the bounds |
| Securities.Window | services/security_service.py:150 | a page never exceeds its limit |
| Securities.HasMoreMeansNextPage | services/security_service.py:153-159 | over one paged table, `has_more` is true exactly when the next page of the same size is non-empty |
| Securities.TruthyIsinsAppend | services/security_service.py:196-202 | one more result adds its ISIN to those seen when it is truthy |
| Securities.FirstOfSeen | services/security_service.py:196-202 | a result is the first of its ISIN iff its ISIN is truthy and not among those seen before it |
| Securities.FirstPerIsinIsins | services/security_service.py:195-204 | de-duplication keeps every truthy ISIN of the input and only results with a truthy ISIN |
| Securities.FirstPerIsinDistinct | services/security_service.py:195-204 | the kept results have pairwise distinct ISINs |
| Securities.KeepsFirstsExtend | services/security_service.py:195-204 | one more result is kept exactly when it is the first of its ISIN |
| Securities.FirstPerIsinKeepsFirsts | services/security_service.py:195-204 | the kept results are exactly the first result of each ISIN, in input order |
| Securities.FirstPerIsinStep | services/security_service.py:197-202 | one more result is kept exactly when its ISIN is truthy and unseen, and then joins the seen set |
| Securities.KeepFirstPerIsin | services/security_service.py:195-204 | the de-duplication loop returns the first result per truthy ISIN, in order |
| Securities.Gathered | services/security_service.py:178-193 | when both searches raise, nothing is gathered |
| Securities.SearchSecurities | services/security_service.py:164-208 | a blank term is rejected; otherwise the name results then the industry results for the trimmed term, a raising search contributing none, de-duplicated by ISIN |
| Securities.RequiredErrorsStep | services/security_service.py:226-229 | one more required field appends its message when missing |
| Securities.NumericErrorsStep | services/security_service.py:243-249 | one more numeric field appends its message when present, not convertible and not too large for a double |
| Securities.CheckRequired | services/security_service.py:226-229 | the required-field loop appends, in order, a message per missing or falsy field |
| Securities.CheckNumeric | services/security_service.py:243-249 | the numeric-field loop appends, in order, a message per present field that does not convert, unless some field holds an integer too large for a double, where the loop raises `TooLarge` for the first such field |
| Securities.ValidateSecurityData | services/security_service.py:210-254 | the validator returns exactly the validation specification: the `len` error on a non-text ISIN, then the `OverflowError` of the first numeric field too large for a double, then the messages in check order or the valid reply when there are none |
| Securities.RequiredErrorsEmpty | services/security_service.py:226-229 | no required-field message iff every required field is truthy |
| Securities.NumericErrorsEmpty | services/security_service.py:243-249 | no numeric message iff every numeric field is absent, `None`, convertible or too large (the last raising instead) |
| Securities.ValidationVerdict | services/security_service.py:210-254 | `len` raises iff the ISIN is truthy but not text; validation fails with messages iff neither `len` nor `float` raises and the ISIN is missing or malformed or some numeric field does not convert; success is always `valid` |
| Securities.OverflowVerdict | services/security_service.py:243-249 | unless `len` raises first, `float` raises iff some numeric field holds an integer too large for a double, and the error names the first such field |
| Securities.FirstOverflowSpec | services/security_service.py:243-249 | the field at which the numeric loop raises: none iff no field overflows, otherwise the first overflowing field in order, and the first overflowing field is the one found |
| Securities.AbsentNotNumeric | services/security_service.py:243-244 | an absent numeric field is never reported |
| Securities.NoNumericFields | services/security_service.py:237-249 | a record with none of the numeric fields passes the numeric checks |
| Securities.TestIsinWellFormed | tests/test_security_service.py:16-26 | the test ISIN `INE009A01021` is well formed |
| Securities.ValidRecordAccepted | tests/test_security_service.py:16-26 | the valid test record is accepted, whatever text counts as numeric |
| Securities.MissingIsinRejected | tests/test_security_service.py:28-36 | the record without an ISIN fails, first with the required-field message |
| Securities.BadIsinRejected | tests/test_security_service.py:38-46 | the ten-character ISIN fails with the format message |
| Securities.BadNumberRejected | tests/test_security_service.py:48-57 | a non-numeric share count fails validation |
| Securities.HugeBetaRaises | services/security_service.py:243-249 | a `beta` of 2^1024 - 2^970 makes `float` raise `OverflowError`, which escapes the validator as `TooLarge("beta")` |
| Securities.LargestBetaAccepted | services/security_service.py:243-254 | a `beta` one below that converts, and the record is valid |

## Left out

- **File system, network and storage.** The files, the HTTP session, the S3
  client and logging are replaced by parameters and event lists. This covers
  reading the Prowess JSON file, JSON parsing, `save_zip` and `extractall`,
  the directory listing, and the contents of `abbreviations.json` and its
  backup copy.
- **Pauses.** `time.sleep` is the `Sleep` event in the poll loop, and the ghost
  `sleeps` counter in the abbreviation cache.
- **The language model** is a fixed function of the abbreviation, so asking
  twice gives the same answer. The prompt text and the model configuration are
  not modelled.
- **Number parsing.** `float(text)` is the `numericText` parameter, because
  Python's float syntax is not modelled. Booleans always convert, and so do
  integers of magnitude below 2^1024 - 2^970; larger integers make `float`
  raise `OverflowError` (`TooLarge`). Non-integer JSON numbers are not
  modelled: every number in a record is an integer.
- **The repository and database** are parameters. `upsert_security` only
  passes the record to the repository and re-raises, so its refusal reason is
  the parameter's `Rejected` cause. `SecurityService.__init__` and the
  repository's SQL are not part of this model. The reply to an upsert depends
  only on the record, so the model cannot express a refusal caused by an
  earlier upsert in the same run, such as a uniqueness conflict.
- **Types beyond text, numbers, booleans and `None`.** JSON values are only
  these types, so nested lists and objects in a cell are not modelled. A
  `.strip()` or `.split()` on a non-text value is the `NotText` error, and
  `len` on a non-text ISIN is `NotSized`. The search de-duplication compares
  ISINs as model values, while a Python set treats `True`, `1` and `1.0` as one
  key, so two records whose ISINs differ only that way are both kept here.
- **Text.** Strings are sequences of characters with ASCII whitespace and ASCII
  case folding. Unicode whitespace and case rules are not modelled.
- **Program entry.** Command-line entry, `main()`, and the rest of the script
  are not part of this model.
- **Process crashes** and the exception wrapping in `fetch_data`, which
  re-raises every failure with a message, are not modelled. Each failure is the
  matching `FetchError`, and the message text is left out.
- **Error message text.** The upsert error string `Failed to upsert <isin>:
  <reason>` is the pair (ISIN, reason) in `UpsertFailure`.
- Abbreviations.AbbreviationService.ResolveAll: the new keys are added in
  Python's set iteration order, which is not modelled. The contract fixes only
  that they come after the old keys, which keep their positions. The same holds
  for ExpandAbbreviationsInNames and ProcessProwessData.
- Transform.DuplicatedColumns: states only the case where the source column is
  present. For an absent column, the second copy holds `None` (SecondCopy) and
  the first copy is absent.
- Securities.GetAllSecurities: negative `limit` and `offset` are passed through
  to the repository unchanged. Only `HasMoreMeansNextPage` assumes a repository
  that pages through one table.
- Abbreviations.AbbreviationService.MatchCompanyNames: the contract states the
  empty-name and equal-normalisation cases. The containment cases are shown on
  the test names (MatchingExample, CanonicalFormsDiffer) rather than for all
  names.
