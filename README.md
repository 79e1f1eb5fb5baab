# Joy of Painting ETL: the transform stage in Dafny

This project models the transform stage of the batch job `backend/etl/run_etl.py`. The job merges three
hand-collected sources about the episodes of *The Joy of Painting*:

- an episode listing in free text;
- a colour table with one row per episode;
- a subject table with one flag column per subject.

It produces de-duplicated tables: episodes, colours, subjects, and the episode-colour and
episode-subject edges.

The model covers four pieces, in pipeline order.

- **`parse_date`** (module `Dates`). It cuts the text at its first `)`. It then tries the formats
  `"%B %d, %Y"`, `"%d %B %Y"`, `"%b %d, %Y"` and `"%d %b %Y"` in that order, and the first one that
  accepts gives the date. Each format is modelled the way `strptime` reads it in the C locale:
  - month names are matched regardless of case;
  - a space stands for one or more white-space characters;
  - `%d` is one or two ASCII digits (or a space and a digit);
  - `%Y` is exactly four ASCII digits at the end;
  - the fields must name a real calendar day.

  `ParseDate` returns the date itself. `IsoText` is the `strftime("%Y-%m-%d")` rendering.
- **`get_episode_data`** (module `Listing`). Each stripped line is matched against
  `^"(title.+?)"\s+\((date.+?)\)(?:\s+-\s+(notes.+))?$`. The matcher is written by hand. It is
  proved to pick exactly the split a backtracking regular-expression engine picks: shortest title,
  then shortest date, greedy notes. Matching lines become records. A trailing `)` is dropped from the
  date before parsing, and the notes are `""` when the group is absent. `ReadListing` is the loop.
- **The ordinal indexer** (module `Indexer`). Entry *i* of the listing, counting from 1, gets
  season `(i-1)/13+1` and episode `(i-1)%13+1`. `AssignSlots` sets these in place over an array.
- **The reconciliation loop** (modules `Reconcile`, `Registry` and `TransformFacts`).
  - The colour table is walked in row order, and the episode id is the 1-based row position.
  - A row without a listing entry for its (season, episode) is skipped.
  - A joined row emits an episode record, with `extra_info` taken from the fixed override table.
  - The row's colours are zipped and stripped, then de-duplicated by hex code into a first-seen
    dictionary with dense ids.
  - The first subject row whose code contains `S{season:02d}E{episode:02d}`, or whose title equals
    the listing title, gives the subject columns equal to 1. Their names are normalised
    (`strip`, `_` to space, `title`) and de-duplicated the same way.
  - Every sighting adds an edge to a set.
  - A joined row with no matching subject row makes the whole run fail, as `.iloc[0]` on an empty
    selection raises. `Fault` records which row failed.

`Reconcile.Reconcile` is the loop itself, with its `RecordColours` and `RecordSubjects` inner
loops. It is proved to compute the fold `Transform`. `TransformFacts` then describes `Transform`
without the loop. It says:
- which records are emitted, and from which listing entry;
- when the run fails, and on which row;
- what the two dictionaries and the two edge sets hold.

The dictionary layer (`Registry`) is generic in the key and the payload. Colours use the hex code
as key and the name as payload; subjects use the normalised name as key and no payload.

The code does not check that a row's colour-name and hex-code lists have the same length. `zip`
silently drops the extras (`run_etl.py:244`), and `ColourPairs` likewise pairs the first
`min(len names, len hexes)` entries.

Module `Pipeline` composes the stages as `run_etl` runs them. `TransformStage` reads the listing,
copies it into an array that `AssignSlots` indexes in place, and hands it to `Reconcile`.

## Model

| member | source | states |
|---|---|---|
| Text.Strip | backend/etl/run_etl.py:245-246 | `str.strip()`: the result neither starts nor ends with white space, and it is a contiguous piece of the input surrounded only by white space |
| Text.StripUnchanged | backend/etl/run_etl.py:245-246 | text that neither starts nor ends with white space is its own strip, so stripping twice changes nothing |
| Text.ReplaceChar | backend/etl/run_etl.py:255 | `replace('_', ' ')`: same length; each character equal to `from` becomes `to`, and every other character is kept |
| Text.TitleAt | backend/etl/run_etl.py:255 | `str.title()` on ASCII: character *i* is upper-cased unless the character before it is a letter, in which case it is lower-cased |
| Text.TitleKeepsShape | backend/etl/run_etl.py:255 | title-casing changes only the case of letters: letters stay letters, other characters are kept, and the lower-case form is unchanged |
| Text.TitleIdempotent | backend/etl/run_etl.py:255 | title-casing twice gives the same text as title-casing once |
| Text.Contains | backend/etl/run_etl.py:252 | `str.contains` on a plain pattern holds exactly when the pattern occurs at some index |
| Text.Pad2 | backend/etl/run_etl.py:252 | `{:02d}`: at least two characters; exactly the two digits of `n` for 0..99; a leading `-` exactly for negatives |
| Text.DecimalValue | backend/etl/run_etl.py:252 | the plain numeral of `n` spells `n` and has no leading zero |
| Text.Pad2Spells | backend/etl/run_etl.py:252 | `{:02d}` for every integer: after the sign of a negative, digits spelling the absolute value, with no leading zero except the padding of 0..9 (3 gives `03`, 100 gives `100`, -5 gives `-5`) |
| Dates.CutAtParen | backend/etl/run_etl.py:113 | `split(')')[0]`: a prefix of the input with no `)`, ending at the first `)` or at the end |
| Dates.CutAtParenPrefix | backend/etl/run_etl.py:113 | the cut of `a + ")" + b` is `a` when `a` has no `)` |
| Dates.TryFormat | backend/etl/run_etl.py:122 | `strptime` only ever yields a real calendar date |
| Dates.FirstSuccessValid | backend/etl/run_etl.py:120-125 | the ordered fallback over any list of formats only yields real calendar dates |
| Dates.MonthNumber | backend/etl/run_etl.py:114-119 | a month name is found, ignoring case, exactly when its lower-case form is in the list, and the number given is its position |
| Dates.ReadDay | backend/etl/run_etl.py:114-119 | `%d` reads a day in 1..31 and leaves a proper suffix of the text |
| Dates.ReadYear | backend/etl/run_etl.py:114-119 | `%Y` at the end accepts exactly four digits, giving a year in 0..9999 |
| Dates.ReadDayPadded | backend/etl/run_etl.py:114-119 | `%d` also reads the zero-padded (`03`) and space-padded (` 3`) days 1..9 as that day, leaving exactly the rest |
| Dates.ReadDaySpells | backend/etl/run_etl.py:114-119 | every text `%d` accepts is the day it reads, written plainly or padded with `0` or a space, followed by the rest it leaves |
| Dates.ReadYearSpells | backend/etl/run_etl.py:114-119 | every text `%Y` accepts is the year it reads, written with four digits |
| Dates.ParseDate | backend/etl/run_etl.py:108-127 | a parsed result is always a real calendar date |
| Dates.FirstSuccessIsFirstAccepting | backend/etl/run_etl.py:120-125 | the ordered fallback fails exactly when every format fails; otherwise it returns the result of the first format that accepts |
| Dates.ParseDateFirstAccepting | backend/etl/run_etl.py:113-127 | `parse_date` is `None` exactly when none of the four formats accepts the text before the first `)`; otherwise it is the first accepting format's date |
| Dates.ParseDateIgnoresAfterParen | backend/etl/run_etl.py:113 | whatever follows the first `)` never changes the result |
| Dates.MonthNamesShape | backend/etl/run_etl.py:114-119 | both month-name lists hold twelve distinct lower-case words of at least three letters |
| Dates.MonthNameShape | backend/etl/run_etl.py:114-119 | each full month name starts with that month's abbreviation |
| Dates.AbbreviationsDistinct | backend/etl/run_etl.py:117-118 | no two months share an abbreviation |
| Dates.AbbreviationAmongFullNames | backend/etl/run_etl.py:114-119 | the only abbreviated month name that is also a full name is May's |
| Dates.MonthNumberOfName | backend/etl/run_etl.py:122 | the printed name of month *m* is read back as month *m* |
| Dates.MatchFieldsOfRendered | backend/etl/run_etl.py:115-118 | the layout of a format reads back the printed month name, the day and the year of a date written in that format |
| Dates.RenderedStart | backend/etl/run_etl.py:115-118 | a date written month-first starts with a letter, and one written day-first starts with a digit |
| Dates.LetterStartIsNotDayFirst | backend/etl/run_etl.py:116 | a text starting with a letter never fits a day-first format |
| Dates.DigitStartIsNotMonthFirst | backend/etl/run_etl.py:115 | a text starting with a digit never fits a month-first format |
| Dates.OtherStyleMonth | backend/etl/run_etl.py:114-119 | a month name printed in one style is read by the other style either as the same month or not at all |
| Dates.RenderRoundTrip | backend/etl/run_etl.py:122 | each format reads back exactly the date it writes |
| Dates.OtherFormatAgrees | backend/etl/run_etl.py:120-125 | no format reads a different date out of a date written in another format |
| Dates.RenderHasNoParen | backend/etl/run_etl.py:113 | a written date holds no `)`, so the cut leaves it whole |
| Dates.ParseDateOfRendered | backend/etl/run_etl.py:108-127 | a date written in any of the four formats is parsed back as that date, so the ISO text does not depend on the format |
| Dates.IsoText | backend/etl/run_etl.py:123 | `%Y-%m-%d` has ten characters with dashes at 4 and 7 (the year zero-padded to four digits), and reading its three fields back gives the date |
| Dates.IsoTextInjective | backend/etl/run_etl.py:123 | distinct dates give distinct ISO texts, so storing the text instead of the date loses nothing |
| Listing.TailNotesMatches | backend/etl/run_etl.py:137 | the tail reader accepts exactly the texts the optional `\s+-\s+(notes)` group and `$` accept; it reports no notes exactly on the empty tail, and reads the notes greedily |
| Listing.DateOpeningIsOpens | backend/etl/run_etl.py:137 | after the title's closing quote, the date opens exactly where `\s+\(` lets it open |
| Listing.DateSearchSound | backend/etl/run_etl.py:137 | every `)` the date search stops at closes a date that the rest of the pattern accepts |
| Listing.DateSearchLeast | backend/etl/run_etl.py:137 | the date search stops no later than any `)` that ends a match (lazy `.+?`) |
| Listing.CloseTitleSound | backend/etl/run_etl.py:137 | closing the title at a quote finds a date opening and closing that fit the pattern |
| Listing.CloseTitleLeast | backend/etl/run_etl.py:137 | closing the title at a quote finds the date opening of every match, and the first `)` that closes it |
| Listing.TitleSearchSound | backend/etl/run_etl.py:137 | every split the title search returns is a match of the whole pattern |
| Listing.TitleSearchLeast | backend/etl/run_etl.py:137 | the title search returns a split no later than any match (lazy title first, then lazy date) |
| Listing.MatchLineIsLeftmost | backend/etl/run_etl.py:137-140 | on a stripped line the matcher fails exactly when the pattern cannot match; otherwise it returns the groups of the leftmost split: shortest title, shortest date for that title, greedy notes, and absent notes exactly when nothing follows the date |
| Listing.StrippedLineQualifies | backend/etl/run_etl.py:140 | the matcher is only ever given text that does not end in white space |
| Listing.DropClosingParen | backend/etl/run_etl.py:143-144 | a trailing `)` is removed, and any other date text is kept as it is |
| Listing.EntryOf | backend/etl/run_etl.py:146-150 | a record's title is the title group, its date is `parse_date` of the date group with one trailing `)` dropped, and its notes are `""` exactly when the group is absent or empty |
| Listing.ReadListing | backend/etl/run_etl.py:139-151 | the loop returns `ListingOf(lines)`: one record per matching stripped line, in order |
| Listing.ListingOfAppend | backend/etl/run_etl.py:139-151 | the records of two runs of lines are the records of the first followed by those of the second |
| Listing.ListingOfOneLine | backend/etl/run_etl.py:140-150 | a non-matching line yields no record; a matching line yields exactly its record |
| Listing.NotesEmptyIffAbsent | backend/etl/run_etl.py:149 | on a read line the notes are `""` exactly when the notes group is absent (a present group is never empty) |
| Listing.DropClosingParenRedundant | backend/etl/run_etl.py:143-148 | dropping a trailing `)` never changes the parsed date |
| Indexer.SlotAtIsAssignable | backend/etl/run_etl.py:193-195 | position *i* ≥ 1 gets season ≥ 1 and episode in 1..13, with (season-1)*13 + episode = *i* |
| Indexer.SlotAtOrdinal | backend/etl/run_etl.py:193-195 | every pair with season ≥ 1 and episode in 1..13 is given to exactly its own position |
| Indexer.SlotAtInjective | backend/etl/run_etl.py:193-195 | two positions never get the same pair |
| Indexer.AssignSlots | backend/etl/run_etl.py:193-195 | entry *i* gets the pair of position *i*+1 and nothing else in any entry changes |
| Reconcile.FindEntryFirst | backend/etl/run_etl.py:222 | the `next(...)` lookup returns the first listing entry carrying the pair |
| Reconcile.FindEntrySome | backend/etl/run_etl.py:222 | a successful lookup returns some listing entry that is the first one carrying the pair |
| Reconcile.FindEntryNone | backend/etl/run_etl.py:222-226 | the lookup is empty exactly when no listing entry carries the pair |
| Reconcile.IndexedJoin | backend/etl/run_etl.py:222 | on an indexed listing, the pair finds the entry at position (season-1)*13 + episode when the indexer can give that pair and the listing is long enough, and nothing otherwise |
| Reconcile.EpisodeCode | backend/etl/run_etl.py:252 | for season and episode in 0..99 the code is `S`, two digits, `E`, two digits |
| Reconcile.EpisodeCodeFields | backend/etl/run_etl.py:252 | for every season and episode the code is `S`, the padded season, `E`, the padded episode (`S100E01` for season 100, episode 1) |
| Reconcile.FindSubjectRowFirst | backend/etl/run_etl.py:252 | the selection's `.iloc[0]` is the first subject row, in file order, whose code contains the episode code or whose title is the listing title |
| Reconcile.FindSubjectRowNone | backend/etl/run_etl.py:252 | the selection is empty exactly when no subject row matches |
| Reconcile.ColourPairs | backend/etl/run_etl.py:244-246 | `zip` keeps `min(len names, len hexes)` pairs, and pair *j* is the stripped hex and stripped name at *j* |
| Reconcile.NormaliseSubjectShape | backend/etl/run_etl.py:255 | a normalised name is as long as the stripped column, holds no `_`, and is already in title case |
| Reconcile.NormaliseUnpadded | backend/etl/run_etl.py:255 | a column without surrounding white space is normalised character by character: `_` becomes a space, and each letter is upper-cased after a non-letter and lower-cased after a letter |
| Reconcile.NormaliseSubjectCapitals | backend/etl/run_etl.py:255 | `OCEAN` becomes `Ocean` |
| Reconcile.ProcessRowFails | backend/etl/run_etl.py:222-252 | one pass fails exactly when its row joins the listing but no subject row matches |
| Reconcile.TransformErrPersists | backend/etl/run_etl.py:252 | once the run fails, further rows do not change the outcome |
| Reconcile.RecordColours | backend/etl/run_etl.py:244-250 | the colour loop of one row leaves the dictionary and the edges exactly as `Link` over the row's zipped pairs says |
| Reconcile.RecordSubjects | backend/etl/run_etl.py:253-259 | the subject loop of one row leaves the dictionary and the edges exactly as `Link` over the normalised names of the columns equal to 1 says |
| Reconcile.Reconcile | backend/etl/run_etl.py:217-259 | the loop returns exactly `Transform` of its inputs |
| Pipeline.WithSlots | backend/etl/run_etl.py:193-195 | the listing after the indexer is indexed and keeps every record's title, air date and notes |
| Pipeline.TransformStage | backend/etl/run_etl.py:189-259 | reading the listing, indexing it in place and running the loop gives `Transform` of the indexed listing of the lines |
| Pipeline.JoinsOrdinalLine | backend/etl/run_etl.py:193-222 | a colour row for (season, episode) joins the record of the ((season-1)*13 + episode)-th matching listing line, and nothing when there is no such line or the pair is out of range |
| Registry.RegisterKeepsDense | backend/etl/run_etl.py:247-248 | storing a key keeps the ids exactly 1..n and keeps every existing entry; a new key gets id `len + 1` and its payload |
| Registry.RegisterAllAppend | backend/etl/run_etl.py:247-248 | registering two runs of sightings is registering the first and then the second |
| Registry.RegisterAllDense | backend/etl/run_etl.py:247-248 | from an empty dictionary, the keys stored are exactly the keys sighted, with ids exactly 1..n |
| Registry.RegisterAllFirstPayloads | backend/etl/run_etl.py:247-248 | each stored payload is the one from the key's first sighting; later payloads are ignored |
| Registry.RegisterAllFirstSeenOrder | backend/etl/run_etl.py:247-248 | a key first sighted earlier has the smaller id |
| Registry.RegisterAllGrows | backend/etl/run_etl.py:247-248 | registering adds the sighted keys and never drops or changes a stored entry |
| Registry.LinkRegistersAll | backend/etl/run_etl.py:244-250 | the inner loop over one episode's sightings registers them in order and adds exactly one edge per sighting, from the episode to the key's stored id |
| Registry.LinkAllRegistersAll | backend/etl/run_etl.py:217-250 | running the inner loop batch after batch gives the dictionary of all the sightings registered in order, and exactly every batch's edges against that dictionary |
| Registry.BatchEdgesStable | backend/etl/run_etl.py:250 | the edges depend only on the stored ids of the keys sighted |
| Registry.RowEdgesStable | backend/etl/run_etl.py:250 | one episode's edges depend only on the stored ids of the keys it sights |
| Registry.BatchEdgesExactly | backend/etl/run_etl.py:250 | every edge starts at a batch's episode id and ends at a stored id, and every sighting of a stored key yields its edge |
| Registry.RunEdges | backend/etl/run_etl.py:250 | for the dictionary a whole run builds, every sighted key is stored, and its edge is present |
| TransformFacts.SkippedRowChangesNothing | backend/etl/run_etl.py:222-226 | a row with no listing entry adds no record, no colour, no subject and no edge |
| TransformFacts.TransformFaultless | backend/etl/run_etl.py:217-259 | when every joined row finds its subject row, the run succeeds with the records of the joined rows and the dictionaries and edges of their sightings |
| TransformFacts.UnmatchedFails | backend/etl/run_etl.py:252 | one joined row without a subject row makes the whole run fail |
| TransformFacts.TransformOkIffFaultless | backend/etl/run_etl.py:252 | the run succeeds exactly when every joined row finds its subject row |
| TransformFacts.TransformFirstFault | backend/etl/run_etl.py:252 | the run fails on its first failing row, reporting that row's id, season and episode |
| TransformFacts.TransformErrFirstFault | backend/etl/run_etl.py:252 | a failing run's error names its first failing row |
| TransformFacts.EmittedRecords | backend/etl/run_etl.py:217-240 | each emitted record comes from a joined row, has that row's 1-based position as its id, and is built from that row; ids strictly increase, so none repeats |
| TransformFacts.EmittedComplete | backend/etl/run_etl.py:222-240 | every joined row is emitted |
| TransformFacts.EmittedFromFirstEntry | backend/etl/run_etl.py:222-238 | a record takes its title and air date from the first listing entry carrying its pair, and its `extra_info` from the override table (`None` when the id is not there) |
| TransformFacts.ColourBatchesOfEmitted | backend/etl/run_etl.py:240-246 | there is one colour batch per record, carrying the record's id and its row's zipped pairs |
| TransformFacts.SubjectBatchesOfEmitted | backend/etl/run_etl.py:252-259 | when no row fails, there is one subject batch per record, carrying the record's id |
| TransformFacts.TransformTables | backend/etl/run_etl.py:217-259 | a successful run's records are the emitted ones; each dictionary is its sightings registered in order; each edge set is every record's edges to the stored ids of its sightings |
| TransformFacts.TransformDictionaries | backend/etl/run_etl.py:244-259 | both dictionaries of a successful run hold exactly the keys sighted, with ids 1..n in first-seen order; a colour keeps the name of its first sighting |
| TransformFacts.ColourEdgesIntegrity | backend/etl/run_etl.py:250 | every colour edge joins an emitted id to a stored colour id, and every colour a record's row sights is stored and linked to that record |
| TransformFacts.SubjectEdgesIntegrity | backend/etl/run_etl.py:259 | when no row fails, every subject edge joins an emitted id to a stored subject id, and every subject a record's subject row names is stored and linked to that record |

## Left out

- The database: schema creation, connection retries and the load phase (`run_etl.py:24-106`, `:271-326`). These are I/O against MySQL.
- Writing the clean CSV files and `os.makedirs` (`:264-269`, `:183`). These are file I/O.
- Reading the listing file: `ReadListing` takes the lines that `readlines()` returns.
- `pd.read_csv` and `ast.literal_eval`. The colour and subject rows are given already parsed. The name and hex lists are sequences, and the subject columns after the first two are (name, value) pairs with integer values. Missing or non-integer cells are not modelled.
- The `TITLE` cleaning in `get_subject_data` (`:165`): subject titles are given already cleaned.
- The DataFrame index: the row id is the 1-based position, which is what `iterrows()` gives for the default index that `read_csv` builds.
- `json.dumps` of `extra_info`: the model keeps the override entry as an `Annotation` value rather than its JSON text.
- The progress and warning `print` calls: they have no effect on the data.
- Case mapping: `str.title`, `strptime`'s case-insensitive month names and the `{:02d}` format are modelled on ASCII. Non-ASCII letters are treated as non-letters.
- Digits in `%d` and `%Y`: Python's `strptime` accepts any Unicode decimal digit there (its pattern is compiled without `re.ASCII`), and the model accepts ASCII digits only.
- Locales: `strptime` is modelled in the C locale only. Other locales' month names are not modelled.
- The regular-expression engine: the listing pattern is matched by a hand-written matcher. It is proved equal to the leftmost match only on lines that do not end in white space, which is all the reader ever gives it.
- `str.contains`: modelled as plain substring search. The episode code holds no regular-expression metacharacters, and missing (`NaN`) codes are not modelled.
- The year in `strftime` for years below 1000 depends on the interpreter. Recent CPython releases write it zero-padded to four digits on every platform, and the model does the same. Older releases on glibc write it without padding, which the model does not follow.
- The tables after a failure: the model returns `Err` and says nothing about the partly built tables, because the exception ends the run before anything is written.
- The order of the edge lists: `list(set)` (`:261-262`) has no defined order, so the model keeps the edges as sets.
