# Miriam pickup lines: the quote-rotation store, in Dafny

This project models the core of a command-line tool that shows a random quote from a fixed corpus and does not repeat a quote until the pool is used up.

**The quote-rotation store** is `MiriamDatabase` (`database.dfy`, module `Database`). It is a class whose field `rows: seq<Row>` stands for the SQLite table `quotes`. Its rows are kept in insertion order; SQLite scans them in id order, which the model does not track. Each SQL statement is a method whose loop walks the rows:

- the seeding INSERT loop (`Populate`);
- the filtered SELECT (`Query`);
- `get_unused_quote`, with its automatic reset and retry (`GetUnusedQuote`);
- the increment UPDATE (`MarkAsUsed`);
- the blanket UPDATE (`ResetUsage`);
- the COUNT and GROUP BY queries (`GetStats`).

Each method is proved against functions on `seq<Row>`: `SeedRows`, `Candidates`, `Marked`, `Cleared`, `UsedRows` and `CategoryCounts`. Lemmas about those functions carry the store's promises:

- no quote repeats until a reset happens;
- after a reset, the SELECT finds exactly the rows the filter admits;
- the per-category counts add up to the total.

The corpus is an input sequence of `Record`s. Each field is an `Option`, because a key may be missing from a JSON object. `last_used` holds a clock reading that the caller passes in (`Stamp`). `random.choice` becomes a nondeterministic choice (`:|`) among the candidates.

**The presentation derivations** are in `presentation.dfy` (module `Presentation`):

- the number of flames;
- the burn-level tier and its message;
- whether the setup is shown;
- how a long punchline is split into parts and revealed with pauses between them;
- the per-character pause multiplier of the typewriter effect, counted in units of the base delay.

**Python's string operations** that both modules rely on are in `text.dfy` (module `Text`): `sep in s` and `str.split(sep)` (presentation.py:70-71), both built on the substring search `IndexOf`; `sep.join` (the stored tag list); and `str.strip` (the setup test). Their round trips are proved there.

**Behaviour of the code worth knowing:**

- An unknown id passed to `mark_as_used` raises nothing (database.py:104-111). The UPDATE matches no row and the table is unchanged.
- A malformed corpus fails with the errors the code raises, not with a dedicated seeding error:
  - a missing key raises `KeyError` (`MissingKey`, which names the first absent key in the order the INSERT parameters are evaluated);
  - a repeated id breaks the PRIMARY KEY (`DuplicateId`).
  
  Either way the open transaction is rolled back, so the table stays empty.
- `max_difficulty` is any 64-bit integer. Only the command line limits it to 1..10.

## Model

| member | source | states |
|---|---|---|
| `Database.FirstMissingKey` | src/miriam_pickup_lines/database.py:61-66 | No key is reported exactly when the record has `id`, `category`, `type` and `punchline`. Otherwise the reported key is the first absent one in that order: `id` exactly when `id` is absent, `category` exactly when `id` is present and `category` absent, and so on. |
| `Database.ToRow` | src/miriam_pickup_lines/database.py:61-70 | The stored row takes the required fields from the record. `setup` and `source` default to `""` and the difficulty to 5. Absent tags are stored as `""`. The row starts with `used_count = 0` and `last_used` NULL. |
| `Database.TagsRoundTrip` | src/miriam_pickup_lines/database.py:69 | Splitting the stored tag column on commas gives back a non-empty tag list, provided no tag contains a comma. |
| `Database.SeedRows` | src/miriam_pickup_lines/database.py:54-71 | A well-formed corpus seeds one row per record, in corpus order. Row k is the stored form of record k, and the ids are unique. |
| `Database.MiriamDatabase.constructor` | src/miriam_pickup_lines/database.py:25-43 | `CREATE TABLE IF NOT EXISTS` keeps the table a previous run left behind. |
| `Database.MiriamDatabase.Populate` | src/miriam_pickup_lines/database.py:45-72 | A non-empty table is left unchanged. An empty table either receives exactly the seeded rows of the corpus or, when the corpus is not well formed, stays empty. Seeding succeeds exactly when the corpus is well formed (values outside 64 bits are not modelled; see "## Left out"). A failure names the first record that breaks the INSERT. |
| `Database.SeedTwice` | src/miriam_pickup_lines/database.py:49-52 | Seeding a fresh table twice leaves exactly one row per record, or none when the corpus is bad. |
| `Database.MiriamDatabase.Query` | src/miriam_pickup_lines/database.py:80-91 | The SELECT returns the table's rows that have `used_count = 0`, pass the category filter when one is given, and have difficulty at most the maximum, in the order the model keeps the rows. |
| `Database.CandidatesMembers` | src/miriam_pickup_lines/database.py:80-91 | A row is in the SELECT's result if and only if it is in the table and meets all three conditions. |
| `Database.MiriamDatabase.GetUnusedQuote` | src/miriam_pickup_lines/database.py:74-99 | The table is unchanged when a candidate exists. Otherwise every row is reset, not only the filtered ones. A returned quote is an unused, admitted row of the resulting table, and a row of the original table when no reset happened. The result is None exactly when no row at all passes the category and difficulty filter. `None` and `""` mean no category filter. |
| `Database.ClearedCandidates` | src/miriam_pickup_lines/database.py:93-97 | After the automatic reset, the retried SELECT is empty exactly when the filter admits no row. |
| `Database.MiriamDatabase.MarkAsUsed` | src/miriam_pickup_lines/database.py:101-112 | Each row with the given id gains exactly one use and the new stamp, and keeps its quote. Every other row is unchanged, and an unknown id changes nothing. Because ids are unique, at most one row changes. |
| `Database.MarkedStaysUsed` | src/miriam_pickup_lines/database.py:104-111 | Marks never move rows or change ids. Any row whose id was marked has a non-zero usage count afterwards. |
| `Database.NoRepeatUntilReset` | src/miriam_pickup_lines/database.py:80-111 | After any sequence of marks with no reset in between, no marked id is among the SELECT's candidates. |
| `Database.MiriamDatabase.ResetUsage` | src/miriam_pickup_lines/database.py:114-118 | Every row keeps its quote and gets `used_count = 0` and `last_used` NULL. No row is added or removed. |
| `Database.ClearedIdempotent` | src/miriam_pickup_lines/database.py:117 | Resetting twice is the same as resetting once. |
| `Database.ClearedUnused` | src/miriam_pickup_lines/database.py:117-129 | After a reset, no row counts as used. |
| `Database.UsedRows` | src/miriam_pickup_lines/database.py:128-129 | The used count never exceeds the total. It is zero exactly when every row has `used_count = 0`. |
| `Database.CategoryCountsMeaning` | src/miriam_pickup_lines/database.py:131-132 | `by_category` has a key for a category exactly when some row has that category. The key maps to that category's row count, which is positive. |
| `Database.CategoryCountsTotal` | src/miriam_pickup_lines/database.py:131-132 | The `by_category` values sum to the number of rows. |
| `Database.MiriamDatabase.GetStats` | src/miriam_pickup_lines/database.py:120-139 | `total` is the row count and `used` counts the rows with `used_count > 0`, so `used <= total`. `unused = total - used`, which is never negative. `by_category` is the per-category count and sums to `total`. |
| `Database.SoleAdmitted` | src/miriam_pickup_lines/database.py:80-91 | When the filter admits a single row, that row is the only possible candidate. If that row is used, there is no candidate at all. |
| `Database.ExhaustionScenario` | src/miriam_pickup_lines/database.py:80-111 | The store holds quotes of difficulty 3, 7 and 10 in categories A, A and B. Asking for B returns quote 3. After quote 3 is marked used, asking again resets the pool, returns quote 3 unused, and leaves no used row. |
| `Text.IndexOf` | src/miriam_pickup_lines/presentation.py:70 | The result is the first index where the separator occurs, or -1 when it does not occur. It is non-negative exactly when `sep in s`. |
| `Text.Split` | src/miriam_pickup_lines/presentation.py:71 | `str.split(sep)` gives at least one part, and no part contains the separator. It gives more than one part exactly when the string contains the separator. |
| `Text.JoinSplit` | src/miriam_pickup_lines/presentation.py:71-75 | Splitting on a separator and joining with it gives back the string. |
| `Text.SplitJoinChar` | src/miriam_pickup_lines/database.py:69 | Joining a non-empty list on a one-character separator that no element contains, then splitting on that separator, gives back the list. |
| `Text.StripLeading` | src/miriam_pickup_lines/presentation.py:52 | The result is a suffix of the input. It drops only whitespace and does not start with whitespace. |
| `Text.StripTrailing` | src/miriam_pickup_lines/presentation.py:52 | The result is a prefix of the input. It drops only whitespace and does not end with whitespace. |
| `Text.StripEmpty` | src/miriam_pickup_lines/presentation.py:52 | `s.strip()` is empty exactly when every character of `s` is whitespace. |
| `Presentation.FlameCount` | src/miriam_pickup_lines/presentation.py:43 | There are at most 5 flames, and exactly 5 when the difficulty is at least 10. For difficulties 0..9 the count is the floor of half the difficulty. There are none below 2. |
| `Presentation.FlameCountMonotone` | src/miriam_pickup_lines/presentation.py:43 | A higher difficulty never shows fewer flames. |
| `Presentation.BurnTier` | src/miriam_pickup_lines/presentation.py:86-93 | 9 and above gives CAREERS ENDED, 7–8 SAVAGE, 5–6 SHARP, and below 5 SWEET. Each difficulty falls in exactly one band. |
| `Presentation.BurnTierMonotone` | src/miriam_pickup_lines/presentation.py:86-93 | A higher difficulty never yields a lower tier. |
| `Presentation.BurnMessageDistinct` | src/miriam_pickup_lines/presentation.py:86-93 | The four burn messages are pairwise distinct, so the message typed identifies the tier. |
| `Presentation.SetupShown` | src/miriam_pickup_lines/presentation.py:52 | The setup is shown exactly when it has a character that is not whitespace. |
| `Presentation.PunchlineParts` | src/miriam_pickup_lines/presentation.py:69-79 | The punchline is split exactly when it is longer than 80 characters and contains `". "`. Otherwise it is one part. When split, the first part holds no `". "`, and each later part is `". "` followed by text without `". "`. |
| `Presentation.ConcatPrefixed` | src/miriam_pickup_lines/presentation.py:71-75 | Concatenating the first chunk with the prefixed later chunks equals joining all the chunks on `". "`. |
| `Presentation.PartsRoundTrip` | src/miriam_pickup_lines/presentation.py:69-79 | The displayed parts concatenate to the original punchline. |
| `Presentation.RevealPunchline` | src/miriam_pickup_lines/presentation.py:69-79 | The parts are typed in order and together reproduce the punchline. The script has `2 * len(parts) - 1` beats, alternating part, pause, part, and so on. It starts and ends with a part, so there are exactly `len(parts) - 1` pauses, one between each two consecutive parts. |
| `Presentation.RevealParts` | src/miriam_pickup_lines/presentation.py:72-77 | The loop types every part in order with one pause between consecutive parts, giving the alternating script of `2 * len(parts) - 1` beats. |
| `Presentation.AlternatesNoDoublePause` | src/miriam_pickup_lines/presentation.py:76-77 | In the alternating script every pause is followed by a part. |
| `Presentation.PauseUnits` | src/miriam_pickup_lines/presentation.py:18-21 | The pause after a character is 10 units if the character is one of `,.?!` and 1 unit otherwise. |
| `Presentation.TypingDelay` | src/miriam_pickup_lines/presentation.py:14-22 | Typing a text sleeps its length plus 9 units for each pause character. That is between 1 and 10 units per character. |
| `Presentation.SplitKeepsPacing` | src/miriam_pickup_lines/presentation.py:69-79 | Splitting a punchline into parts does not change how many pause characters are typed. |

## Left out

- Populate, GetUnusedQuote, MarkAsUsed: SQLite stores INTEGER values in 64 bits, and Python's `sqlite3` raises `OverflowError` when an id, a difficulty or `max_difficulty` outside [-2^63, 2^63) is bound (database.py:55-71, 87-90, 104-110); the model's `int` is unbounded, so those calls seed, select or do nothing instead of raising.
- GetUnusedQuote: `random.choice` is uniform, but the model only promises that the result is some candidate.
- Reading the corpus from JSON files (`get_quotes`, the glob of `QUOTES_DIR`, database.py:19-20 and 141-150) is file I/O. The corpus is a parameter of `Populate`.
- `rows` keeps the corpus order. SQLite stores the table by its `id INTEGER PRIMARY KEY` (database.py:30) and scans it in id order. `random.choice` does not depend on that order.
- The constructor's choice of database path is a configuration concern. The persisted table is a parameter of the constructor, and `__init__` runs the constructor and then `Populate`.
- The SQLite connection and transaction plumbing is not modelled. The rollback on an exception is modelled: rows go into a pending list, which replaces the table only when the whole loop succeeds.
- The `created_at` column is not modelled. The value of `datetime.now()` is replaced by a caller-supplied `Stamp`.
- Corpus values are taken to be of the right type:
  - a JSON `null` or a wrongly typed value is not modelled;
  - SQLite's type affinity is not modelled;
  - a NULL `difficulty_level` is not modelled, because in SQL it never passes `<=`.
- Processes sharing the database file concurrently are not modelled. The code does not handle this case.
- The command-line layer (main.py) is not modelled: argument parsing, printing and exit codes. Its call to `present_miriam_wisdom` passes a `sound_enabled` argument the function does not accept (main.py:93). As written, that call fails before `mark_as_used` (main.py:96) is reached, so the model does not treat select, present and mark as a working path. `ExhaustionScenario` drives the store directly.
- The output of `present_miriam_wisdom` is terminal I/O and is not modelled:
  - printing, `input`, and the floating-point sleeps;
  - the loops of `typewriter_effect` and `dramatic_pause`;
  - the upper-cased category line and the source line.
  
  Only the derivations listed in the table are modelled.
- `str.strip` is modelled with Python's whitespace characters. Strings are sequences of Unicode code points, as Python's `len` counts them.
