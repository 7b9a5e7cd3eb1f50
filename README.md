# cofj core in Dafny

cofj is a personal coffee-tasting journal. This project models its core:

- the tasting record (`CoffeeEntry`) with its three closed attribute enums (processing method, roast, preparation) and their display names;
- the one business rule: a rating must lie in 1..=10, otherwise the exact message "Rating must be between 1 and 10, got N" is returned;
- the nine-line plaintext block an entry renders to, headed by a timestamp written as `%Y-%m-%d %H:%M:%S`;
- `save_entry_to_file`, which reads the journal file (a missing file counts as empty) and overwrites it with the new block, a separator `'\n'`, then the old text. The newest entry is always on top.

Modules:

- `Wrappers`: `Option` and `Result`.
- `Decimal`: how Rust's `Display` writes an unsigned integer, the zero-padded variant used for date fields, and a digit reader the renderings are checked against.
- `Text`: the journal read as lines, the way `str::lines` splits text without carriage returns.
- `DateTimeFormat`: an already-resolved local date-time, its rendering, and an independent reader for it.
- `Entry`: `src/entry.rs`.
- `Journal`: `src/lib.rs`.

The file system is the class `Journal.FileStore`:

- Its `files` map is the state the save reads and replaces.
- Which existing files cannot be read is fixed when the store is made.
- So is how a write to a path fails: either the file cannot be created, or only the first `room` characters are stored.

The save is a method with `modifies this`. Its postcondition gives the complete new store for every outcome except a part-way write, where it says only that the file holds a strict prefix of the intended text. Lemmas over `Journal.Stack` describe the journal built by a run of successful saves:

- each saved block is kept intact;
- newer blocks come before older ones;
- the original text stays at the end, unaltered;
- read line by line, the journal is each entry's nine labelled lines, newest first, each followed by one empty line.

Assembling the whole new text in memory before writing does not make a failed save harmless. `fs::write` (src/lib.rs:27) creates or truncates the file before writing, so a write that fails part-way leaves a truncated file. The model follows the code: a `WriteFailed` outcome leaves a strict prefix of the new text in the file. Only a failed read, or a failure to create the file, leaves the store unchanged.

## Model

| member | source | states |
|---|---|---|
| Entry.ProcessingName | src/entry.rs:127-136 | Every processing method has a non-empty, single-line display name ("Pulped Natural", "Anerobic Fermentation" with their spaces) |
| Entry.RoastName | src/entry.rs:138-146 | Every roast displays as a non-empty single line, its variant name |
| Entry.PreparationName | src/entry.rs:148-159 | Every preparation displays as a non-empty single line, its variant name |
| Entry.ProcessingNameInjective | src/entry.rs:129-134 | Two processing methods display alike if and only if they are the same variant |
| Entry.RoastNameInjective | src/entry.rs:140-144 | Two roasts display alike if and only if they are the same variant |
| Entry.PreparationNameInjective | src/entry.rs:150-157 | Two preparations display alike if and only if they are the same variant |
| Entry.ValidRating | src/entry.rs:56 | `(1..=10).contains(&rating)`: holds exactly for ratings 1 through 10. It is a predicate with no contract; `Entry.New` and `Entry.WithTimestamp` state the rule through it |
| Entry.RatingError | src/entry.rs:57 | The message is the fixed prefix followed by a non-empty, digits-only tail with no leading zero, whose value is the rejected rating |
| Entry.New | src/entry.rs:47-70 | Succeeds exactly when 1 <= rating <= 10. On success every field equals its argument and the timestamp is the clock reading passed in. On failure the error is the prefix followed by the rating in decimal |
| Entry.WithTimestamp | src/entry.rs:75-100 | The same rule, including the boundaries 1 and 10. On success every field, including the supplied timestamp, is the argument. On failure the error is the exact message |
| Entry.NewAgreesWithTimestamp | src/entry.rs:56-58 | Given the same instant, `new` and `with_timestamp` accept the same ratings and return identical results |
| Entry.RatingErrorExamples | src/entry.rs:190-219 | Ratings 0, 11 and 255 give "Rating must be between 1 and 10, got 0", "... got 11" and "... got 255" |
| Entry.ToPlaintext | src/entry.rs:103-123 | `to_plaintext`: the one `format!` written as a concatenation. It has no contract of its own; `Entry.PlaintextIsEntryLines`, `Entry.PlaintextEnds` and `Entry.PlaintextLines` state what it produces |
| Entry.PlaintextIsEntryLines | src/entry.rs:103-123 | The block is exactly the nine labelled lines (timestamp, Brand, Name, Origin, Processing, Roast, Preparation, "Rating: N/10", "---"), each ended by '\n' |
| Entry.PlaintextEnds | src/entry.rs:113-114 | The block begins with the formatted timestamp and a '\n', and ends with "---\n" |
| Entry.EntryLinesSingle | src/entry.rs:105-113 | When brand, name and origin hold no line break, none of the nine lines does |
| Entry.PlaintextLines | src/entry.rs:103-123 | For single-line free-text fields, reading the block line by line gives back exactly the nine labelled lines, so every field stays on its own labelled line |
| Entry.ExampleLines | src/entry.rs:247-270 | The lines of the record from the plaintext test are "2025-01-15 14:30:00", "Brand: Intelligentsia", ..., "Rating: 9/10", "---" |
| Entry.PlaintextExample | src/entry.rs:247-271 | That record renders to exactly those nine lines, each ended by '\n', so the block ends with "---\n" |
| Decimal.NatToString | src/entry.rs:121 | A rating is written as at least one digit, with a leading zero only for 0 itself |
| Decimal.NatToStringRoundTrip | src/entry.rs:57 | Reading back the decimal text of n gives n |
| Decimal.NatToStringInjective | src/entry.rs:57 | Distinct numbers have distinct decimal texts, so the message identifies the rejected rating |
| Decimal.ZeroPadRoundTrip | src/entry.rs:114 | A zero-padded field reads back as its value, and below 10^width it is exactly width digits |
| DateTimeFormat.FormatYear | src/entry.rs:114 | `%Y` is at least four characters on one line. For years 0..9999 it is exactly four digits denoting the year |
| DateTimeFormat.Format | src/entry.rs:114 | The timestamp rendering never contains a line break |
| DateTimeFormat.FormatParseRoundTrip | src/entry.rs:114 | For a four-digit year the rendering is 19 characters long, and the independent reader recovers every field |
| DateTimeFormat.FormatInjective | src/entry.rs:114 | Distinct well-formed date-times with four-digit years render to distinct timestamp lines |
| DateTimeFormat.FormatExample | src/entry.rs:247-263 | 2025-01-15 14:30:00 renders as "2025-01-15 14:30:00" |
| Text.LinesUnlines | src/entry.rs:105-113 | Single lines joined with '\n' terminators split back into exactly those lines |
| Text.LinesAroundBlank | src/lib.rs:26 | Text ending in '\n', then a '\n', then more text reads as the first text's lines, one empty line, then the rest's lines |
| Journal.FileStore.Exists | src/lib.rs:16 | `path.exists()`: the path is in the store. It is a function with no contract; the save's postcondition states both branches of the check |
| Journal.ExistingContent | src/lib.rs:16-23 | The existing content the save reads: the whole text of an existing file, or "" for a missing one |
| Journal.Prepend | src/lib.rs:26 | The new text is the block followed by '\n' as a prefix, with the old content intact as the suffix, and is exactly one character longer than both together |
| Journal.FileStore.SaveEntryToFile | src/lib.rs:11-30 | Succeeds exactly when no read fails and the write completes. On success only `path` changes: it now holds block + "\n" + previous text, with previous text "" for a missing file, and its length grows by exactly `|block| + 1`. A read failure returns before any write, and it and a failed create leave every file unchanged. A failed write leaves only `path` changed, holding a strict prefix of the intended text. The error, like Rust's `io::Error`, gives only the kind of failure |
| Journal.PrependLines | src/lib.rs:26 | Read line by line, the saved file is the entry's nine lines, an empty line, then the old file's lines unchanged |
| Journal.SaveStartsJournal | src/lib.rs:16-23 | Saving to a missing path writes exactly block + "\n", which is the journal of that one entry |
| Journal.SaveExtendsJournal | src/lib.rs:16-27 | Saving to a file that holds the journal of earlier saves leaves the journal of those saves followed by the new one |
| Journal.StackSnoc | src/lib.rs:26 | One more save stacks its block on top of the journal so far |
| Journal.StackKeepsBase | src/lib.rs:26 | After any number of saves, the journal is the saved blocks (newest first, each followed by '\n') and then the text it started with, which remains its unaltered suffix |
| Journal.StackBlock | src/lib.rs:26 | After any number of saves, every saved block sits intact at its offset, followed by a separator '\n' |
| Journal.NewerBlockFirst | src/lib.rs:103-106 | The block of a later save ends before the block of any earlier save begins |
| Journal.StackLinesAreNewestFirst | src/lib.rs:26 | Read line by line, a journal of '\n'-terminated blocks is each block's lines from newest to oldest, each followed by one empty line, then the original text's lines |
| Journal.SaveTwice | src/lib.rs:66-110 | Saving A then B gives B's block, '\n', A's block, '\n', then the original text |
| Journal.SaveTwiceToNewFile | src/lib.rs:66-111 | Two real saves into an empty store both succeed, and the file holds the second block first, then the first, each followed by '\n' |
| Journal.JournalLines | src/lib.rs:26 | After saving any sequence of single-line entries, the journal reads as each entry's nine labelled lines, newest first, each followed by an empty line, then the original lines |

## Left out

- `Local::now` (src/entry.rs:61): the clock is not modelled. `Entry.New` takes the reading as its `now` parameter.
- chrono's time-zone resolution: a timestamp is the local calendar fields chrono reports. The format has no offset field, so the zone never reaches the text. Calendar validity beyond day 1..31 (30 February, say) is not checked. The renderer writes whatever fields it is given.
- DateTimeFormat.FormatParseRoundTrip: stated only for years 0..9999. Outside that range `%Y` adds a sign, which the fixed-width reader does not accept.
- `CoffeeEntry`'s fields are public in Rust, so the 1..10 rating bound holds for values built by the two constructors, not for the type. `Entry.ToPlaintext` renders any `u8` rating.
- Journal.PrependLines, Journal.JournalLines and Entry.PlaintextLines: stated only when brand, name and origin hold no '\n'. The source does not reject line breaks in these fields, and a field containing one spreads over several lines.
- The real file system:
  - `Path::exists` is membership in the store's map. Errors from `exists` itself, which Rust reports as "missing", are not modelled.
  - The time-of-check/time-of-use gap between `exists` and `open` (src/lib.rs:16-17) is left out.
  - UTF-8 decoding failures of `read_to_string` are folded into the store's unreadable paths.
  - Which operating-system error each failure wraps is reduced to the three `IoError` kinds.
- Journal.FileStore.SaveEntryToFile: on a failed write it states only that the file holds some strict prefix of the intended text. How much of the prefix was written depends on the operating system.
- Concurrent writers: the source has no locking and the model is sequential.
- `src/main.rs`: the interactive prompts, the label-to-enum tables for the prompt library, console output and exit codes are not part of this model.
- Carriage returns: `Text.Lines` splits as `str::lines` does for text without '\r'. The journal only ever writes '\n'.
