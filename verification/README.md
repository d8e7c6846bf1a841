# foget command registry — Dafny model

`foget` keeps a personal reference of shell commands in a TOML file,
`./descriptions/unix.toml`: each top-level key is a command name whose table
holds a `tags` array of descriptive strings. From the command line it can
show a command's tags, search all commands for a tag substring, and append a
tag to a command. This project models the logic of `src/main.rs` that decides
what an invocation does and how it reads and changes the registry:

- `Cli` — `parse_arguments`: action words and aliases, the argument-count
  rules, the help exit, the argument errors and the index panic when no
  action word is given.
- `Document` — the registry as an ordered sequence of `(name, tags)` entries
  with distinct names; `tags` is missing, an array of values (a string or any
  other TOML value), or some other value.
- `Strings` — Rust's `str::contains`: a scan over offsets, proved equal to
  "is a contiguous substring".
- `Operations` — `show_command_tags`, `search_descriptions` and the document
  edit inside `add_description`.
- `Console` — printed lines as data (not text) and the way the process ends.
- `Program` — `main` and the file side of `add_description`. The answers of
  the operating system are parameters.

Behaviour worth noting:

- `s` is not an alias of `show`. Only `show`, `sho` and `sh` are.
- `add` on a command that is not in the file does not create it. It fails with
  `Internal`.
- `add` makes no duplicate check.
- `add` on an empty `tags` array changes nothing.
- `modify` and `delete` are recognised words but never run. With enough
  arguments they end in `UnspecifiedCommand`.
- A search with no match prints a message and exits with status 0.
- A search panics, printing nothing, when any table in the file has no `tags` field.
- `show` prints no index numbers.
- The path is fixed. No `HOME` or environment lookup is made.

## Model

| member | source | states |
|---|---|---|
| Cli.ParseArguments | src/main.rs:76-134 | Without an action word the run panics. `help`/`h` always gives the help exit. A request is only ever `add` with `[args[2], args[3]]` or `show`/`search` with `[args[2]]`, each selected by one of its words with enough arguments. Every action word with too few arguments gives `NotEnoughArguments`. `modify`/`delete` with enough arguments and every unknown word give `UnspecifiedCommand`. No other error arises. |
| Cli.ParseRoundTrip | src/main.rs:80-123 | Any runnable request, written as `[program, word] + args` with any alias of its action, parses back to itself. |
| Cli.HelpIgnoresRest | src/main.rs:124-126 | A help word gives the help exit whatever follows it. |
| Cli.ShortSIsNotShow | src/main.rs:100-129 | `foget s ls` is an unrecognised action, because `s` is not among the show aliases. |
| Console.ExitCode | src/main.rs:58-73 | The process exits with status 0 exactly on normal completion or help. An error gives 1 and a panic gives 101. |
| Strings.ContainsFrom | src/main.rs:190 | The scan from offset `k` finds the pattern exactly when it occurs at some offset `j >= k`. |
| Strings.Contains | src/main.rs:190 | `s.contains(p)` is true exactly when `p` is a contiguous substring of `s`. |
| Strings.EmptyPatternFound | src/main.rs:190 | The empty pattern is found in every string. |
| Strings.LongPatternNotFound | src/main.rs:190 | A pattern longer than the string is never found. |
| Strings.CaseSensitive | src/main.rs:190 | Matching is case-sensitive: `"A"` is not found in `"a"`. |
| Document.Position | src/main.rs:166 | The position of a key is that of its first entry, or the length of the document when the key is absent. |
| Document.Lookup | src/main.rs:166-171 | The lookup is absent exactly when the key is not in the document. Otherwise it returns the `tags` of an entry with that name. |
| Document.LookupEntry | src/main.rs:179-180 | Indexing the document with one of its own keys yields that entry's tags, because names are unique. |
| Operations.TagLines | src/main.rs:169-173 | The listing prints the array's strings in order and stops at the first non-string element. It completes exactly when every element is a string. |
| Operations.ShowCommandTags | src/main.rs:165-175 | An absent command prints nothing and is not an error. A present one prints the header and then every tag in array order, one line each. A `tags` field that is not an array panics after the header alone. An array with a non-string element panics after the header and the string tags before that element. |
| Operations.AnyTagContains | src/main.rs:186-194 | The inner loop finds a hit exactly when some string element of the array contains the query. |
| Operations.Matches | src/main.rs:178-197 | This is the filter the loop applies once every table has `tags`. Every hit is a document entry whose `tags` array matches, and it carries the whole array. Every matching entry is among the hits. |
| Operations.NoHitsIffNoMatch | src/main.rs:199-208 | The search finds nothing exactly when no command's tags match. |
| Operations.HitsAreLookups | src/main.rs:203 | The array printed for a hit is the one stored under its command. |
| Operations.ReportedLinesMatch | src/main.rs:199-205 | Each line after the header names a matching command together with its stored tags array. |
| Operations.MatchingCommandsReported | src/main.rs:179-205 | Each matching command has its line in the report. |
| Operations.SearchDescriptions | src/main.rs:177-209 | If any table of the document lacks `tags`, the search panics before printing anything, whatever the query. Otherwise it completes normally and prints the no-match message exactly when nothing matches. If something matches, it prints a header and then one line per matching command, with its full array. The lines follow document order, so no command appears twice, and every matching command appears. |
| Operations.SearchPanicsOnUntaggedTable | src/main.rs:179-181 | A document with a table lacking `tags` makes the search panic with no output, even though another command matches the query. |
| Operations.LinesInKeyOrder | src/main.rs:199-205 | Printing hits that are in key order, one line each, gives report lines in key order. |
| Operations.ReportedLinesInDocumentOrder | src/main.rs:199-205 | The report lines after the header name commands in strictly increasing document position. |
| Operations.ConsInKeyOrder | src/main.rs:179-193 | Adding the document's first key in front of tail hits that are in key order keeps key order. |
| Operations.MatchesInDocumentOrder | src/main.rs:179-197 | Hits appear in the document's key order. |
| Operations.TailHitIsNotHead | src/main.rs:179-192 | A hit found in the rest of the document is never its first key. |
| Operations.SearchReportsOnce | src/main.rs:186-193 | No command is reported twice. |
| Operations.EmptyQueryMatchesAnyString | src/main.rs:190 | An empty query matches every command that has a string tag. |
| Operations.SearchHiddenFindsLs | src/main.rs:177-209 | Searching `{ls: ["list directory contents", "show hidden with -a"]}` for `hidden` prints the header and one line for `ls` with both of its tags. |
| Operations.AddTag | src/main.rs:226-237 | The edit fails with `Internal` exactly when `tags` cannot be read as an array. An empty array leaves the document as it was. A non-empty array gets the tag appended at its end, with the earlier tags unchanged. No other entry changes and the key order is kept. |
| Operations.AddKeepsOthers | src/main.rs:226-236 | After a successful add, every other command looks up as before. |
| Operations.AddTwiceAppendsTwice | src/main.rs:234-236 | There is no duplicate check: adding the same tag twice leaves two copies at the end. |
| Operations.ShowAfterAdd | src/main.rs:234-236 | `show` after an add to a string array lists the old tags in order and then the new tag. |
| Program.LoadFailure | src/main.rs:136-163 | A file that cannot be opened is reported as `CouldNotOpenFile`. A read or parse failure panics. The file stays untouched. |
| Program.AddDescription | src/main.rs:211-254 | An open failure leaves the file untouched. A failed lookup ends with `Internal` after the file is already truncated. A successful edit prints the new document once and completes even when the write fails, in which case it prints exactly one error line and the file is left partially written. The file holds the new document exactly when the write went through. |
| Program.Dispatch | src/main.rs:265-276 | `modify` and `delete` details have no effect. A query reports exactly what the operation reports and never touches the file. Only `add` on a loaded document can change the file. |
| Program.Invoke | src/main.rs:256-279 | Only `add`, with its two arguments and a loaded document, touches the file. `help` prints the usage and exits 0. `modify` and `delete` only report an argument error. A run that ends with `Internal` has emptied the file. An argument error exits with no output, a missing action word panics, and a parsed request runs `Dispatch`. |
| Program.AddToMissingCommandEmptiesFile | src/main.rs:214-229 | `foget add c t` for a command not in the file exits with status 1 and leaves the file empty. |
| Program.AddThenShow | src/main.rs:256-276 | A successful `add` followed by `show` on the written file lists the old tags and then the new one. |

## Left out

- File contents and I/O: opening, reading, truncating and writing are outcomes given as parameters (`Load`, `WriteIo`). A partial write is only named, not described.
- The flush error branch (src/main.rs:248-253) is not modelled: `flush` on a `File` always succeeds, so that message is never printed.
- TOML parsing and format-preserving serialisation (the `toml_edit` crate): the document is modelled at the level of keys and `tags`, and the printed or written document is the registry value itself.
- Top-level keys whose value is not a table (`ls = 3`): every entry is modelled as a table whose `tags` may be missing. In the program, `add` on such a key panics when it indexes `tags` (src/main.rs:226) instead of failing with `Internal`, indexing `tags` in `search` panics on such a key too, and the model does not cover these cases.
- Indexing a missing key for writing inserts an empty entry in `toml_edit`. This is not modelled, because the run then exits with `Internal` before anything is written.
- Process arguments that are not valid Unicode: `env::args()` (src/main.rs:77) panics on them, and the model's arguments are always strings, so that panic is not covered.
- Console text and stderr messages: lines are data constructors, errors are the `Failed` status, and the help text is a single `UsageLines` value.
- `UnknownReason` and the `Err` branch of `main` (src/main.rs:259-262) are never reached, because `parse_arguments` never returns `Err`. The error kind is declared but never produced.
- Panic messages and backtraces: a panic is the `Panicked` status (exit 101) after whatever was already printed.
- Colour output, path resolution through `HOME` or the environment, and the modify/delete/duplicate-check behaviour are not in this code and are not modelled.
