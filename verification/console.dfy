/** What one invocation shows the user: the lines written to standard output
    and how the process ends. Message wording is not modelled, only which
    message is printed and with what data. */
module Console {
  import opened Document
  import opened Cli

  datatype Line =
    | FoundHeader(command: string)                // "Found descriptions for command `c`:"
    | TagLine(tag: string)                        // one tag of `show`, indented
    | MatchHeader                                 // "Commands with matching functionality:"
    | MatchLine(command: string, tags: seq<Value>) // "c -- [tags]" of `search`
    | NoMatchLine                                 // "No commands match the searched functionality."
    | DocumentDump(registry: Registry)            // the whole document printed by `add`
    | IoErrorLine                                 // a write error, printed and ignored
    | UsageLines                                  // the help text

  /** How the process terminates. */
  datatype Status =
    | Completed          // `main` returns `ExitCode::SUCCESS`
    | Failed(error: Error) // `print_error_and_exit`
    | Panicked           // a Rust panic (`unwrap`, an index out of range)
    | Helped             // `print_help`

  /** The process exit status; a Rust panic exits with 101. */
  function ExitCode(s: Status): (code: nat)
    ensures code == 0 <==> s.Completed? || s.Helped?
    ensures s.Failed? ==> code == 1
    ensures s.Panicked? ==> code == 101
  {
    match s
    case Completed => 0
    case Helped => 0
    case Failed(_) => 1
    case Panicked => 101
  }

  /** What a query prints and how it ends. */
  datatype Report = Report(out: seq<Line>, status: Status)
}
