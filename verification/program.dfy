/** `main`: parse the arguments, load the fixed database file
    `./descriptions/unix.toml`, run the chosen operation and, for `add`,
    write the document back. The operating system's answers are parameters. */
module Program {
  import opened Wrappers
  import opened Document
  import opened Cli
  import opened Console
  import opened Operations

  /** What opening, reading and parsing the database file yields. */
  datatype Load = Loaded(registry: Registry) | OpenFailed | ReadFailed | ParseFailed

  /** How the operating system answers the write-side calls of `add`:
      open with truncation, then `write_all`. The `flush` that follows always
      succeeds on a `File`, which has no user-space buffer. */
  datatype WriteIo = WriteIo(opens: bool, writes: bool)

  /** The database file once the invocation is over. */
  datatype FileAfter = Untouched | Truncated | Rewritten(registry: Registry) | PartiallyWritten

  /** Everything one invocation does that can be observed. */
  datatype Invocation = Invocation(out: seq<Line>, status: Status, file: FileAfter)

  /** `parse_toml` failing: a file that cannot be opened is reported; a read or parse error panics. */
  function LoadFailure(load: Load): (inv: Invocation)
    requires !load.Loaded?
    ensures inv.out == [] && inv.file == Untouched
    ensures inv.status == Failed(CouldNotOpenFile) <==> load == OpenFailed
    ensures inv.status == Panicked <==> load != OpenFailed
  {
    if load == OpenFailed then Invocation([], Failed(CouldNotOpenFile), Untouched)
    else Invocation([], Panicked, Untouched)
  }

  /** `add_description`. The file is opened for writing and truncated before the
      tags are looked up, so a failed lookup leaves it empty; a write error is
      printed and the run still ends successfully. */
  function AddDescription(r: Registry, command: string, tag: string, io: WriteIo): (inv: Invocation)
    ensures !io.opens ==> inv == Invocation([], Failed(CouldNotOpenFile), Untouched)
    // the document itself fails only with Internal, and then the file is already empty
    ensures io.opens ==> (inv.status == Failed(Internal) <==> AddTag(r, command, tag).Err?)
    ensures inv.status == Failed(Internal) ==> inv.out == [] && inv.file == Truncated
    // otherwise the new document is printed and the run succeeds whatever the writes do
    ensures io.opens && AddTag(r, command, tag).Ok? ==>
      inv.status == Completed && |inv.out| >= 1 && inv.out[0] == DocumentDump(AddTag(r, command, tag).value)
    ensures io.opens && AddTag(r, command, tag).Ok? ==>
      inv.out == [DocumentDump(AddTag(r, command, tag).value)] + (if io.writes then [] else [IoErrorLine])
    ensures inv.status == Completed && !io.writes ==> inv.file == PartiallyWritten
    // the file holds the new document exactly when the write went through
    ensures inv.file.Rewritten? <==> inv.status == Completed && io.writes
    ensures inv.file.Rewritten? ==> AddTag(r, command, tag) == Ok(inv.file.registry)
  {
    if !io.opens then Invocation([], Failed(CouldNotOpenFile), Untouched)
    else
      match AddTag(r, command, tag)
      case Err(e) => Invocation([], Failed(e), Truncated)
      case Ok(r') =>
        var writeError := if io.writes then [] else [IoErrorLine];
        Invocation([DocumentDump(r')] + writeError, Completed,
                   if io.writes then Rewritten(r') else PartiallyWritten)
  }

  /** The `match` on the action in `main`: load the document, then run the
      operation; any other action has no effect. */
  function Dispatch(d: CommandDetails, load: Load, io: WriteIo): (inv: Invocation)
    requires |d.args| >= Arity(d.action)
    ensures d.action in {Modify, Delete} ==> inv == Invocation([], Completed, Untouched)
    ensures d.action in {Show, Search, Add} && !load.Loaded? ==> inv == LoadFailure(load)
    // only `add` on a loaded document touches the file
    ensures inv.file != Untouched ==> d.action == Add && load.Loaded? && io.opens
    // queries report exactly what the operation reports
    ensures d.action == Show && load.Loaded? ==>
      var rep := ShowCommandTags(load.registry, d.args[0]); inv == Invocation(rep.out, rep.status, Untouched)
    ensures d.action == Search && load.Loaded? ==>
      var rep := SearchDescriptions(load.registry, d.args[0]); inv == Invocation(rep.out, rep.status, Untouched)
    ensures d.action == Add && load.Loaded? ==> inv == AddDescription(load.registry, d.args[0], d.args[1], io)
  {
    if !load.Loaded? && d.action in {Show, Search, Add} then LoadFailure(load)
    else
      match d.action
      case Show =>
        var rep := ShowCommandTags(load.registry, d.args[0]);
        Invocation(rep.out, rep.status, Untouched)
      case Search =>
        var rep := SearchDescriptions(load.registry, d.args[0]);
        Invocation(rep.out, rep.status, Untouched)
      case Add => AddDescription(load.registry, d.args[0], d.args[1], io)
      case _ => Invocation([], Completed, Untouched)
  }

  /** `main`, from the argument vector to the observable end of the run. */
  function Invoke(args: seq<string>, load: Load, io: WriteIo): (inv: Invocation)
    // only `add`, with its two arguments and a loaded document, touches the file
    ensures inv.file != Untouched ==> |args| >= 4 && args[1] in AddWords && load.Loaded? && io.opens
    // `help` prints the usage and exits with status 0
    ensures |args| >= 2 && args[1] in HelpWords ==> inv == Invocation([UsageLines], Helped, Untouched)
    // `modify` and `delete` do nothing but report an argument error
    ensures |args| >= 2 && (args[1] in ModifyWords || args[1] in DeleteWords) ==>
      inv.out == [] && inv.status.Failed? && inv.file == Untouched
    // a failed `add` has already emptied the file
    ensures inv.status == Failed(Internal) ==> inv.file == Truncated
    // argument errors exit with no output, a missing action word panics,
    // and a parsed request is carried out by the dispatch
    ensures ParseArguments(args).ErrorExit? ==> inv == Invocation([], Failed(ParseArguments(args).error), Untouched)
    ensures |args| < 2 ==> inv == Invocation([], Panicked, Untouched)
    ensures ParseArguments(args).Details? ==> inv == Dispatch(ParseArguments(args).details, load, io)
  {
    match ParseArguments(args)
    case IndexPanic => Invocation([], Panicked, Untouched)
    case HelpExit => Invocation([UsageLines], Helped, Untouched)
    case ErrorExit(e) => Invocation([], Failed(e), Untouched)
    case Details(d) => Dispatch(d, load, io)
  }

  /** `foget add <command> <tag>` for a command the document lacks ends with
      `Internal` and an empty database file. */
  lemma AddToMissingCommandEmptiesFile(r: Registry, command: string, tag: string, io: WriteIo)
    requires !Has(r, command) && io.opens
    ensures Invoke(["foget", "add", command, tag], Loaded(r), io) == Invocation([], Failed(Internal), Truncated)
    ensures ExitCode(Invoke(["foget", "add", command, tag], Loaded(r), io).status) == 1
  {
  }

  /** After a successful `add` to a command whose tags are all strings,
      `show` on the written file lists the old tags and then the new one. */
  lemma AddThenShow(r: Registry, command: string, tag: string, items: seq<Value>)
    requires Lookup(r, command) == Some(Array(items)) && items != [] && AllStrings(items)
    ensures var inv := Invoke(["foget", "add", command, tag], Loaded(r), WriteIo(true, true));
      inv.status == Completed && inv.file.Rewritten? &&
      var shown := Invoke(["foget", "show", command], Loaded(inv.file.registry), WriteIo(true, true));
      shown.status == Completed && |shown.out| == |items| + 2 &&
      (forall i | 0 <= i < |items| :: shown.out[i + 1] == TagLine(items[i].text)) &&
      shown.out[|items| + 1] == TagLine(tag)
  {
    var io := WriteIo(true, true);
    var add := CommandDetails(Add, [command, tag]);
    ParseRoundTrip("foget", "add", add);
    assert ["foget", "add"] + add.args == ["foget", "add", command, tag];
    var inv := Invoke(["foget", "add", command, tag], Loaded(r), io);
    assert inv == AddDescription(r, command, tag, io);
    ShowAfterAdd(r, command, tag, items);
    var r' := AddTag(r, command, tag).value;
    assert inv.file == Rewritten(r');
    var show := CommandDetails(Show, [command]);
    ParseRoundTrip("foget", "show", show);
    assert ["foget", "show"] + show.args == ["foget", "show", command];
    var rep := ShowCommandTags(r', command);
    assert Invoke(["foget", "show", command], Loaded(r'), io) == Invocation(rep.out, rep.status, Untouched);
  }
}
