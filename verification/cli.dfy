/** The command-line decision table of `parse_arguments`: an action word
    (or one of its aliases) and the length of the argument vector select an
    action with its parameters, the help exit, or an argument error.
    `args[0]` is the program name, as in `env::args()`. */
module Cli {

  datatype Action = Add | Modify | Delete | Show | Search

  /** The error kinds the program reports before exiting with status 1. */
  datatype Error = NotEnoughArguments | UnspecifiedCommand | CouldNotOpenFile | Internal | UnknownReason

  /** A recognised request: the action and the parameters copied from the argument vector. */
  datatype CommandDetails = CommandDetails(action: Action, args: seq<string>)

  /** How argument parsing ends: with a request, or with one of the process exits it triggers. */
  datatype Parsed =
    | Details(details: CommandDetails)
    | ErrorExit(error: Error)   // `print_error_and_exit`: message on stderr, exit status 1
    | HelpExit                  // `print_help`: usage on stdout, exit status 0
    | IndexPanic                // `args[1]` with no action word given

  const AddWords: set<string> := {"add", "a"}
  const ModifyWords: set<string> := {"modify", "m", "mod"}
  const DeleteWords: set<string> := {"delete", "del", "d"}
  const ShowWords: set<string> := {"show", "sho", "sh"}
  const SearchWords: set<string> := {"search", "se"}
  const HelpWords: set<string> := {"help", "h"}

  /** The words that select `action` on the command line. */
  function Words(action: Action): set<string> {
    match action
    case Add => AddWords
    case Modify => ModifyWords
    case Delete => DeleteWords
    case Show => ShowWords
    case Search => SearchWords
  }

  /** How many parameters each action takes after its word. */
  function Arity(action: Action): nat {
    if action == Add || action == Modify then 2 else 1
  }

  /** A request the rest of the program can carry out: only `add`, `show` and
      `search` are ever produced, each with exactly its parameters. */
  predicate Runnable(d: CommandDetails) {
    d.action in {Add, Show, Search} && |d.args| == Arity(d.action)
  }

  function ParseArguments(args: seq<string>): (p: Parsed)
    ensures p.IndexPanic? <==> |args| < 2
    ensures p.HelpExit? <==> |args| >= 2 && args[1] in HelpWords
    // a request names a runnable action, was selected by one of its words with
    // enough arguments, and carries the arguments that follow the word
    ensures p.Details? ==> Runnable(p.details)
    ensures p.Details? ==> args[1] in Words(p.details.action)
    ensures p.Details? ==> |args| >= 2 + Arity(p.details.action) && p.details.args == args[2..2 + Arity(p.details.action)]
    // every action word with too few arguments is an argument-count error
    ensures p == ErrorExit(NotEnoughArguments) <==>
      exists a: Action :: |args| >= 2 && args[1] in Words(a) && |args| < 2 + Arity(a)
    // modify and delete are recognised but never carried out
    ensures p == ErrorExit(UnspecifiedCommand) <==>
      |args| >= 2 &&
      ((args[1] in ModifyWords && |args| >= 4) || (args[1] in DeleteWords && |args| >= 3) ||
       forall a: Action :: args[1] !in Words(a) && args[1] !in HelpWords)
    ensures p.ErrorExit? ==> p.error in {NotEnoughArguments, UnspecifiedCommand}
  {
    if |args| < 2 then IndexPanic
    else
      var word := args[1];
      if word in AddWords then
        assert word in Words(Add);
        if |args| < 4 then ErrorExit(NotEnoughArguments)
        else Details(CommandDetails(Add, [args[2], args[3]]))
      else if word in ModifyWords then
        assert word in Words(Modify);
        if |args| < 4 then ErrorExit(NotEnoughArguments) else ErrorExit(UnspecifiedCommand)
      else if word in DeleteWords then
        assert word in Words(Delete);
        if |args| < 3 then ErrorExit(NotEnoughArguments) else ErrorExit(UnspecifiedCommand)
      else if word in ShowWords then
        assert word in Words(Show);
        if |args| < 3 then ErrorExit(NotEnoughArguments)
        else Details(CommandDetails(Show, [args[2]]))
      else if word in SearchWords then
        assert word in Words(Search);
        if |args| < 3 then ErrorExit(NotEnoughArguments)
        else Details(CommandDetails(Search, [args[2]]))
      else if word in HelpWords then HelpExit
      else ErrorExit(UnspecifiedCommand)
  }

  /** Round trip: any runnable request, written out with any of its words, parses back to itself. */
  lemma ParseRoundTrip(program: string, word: string, d: CommandDetails)
    requires Runnable(d) && word in Words(d.action)
    ensures ParseArguments([program, word] + d.args) == Details(d)
  {
    var args := [program, word] + d.args;
    assert args[2..2 + Arity(d.action)] == d.args;
  }

  /** The help word exits with status 0 whatever follows it. */
  lemma HelpIgnoresRest(program: string, word: string, rest: seq<string>)
    requires word in HelpWords
    ensures ParseArguments([program, word] + rest) == HelpExit
  {
  }

  /** `s` is not a `show` alias in this program: `foget s ls` is an unrecognised action. */
  lemma ShortSIsNotShow()
    ensures ParseArguments(["foget", "s", "ls"]) == ErrorExit(UnspecifiedCommand)
  {
    assert "s" !in ShowWords;
  }
}
