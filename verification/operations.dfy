/** The three operations the program carries out on a loaded document:
    `show` (list one command's tags), `search` (find commands by a tag
    substring) and `add` (append a tag to an existing command). */
module Operations {
  import opened Wrappers
  import opened Document
  import opened Cli
  import opened Console
  import Strings

  /** Every element of a `tags` array is a string. */
  predicate AllStrings(items: seq<Value>) {
    forall i | 0 <= i < |items| :: items[i].Str?
  }

  // ---------------------------------------------------------------- show

  /** The tag lines `show` prints while walking the array, and whether it got
      through the whole array: it stops (by panicking) at the first element that
      is not a string. */
  function TagLines(items: seq<Value>): (r: (seq<Line>, bool))
    ensures r.1 <==> AllStrings(items)
    ensures r.1 ==> |r.0| == |items|
    ensures !r.1 ==> |r.0| < |items| && !items[|r.0|].Str?
    ensures forall i | 0 <= i < |r.0| :: items[i].Str? && r.0[i] == TagLine(items[i].text)
  {
    if |items| == 0 then ([], true)
    else if !items[0].Str? then ([], false)
    else
      var rest := TagLines(items[1..]);
      ([TagLine(items[0].text)] + rest.0, rest.1)
  }

  /** `show <command>` (`show_command_tags`). */
  function ShowCommandTags(r: Registry, command: string): (rep: Report)
    // an absent command prints nothing and is not an error
    ensures !Has(r, command) <==> rep == Report([], Completed)
    ensures Has(r, command) ==> |rep.out| >= 1 && rep.out[0] == FoundHeader(command)
    // a present command lists its tags in array order, one line each
    ensures Lookup(r, command).Some? && Lookup(r, command).value.Array? && AllStrings(Lookup(r, command).value.items) ==>
      var items := Lookup(r, command).value.items;
      rep.status == Completed && |rep.out| == |items| + 1 &&
      forall i | 0 <= i < |items| :: rep.out[i + 1] == TagLine(items[i].text)
    // a `tags` field that is not an array of strings aborts the listing
    ensures rep.status == Panicked <==>
      Has(r, command) && !(Lookup(r, command).value.Array? && AllStrings(Lookup(r, command).value.items))
    ensures rep.status in {Completed, Panicked}
    // what is printed before the panic: only the header when `tags` is not an array,
    // otherwise the header and the string tags up to the first non-string element
    ensures Has(r, command) && !Lookup(r, command).value.Array? ==> rep.out == [FoundHeader(command)]
    ensures Lookup(r, command).Some? && Lookup(r, command).value.Array? ==>
      var items := Lookup(r, command).value.items;
      1 <= |rep.out| <= |items| + 1 &&
      (forall i | 0 <= i < |rep.out| - 1 :: items[i].Str? && rep.out[i + 1] == TagLine(items[i].text)) &&
      (rep.status == Panicked ==> !items[|rep.out| - 1].Str?)
  {
    match Lookup(r, command)
    case None => Report([], Completed)
    case Some(Array(items)) =>
      var (lines, finished) := TagLines(items);
      Report([FoundHeader(command)] + lines, if finished then Completed else Panicked)
    case Some(_) => Report([FoundHeader(command)], Panicked)
  }

  // ---------------------------------------------------------------- search

  /** A command reported by `search`, with its whole `tags` array. */
  datatype Hit = Hit(command: string, tags: seq<Value>)

  /** The matching rule of `search`: `tags` is an array with a string element
      that contains `query` (case-sensitive). Non-array `tags` and elements that
      are not strings never match; a table without `tags` stops the whole search
      before anything is reported (see `SearchDescriptions`). */
  ghost predicate TagsMatch(t: Tags, query: string) {
    t.Array? && exists i | 0 <= i < |t.items| :: t.items[i].Str? && Strings.IsSubstring(query, t.items[i].text)
  }

  /** The inner loop of `search`: walks the tags and stops at the first string containing the query. */
  function AnyTagContains(items: seq<Value>, query: string): (found: bool)
    ensures found <==> TagsMatch(Array(items), query)
  {
    if |items| == 0 then false
    else if items[0].Str? && Strings.Contains(items[0].text, query) then true
    else
      var found := AnyTagContains(items[1..], query);
      assert found ==> TagsMatch(Array(items), query) by {
        if found {
          var i :| 0 <= i < |items[1..]| && items[1..][i].Str? && Strings.IsSubstring(query, items[1..][i].text);
          assert items[i + 1] == items[1..][i];
        }
      }
      found
  }

  /** The filter of the outer loop of `search`: the top-level keys, in document
      order, whose `tags` is a non-empty array with a matching element. The loop
      only gets through the document when every table has `tags`;
      `SearchDescriptions` handles the panic otherwise. */
  function Matches(entries: seq<Entry>, query: string): (hits: seq<Hit>)
    ensures |hits| <= |entries|
    ensures forall k | 0 <= k < |hits| ::
      exists i | 0 <= i < |entries| :: entries[i] == Entry(hits[k].command, Array(hits[k].tags))
    ensures forall k | 0 <= k < |hits| :: TagsMatch(Array(hits[k].tags), query)
    ensures forall i | 0 <= i < |entries| && TagsMatch(entries[i].tags, query) ::
      Hit(entries[i].name, entries[i].tags.items) in hits
  {
    if |entries| == 0 then []
    else
      var rest := Matches(entries[1..], query);
      var t := entries[0].tags;
      var hits := if t.Array? && |t.items| != 0 && AnyTagContains(t.items, query)
        then [Hit(entries[0].name, t.items)] + rest
        else rest;
      assert forall k | 0 <= k < |hits| ::
          exists i | 0 <= i < |entries| :: entries[i] == Entry(hits[k].command, Array(hits[k].tags)) by {
        forall k | 0 <= k < |hits|
          ensures exists i | 0 <= i < |entries| :: entries[i] == Entry(hits[k].command, Array(hits[k].tags))
        {
          if hits[k] in rest {
            var k' :| 0 <= k' < |rest| && rest[k'] == hits[k];
            var i :| 0 <= i < |entries[1..]| && entries[1..][i] == Entry(rest[k'].command, Array(rest[k'].tags));
            assert entries[i + 1] == entries[1..][i];
          } else {
            assert entries[0] == Entry(hits[k].command, Array(hits[k].tags));
          }
        }
      }
      assert forall i | 0 <= i < |entries| && TagsMatch(entries[i].tags, query) ::
          Hit(entries[i].name, entries[i].tags.items) in hits by {
        forall i | 0 <= i < |entries| && TagsMatch(entries[i].tags, query)
          ensures Hit(entries[i].name, entries[i].tags.items) in hits
        {
          if i > 0 {
            assert entries[1..][i - 1] == entries[i];
          }
        }
      }
      hits
  }

  /** The lines `search` prints for its hits. */
  function MatchLines(hits: seq<Hit>): (lines: seq<Line>)
    ensures |lines| == |hits|
    ensures forall k | 0 <= k < |hits| :: lines[k] == MatchLine(hits[k].command, hits[k].tags)
  {
    seq(|hits|, k requires 0 <= k < |hits| => MatchLine(hits[k].command, hits[k].tags))
  }

  /** Every table of the document has a `tags` field. */
  predicate AllTagged(entries: seq<Entry>) {
    forall i | 0 <= i < |entries| :: !entries[i].tags.Missing?
  }

  /** `search <query>` (`search_descriptions`). Reading `tags` of a table that
      has none panics, and nothing is printed before the loop ends. */
  function SearchDescriptions(r: Registry, query: string): (rep: Report)
    // a table without `tags` makes the search panic, whatever the query, before any output
    ensures rep.status in {Completed, Panicked}
    ensures rep.status == Panicked <==> exists i | 0 <= i < |r| :: r[i].tags.Missing?
    ensures rep.status == Panicked ==> rep.out == []
    // otherwise no match is a message, not an error
    ensures rep.status == Completed ==>
      (rep.out == [NoMatchLine] <==> forall i | 0 <= i < |r| :: !TagsMatch(r[i].tags, query))
    // and a match gives a header, then one line per matching command with its full tags array
    ensures rep.status == Completed && rep.out != [NoMatchLine] ==> |rep.out| >= 2 && rep.out[0] == MatchHeader
    ensures forall k | 1 <= k < |rep.out| ::
      (rep.out[k].MatchLine? &&
       Lookup(r, rep.out[k].command) == Some(Array(rep.out[k].tags)) &&
       TagsMatch(Array(rep.out[k].tags), query))
    ensures rep.status == Completed ==> forall i | 0 <= i < |r| && TagsMatch(r[i].tags, query) ::
      MatchLine(r[i].name, r[i].tags.items) in rep.out
    // the lines follow document order, so no command is reported twice
    ensures forall a, b | 1 <= a < b < |rep.out| ::
      (rep.out[a].MatchLine? && rep.out[b].MatchLine? &&
       Position(r, rep.out[a].command) < Position(r, rep.out[b].command))
  {
    var hits := Matches(r, query);
    NoHitsIffNoMatch(r, query);
    if !AllTagged(r) then Report([], Panicked)
    else if |hits| > 0 then
      ReportedLinesMatch(r, query);
      MatchingCommandsReported(r, query);
      ReportedLinesInDocumentOrder(r, query);
      Report([MatchHeader] + MatchLines(hits), Completed)
    else
      Report([NoMatchLine], Completed)
  }

  /** Every line after the header names a matching command with its stored tags array. */
  lemma ReportedLinesMatch(r: Registry, query: string)
    ensures var out := [MatchHeader] + MatchLines(Matches(r, query));
      forall k | 1 <= k < |out| ::
        (out[k].MatchLine? &&
         Lookup(r, out[k].command) == Some(Array(out[k].tags)) &&
         TagsMatch(Array(out[k].tags), query))
  {
    var hits := Matches(r, query);
    var out := [MatchHeader] + MatchLines(hits);
    HitsAreLookups(r, query);
    forall k | 1 <= k < |out|
      ensures out[k] == MatchLine(hits[k - 1].command, hits[k - 1].tags)
    {
    }
  }

  /** Lines printed for hits in key order are in key order. */
  lemma LinesInKeyOrder(r: seq<Entry>, hits: seq<Hit>)
    requires InKeyOrder(r, hits)
    ensures var out := [MatchHeader] + MatchLines(hits);
      forall a, b | 1 <= a < b < |out| ::
        (out[a].MatchLine? && out[b].MatchLine? &&
         Position(r, out[a].command) < Position(r, out[b].command))
  {
    var out := [MatchHeader] + MatchLines(hits);
    forall a, b | 1 <= a < b < |out|
      ensures out[a].MatchLine? && out[b].MatchLine? &&
        Position(r, out[a].command) < Position(r, out[b].command)
    {
      assert out[a] == MatchLine(hits[a - 1].command, hits[a - 1].tags);
      assert out[b] == MatchLine(hits[b - 1].command, hits[b - 1].tags);
    }
  }

  /** The lines after the header follow the document's key order. */
  lemma ReportedLinesInDocumentOrder(r: Registry, query: string)
    ensures var out := [MatchHeader] + MatchLines(Matches(r, query));
      forall a, b | 1 <= a < b < |out| ::
        (out[a].MatchLine? && out[b].MatchLine? &&
         Position(r, out[a].command) < Position(r, out[b].command))
  {
    MatchesInDocumentOrder(r, query);
    LinesInKeyOrder(r, Matches(r, query));
  }

  /** Every matching command has its line in the report. */
  lemma MatchingCommandsReported(r: Registry, query: string)
    ensures var out := [MatchHeader] + MatchLines(Matches(r, query));
      forall i | 0 <= i < |r| && TagsMatch(r[i].tags, query) :: MatchLine(r[i].name, r[i].tags.items) in out
  {
    var hits := Matches(r, query);
    var out := [MatchHeader] + MatchLines(hits);
    forall i | 0 <= i < |r| && TagsMatch(r[i].tags, query)
      ensures MatchLine(r[i].name, r[i].tags.items) in out
    {
      var k :| 0 <= k < |hits| && hits[k] == Hit(r[i].name, r[i].tags.items);
      assert out[k + 1] == MatchLine(r[i].name, r[i].tags.items);
    }
  }

  /** `search` finds nothing exactly when no command's tags match. */
  lemma NoHitsIffNoMatch(r: Registry, query: string)
    ensures Matches(r, query) == [] <==> forall i | 0 <= i < |r| :: !TagsMatch(r[i].tags, query)
  {
    var hits := Matches(r, query);
    if hits != [] {
      var i :| 0 <= i < |r| && r[i] == Entry(hits[0].command, Array(hits[0].tags));
      assert TagsMatch(r[i].tags, query);
    }
  }

  /** Each hit carries exactly the tags array stored under its command. */
  lemma HitsAreLookups(r: Registry, query: string)
    ensures var hits := Matches(r, query);
      forall k | 0 <= k < |hits| :: Lookup(r, hits[k].command) == Some(Array(hits[k].tags))
  {
    var hits := Matches(r, query);
    forall k | 0 <= k < |hits|
      ensures Lookup(r, hits[k].command) == Some(Array(hits[k].tags))
    {
      var i :| 0 <= i < |r| && r[i] == Entry(hits[k].command, Array(hits[k].tags));
      LookupEntry(r, i);
    }
  }

  /** A command found in the rest of a registry is not its first key. */
  lemma TailHitIsNotHead(r: Registry, query: string, k: nat)
    requires |r| > 0 && k < |Matches(r[1..], query)|
    ensures Matches(r[1..], query)[k].command != r[0].name
  {
    var h := Matches(r[1..], query)[k];
    var i :| 0 <= i < |r[1..]| && r[1..][i] == Entry(h.command, Array(h.tags));
    assert r[i + 1] == r[1..][i];
  }

  /** The commands of `hits` appear in the same order as the keys of `entries`. */
  predicate InKeyOrder(entries: seq<Entry>, hits: seq<Hit>) {
    forall a, b | 0 <= a < b < |hits| :: Position(entries, hits[a].command) < Position(entries, hits[b].command)
  }

  /** Putting the first key in front of hits that lie one place further on keeps the order. */
  lemma ConsInKeyOrder(r: seq<Entry>, first: Hit, rest: seq<Hit>)
    requires |r| > 0 && first.command == r[0].name && InKeyOrder(r[1..], rest)
    requires forall k | 0 <= k < |rest| :: rest[k].command != r[0].name
    ensures InKeyOrder(r, [first] + rest)
  {
    var hits := [first] + rest;
    forall a, b | 0 <= a < b < |hits|
      ensures Position(r, hits[a].command) < Position(r, hits[b].command)
    {
      assert hits[b] == rest[b - 1];
      assert Position(r, hits[b].command) == 1 + Position(r[1..], rest[b - 1].command);
      if a > 0 {
        assert hits[a] == rest[a - 1];
        assert Position(r, hits[a].command) == 1 + Position(r[1..], rest[a - 1].command);
      }
    }
  }

  /** Hits follow the document's key order. */
  lemma {:induction false} MatchesInDocumentOrder(r: Registry, query: string)
    ensures InKeyOrder(r, Matches(r, query))
  {
    if |r| > 0 {
      TailUnique(r);
      var tail: Registry := r[1..];
      MatchesInDocumentOrder(tail, query);
      var rest := Matches(tail, query);
      forall k | 0 <= k < |rest|
        ensures rest[k].command != r[0].name
      {
        TailHitIsNotHead(r, query, k);
      }
      var t := r[0].tags;
      if t.Array? && |t.items| != 0 && AnyTagContains(t.items, query) {
        ConsInKeyOrder(r, Hit(r[0].name, t.items), rest);
      }
    }
  }

  /** `search` reports each matching command exactly once. */
  lemma SearchReportsOnce(r: Registry, query: string)
    ensures var hits := Matches(r, query);
      forall a, b | 0 <= a < b < |hits| :: hits[a].command != hits[b].command
  {
    MatchesInDocumentOrder(r, query);
    var hits := Matches(r, query);
    assert forall a, b | 0 <= a < b < |hits| :: Position(r, hits[a].command) < Position(r, hits[b].command);
  }

  /** The empty query matches every command that has at least one string tag. */
  lemma EmptyQueryMatchesAnyString(t: Tags)
    requires t.Array? && exists i | 0 <= i < |t.items| :: t.items[i].Str?
    ensures TagsMatch(t, "")
  {
    var i :| 0 <= i < |t.items| && t.items[i].Str?;
    Strings.EmptyPatternFound(t.items[i].text);
  }

  /** A worked search: the query "hidden" finds `ls` through its second tag and
      reports both of its tags. */
  lemma SearchHiddenFindsLs()
    ensures var items := [Str("list directory contents"), Str("show hidden with -a")];
      SearchDescriptions([Entry("ls", Array(items))], "hidden").out == [MatchHeader, MatchLine("ls", items)]
  {
    var items := [Str("list directory contents"), Str("show hidden with -a")];
    var r: Registry := [Entry("ls", Array(items))];
    assert Strings.OccursAt("hidden", items[1].text, 5) by {
      assert items[1].text[5..11] == "hidden";
    }
    assert TagsMatch(r[0].tags, "hidden");
    var hits := Matches(r, "hidden");
    assert hits == [Hit("ls", items)];
  }

  /** A table without `tags` anywhere in the document makes every search panic
      with no output, even when another command matches. */
  lemma SearchPanicsOnUntaggedTable()
    ensures SearchDescriptions([Entry("ls", Array([Str("list")])), Entry("cd", Missing)], "list")
      == Report([], Panicked)
  {
    var r: Registry := [Entry("ls", Array([Str("list")])), Entry("cd", Missing)];
    assert r[1].tags.Missing?;
  }

  // ---------------------------------------------------------------- add

  /** `add <command> <tag>` on the document: `tags` of an existing command must
      be an array (otherwise `Internal`); a non-empty array gets the tag appended
      at its end, with no duplicate check; an empty array is left as it is. */
  function AddTag(r: Registry, command: string, tag: string): (res: Result<Registry, Error>)
    ensures res.Err? <==> !(Lookup(r, command).Some? && Lookup(r, command).value.Array?)
    ensures res.Err? ==> res.error == Internal
    // only the addressed command can change
    ensures res.Ok? ==> |res.value| == |r|
    ensures res.Ok? ==> forall i | 0 <= i < |r| ::
      res.value[i].name == r[i].name && (r[i].name != command ==> res.value[i] == r[i])
    ensures res.Ok? && Lookup(r, command).value.items == [] ==> res.value == r
    ensures res.Ok? && Lookup(r, command).value.items != [] ==>
      Lookup(res.value, command) == Some(Array(Lookup(r, command).value.items + [Str(tag)]))
  {
    match Lookup(r, command)
    case Some(Array(items)) =>
      if items != [] then
        var r' := SetTags(r, command, Array(items + [Str(tag)]));
        var p := Position(r, command);
        LookupEntry(r', p);
        Ok(r')
      else
        Ok(r)
    case _ => Err(Internal)
  }

  /** A successful `add` leaves every other command's lookup as it was. */
  lemma AddKeepsOthers(r: Registry, command: string, tag: string, other: string)
    requires AddTag(r, command, tag).Ok? && other != command
    ensures Lookup(AddTag(r, command, tag).value, other) == Lookup(r, other)
  {
    var r' := AddTag(r, command, tag).value;
    if Has(r, other) {
      var i :| 0 <= i < |r| && r[i].name == other;
      LookupEntry(r, i);
      LookupEntry(r', i);
    }
  }

  /** Adding a tag that is already there appends it again: adding twice leaves two copies at the end. */
  lemma {:induction false} AddTwiceAppendsTwice(r: Registry, command: string, tag: string, items: seq<Value>)
    requires Lookup(r, command) == Some(Array(items)) && items != []
    ensures AddTag(r, command, tag).Ok?
    ensures var once := AddTag(r, command, tag).value;
      AddTag(once, command, tag).Ok? &&
      Lookup(AddTag(once, command, tag).value, command) == Some(Array(items + [Str(tag), Str(tag)]))
  {
    var once := AddTag(r, command, tag).value;
    assert Lookup(once, command) == Some(Array(items + [Str(tag)]));
    assert items + [Str(tag)] + [Str(tag)] == items + [Str(tag), Str(tag)];
  }

  /** `show` after a successful `add` on a command whose tags are all strings
      lists the old tags in order and then the new one. */
  lemma ShowAfterAdd(r: Registry, command: string, tag: string, items: seq<Value>)
    requires Lookup(r, command) == Some(Array(items)) && items != [] && AllStrings(items)
    ensures AddTag(r, command, tag).Ok?
    ensures var rep := ShowCommandTags(AddTag(r, command, tag).value, command);
      rep.status == Completed && |rep.out| == |items| + 2 &&
      rep.out[0] == FoundHeader(command) &&
      (forall i | 0 <= i < |items| :: rep.out[i + 1] == TagLine(items[i].text)) &&
      rep.out[|items| + 1] == TagLine(tag)
  {
    var r' := AddTag(r, command, tag).value;
    var items' := items + [Str(tag)];
    assert Lookup(r', command) == Some(Array(items'));
    assert AllStrings(items') by {
      forall i | 0 <= i < |items'| ensures items'[i].Str? {
        if i < |items| { assert items'[i] == items[i]; }
      }
    }
    var rep := ShowCommandTags(r', command);
    forall i | 0 <= i < |items| ensures rep.out[i + 1] == TagLine(items[i].text) {
      assert items'[i] == items[i];
    }
  }
}
