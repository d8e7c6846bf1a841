/** The logical view of the `unix.toml` database: an ordered table whose
    top-level keys are command names, each holding a table with a `tags` field. */
module Document {
  import opened Wrappers

  /** One element of a `tags` array: a TOML string, or any other TOML value. */
  datatype Value = Str(text: string) | Other

  /** The `tags` field of a command's table: absent, an array, or some other value. */
  datatype Tags = Missing | Array(items: seq<Value>) | NotArray

  /** One top-level key of the document with its `tags` field. */
  datatype Entry = Entry(name: string, tags: Tags)

  /** TOML forbids defining a key twice, so every parsed document has distinct names. */
  predicate UniqueNames(entries: seq<Entry>) {
    forall i, j | 0 <= i < j < |entries| :: entries[i].name != entries[j].name
  }

  /** A parsed document, top-level keys in document order. */
  type Registry = entries: seq<Entry> | UniqueNames(entries) witness []

  /** The index of the first entry called `name`, or `|entries|` when there is none. */
  function Position(entries: seq<Entry>, name: string): (p: nat)
    ensures p <= |entries|
    ensures p < |entries| ==> entries[p].name == name
    ensures forall i | 0 <= i < p :: entries[i].name != name
  {
    if |entries| == 0 then 0
    else if entries[0].name == name then 0
    else 1 + Position(entries[1..], name)
  }

  /** The key `name` is present in the document (`contains_key`). */
  predicate Has(entries: seq<Entry>, name: string) {
    exists i | 0 <= i < |entries| :: entries[i].name == name
  }

  /** The `tags` field stored under `name`, or `None` when the key is absent. */
  function Lookup(entries: seq<Entry>, name: string): (t: Option<Tags>)
    ensures t.None? <==> !Has(entries, name)
    ensures t.Some? ==> exists i | 0 <= i < |entries| :: entries[i] == Entry(name, t.value)
  {
    var p := Position(entries, name);
    if p < |entries| then Some(entries[p].tags) else None
  }

  /** In a registry, the lookup of an entry's own name yields that entry's tags. */
  lemma LookupEntry(r: Registry, i: nat)
    requires i < |r|
    ensures Lookup(r, r[i].name) == Some(r[i].tags)
  {
  }

  /** The same document with the `tags` field of `name` replaced by `t`. */
  function SetTags(r: Registry, name: string, t: Tags): (r': Registry)
    ensures |r'| == |r|
    ensures forall i | 0 <= i < |r| :: r'[i].name == r[i].name
    ensures forall i | 0 <= i < |r| :: r'[i].tags == (if r[i].name == name then t else r[i].tags)
  {
    var s := seq(|r|, i requires 0 <= i < |r| => if r[i].name == name then Entry(name, t) else r[i]);
    assert forall i | 0 <= i < |r| :: s[i].name == r[i].name;
    s
  }

  /** A registry is a unique-names list again after dropping its first key. */
  lemma TailUnique(r: Registry)
    requires |r| > 0
    ensures UniqueNames(r[1..])
  {
    forall i, j | 0 <= i < j < |r| - 1
      ensures r[1..][i].name != r[1..][j].name
    {
      assert r[1..][i] == r[i + 1] && r[1..][j] == r[j + 1];
    }
  }
}
