/** The in-memory table of mocks (`mockDefinitions` in server.js): a JavaScript
    `Map` from key to mock, iterated in insertion order. Its entries are kept
    as a sequence of (key, mock) pairs with distinct keys, and `Map.set` is
    MapSet: an existing key keeps its position and gets the new mock, a new
    key is appended. */
module MockStore {
  import opened MockTypes
  import MockKey

  type Entries = seq<(string, Mock)>

  /** Position of the first entry with `key` at or after `i`. */
  function IndexFrom(e: Entries, key: string, i: nat): (r: Option<nat>)
    requires i <= |e|
    decreases |e| - i
    ensures r.Some? ==> i <= r.value < |e| && e[r.value].0 == key
    ensures r.Some? ==> forall j :: i <= j < r.value ==> e[j].0 != key
    ensures r.None? ==> forall j :: i <= j < |e| ==> e[j].0 != key
  {
    if i == |e| then None
    else if e[i].0 == key then Some(i)
    else IndexFrom(e, key, i + 1)
  }

  /** Position of the entry with `key`, if any. */
  function IndexOf(e: Entries, key: string): (r: Option<nat>)
    ensures r.Some? ==> r.value < |e| && e[r.value].0 == key
    ensures r.Some? ==> forall j :: 0 <= j < r.value ==> e[j].0 != key
    ensures r.None? <==> forall j :: 0 <= j < |e| ==> e[j].0 != key
  {
    IndexFrom(e, key, 0)
  }

  /** The keys in iteration order: one per entry, and exactly the keys
      that the table holds. */
  function Keys(e: Entries): (ks: seq<string>)
    ensures |ks| == |e|
    ensures forall k :: k in ks <==> IndexOf(e, k).Some?
  {
    var ks := seq(|e|, i requires 0 <= i < |e| => e[i].0);
    assert forall k :: k in ks ==> exists i :: 0 <= i < |e| && e[i].0 == k by {
      forall k | k in ks
        ensures exists i :: 0 <= i < |e| && e[i].0 == k
      {
        var i :| 0 <= i < |ks| && ks[i] == k;
        assert e[i].0 == k;
      }
    }
    assert forall k :: IndexOf(e, k).Some? ==> ks[IndexOf(e, k).value] == k;
    ks
  }

  predicate DistinctKeys(e: Entries) {
    forall i, j :: 0 <= i < j < |e| ==> e[i].0 != e[j].0
  }

  /** Every entry is stored under the key derived from its own mock. */
  predicate Keyed(e: Entries) {
    forall i :: 0 <= i < |e| ==> e[i].0 == MockKey.GenerateKey(e[i].1)
  }

  predicate StoreInvariant(e: Entries) {
    DistinctKeys(e) && Keyed(e)
  }

  /** The value the Map holds for a key: a value is found exactly when the key is present, and it is
      the one stored with the key's first entry. */
  function Lookup(e: Entries, key: string): (r: Option<Mock>)
    ensures r.Some? <==> exists i :: 0 <= i < |e| && e[i].0 == key
    ensures r.Some? ==> (key, r.value) in e
  {
    match IndexOf(e, key)
    case Some(i) => Some(e[i].1)
    case None => None
  }

  /** `Map.set`: the pair `(key, m)` is in the result, which is as long as
      the table when the key is present and one longer when it is new. */
  function MapSet(e: Entries, key: string, m: Mock): (r: Entries)
    ensures (key, m) in r
    ensures IndexOf(e, key).Some? ==> |r| == |e|
    ensures IndexOf(e, key).None? ==> |r| == |e| + 1
  {
    match IndexOf(e, key)
    case Some(i) => assert e[i := (key, m)][i] == (key, m); e[i := (key, m)]
    case None => assert (e + [(key, m)])[|e|] == (key, m); e + [(key, m)]
  }

  /** The first entry with `key` is the one IndexOf finds. */
  lemma IndexOfFirst(e: Entries, key: string, i: nat)
    requires i < |e| && e[i].0 == key
    requires forall j :: 0 <= j < i ==> e[j].0 != key
    ensures IndexOf(e, key) == Some(i)
  {
  }

  /** After `set`, the key maps to the new mock. */
  lemma SetThenLookup(e: Entries, key: string, m: Mock)
    ensures Lookup(MapSet(e, key, m), key) == Some(m)
  {
    var r := MapSet(e, key, m);
    match IndexOf(e, key)
    case Some(i) =>
      IndexOfFirst(r, key, i);
    case None =>
      IndexOfFirst(r, key, |e|);
  }

  /** After `set`, every other key keeps its value (or its absence). */
  lemma SetKeepsOthers(e: Entries, key: string, m: Mock, other: string)
    requires other != key
    ensures Lookup(MapSet(e, key, m), other) == Lookup(e, other)
  {
    var r := MapSet(e, key, m);
    assert forall j :: 0 <= j < |e| ==> (r[j].0 == other <==> e[j].0 == other);
    match IndexOf(e, other)
    case Some(i) =>
      assert IndexOf(r, other) == Some(i);
    case None =>
      assert forall j :: 0 <= j < |r| ==> r[j].0 != other;
  }

  /** `set` on a present key replaces that entry where it stands: same
      length, same key order, every other entry untouched. `set` on an
      absent key appends the new entry at the end. */
  lemma SetShape(e: Entries, key: string, m: Mock)
    ensures var r := MapSet(e, key, m);
      match IndexOf(e, key)
      case Some(i) =>
        |r| == |e| && Keys(r) == Keys(e) && r[i] == (key, m) &&
        forall j :: 0 <= j < |e| && j != i ==> r[j] == e[j]
      case None =>
        r == e + [(key, m)] && Keys(r) == Keys(e) + [key]
  {
  }

  /** Setting one key twice is the same as setting it once to the second
      mock: last write wins, wholesale, at the position of the first write. */
  lemma OverwriteLaw(e: Entries, key: string, m1: Mock, m2: Mock)
    ensures MapSet(MapSet(e, key, m1), key, m2) == MapSet(e, key, m2)
  {
    var r1 := MapSet(e, key, m1);
    match IndexOf(e, key)
    case Some(i) =>
      IndexOfFirst(r1, key, i);
    case None =>
      IndexOfFirst(r1, key, |e|);
  }

  /** `set` never removes a key. */
  lemma SetKeepsKeysPresent(e: Entries, key: string, m: Mock, other: string)
    requires IndexOf(e, other).Some?
    ensures IndexOf(MapSet(e, key, m), other).Some?
  {
    if other == key {
      SetThenLookup(e, key, m);
    } else {
      SetKeepsOthers(e, key, m, other);
    }
  }

  /** Storing a mock under its own key preserves the table's invariant. */
  lemma SetPreservesInvariant(e: Entries, m: Mock)
    requires StoreInvariant(e)
    ensures StoreInvariant(MapSet(e, MockKey.GenerateKey(m), m))
  {
  }

  /** Two registrations with one key leave exactly one entry under that
      key, holding the second mock: distinct keys rule out a stale copy
      of the first. */
  lemma OverwriteLeavesOneEntry(e: Entries, m1: Mock, m2: Mock)
    requires StoreInvariant(e)
    requires MockKey.GenerateKey(m1) == MockKey.GenerateKey(m2)
    ensures var k := MockKey.GenerateKey(m2);
      var r := MapSet(MapSet(e, k, m1), k, m2);
      && (k, m2) in r
      && forall i :: 0 <= i < |r| && r[i].0 == k ==> r[i] == (k, m2)
  {
    var k := MockKey.GenerateKey(m2);
    var r1 := MapSet(e, k, m1);
    var r := MapSet(r1, k, m2);
    SetPreservesInvariant(e, m1);
    SetPreservesInvariant(r1, m2);
    SetThenLookup(r1, k, m2);
    var j := IndexOf(r, k).value;
    forall i | 0 <= i < |r| && r[i].0 == k
      ensures r[i] == (k, m2)
    {
      assert i == j;
    }
  }

  /** A mapping file as the loader sees it: its name and, for a file that
      was read and parsed, the mock it holds. */
  datatype ParsedFile = Parsed(mock: Mock) | Unparseable
  datatype MappingFile = MappingFile(name: string, content: ParsedFile)

  predicate EndsWith(s: string, suffix: string) {
    |suffix| <= |s| && s[|s| - |suffix|..] == suffix
  }

  /** Only `.json` files that parse are inserted; the others are skipped. */
  predicate Loadable(f: MappingFile) {
    EndsWith(f.name, ".json") && f.content.Parsed?
  }

  /** One step of the loading loop: a loadable file's mock is what its key
      then looks up; any other file leaves the table as it was. */
  function LoadOne(e: Entries, f: MappingFile): (r: Entries)
    ensures Loadable(f) ==> Lookup(r, MockKey.GenerateKey(f.content.mock)) == Some(f.content.mock)
    ensures !Loadable(f) ==> r == e
    ensures |e| <= |r| <= |e| + 1
  {
    if Loadable(f) then
      SetThenLookup(e, MockKey.GenerateKey(f.content.mock), f.content.mock);
      MapSet(e, MockKey.GenerateKey(f.content.mock), f.content.mock)
    else e
  }

  /** The table after loading `files` in order. Loading never shrinks the
      table and adds at most one entry per file. */
  function LoadAll(e: Entries, files: seq<MappingFile>): (r: Entries)
    ensures |e| <= |r| <= |e| + |files|
    decreases |files|
  {
    if files == [] then e else LoadOne(LoadAll(e, files[..|files| - 1]), files[|files| - 1])
  }

  /** A file that cannot be loaded leaves the table as it was, and loading
      goes on with the next file. */
  lemma SkippedFileChangesNothing(e: Entries, files: seq<MappingFile>, f: MappingFile)
    requires !Loadable(f)
    ensures LoadAll(e, files + [f]) == LoadAll(e, files)
  {
  }

  /** Every loadable file ends up in the table, whatever fails after it. */
  lemma {:induction false} LoadedFilePresent(e: Entries, files: seq<MappingFile>, i: nat)
    requires i < |files| && Loadable(files[i])
    ensures IndexOf(LoadAll(e, files), MockKey.GenerateKey(files[i].content.mock)).Some?
    decreases |files|
  {
    var key := MockKey.GenerateKey(files[i].content.mock);
    var init := files[..|files| - 1];
    var last := files[|files| - 1];
    if i == |files| - 1 {
      SetThenLookup(LoadAll(e, init), key, last.content.mock);
    } else {
      assert init[i] == files[i];
      LoadedFilePresent(e, init, i);
      if Loadable(last) {
        SetKeepsKeysPresent(LoadAll(e, init), MockKey.GenerateKey(last.content.mock), last.content.mock, key);
      }
    }
  }

  /** A loaded file whose key no later loadable file shares is the one the
      table returns for that key. */
  lemma {:induction false} LastLoadWins(e: Entries, files: seq<MappingFile>, i: nat)
    requires i < |files| && Loadable(files[i])
    requires forall j :: i < j < |files| && Loadable(files[j]) ==>
      MockKey.GenerateKey(files[j].content.mock) != MockKey.GenerateKey(files[i].content.mock)
    ensures Lookup(LoadAll(e, files), MockKey.GenerateKey(files[i].content.mock)) == Some(files[i].content.mock)
    decreases |files|
  {
    var key := MockKey.GenerateKey(files[i].content.mock);
    var init := files[..|files| - 1];
    var last := files[|files| - 1];
    if i == |files| - 1 {
      SetThenLookup(LoadAll(e, init), key, last.content.mock);
    } else {
      assert init[i] == files[i];
      LastLoadWins(e, init, i);
      if Loadable(last) {
        SetKeepsOthers(LoadAll(e, init), MockKey.GenerateKey(last.content.mock), last.content.mock, key);
      }
    }
  }

  lemma {:induction false} LoadPreservesInvariant(e: Entries, files: seq<MappingFile>)
    requires StoreInvariant(e)
    ensures StoreInvariant(LoadAll(e, files))
    decreases |files|
  {
    if files != [] {
      var init := files[..|files| - 1];
      LoadPreservesInvariant(e, init);
      if Loadable(files[|files| - 1]) {
        SetPreservesInvariant(LoadAll(e, init), files[|files| - 1].content.mock);
      }
    }
  }

  /** The process-wide table. */
  class Store {
    var entries: Entries

    ghost predicate Valid()
      reads this
    {
      StoreInvariant(entries)
    }

    constructor ()
      ensures Valid() && entries == []
    {
      entries := [];
    }

    /** Stores a mock under its derived key, as the registration handler
        and the loader (for each file) do. */
    method Insert(m: Mock)
      requires Valid()
      modifies this
      ensures Valid()
      ensures entries == MapSet(old(entries), MockKey.GenerateKey(m), m)
    {
      var key := MockKey.GenerateKey(m);
      SetPreservesInvariant(entries, m);
      entries := MapSet(entries, key, m);
    }

    /** Empties the table, as the server tests do before each case. */
    method Clear()
      modifies this
      ensures Valid() && entries == []
    {
      entries := [];
    }

    /** Whether some entry is stored under `key` (`Map.has`). */
    function Has(key: string): (b: bool)
      reads this
      ensures b <==> exists i :: 0 <= i < |entries| && entries[i].0 == key
    {
      IndexOf(entries, key).Some?
    }

    /** Startup loading: every `.json` mapping file that parsed is inserted,
        in directory order; the others are skipped. */
    method Load(files: seq<MappingFile>)
      requires Valid()
      modifies this
      ensures Valid()
      ensures entries == LoadAll(old(entries), files)
    {
      for i := 0 to |files|
        invariant Valid()
        invariant entries == LoadAll(old(entries), files[..i])
      {
        assert files[..i + 1][..i] == files[..i];
        if EndsWith(files[i].name, ".json") && files[i].content.Parsed? {
          Insert(files[i].content.mock);
        }
      }
      assert files[..|files|] == files;
    }
  }
}
