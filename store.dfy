/**
 * The record store behind `/save`, `/history` and `/load/:filename`: a data
 * directory that does not exist until the first save, holding one JSON file of
 * items per save. JSON encoding is lossless here, so a file is modelled by the
 * item sequence it encodes.
 */
module RecordStore {
  import opened Wrappers
  import opened TextOrder
  import opened SavedFiles

  /** The `items` field of a `/save` request body: an array, or anything else. */
  datatype Items<V> = NotArray | Array(elems: seq<V>)

  /** The answer of `/save`: `{ success: true, filename }`, or 400 when there is nothing
      to save. */
  datatype SaveResponse = Saved(filename: string) | NothingToSave {
    function Status(): int {
      if Saved? then 200 else 400
    }
  }

  /** The answer of `/load/:filename`: `{ parsed }`, or 404 when there is no such file. */
  datatype LoadResponse<V> = Found(parsed: seq<V>) | NotFound {
    function Status(): int {
      if Found? then 200 else 404
    }
  }

  /** The data directory: `None` until it is created, then its files by name. */
  type Dir<V> = Option<map<string, seq<V>>>

  /** The files of a directory; an absent directory has none. */
  function Files<V>(dir: Dir<V>): map<string, seq<V>> {
    if dir.None? then map[] else dir.value
  }

  /** `!Array.isArray(items) || items.length === 0`. */
  predicate IsEmptyRequest<V>(items: Items<V>) {
    items.NotArray? || items.elems == []
  }

  // ---------------------------------------------------------------------------
  // What each operation does, as functions of the directory
  // ---------------------------------------------------------------------------

  /** The answer `/save` gives at time `iso`. */
  function SaveReply<V>(items: Items<V>, iso: string): (res: SaveResponse)
    ensures res.Status() == 400 <==> IsEmptyRequest(items)
    ensures res.Saved? ==> IsSavedName(res.filename) && ':' !in res.filename
  {
    if IsEmptyRequest(items) then NothingToSave else Saved(SavedName(iso))
  }

  /** The directory after `/save` at time `iso`: unchanged for an empty request,
      otherwise created if absent and holding the items under the new name. */
  function AfterSave<V>(dir: Dir<V>, items: Items<V>, iso: string): (d: Dir<V>)
    ensures IsEmptyRequest(items) ==> d == dir
    ensures !IsEmptyRequest(items) ==> d.Some? && SavedName(iso) in d.value
  {
    if IsEmptyRequest(items) then dir
    else Some(Files(dir)[SavedName(iso) := items.elems])
  }

  /** The answer of `/load/:filename`. */
  function LoadFrom<V>(dir: Dir<V>, name: string): (res: LoadResponse<V>)
    ensures res.Status() == 404 <==> name !in Files(dir)
    ensures res.Found? ==> res.parsed == Files(dir)[name]
  {
    if dir.None? || name !in dir.value then NotFound else Found(dir.value[name])
  }

  /** The names `/history` lists, as a set. */
  ghost function SavedNames<V>(dir: Dir<V>): set<string> {
    set f | f in Files(dir) && IsSavedName(f)
  }

  // ---------------------------------------------------------------------------
  // Properties across operations
  // ---------------------------------------------------------------------------

  /** Loading the file a save has just written gives back the saved items. */
  lemma LoadAfterSave<V>(dir: Dir<V>, elems: seq<V>, iso: string)
    requires elems != []
    ensures SaveReply(Array(elems), iso) == Saved(SavedName(iso))
    ensures LoadFrom(AfterSave(dir, Array(elems), iso), SavedName(iso)) == Found(elems)
  {
  }

  /** A save changes no other file, and creating the directory adds none. */
  lemma SaveKeepsOthers<V>(dir: Dir<V>, items: Items<V>, iso: string, other: string)
    requires other != SavedName(iso)
    ensures LoadFrom(AfterSave(dir, items, iso), other) == LoadFrom(dir, other)
  {
  }

  /** A second save at the same time overwrites the first. */
  lemma SameTimeOverwrites<V>(dir: Dir<V>, first: seq<V>, second: seq<V>, iso: string)
    requires first != [] && second != []
    ensures var d := AfterSave(AfterSave(dir, Array(first), iso), Array(second), iso);
      LoadFrom(d, SavedName(iso)) == Found(second)
      && Files(d).Keys == Files(dir).Keys + {SavedName(iso)}
  {
  }

  /** After a save, the history lists what it listed before and the new file. */
  lemma HistoryAfterSave<V>(dir: Dir<V>, elems: seq<V>, iso: string)
    requires elems != []
    ensures SavedNames(AfterSave(dir, Array(elems), iso)) == SavedNames(dir) + {SavedName(iso)}
  {
    var d := AfterSave(dir, Array(elems), iso);
    forall f ensures f in SavedNames(d) <==> f in SavedNames(dir) + {SavedName(iso)} {
      assert f in Files(d) <==> f in Files(dir) || f == SavedName(iso);
    }
  }

  /** Two saves at different times into a directory without saved files: the history
      lists both files, the later one first. */
  lemma TwoSavesNewestFirst<V>(dir: Dir<V>, first: seq<V>, second: seq<V>, a: string, b: string,
                               names: seq<string>)
    requires SavedNames(dir) == {}
    requires first != [] && second != []
    requires IsIsoTimestamp(a) && IsIsoTimestamp(b) && Less(a, b)
    requires StrictlyDescending(names)
    requires forall f ::
      f in names <==> f in SavedNames(AfterSave(AfterSave(dir, Array(first), a), Array(second), b))
    ensures names == [SavedName(b), SavedName(a)]
  {
    var d1 := AfterSave(dir, Array(first), a);
    HistoryAfterSave(dir, first, a);
    HistoryAfterSave(d1, second, b);
    SavedNameKeepsOrder(a, b);
    var expected := [SavedName(b), SavedName(a)];
    assert StrictlyDescending(expected);
    HistoryDetermined(AfterSave(d1, Array(second), b), names, expected);
  }

  /** What `/history` promises fixes its answer: two lists of names, each strictly
      newest first and holding exactly the saved names, are the same list. */
  lemma HistoryDetermined<V>(dir: Dir<V>, n1: seq<string>, n2: seq<string>)
    requires StrictlyDescending(n1) && StrictlyDescending(n2)
    requires forall f :: f in n1 <==> f in SavedNames(dir)
    requires forall f :: f in n2 <==> f in SavedNames(dir)
    ensures n1 == n2
  {
    StrictlyDescendingUnique(n1, n2);
  }

  // ---------------------------------------------------------------------------
  // The store as the server holds it
  // ---------------------------------------------------------------------------

  class DataStore<V> {
    /** `path.join(__dirname, "data")` and its files. */
    var dir: Dir<V>

    /** Before the first save there is no data directory. */
    constructor()
      ensures dir == None
    {
      dir := None;
    }

    /** A server started over a data directory left by an earlier run. */
    constructor Open(existing: Dir<V>)
      ensures dir == existing
    {
      dir := existing;
    }

    /** `POST /save` at time `iso`. */
    method Save(items: Items<V>, iso: string) returns (res: SaveResponse)
      modifies this
      ensures res == SaveReply(items, iso)
      ensures dir == AfterSave(old(dir), items, iso)
    {
      if items.NotArray? || |items.elems| == 0 {
        return NothingToSave;
      }
      var filename := SavedName(iso);
      if dir.None? {
        dir := Some(map[]);
      }
      dir := Some(dir.value[filename := items.elems]);
      res := Saved(filename);
    }

    /** `GET /history`: `[]` without a data directory; otherwise the names of its saved
        files, newest first. The directory lists its files in an order of its own. */
    method History() returns (names: seq<string>)
      ensures dir.None? ==> names == []
      ensures dir.Some? ==> StrictlyDescending(names)
      ensures forall f :: f in names <==> f in SavedNames(dir)
    {
      if dir.None? {
        return [];
      }
      var files := dir.value;
      var left := files.Keys;
      var listing: seq<string> := [];
      while left != {}
        invariant left <= files.Keys
        invariant forall f :: f in listing <==> f in files && f !in left
        invariant Distinct(listing)
        decreases |left|
      {
        var f :| f in left;
        assert multiset(listing)[f] == 0;
        listing := listing + [f];
        left := left - {f};
      }
      names := NewestFirst(listing);
      NewestFirstOfDirectory(listing);
    }

    /** `GET /load/:filename`. */
    method Load(name: string) returns (res: LoadResponse<V>)
      ensures res.Status() == 404 <==> dir.None? || name !in dir.value
      ensures res.Found? ==> dir.Some? && res.parsed == dir.value[name]
      ensures res == LoadFrom(dir, name)
    {
      if dir.None? || name !in dir.value {
        return NotFound;
      }
      res := Found(dir.value[name]);
    }
  }
}
