/** The document service: a cache from file name to file content that is
    refreshed from a directory listing.

    The cache is a Python `dict`, so its iteration order is insertion order:
    assigning to a key that is already present keeps that key where it is,
    assigning to a new key appends it. That order decides the order of
    `get_all_documents`, hence the order of the QA chain's index. The model
    keeps it as a sequence of entries with pairwise distinct names.

    The directory is an input: a sequence of listing entries, each with the
    file name and the result of reading the file (None when reading raised).
 */
module DocumentService {
  import opened Wrappers
  import opened Strings

  /** One cached document. */
  datatype Entry = Entry(name: string, content: string)

  /** No name occurs twice. */
  predicate UniqueNames(entries: seq<Entry>)
  {
    |entries| == 0 || (entries[0].name !in Names(entries[1..]) && UniqueNames(entries[1..]))
  }

  /** The `documents` dict of the service: insertion-ordered, keys unique. */
  type Cache = c: seq<Entry> | UniqueNames(c) witness []

  /** One entry of the directory listing; `read` is None when opening or
      reading the file raised. */
  datatype DirEntry = DirEntry(name: string, read: Option<string>)

  type Listing = seq<DirEntry>

  const TxtSuffix: string := ".txt"

  /** The keys of the cache, in dict order. */
  function Names(c: seq<Entry>): (ns: seq<string>)
    ensures |ns| == |c|
    ensures forall i :: 0 <= i < |c| ==> ns[i] == c[i].name
  {
    if |c| == 0 then [] else [c[0].name] + Names(c[1..])
  }

  /** The values of the cache, in dict order. */
  function Values(c: seq<Entry>): (vs: seq<string>)
    ensures |vs| == |c|
    ensures forall i :: 0 <= i < |c| ==> vs[i] == c[i].content
  {
    seq(|c|, i requires 0 <= i < |c| => c[i].content)
  }

  /** `documents.get(k)`. */
  function Lookup(c: seq<Entry>, k: string): (r: Option<string>)
    ensures r.Some? <==> k in Names(c)
  {
    if |c| == 0 then None
    else if c[0].name == k then Some(c[0].content)
    else
      assert Names(c) == [c[0].name] + Names(c[1..]);
      Lookup(c[1..], k)
  }

  /** A cache with unique names holds the entry of each position under that
      position's name. */
  lemma {:induction false} LookupAt(c: Cache, i: nat)
    requires i < |c|
    ensures Lookup(c, c[i].name) == Some(c[i].content)
  {
    if i > 0 {
      assert c[1..][i - 1] == c[i];
      assert Names(c[1..])[i - 1] == c[i].name;
      assert c[0].name !in Names(c[1..]);
      var tail: Cache := c[1..];
      LookupAt(tail, i - 1);
    }
  }

  /** `documents[k] = v`: overwrite in place, or append a new key. */
  function Put(c: Cache, k: string, v: string): (r: Cache)
    ensures k in Names(c) ==> Names(r) == Names(c)
    ensures k !in Names(c) ==> Names(r) == Names(c) + [k]
  {
    if |c| == 0 then
      assert Names([Entry(k, v)][1..]) == [];
      [Entry(k, v)]
    else if c[0].name == k then
      var r := [Entry(k, v)] + c[1..];
      assert r[1..] == c[1..];
      r
    else
      var tail: Cache := c[1..];
      var rest := Put(tail, k, v);
      var r := [c[0]] + rest;
      assert r[1..] == rest;
      r
  }

  /** After `documents[k] = v`, k holds v and every other key is unchanged. */
  lemma {:induction false} PutLookup(c: Cache, k: string, v: string, k': string)
    ensures Lookup(Put(c, k, v), k') == if k' == k then Some(v) else Lookup(c, k')
  {
    if |c| > 0 && c[0].name != k {
      var tail: Cache := c[1..];
      PutLookup(tail, k, v, k');
      assert Put(c, k, v)[1..] == Put(tail, k, v);
    } else if |c| > 0 {
      assert Put(c, k, v)[1..] == c[1..];
    }
  }

  /** Two caches with the same key order and the same value under every key
      are the same cache. */
  lemma {:induction false} CacheExtensionality(a: Cache, b: Cache)
    requires Names(a) == Names(b)
    requires forall k :: Lookup(a, k) == Lookup(b, k)
    ensures a == b
  {
    if |a| > 0 {
      var k := a[0].name;
      assert Lookup(a, k) == Some(a[0].content);
      assert Lookup(b, k) == Some(b[0].content);
      var ta: Cache := a[1..];
      var tb: Cache := b[1..];
      assert Names(a) == [k] + Names(ta);
      assert Names(b) == [k] + Names(tb);
      forall k' ensures Lookup(ta, k') == Lookup(tb, k') {
        if k' == k {
          assert k !in Names(ta);
          assert k !in Names(tb);
        } else {
          assert Lookup(a, k') == Lookup(ta, k');
          assert Lookup(b, k') == Lookup(tb, k');
        }
      }
      CacheExtensionality(ta, tb);
      assert a == [a[0]] + ta;
      assert b == [b[0]] + tb;
    }
  }

  /** Would `_load_documents` store this listing entry? Only names ending in
      ".txt" are looked at, and only a successful read is stored. */
  predicate Loadable(e: DirEntry)
  {
    EndsWith(e.name, TxtSuffix) && e.read.Some?
  }

  /** One iteration of the loop over the listing. */
  function LoadEntry(c: Cache, e: DirEntry): (r: Cache)
    ensures Loadable(e) && e.name !in Names(c) ==> Names(r) == Names(c) + [e.name]
    ensures !(Loadable(e) && e.name !in Names(c)) ==> Names(r) == Names(c)
    ensures forall k :: Lookup(r, k) == if Loadable(e) && k == e.name then Some(e.read.value) else Lookup(c, k)
  {
    if Loadable(e) then
      forall k ensures Lookup(Put(c, e.name, e.read.value), k)
                       == if k == e.name then Some(e.read.value) else Lookup(c, k) {
        PutLookup(c, e.name, e.read.value, k);
      }
      Put(c, e.name, e.read.value)
    else c
  }

  /** `_load_documents`: merge every readable ".txt" file of the listing into
      the cache, in listing order. Nothing is ever removed. */
  function LoadDocuments(c: Cache, listing: Listing): (r: Cache)
    decreases |listing|
    ensures |r| >= |c| && Names(r)[..|c|] == Names(c)
  {
    if |listing| == 0 then c
    else
      var next := LoadEntry(c, listing[0]);
      var r := LoadDocuments(next, listing[1..]);
      assert Names(next)[..|c|] == Names(c);
      assert Names(r)[..|c|] == Names(next)[..|next|][..|c|];
      r
  }

  /** Reference definition: the names a load adds to a cache whose key
      order is `seen`, in the order of their first readable ".txt" listing
      entry. */
  function NewNames(seen: seq<string>, listing: Listing): seq<string>
    decreases |listing|
  {
    if |listing| == 0 then []
    else if Loadable(listing[0]) && listing[0].name !in seen then
      [listing[0].name] + NewNames(seen + [listing[0].name], listing[1..])
    else NewNames(seen, listing[1..])
  }

  /** A load keeps the cached keys in their order and appends the new names
      in the order the listing first supplies them. */
  lemma {:induction false} LoadNames(c: Cache, listing: Listing)
    decreases |listing|
    ensures Names(LoadDocuments(c, listing)) == Names(c) + NewNames(Names(c), listing)
  {
    if |listing| > 0 {
      var e := listing[0];
      var next := LoadEntry(c, e);
      LoadNames(next, listing[1..]);
      if Loadable(e) && e.name !in Names(c) {
        assert Names(c) + [e.name] + NewNames(Names(c) + [e.name], listing[1..])
            == Names(c) + ([e.name] + NewNames(Names(c) + [e.name], listing[1..]));
      }
    }
  }

  /** Reference definition: the content of the last successfully read
      listing entry named `k`, if any. */
  function LatestRead(listing: Listing, k: string): Option<string>
  {
    if |listing| == 0 then None
    else
      var later := LatestRead(listing[1..], k);
      if later.Some? then later
      else if listing[0].name == k then listing[0].read
      else None
  }

  /** The listing supplies a value for `k`: it is a ".txt" name and some
      entry with that name could be read. */
  predicate Supplies(listing: Listing, k: string)
  {
    EndsWith(k, TxtSuffix) && LatestRead(listing, k).Some?
  }

  /** After a load, a key holds the latest readable content the listing
      supplies for it, and otherwise keeps its cached value (or stays absent). */
  lemma {:induction false} LoadLookup(c: Cache, listing: Listing, k: string)
    decreases |listing|
    ensures Lookup(LoadDocuments(c, listing), k)
         == if Supplies(listing, k) then LatestRead(listing, k) else Lookup(c, k)
  {
    if |listing| > 0 {
      var e := listing[0];
      var next := LoadEntry(c, e);
      LoadLookup(next, listing[1..], k);
      if Loadable(e) {
        PutLookup(c, e.name, e.read.value, k);
      }
      if !Supplies(listing[1..], k) && e.name == k && Loadable(e) {
        assert LatestRead(listing, k) == e.read;
      }
    }
  }

  /** The keys after a load are the keys before plus every name the listing
      supplies; in particular only ".txt" names are ever added. */
  lemma LoadKeys(c: Cache, listing: Listing, k: string)
    ensures k in Names(LoadDocuments(c, listing)) <==> k in Names(c) || Supplies(listing, k)
    ensures k in Names(LoadDocuments(c, listing)) && k !in Names(c) ==> EndsWith(k, TxtSuffix)
  {
    LoadLookup(c, listing, k);
  }

  /** Every entry cached before a load is still cached after it, whatever the
      listing holds: files that vanished from disk stay cached. */
  lemma LoadNeverRemoves(c: Cache, listing: Listing, k: string)
    requires k in Names(c)
    ensures k in Names(LoadDocuments(c, listing))
  {
    LoadLookup(c, listing, k);
  }

  /** A file whose every read failed leaves the cached value of its name as
      it was. */
  lemma {:induction false} LoadSkipsUnreadable(c: Cache, listing: Listing, k: string)
    requires forall i :: 0 <= i < |listing| && listing[i].name == k ==> listing[i].read.None?
    ensures Lookup(LoadDocuments(c, listing), k) == Lookup(c, k)
  {
    LoadLookup(c, listing, k);
    LatestReadAbsent(listing, k);
  }

  lemma {:induction false} LatestReadAbsent(listing: Listing, k: string)
    requires forall i :: 0 <= i < |listing| && listing[i].name == k ==> listing[i].read.None?
    ensures LatestRead(listing, k).None?
  {
    if |listing| > 0 {
      LatestReadAbsent(listing[1..], k);
    }
  }

  /** A load adds no key when every name the listing supplies is already
      cached. */
  lemma {:induction false} LoadKeepsNames(c: Cache, listing: Listing)
    decreases |listing|
    requires forall k :: Supplies(listing, k) ==> k in Names(c)
    ensures Names(LoadDocuments(c, listing)) == Names(c)
  {
    if |listing| > 0 {
      var e := listing[0];
      if Loadable(e) {
        assert LatestRead(listing, e.name).Some?;
        assert Supplies(listing, e.name);
      }
      var next := LoadEntry(c, e);
      assert Names(next) == Names(c);
      forall k | Supplies(listing[1..], k) ensures k in Names(next) {
        assert LatestRead(listing, k) == LatestRead(listing[1..], k);
      }
      LoadKeepsNames(next, listing[1..]);
    }
  }

  /** Loading twice from an unchanged directory gives the same cache as
      loading once. */
  lemma LoadIdempotent(c: Cache, listing: Listing)
    ensures LoadDocuments(LoadDocuments(c, listing), listing) == LoadDocuments(c, listing)
  {
    var once := LoadDocuments(c, listing);
    var twice := LoadDocuments(once, listing);
    forall k | Supplies(listing, k) ensures k in Names(once) {
      LoadKeys(c, listing, k);
    }
    LoadKeepsNames(once, listing);
    forall k ensures Lookup(twice, k) == Lookup(once, k) {
      LoadLookup(once, listing, k);
      LoadLookup(c, listing, k);
    }
    CacheExtensionality(twice, once);
  }

  /** `get_all_documents`: reload, then return the values in dict order.
      The result pairs the reloaded cache with the returned list. */
  function GetAllDocuments(c: Cache, listing: Listing): (r: (Cache, seq<string>))
    ensures r.0 == LoadDocuments(c, listing)
    ensures |r.1| == |Names(r.0)|
    ensures forall i :: 0 <= i < |r.1| ==> Lookup(r.0, Names(r.0)[i]) == Some(r.1[i])
  {
    var loaded := LoadDocuments(c, listing);
    forall i | 0 <= i < |loaded| ensures Lookup(loaded, loaded[i].name) == Some(loaded[i].content) {
      LookupAt(loaded, i);
    }
    (loaded, Values(loaded))
  }

  /** The file name `add_document` stores under: ".txt" is appended unless
      the name already ends with it. */
  function NormaliseFilename(filename: string): (r: string)
    ensures EndsWith(r, TxtSuffix)
    ensures StartsWith(r, filename)
    ensures r == filename <==> EndsWith(filename, TxtSuffix)
    ensures !EndsWith(filename, TxtSuffix) ==> r == filename + TxtSuffix
  {
    if EndsWith(filename, TxtSuffix) then filename
    else
      var r := filename + TxtSuffix;
      assert r[..|filename|] == filename;
      assert r[|r| - |TxtSuffix|..] == TxtSuffix;
      r
  }

  /** Normalising a normalised name changes nothing. */
  lemma NormaliseIdempotent(filename: string)
    ensures NormaliseFilename(NormaliseFilename(filename)) == NormaliseFilename(filename)
  {
  }

  /** `add_document`: write the file, then cache the content under the
      normalised name. `written` is the outcome of the file write; a failed
      write raises its error unchanged and leaves the cache alone. */
  function AddDocument(c: Cache, filename: string, content: string, written: Outcome<string>)
    : (r: (Cache, Outcome<string>))
    ensures r.1 == written
    ensures written.Fail? ==> r.0 == c
    ensures written.Pass? ==> Lookup(r.0, NormaliseFilename(filename)) == Some(content)
    ensures written.Pass? ==> forall k :: k != NormaliseFilename(filename) ==> Lookup(r.0, k) == Lookup(c, k)
    ensures written.Pass? ==> |c| <= |r.0| <= |c| + 1 && Names(r.0)[..|c|] == Names(c)
  {
    match written
    case Fail(_) => (c, written)
    case Pass =>
      var name := NormaliseFilename(filename);
      forall k ensures Lookup(Put(c, name, content), k) == if k == name then Some(content) else Lookup(c, k) {
        PutLookup(c, name, content, k);
      }
      (Put(c, name, content), written)
  }

  /** `DocumentService()`: an empty cache followed by one load. */
  function NewDocumentService(listing: Listing): (c: Cache)
    ensures Names(c) == NewNames([], listing)
    ensures forall k :: Lookup(c, k) == if Supplies(listing, k) then LatestRead(listing, k) else None
  {
    var c := LoadDocuments([], listing);
    LoadNames([], listing);
    assert Names([]) == [];
    forall k ensures Lookup(c, k) == if Supplies(listing, k) then LatestRead(listing, k) else None {
      LoadLookup([], listing, k);
    }
    c
  }
}
