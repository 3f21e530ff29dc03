/** The profile store as it sits on disk: one directory per profile, each
    holding `embedding.npy` and `metadata.json`, plus the derived
    `index.json`. This module states what reading the store yields:
    the profiles `load_profiles` keeps, the index `update_profile_index`
    rebuilds and the entries `action_list` reports. */
module Profiles {
  import opened Wrappers
  import opened Protocol

  /** An embedding vector as stored in `embedding.npy`; its arithmetic is
      never inspected here. */
  type Embedding = seq<real>

  /** One file of a profile directory: not there, there but unreadable
      (a failed `np.load`, invalid JSON, JSON that is not an object), or
      read successfully. */
  datatype FileState<T> = Absent | Corrupt | Parsed(value: T)

  /** The fields of `metadata.json` that the helper writes and reads. */
  datatype Metadata = Metadata(
    name: JsonStr,
    displayName: JsonStr,
    profileId: JsonStr,
    createdAt: JsonStr,
    sampleDurationSeconds: Option<real>,
    embeddingVersion: JsonStr,
    sourceFile: JsonStr)

  /** A sub-directory of the profiles directory. */
  datatype ProfileDir = ProfileDir(embedding: FileState<Embedding>, metadata: FileState<Metadata>)

  const IndexFile := "index.json"
  const IndexVersion := "1.0"

  /** No element occurs twice. */
  predicate Distinct<T(==)>(s: seq<T>) {
    s == [] || (s[|s| - 1] !in s[..|s| - 1] && Distinct(s[..|s| - 1]))
  }

  lemma DistinctSnoc<T>(s: seq<T>, x: T)
    requires Distinct(s) && x !in s
    ensures Distinct(s + [x])
  {
    assert (s + [x])[..|s|] == s;
  }

  /** A prefix one element longer. */
  lemma PrefixSnoc<T>(s: seq<T>, i: nat)
    requires i < |s|
    ensures s[..i + 1] == s[..i] + [s[i]]
    ensures s[..i + 1][..i] == s[..i]
  {
  }

  lemma {:induction false} DistinctConcat<T>(a: seq<T>, b: seq<T>)
    ensures Distinct(a + b) <==> Distinct(a) && Distinct(b) && forall x :: x in a ==> x !in b
    decreases |b|
  {
    if b == [] {
      assert a + b == a;
    } else {
      var b' := b[..|b| - 1];
      var x := b[|b| - 1];
      assert a + b == (a + b') + [x];
      assert (a + b)[..|a + b| - 1] == a + b';
      assert b == b' + [x];
      DistinctConcat(a, b');
    }
  }

  /** Every name of `listing` is a directory of `dirs`. */
  predicate Within(listing: seq<string>, dirs: map<string, ProfileDir>) {
    forall n :: n in listing ==> n in dirs
  }

  /** `listing` is an order in which `iterdir` may return the directories. */
  predicate IsListing(listing: seq<string>, dirs: map<string, ProfileDir>) {
    Distinct(listing) && Within(listing, dirs) && forall n :: n in dirs ==> n in listing
  }

  /** A JSON field as Python sees it after `get`: a string or `None`. */
  function ToStr(j: JsonStr): Option<string> {
    if j.Str? then Some(j.s) else None
  }

  /** `metadata.get('display_name', metadata.get('name'))` */
  function DisplayName(m: Metadata): Option<string> {
    ToStr(Get(m.displayName, m.name))
  }

  // ---------------------------------------------------------------- load_profiles

  /** A profile as `load_profiles` returns it, keyed by its directory name. */
  datatype LoadedProfile = LoadedProfile(id: string, embedding: Embedding, displayName: Option<string>, metadata: Metadata)

  /** Both files of the directory exist and parse. */
  predicate Complete(d: ProfileDir) {
    d.embedding.Parsed? && d.metadata.Parsed?
  }

  function LoadEntry(n: string, d: ProfileDir): LoadedProfile
    requires Complete(d)
  {
    LoadedProfile(n, d.embedding.value, DisplayName(d.metadata.value), d.metadata.value)
  }

  /** The profiles `load_profiles` keeps, in iteration order. */
  function Loaded(listing: seq<string>, dirs: map<string, ProfileDir>): seq<LoadedProfile>
    requires Within(listing, dirs)
  {
    if listing == [] then []
    else
      var n := listing[|listing| - 1];
      var rest := Loaded(listing[..|listing| - 1], dirs);
      if Complete(dirs[n]) then rest + [LoadEntry(n, dirs[n])] else rest
  }

  function Ids(ps: seq<LoadedProfile>): (r: seq<string>)
    ensures |r| == |ps| && forall i :: 0 <= i < |ps| ==> r[i] == ps[i].id
  {
    if ps == [] then [] else Ids(ps[..|ps| - 1]) + [ps[|ps| - 1].id]
  }

  /** Exactly the complete directories are loaded, each once; a corrupt
      or half-written directory is skipped without affecting the others. */
  lemma {:induction false} LoadedExactlyComplete(listing: seq<string>, dirs: map<string, ProfileDir>)
    requires Within(listing, dirs) && Distinct(listing)
    ensures forall n :: n in Ids(Loaded(listing, dirs)) <==> n in listing && Complete(dirs[n])
    ensures Distinct(Ids(Loaded(listing, dirs)))
  {
    if listing != [] {
      var init := listing[..|listing| - 1];
      var n := listing[|listing| - 1];
      assert listing == init + [n];
      LoadedExactlyComplete(init, dirs);
      var rest := Loaded(init, dirs);
      if Complete(dirs[n]) {
        assert Ids(rest + [LoadEntry(n, dirs[n])]) == Ids(rest) + [n];
        DistinctSnoc(Ids(rest), n);
      }
    }
  }

  /** Each loaded profile carries its own directory's embedding and
      display name. */
  lemma {:induction false} LoadedFromOwnDir(listing: seq<string>, dirs: map<string, ProfileDir>)
    requires Within(listing, dirs)
    ensures forall p :: p in Loaded(listing, dirs) ==>
              p.id in dirs && Complete(dirs[p.id]) && p == LoadEntry(p.id, dirs[p.id])
  {
    if listing != [] {
      var init := listing[..|listing| - 1];
      assert listing == init + [listing[|listing| - 1]];
      LoadedFromOwnDir(init, dirs);
    }
  }

  /** `load_profiles`: an absent profiles directory loads nothing. */
  method LoadProfiles(present: bool, listing: seq<string>, dirs: map<string, ProfileDir>)
    returns (profiles: seq<LoadedProfile>)
    requires IsListing(listing, dirs)
    ensures profiles == if present then Loaded(listing, dirs) else []
  {
    profiles := [];
    if !present {
      return;
    }
    var i := 0;
    while i < |listing|
      invariant 0 <= i <= |listing|
      invariant profiles == Loaded(listing[..i], dirs)
    {
      assert listing[..i + 1][..i] == listing[..i];
      var d := dirs[listing[i]];
      if d.embedding.Parsed? && d.metadata.Parsed? {
        profiles := profiles + [LoadEntry(listing[i], d)];
      }
      i := i + 1;
    }
    assert listing[..i] == listing;
  }

  // ---------------------------------------------------------------- update_profile_index

  datatype IndexEntry = IndexEntry(id: Option<string>, displayName: Option<string>, path: string, createdAt: Option<string>)

  /** The contents of `index.json`. */
  datatype Index = Index(version: string, profiles: seq<IndexEntry>)

  /** The summary of one directory whose metadata parsed. */
  function IndexEntryOf(n: string, m: Metadata): IndexEntry {
    IndexEntry(ToStr(Get(m.profileId, Str(n))), DisplayName(m), n + "/", ToStr(m.createdAt))
  }

  /** The entries `update_profile_index` collects, or None when reading a
      metadata file raises (nothing in that loop catches it). */
  function IndexEntries(listing: seq<string>, dirs: map<string, ProfileDir>): Option<seq<IndexEntry>>
    requires Within(listing, dirs)
  {
    if listing == [] then Some([])
    else
      var n := listing[|listing| - 1];
      match IndexEntries(listing[..|listing| - 1], dirs)
      case None => None
      case Some(es) =>
        match dirs[n].metadata
        case Absent => Some(es)
        case Corrupt => None
        case Parsed(m) => Some(es + [IndexEntryOf(n, m)])
  }

  function IndexOf(listing: seq<string>, dirs: map<string, ProfileDir>): Option<Index>
    requires Within(listing, dirs)
  {
    match IndexEntries(listing, dirs)
    case None => None
    case Some(es) => Some(Index(IndexVersion, es))
  }

  function Paths(es: seq<IndexEntry>): (r: seq<string>)
    ensures |r| == |es| && forall i :: 0 <= i < |es| ==> r[i] == es[i].path
  {
    if es == [] then [] else Paths(es[..|es| - 1]) + [es[|es| - 1].path]
  }

  lemma PathIsName(n: string, m: string)
    requires n + "/" == m + "/"
    ensures n == m
  {
    assert n == (n + "/")[..|n|];
    assert m == (m + "/")[..|m|];
  }

  /** The rebuild fails exactly when some listed metadata file is corrupt. */
  lemma {:induction false} IndexFailsIffCorrupt(listing: seq<string>, dirs: map<string, ProfileDir>)
    requires Within(listing, dirs)
    ensures IndexOf(listing, dirs).None? <==> exists n :: n in listing && dirs[n].metadata.Corrupt?
  {
    if listing != [] {
      var init := listing[..|listing| - 1];
      assert listing == init + [listing[|listing| - 1]];
      assert forall m :: m in init ==> m in listing;
      IndexFailsIffCorrupt(init, dirs);
    }
  }

  /** Each collected entry summarises a listed directory whose metadata
      parsed. */
  lemma {:induction false} IndexEntriesFromMetadata(listing: seq<string>, dirs: map<string, ProfileDir>)
    requires Within(listing, dirs) && IndexEntries(listing, dirs).Some?
    ensures forall e :: e in IndexEntries(listing, dirs).value ==>
              exists n :: n in listing && dirs[n].metadata.Parsed? && e == IndexEntryOf(n, dirs[n].metadata.value)
  {
    if listing != [] {
      var init := listing[..|listing| - 1];
      assert listing == init + [listing[|listing| - 1]];
      assert forall m :: m in init ==> m in listing;
      IndexEntriesFromMetadata(init, dirs);
    }
  }

  /** The collected paths are `<dir>/` for exactly the listed directories
      whose metadata parsed. */
  lemma {:induction false} IndexPathsExact(listing: seq<string>, dirs: map<string, ProfileDir>)
    requires Within(listing, dirs) && IndexEntries(listing, dirs).Some?
    ensures forall m :: m + "/" in Paths(IndexEntries(listing, dirs).value) <==>
              m in listing && dirs[m].metadata.Parsed?
  {
    if listing != [] {
      var init := listing[..|listing| - 1];
      var n := listing[|listing| - 1];
      assert listing == init + [n];
      assert forall m :: m in init ==> m in listing;
      IndexPathsExact(init, dirs);
      var es := IndexEntries(init, dirs).value;
      if dirs[n].metadata.Parsed? {
        var e := IndexEntryOf(n, dirs[n].metadata.value);
        assert Paths(es + [e]) == Paths(es) + [n + "/"];
        forall m | m + "/" == n + "/" ensures m == n {
          PathIsName(m, n);
        }
      }
    }
  }

  /** No two collected entries share a path. */
  lemma {:induction false} IndexPathsDistinct(listing: seq<string>, dirs: map<string, ProfileDir>)
    requires Within(listing, dirs) && Distinct(listing) && IndexEntries(listing, dirs).Some?
    ensures Distinct(Paths(IndexEntries(listing, dirs).value))
  {
    if listing != [] {
      var init := listing[..|listing| - 1];
      var n := listing[|listing| - 1];
      assert forall m :: m in init ==> m in listing;
      IndexPathsDistinct(init, dirs);
      var es := IndexEntries(init, dirs).value;
      if dirs[n].metadata.Parsed? {
        var e := IndexEntryOf(n, dirs[n].metadata.value);
        assert Paths(es + [e]) == Paths(es) + [n + "/"];
        IndexPathsExact(init, dirs);
        DistinctSnoc(Paths(es), n + "/");
      }
    }
  }

  /** A successful rebuild has version "1.0" and one entry per listed
      directory that has a metadata file, in iteration order, with path
      `<dir>/` and `id` defaulting to the directory name. */
  lemma IndexCoversMetadata(listing: seq<string>, dirs: map<string, ProfileDir>)
    requires Within(listing, dirs) && Distinct(listing)
    requires IndexOf(listing, dirs).Some?
    ensures IndexOf(listing, dirs).value.version == "1.0"
    ensures forall n :: n + "/" in Paths(IndexOf(listing, dirs).value.profiles) <==>
              n in listing && dirs[n].metadata.Parsed?
    ensures Distinct(Paths(IndexOf(listing, dirs).value.profiles))
    ensures forall e :: e in IndexOf(listing, dirs).value.profiles ==>
              exists n :: n in listing && dirs[n].metadata.Parsed? && e == IndexEntryOf(n, dirs[n].metadata.value)
  {
    IndexEntriesFromMetadata(listing, dirs);
    IndexPathsExact(listing, dirs);
    IndexPathsDistinct(listing, dirs);
  }

  /** A failure partway through the scan fails the whole rebuild. */
  lemma {:induction false} IndexFailureSticks(listing: seq<string>, dirs: map<string, ProfileDir>, i: nat)
    requires Within(listing, dirs) && i <= |listing|
    requires IndexEntries(listing[..i], dirs).None?
    ensures IndexEntries(listing, dirs).None?
    decreases |listing| - i
  {
    if i < |listing| {
      assert listing[..i + 1][..i] == listing[..i];
      IndexFailureSticks(listing, dirs, i + 1);
    } else {
      assert listing[..i] == listing;
    }
  }

  /** `update_profile_index`, up to writing the file: the index it
      builds, or None when it raises. */
  method BuildIndex(listing: seq<string>, dirs: map<string, ProfileDir>) returns (r: Option<Index>)
    requires Within(listing, dirs)
    ensures r == IndexOf(listing, dirs)
  {
    var entries: seq<IndexEntry> := [];
    var i := 0;
    while i < |listing|
      invariant 0 <= i <= |listing|
      invariant IndexEntries(listing[..i], dirs) == Some(entries)
    {
      assert listing[..i + 1][..i] == listing[..i];
      var n := listing[i];
      match dirs[n].metadata {
        case Absent =>
        case Corrupt =>
          IndexFailureSticks(listing, dirs, i + 1);
          return None;
        case Parsed(m) =>
          entries := entries + [IndexEntryOf(n, m)];
      }
      i := i + 1;
    }
    assert listing[..i] == listing;
    r := Some(Index(IndexVersion, entries));
  }

  // ---------------------------------------------------------------- action_list

  /** One entry of the `list` response. */
  datatype ListEntry = ListEntry(
    id: string,
    name: Option<string>,
    displayName: Option<string>,
    createdAt: Option<string>,
    sampleDurationSeconds: Option<real>)

  function ListEntryOf(n: string, m: Metadata): ListEntry {
    ListEntry(n, ToStr(m.name), ToStr(m.displayName), ToStr(m.createdAt), m.sampleDurationSeconds)
  }

  /** What `action_list` reports: every directory whose metadata parses,
      skipping unreadable ones. */
  function Listed(listing: seq<string>, dirs: map<string, ProfileDir>): seq<ListEntry>
    requires Within(listing, dirs)
  {
    if listing == [] then []
    else
      var n := listing[|listing| - 1];
      var rest := Listed(listing[..|listing| - 1], dirs);
      if dirs[n].metadata.Parsed? then rest + [ListEntryOf(n, dirs[n].metadata.value)] else rest
  }

  /** A directory is listed iff its metadata parses. */
  lemma {:induction false} ListedExactlyParsed(listing: seq<string>, dirs: map<string, ProfileDir>, n: string)
    requires Within(listing, dirs)
    ensures (exists e :: e in Listed(listing, dirs) && e.id == n) <==> n in listing && dirs[n].metadata.Parsed?
  {
    if listing != [] {
      var init := listing[..|listing| - 1];
      var last := listing[|listing| - 1];
      assert listing == init + [last];
      assert forall m :: m in init ==> m in listing;
      ListedExactlyParsed(init, dirs, n);
      if dirs[last].metadata.Parsed? && last == n {
        assert ListEntryOf(n, dirs[n].metadata.value) in Listed(listing, dirs);
      }
    }
  }

  /** `action_list` over an existing or absent profiles directory. */
  method ListProfiles(present: bool, listing: seq<string>, dirs: map<string, ProfileDir>)
    returns (entries: seq<ListEntry>)
    requires IsListing(listing, dirs)
    ensures entries == if present then Listed(listing, dirs) else []
  {
    entries := [];
    if !present {
      return;
    }
    var i := 0;
    while i < |listing|
      invariant 0 <= i <= |listing|
      invariant entries == Listed(listing[..i], dirs)
    {
      assert listing[..i + 1][..i] == listing[..i];
      var n := listing[i];
      if dirs[n].metadata.Parsed? {
        entries := entries + [ListEntryOf(n, dirs[n].metadata.value)];
      }
      i := i + 1;
    }
    assert listing[..i] == listing;
  }

  // ---------------------------------------------------------------- listing updates

  /** The listing once directory `n` is removed. */
  function Without(listing: seq<string>, n: string): (r: seq<string>)
    ensures forall m :: m in r <==> m in listing && m != n
    ensures Distinct(listing) ==> Distinct(r)
  {
    if listing == [] then []
    else
      var init := listing[..|listing| - 1];
      var last := listing[|listing| - 1];
      assert listing == init + [last];
      var rest := Without(init, n);
      if last == n then rest
      else
        assert Distinct(listing) ==> last !in rest;
        assert (rest + [last])[..|rest|] == rest;
        rest + [last]
  }

  /** The listing once directory `n` is created, at position `pos`. */
  function InsertAt(listing: seq<string>, pos: nat, n: string): (r: seq<string>)
    ensures forall m :: m in r <==> m in listing || m == n
    ensures Distinct(listing) && n !in listing ==> Distinct(r)
  {
    var k := if pos <= |listing| then pos else |listing|;
    SplitDistinct(listing, k, n);
    listing[..k] + [n] + listing[k..]
  }

  lemma SplitDistinct(listing: seq<string>, k: nat, n: string)
    requires k <= |listing|
    ensures Distinct(listing) && n !in listing ==> Distinct(listing[..k] + [n] + listing[k..])
  {
    assert listing == listing[..k] + listing[k..];
    DistinctConcat(listing[..k], listing[k..]);
    DistinctConcat(listing[..k] + [n], listing[k..]);
    if Distinct(listing) && n !in listing {
      DistinctSnoc(listing[..k], n);
    }
  }

  lemma {:induction false} WithoutAbsent(listing: seq<string>, n: string)
    requires n !in listing
    ensures Without(listing, n) == listing
  {
    if listing != [] {
      var init := listing[..|listing| - 1];
      assert listing == init + [listing[|listing| - 1]];
      WithoutAbsent(init, n);
    }
  }

  lemma {:induction false} WithoutConcat(a: seq<string>, b: seq<string>, n: string)
    ensures Without(a + b, n) == Without(a, n) + Without(b, n)
    decreases |b|
  {
    if b == [] {
      assert a + b == a;
    } else {
      var b' := b[..|b| - 1];
      var x := b[|b| - 1];
      assert a + b == (a + b') + [x];
      assert b == b' + [x];
      WithoutConcat(a, b', n);
    }
  }

  /** Removing a directory just inserted restores the listing. */
  lemma WithoutInsertAt(listing: seq<string>, pos: nat, n: string)
    requires n !in listing
    ensures Without(InsertAt(listing, pos, n), n) == listing
  {
    var k := if pos <= |listing| then pos else |listing|;
    var pre, suf := listing[..k], listing[k..];
    assert listing == pre + suf;
    assert InsertAt(listing, pos, n) == (pre + [n]) + suf;
    WithoutConcat(pre + [n], suf, n);
    WithoutConcat(pre, [n], n);
    assert [n] == [] + [n];
    WithoutAbsent(pre, n);
    WithoutAbsent(suf, n);
  }
}
