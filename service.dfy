/** The actions that touch the profile store — `enroll`, `identify`,
    `list` and `delete` — as methods of the store they read and change.
    Model loading and embedding extraction are inputs: whether the model
    loads, the embedding enrollment extracts (None when it raises), and
    the extractor and similarity used by identification. */
module Service {
  import opened Wrappers
  import opened Protocol
  import opened ProfileIds
  import opened Profiles
  import opened Resolver

  const EmbeddingVersion := "pyannote/embedding@3.1"

  datatype Enrolled = Enrolled(profileId: string, name: string, sampleDurationSeconds: Option<real>)

  /** A successful `identify` response; `noProfiles` marks the early reply
      "No speaker profiles enrolled". */
  datatype Identified = Identified(mapping: map<string, Option<string>>, confidence: map<string, real>, noProfiles: bool)

  datatype Deleted = Deleted(name: string, dirName: string)

  /** The metadata file enrollment writes; `createdAt` is the UTC time in
      ISO form, to which a `Z` is appended. */
  function EnrollMetadata(name: string, id: string, createdAt: string, duration: Option<real>, audioPath: string): Metadata {
    Metadata(Str(name), Str(name), Str(id), Str(createdAt + "Z"), duration, Str(EmbeddingVersion), Str(audioPath))
  }

  // ---------------------------------------------------------------- delete lookup

  /** Whether a directory's metadata names `name`, ignoring case: the
      stored name (empty when absent) matches, or else the stored display
      name (empty when absent) does. None when evaluating it raises (a null
      field has no `lower`), which the scan catches and skips. */
  function NameMatches(m: Metadata, name: string): Option<bool> {
    var want := Lower(name);
    if m.name.Null? then None
    else if Lower(if m.name.Str? then m.name.s else "") == want then Some(true)
    else if m.displayName.Null? then None
    else Some(Lower(if m.displayName.Str? then m.displayName.s else "") == want)
  }

  predicate Matches(d: ProfileDir, name: string) {
    d.metadata.Parsed? && NameMatches(d.metadata.value, name) == Some(true)
  }

  /** The fallback scan: the first directory, in iteration order, whose
      metadata names `name`. */
  function FindByName(listing: seq<string>, dirs: map<string, ProfileDir>, name: string): (r: Option<string>)
    requires Within(listing, dirs)
    ensures r.Some? ==> r.value in listing
  {
    if listing == [] then None
    else if Matches(dirs[listing[0]], name) then Some(listing[0])
    else FindByName(listing[1..], dirs, name)
  }

  /** The scan reports no match exactly when no listed directory matches. */
  lemma {:induction false} FindByNameNone(listing: seq<string>, dirs: map<string, ProfileDir>, name: string)
    requires Within(listing, dirs)
    ensures FindByName(listing, dirs, name).None? <==> forall i :: 0 <= i < |listing| ==> !Matches(dirs[listing[i]], name)
  {
    if listing != [] {
      assert forall n :: n in listing[1..] ==> n in listing;
      FindByNameNone(listing[1..], dirs, name);
      assert forall i :: 0 < i < |listing| ==> listing[i] == listing[1..][i - 1];
    }
  }

  /** A match the scan reports is the first matching directory in
      iteration order; `i` is its position. */
  lemma {:induction false} FindByNameFirst(listing: seq<string>, dirs: map<string, ProfileDir>, name: string) returns (i: nat)
    requires Within(listing, dirs)
    requires FindByName(listing, dirs, name).Some?
    ensures i < |listing| && listing[i] == FindByName(listing, dirs, name).value
    ensures Matches(dirs[listing[i]], name)
    ensures forall j :: 0 <= j < i ==> !Matches(dirs[listing[j]], name)
  {
    if Matches(dirs[listing[0]], name) {
      i := 0;
    } else {
      var tail := listing[1..];
      assert forall n :: n in tail ==> n in listing;
      var k := FindByNameFirst(tail, dirs, name);
      i := k + 1;
      forall j | 0 <= j < i ensures !Matches(dirs[listing[j]], name) {
        if j > 0 { assert listing[j] == tail[j - 1]; }
      }
    }
  }

  /** What `profile_path` ends up naming in `action_delete`. */
  datatype Target =
    | StoreRoot          // the profiles directory itself
    | Dir(name: string)  // one profile directory
    | NotFound
    | NoStore            // the scan's `iterdir` raises: no profiles directory

  /** The corrected lookup: the derived id when it names a directory,
      else the name scan. */
  function Lookup(name: string, present: bool, dirs: map<string, ProfileDir>, listing: seq<string>): (t: Target)
    requires Within(listing, dirs)
    ensures t.Dir? ==> t.name in dirs
    ensures t != StoreRoot
  {
    var id := ProfileId(name);
    if id != "" && id in dirs then Dir(id)
    else if !present then NoStore
    else
      match FindByName(listing, dirs, name)
      case Some(n) => Dir(n)
      case None => NotFound
  }

  /** The lookup as written: `profiles_dir / profile_id` with an empty
      id is the profiles directory itself, which exists whenever the
      store does. */
  function LookupAsWritten(name: string, present: bool, dirs: map<string, ProfileDir>, listing: seq<string>): Target
    requires Within(listing, dirs)
  {
    if ProfileId(name) == "" && present then StoreRoot else Lookup(name, present, dirs, listing)
  }

  /** The store left behind by `shutil.rmtree(profile_path)`:
      (whether the profiles directory exists, its directories). */
  function Removed(t: Target, present: bool, dirs: map<string, ProfileDir>): (bool, map<string, ProfileDir>) {
    match t
    case StoreRoot => (false, map[])
    case Dir(n) => (present, dirs - {n})
    case _ => (present, dirs)
  }

  /** As written, deleting a name made only of characters that the id
      derivation drops (here "?!") removes the whole profiles directory,
      every profile with it; the corrected lookup removes at most the one
      directory whose metadata names it. */
  lemma EmptyIdDeleteWipesStore(dirs: map<string, ProfileDir>, listing: seq<string>)
    requires Within(listing, dirs) && dirs != map[]
    ensures ProfileId("?!") == ""
    ensures LookupAsWritten("?!", true, dirs, listing) == StoreRoot
    ensures Removed(LookupAsWritten("?!", true, dirs, listing), true, dirs) == (false, map[])
    ensures var (p, d) := Removed(Lookup("?!", true, dirs, listing), true, dirs);
            p && |d| >= |dirs| - 1
  {
  }

  // ---------------------------------------------------------------- the store

  /** The profiles directory: whether it exists, its sub-directories by
      name, the order in which `iterdir` returns them, and `index.json`. */
  class ProfileStore {
    var present: bool
    var dirs: map<string, ProfileDir>
    var listing: seq<string>
    var index: Option<Index>

    ghost predicate Valid()
      reads this
    {
      && IsListing(listing, dirs)
      && "" !in dirs
      && IndexFile !in dirs
      && (!present ==> dirs == map[] && index == None)
    }

    /** The store as found on disk. */
    constructor (present: bool, dirs: map<string, ProfileDir>, listing: seq<string>, index: Option<Index>)
      requires IsListing(listing, dirs) && "" !in dirs && IndexFile !in dirs
      requires !present ==> dirs == map[] && index == None
      ensures Valid()
      ensures this.present == present && this.dirs == dirs && this.listing == listing && this.index == index
    {
      this.present, this.dirs, this.listing, this.index := present, dirs, listing, index;
    }

    /** `action_enroll`. `embedding` is what loading the model and
        extracting the whole file's embedding give (None when either
        raises); `pos` is where the new directory appears in the listing. */
    method Enroll(name: string, audioPath: string, audioExists: bool, embedding: Option<Embedding>,
                  duration: Option<real>, createdAt: string, pos: nat)
      returns (r: Result<Enrolled, ErrorKind>)
      requires Valid()
      modifies this
      ensures Valid()
      ensures name == "" || audioPath == "" ==> r == Err(ValidationError) && unchanged(this)
      ensures name != "" && audioPath != "" && !audioExists ==> r == Err(FileNotFound) && unchanged(this)
      ensures present == (old(present) || (name != "" && audioPath != "" && audioExists))
      ensures r.Err? ==> dirs == old(dirs) && listing == old(listing) && index == old(index)
      ensures r == Err(ProfileExists) <==>
                name != "" && audioPath != "" && audioExists && (ProfileId(name) == "" || ProfileId(name) in old(dirs))
      ensures var id := ProfileId(name);
              var dirs' := old(dirs)[id := ProfileDir(Parsed(embedding.GetOr([])), Parsed(EnrollMetadata(name, id, createdAt, duration, audioPath)))];
              var listing' := InsertAt(old(listing), pos, id);
              var ready := name != "" && audioPath != "" && audioExists && id != "" && id !in old(dirs);
              && (r == Err(EnrollmentError) <==> ready && (embedding.None? || IndexOf(listing', dirs').None?))
              && (r.Ok? <==> ready && embedding.Some? && IndexOf(listing', dirs').Some?)
              && (r.Ok? ==> r.value == Enrolled(id, name, duration) && dirs == dirs' && listing == listing' &&
                            index == IndexOf(listing', dirs'))
    {
      if name == "" || audioPath == "" {
        return Err(ValidationError);
      }
      if !audioExists {
        return Err(FileNotFound);
      }
      present := true;
      var id := ProfileId(name);
      if id == "" || id in dirs {
        return Err(ProfileExists);
      }
      IdIsNotIndexFile(name);
      var ok := CreateProfile(id, embedding, EnrollMetadata(name, id, createdAt, duration, audioPath), pos);
      if !ok {
        return Err(EnrollmentError);
      }
      return Ok(Enrolled(id, name, duration));
    }

    /** The `try` block of `action_enroll`: create the directory, write
        the embedding and the metadata, rebuild the index; when extraction
        or the rebuild raises, remove the directory again. */
    method CreateProfile(id: string, embedding: Option<Embedding>, meta: Metadata, pos: nat) returns (ok: bool)
      requires Valid() && present && id != "" && id != IndexFile && id !in dirs
      modifies this`dirs, this`listing, this`index
      ensures Valid()
      ensures var dirs' := old(dirs)[id := ProfileDir(Parsed(embedding.GetOr([])), Parsed(meta))];
              var listing' := InsertAt(old(listing), pos, id);
              && ok == (embedding.Some? && IndexOf(listing', dirs').Some?)
              && (ok ==> dirs == dirs' && listing == listing' && index == IndexOf(listing', dirs'))
              && (!ok ==> dirs == old(dirs) && listing == old(listing) && index == old(index))
    {
      ghost var dirs0, listing0 := dirs, listing;
      dirs := dirs[id := ProfileDir(Absent, Absent)];
      listing := InsertAt(listing, pos, id);
      if embedding.None? {
        RemoveNew(dirs0, listing0, pos, id);
        return false;
      }
      dirs := dirs[id := ProfileDir(Parsed(embedding.value), Absent)];
      dirs := dirs[id := ProfileDir(Parsed(embedding.value), Parsed(meta))];
      assert dirs == dirs0[id := ProfileDir(Parsed(embedding.GetOr([])), Parsed(meta))];
      var built := BuildIndex(listing, dirs);
      if built.None? {
        RemoveNew(dirs0, listing0, pos, id);
        return false;
      }
      index := built;
      return true;
    }

    /** `shutil.rmtree(profile_path)` on the directory enrollment has just
        created, restoring the store's directories and listing. */
    method RemoveNew(ghost dirs0: map<string, ProfileDir>, ghost listing0: seq<string>, ghost pos: nat, id: string)
      requires id !in dirs0 && id in dirs && id !in listing0
      requires dirs == dirs0[id := dirs[id]] && listing == InsertAt(listing0, pos, id)
      modifies this`dirs, this`listing
      ensures dirs == dirs0 && listing == listing0
    {
      dirs := dirs - {id};
      listing := Without(listing, id);
      WithoutInsertAt(listing0, pos, id);
      assert dirs == dirs0;
    }

    /** `action_identify` from the validation of the audio path on.
        `modelOk` says whether `get_model` succeeds; `threshold` is None
        when the request has none. `modelLoaded` records whether the model
        was requested and `calls` every range handed to extraction. */
    method Identify(audioPath: string, audioExists: bool, threshold: Option<real>, modelOk: bool,
                    segs: seq<Segment>, extract: Extractor, sim: Similarity)
      returns (r: Result<Identified, ErrorKind>, modelLoaded: bool, calls: seq<(real, real)>)
      requires Valid()
      ensures audioPath == "" ==> r == Err(ValidationError)
      ensures audioPath != "" && !audioExists ==> r == Err(FileNotFound)
      ensures modelLoaded <==> audioPath != "" && audioExists && present && Loaded(listing, dirs) != []
      ensures !modelLoaded ==> calls == []
      ensures audioPath != "" && audioExists && !modelLoaded ==> r == Ok(Identified(map[], map[], true))
      ensures modelLoaded && !modelOk ==> r == Err(ModelError) && calls == []
      ensures modelLoaded && modelOk ==>
                var profiles := Loaded(listing, dirs);
                var t := threshold.GetOr(DefaultThreshold);
                && r.Ok? && !r.value.noProfiles
                && (forall k :: k in r.value.mapping <==> k in Labels(segs))
                && (forall k :: k in r.value.confidence <==> k in Labels(segs))
                && (forall k :: k in r.value.mapping ==>
                      Outcome(r.value.mapping[k], r.value.confidence[k]) == SpeakerOutcome(Group(segs, k), profiles, t, extract, sim))
                && calls == AllCalls(segs, Labels(segs))
    {
      modelLoaded, calls := false, [];
      if audioPath == "" {
        return Err(ValidationError), modelLoaded, calls;
      }
      if !audioExists {
        return Err(FileNotFound), modelLoaded, calls;
      }
      var profiles := LoadProfiles(present, listing, dirs);
      if profiles == [] {
        return Ok(Identified(map[], map[], true)), modelLoaded, calls;
      }
      modelLoaded := true;
      if !modelOk {
        return Err(ModelError), modelLoaded, calls;
      }
      var mapping, confidence;
      mapping, confidence, calls := ResolveSpeakers(segs, profiles, threshold.GetOr(DefaultThreshold), extract, sim);
      r := Ok(Identified(mapping, confidence, false));
    }

    /** `action_list` */
    method List() returns (entries: seq<ListEntry>)
      requires Valid()
      ensures entries == if present then Listed(listing, dirs) else []
    {
      entries := ListProfiles(present, listing, dirs);
    }

    /** `action_delete`, with the corrected lookup (see LookupAsWritten for
        the lookup as written). */
    method Delete(name: string) returns (r: Result<Deleted, ErrorKind>)
      requires Valid()
      modifies this
      ensures Valid()
      ensures name == "" ==> r == Err(ValidationError) && unchanged(this)
      ensures present == old(present)
      ensures var t := Lookup(name, old(present), old(dirs), old(listing));
              && (name != "" && t == NotFound ==> r == Err(ProfileNotFound) && unchanged(this))
              && (name != "" && t == NoStore ==> r == Err(UnexpectedError) && unchanged(this))
              && (name != "" && t.Dir? ==>
                    && dirs == old(dirs) - {t.name}
                    && listing == Without(old(listing), t.name)
                    && (r.Ok? <==> IndexOf(listing, dirs).Some?)
                    && (r.Ok? ==> r.value == Deleted(name, t.name) && index == IndexOf(listing, dirs))
                    && (r.Err? ==> r.error == DeleteError && index == old(index)))
    {
      if name == "" {
        return Err(ValidationError);
      }
      var t := Lookup(name, present, dirs, listing);
      match t {
        case NotFound =>
          return Err(ProfileNotFound);
        case NoStore =>
          return Err(UnexpectedError);
        case Dir(n) =>
          dirs := dirs - {n};
          listing := Without(listing, n);
          var built := BuildIndex(listing, dirs);
          if built.None? {
            return Err(DeleteError);
          }
          index := built;
          return Ok(Deleted(name, n));
      }
    }
  }

  /** A derived id never names the index file: it holds no `.`. */
  lemma IdIsNotIndexFile(name: string)
    ensures ProfileId(name) != IndexFile
  {
    ProfileIdChars(name);
    assert !IsIdChar(IndexFile[5]);
  }

  /** After a directory is removed, a successful rebuild has no entry for
      it and the listing does not report it. */
  lemma RemovedDirForgotten(listing: seq<string>, dirs: map<string, ProfileDir>, n: string)
    requires IsListing(listing, dirs)
    ensures Within(Without(listing, n), dirs - {n})
    ensures IndexOf(Without(listing, n), dirs - {n}).Some? ==>
              n + "/" !in Paths(IndexOf(Without(listing, n), dirs - {n}).value.profiles)
    ensures forall e :: e in Listed(Without(listing, n), dirs - {n}) ==> e.id != n
  {
    var l, d := Without(listing, n), dirs - {n};
    if IndexOf(l, d).Some? {
      IndexCoversMetadata(l, d);
    }
    if exists e :: e in Listed(l, d) && e.id == n {
      ListedExactlyParsed(l, d, n);
    }
  }

  /** "alice" is its own id, and enrolling it into an empty store makes
      the listing `["alice"]`. */
  lemma AliceIsOwnId()
    ensures ProfileId("alice") == "alice"
    ensures InsertAt([], 0, "alice") == ["alice"]
  {
    IdCharsFixed("alice");
    assert InsertAt([], 0, "alice") == ["alice"];
  }

  /** The index rebuild after enrolling "alice" into an empty store
      succeeds: no metadata file is corrupt. */
  lemma AliceIndexBuilds(e: Embedding, createdAt: string, audioPath: string)
    ensures IndexOf(["alice"], map["alice" := ProfileDir(Parsed(e), Parsed(EnrollMetadata("alice", "alice", createdAt, None, audioPath)))]).Some?
  {
    var d := map["alice" := ProfileDir(Parsed(e), Parsed(EnrollMetadata("alice", "alice", createdAt, None, audioPath)))];
    IndexFailsIffCorrupt(["alice"], d);
  }

  /** A caller's view of enrolling the same name twice: into an empty
      store the name enrolls; once its directory exists, enrolling it
      again reports `profile_exists` and leaves the one profile. */
  method EnrollIntoEmptyStore(e: Embedding) returns (store: ProfileStore)
    ensures store.Valid() && store.dirs.Keys == {"alice"}
  {
    store := new ProfileStore(false, map[], [], None);
    AliceIsOwnId();
    AliceIndexBuilds(e, "2024-01-01T00:00:00", "a.wav");
    var r := store.Enroll("alice", "a.wav", true, Some(e), None, "2024-01-01T00:00:00", 0);
  }

  method EnrollAgain(store: ProfileStore, e: Embedding) returns (r: Result<Enrolled, ErrorKind>)
    requires store.Valid() && store.dirs.Keys == {"alice"}
    modifies store
    ensures r == Err(ProfileExists)
    ensures store.Valid() && store.dirs.Keys == {"alice"}
  {
    AliceIsOwnId();
    r := store.Enroll("alice", "b.wav", true, Some(e), None, "2024-01-02T00:00:00", 0);
  }
}
