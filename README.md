# Speaker identification: a Dafny model

This project models the core of `pyannote/speaker_id.py`. That script is a JSON-over-stdin
helper. It enrolls voice profiles, keeps them in a profile directory, and resolves the
anonymous diarization labels of a transcript (`speaker_0`, `Speaker 1`, …) to enrolled
display names, with a confidence score for each label.

## What is modelled

- **Profile ids** (`ProfileIds`): `name.lower().replace(' ', '_')` followed by keeping only
  `isalnum()` characters and `_`.
- **The profile store** (`Profiles`):
  - The profiles directory is a map from directory name to `ProfileDir`. Each directory holds
    an embedding file and a metadata file, and each file is absent, corrupt or parsed.
  - A separate `listing` gives the order in which `iterdir` returns the directories.
  - `load_profiles` keeps the directories whose two files both parse. `list` keeps the
    directories whose metadata parses.
  - `update_profile_index` rebuilds `index.json`; it fails when any metadata file is corrupt.
  - Edits to the listing: insertion when a directory is created, removal when one is deleted.
- **Identification** (`Resolver`):
  - Labelling: a truthy `speaker_id`, else `speaker` with each `"Speaker "` rewritten as
    `"speaker_"`.
  - Grouping labels by first appearance.
  - A stable longest-first sort, with a maximum of three probes per speaker.
  - Probes shorter than a second are skipped.
  - A probe whose extraction raises is skipped. A comparison that raises ends that probe's
    scan, but the updates it already made are kept.
  - The strict `>` best-match scan, which starts from `(0, None)`.
  - The threshold decision, including the truthiness test on the best match.
- **The actions** (`Service.ProfileStore`): `enroll`, `identify`, `list` and `delete` are
  methods of a class whose fields are the store's state.
  - Enroll covers validation, directory creation, the failure cleanup and the index rebuild.
  - Delete covers the id lookup, the fallback scan by name, recursive removal and the index
    rebuild.
- **Dispatch** (`Dispatch`): the routing that `main` does on the `action` key, and its error
  kinds.

### Oracles

The embedding model is not modelled. The model takes it as inputs:
- whether `get_model` succeeds;
- the embedding that enrollment extracts, or `None` when extraction raises;
- for identification, an extractor from a time range to an embedding (`None` when it raises);
- a similarity function (`None` when `cosine_similarity` raises).

Timestamps (`datetime.utcnow().isoformat()`) and the audio duration are also parameters. So are
the existence of the audio file and the position at which a new directory appears in the
`iterdir` order.

### Behaviour of the code worth knowing

- The mapping is set only when the best display name is truthy and the best score is at least
  the threshold. A profile whose display name is empty never resolves a speaker.
- An unresolved speaker's confidence is the best score when that score is positive, else 0. The
  scan starts at 0 and only replaces the best on a strictly greater score, so "positive" and
  "some similarity was computed" differ when every similarity is at most 0.
- The index is not always a recomputation of the store. The rebuild loop in
  `update_profile_index` (lines 226-237) catches nothing, so one corrupt metadata file makes the
  whole rebuild raise. The `try` blocks around its calls then turn that into an error reply:
  - In `enroll`, the new directory is then removed and the result is `enrollment_error`.
  - In `delete`, the directory is already removed, the old index stays on disk, and the
    result is `delete_error`.
- The index lists every directory with a metadata file, including directories without an
  embedding.
- `enroll` with a name whose id is empty reports `profile_exists`. The reason is that
  `profiles_dir / ''` is the profiles directory, which has just been created.

## Model

| member | source | states |
|---|---|---|
| ProfileIds.LowerChar | pyannote/speaker_id.py:159 | the result of lowering one character is never upper case, and lowering keeps whether the character is alphanumeric |
| ProfileIds.Lower | pyannote/speaker_id.py:159 | same length as the input; each character is lowered at its own position |
| ProfileIds.ReplaceSpaces | pyannote/speaker_id.py:159 | same length as the input; each space becomes `_` and every other character stays |
| ProfileIds.KeepIdChars | pyannote/speaker_id.py:160 | the result is no longer than the input; every kept character is alphanumeric or `_` and comes from the input |
| ProfileIds.KeepIdCharsExact | pyannote/speaker_id.py:160 | a character occurs in the result iff it occurs in the input and is alphanumeric or `_` |
| ProfileIds.KeepIdCharsConcat | pyannote/speaker_id.py:160 | the filter distributes over concatenation |
| ProfileIds.ProfileIdChars | pyannote/speaker_id.py:159-160 | every character of a derived id is `a-z`, `0-9` or `_`; an id never holds a space |
| ProfileIds.ProfileIdConcat | pyannote/speaker_id.py:159-160 | the derived id of a concatenation is the concatenation of the derived ids |
| ProfileIds.SpaceBecomesUnderscore | pyannote/speaker_id.py:159-160 | a space between two parts of a name becomes `_` between their ids |
| ProfileIds.IdCharsFixed | pyannote/speaker_id.py:159-160 | a string made only of id characters is its own id |
| ProfileIds.ProfileIdIdempotent | pyannote/speaker_id.py:159-160 | deriving an id from an id gives the same id, so enroll and delete (which derives it again at lines 414-415) agree on the directory |
| ProfileIds.ProfileIdIgnoresCase | pyannote/speaker_id.py:159-160 | names that differ only by case get the same id |
| Profiles.LoadedExactlyComplete | pyannote/speaker_id.py:253-272 | a directory is loaded iff it is listed and both its embedding and its metadata parse; corrupt profiles are skipped; no id is loaded twice |
| Profiles.LoadedFromOwnDir | pyannote/speaker_id.py:264-268 | each loaded profile carries its own directory's embedding and metadata, and its display name is `display_name`, falling back to `name` |
| Profiles.LoadProfiles | pyannote/speaker_id.py:243-274 | the loop returns nothing when the profiles directory is missing, otherwise the in-order list of loadable profiles |
| Profiles.IndexFailsIffCorrupt | pyannote/speaker_id.py:226-237 | the rebuild fails iff some listed directory has a metadata file that does not parse |
| Profiles.IndexEntriesFromMetadata | pyannote/speaker_id.py:226-237 | each collected index entry summarises a listed directory whose metadata parsed |
| Profiles.IndexPathsExact | pyannote/speaker_id.py:226-235 | the collected paths are `n/` for exactly the listed directories `n` whose metadata parsed |
| Profiles.IndexPathsDistinct | pyannote/speaker_id.py:226-235 | no two collected index entries share a path when directory names are distinct |
| Profiles.IndexCoversMetadata | pyannote/speaker_id.py:218-240 | a rebuilt index has version `1.0`; it has an entry with path `n/` iff directory `n` is listed and its metadata parses; paths are distinct; each entry takes id, display name and creation time from its metadata, with the documented fallbacks |
| Profiles.IndexFailureSticks | pyannote/speaker_id.py:226-237 | once one directory makes the rebuild raise, the whole rebuild fails whatever follows it |
| Profiles.BuildIndex | pyannote/speaker_id.py:218-240 | the rebuild loop computes exactly the index of the current store, or fails as IndexOf does |
| Profiles.ListedExactlyParsed | pyannote/speaker_id.py:378-394 | `list` reports directory `n` iff `n` is listed and its metadata parses |
| Profiles.ListProfiles | pyannote/speaker_id.py:372-400 | the loop returns nothing when the profiles directory is missing, otherwise the in-order entries of the directories whose metadata parses |
| Profiles.Without | pyannote/speaker_id.py:440 | removing a directory from the listing keeps exactly the other names and keeps them distinct |
| Profiles.InsertAt | pyannote/speaker_id.py:166 | creating a directory adds exactly its name to the listing and keeps the names distinct |
| Profiles.WithoutInsertAt | pyannote/speaker_id.py:212-214 | removing a directory that was just created restores the listing exactly |
| Resolver.Rewrite | pyannote/speaker_id.py:315 | rewriting `Speaker ` as `speaker_` keeps the length of the label |
| Resolver.RewriteLeavesNoHumanPrefix | pyannote/speaker_id.py:315 | no `Speaker ` remains anywhere in a rewritten label |
| Resolver.RewriteHumanPrefix | pyannote/speaker_id.py:315 | a leading `Speaker ` becomes `speaker_` and the rest is rewritten in turn |
| Resolver.RewriteWithoutHumanPrefix | pyannote/speaker_id.py:315 | a label containing no `Speaker ` is left unchanged |
| Resolver.HumanSpeakerLabel | pyannote/speaker_id.py:315 | a segment without `speaker_id` whose speaker is `Speaker ` plus a plain suffix (`Speaker 2`) gets the label `speaker_` plus that suffix (`speaker_2`) |
| Resolver.LabelsExact | pyannote/speaker_id.py:313-318 | the speaker groups are exactly the labels that occur in the segments, each once |
| Resolver.GroupExact | pyannote/speaker_id.py:313-318 | a group is empty iff its label does not occur; every segment of a group carries that group's label |
| Resolver.GroupConcat | pyannote/speaker_id.py:314-318 | grouping keeps input order, so grouping a concatenation concatenates the groups |
| Resolver.SegmentInOwnGroup | pyannote/speaker_id.py:314-318 | every segment lands in the group of its own label |
| Resolver.GroupsPartition | pyannote/speaker_id.py:313-318 | the group sizes add up to the number of segments, so the groups partition the input |
| Resolver.GroupSegments | pyannote/speaker_id.py:313-318 | the grouping loop produces the labels in first-appearance order, a group for exactly those labels, and `Group(segs, k)` for each |
| Resolver.InsertByDurationPerm | pyannote/speaker_id.py:326 | inserting a segment into the sorted prefix permutes the input |
| Resolver.InsertByDurationSorted | pyannote/speaker_id.py:326 | inserting into a longest-first sequence keeps it longest first |
| Resolver.InsertByDurationStable | pyannote/speaker_id.py:326 | inserting keeps the input order among segments of equal duration |
| Resolver.SortByDurationProps | pyannote/speaker_id.py:326 | the sort is a permutation, longest first, and stable: segments of equal duration keep their input order |
| Resolver.CandidatesAreLongest | pyannote/speaker_id.py:326-332 | `min(3, n)` candidates are tried, longest first; with the untried segments they make up the group; no untried segment is longer than a candidate |
| Resolver.Retained | pyannote/speaker_id.py:336-338 | a candidate is probed iff it lasts at least one second |
| Resolver.Ranges | pyannote/speaker_id.py:333-342 | each probe is extracted over its own `(start, end)`, and missing times default to 0 |
| Resolver.BestIsMax | pyannote/speaker_id.py:328-350 | the running best score equals the reference maximum of 0 and all computed similarities |
| Resolver.BestIsFirstMaximum | pyannote/speaker_id.py:328-350 | the best score is at least 0 and bounds every similarity; it is positive iff some similarity is; then its name is that of the first similarity that reaches it; otherwise the scan ends at `(0, None)` |
| Resolver.ComputedConcat | pyannote/speaker_id.py:332-354 | the similarities of successive probes add up in the order computed |
| Resolver.FailedProbeIsolated | pyannote/speaker_id.py:336-354 | a probe that is too short or whose extraction raises contributes nothing and leaves the other probes' scores intact |
| Resolver.ComparisonFailureStops | pyannote/speaker_id.py:345-354 | a comparison that raises ends that probe's scan after the profiles before it |
| Resolver.ScanProbe | pyannote/speaker_id.py:345-354 | the loop over profiles for one probe ends with the running best of the earlier similarities followed by this probe's similarities, up to the first comparison that raises |
| Resolver.ScanCandidates | pyannote/speaker_id.py:332-354 | the loop over candidates ends with `(best_score, best_match)` equal to `Best` of all similarities computed for them, and extracts exactly the ranges of the candidates that last at least a second |
| Resolver.ScanSpeaker | pyannote/speaker_id.py:326-354 | the scan of one speaker ends with `Best` of all similarities computed for its three longest segments, and extracts exactly the retained candidates' ranges |
| Resolver.ResolveSpeaker | pyannote/speaker_id.py:326-363 | the scan and the threshold decision for one speaker give exactly that speaker's outcome, and the calls are its retained candidates' ranges |
| Resolver.ThresholdDecision | pyannote/speaker_id.py:356-363 | a speaker resolves iff the best match is truthy and the maximum similarity is at least the threshold (equality resolves); the resolved name is the best match; the confidence is the maximum, which is 0 when nothing was positive |
| Resolver.ComputedOfShort | pyannote/speaker_id.py:336-338 | probes all shorter than a second compute no similarity |
| Resolver.AllShortUnresolved | pyannote/speaker_id.py:336-363 | a speaker whose segments all last less than a second is unresolved with confidence 0, and nothing is extracted for it |
| Resolver.SingleProbeScenario | pyannote/speaker_id.py:345-363 | with one profile "Alice" and one probe scoring `s > 0`, the default threshold means the speaker is "Alice" with confidence `s` if `s >= 0.70` and unresolved with confidence `s` otherwise |
| Resolver.CallsAreLong | pyannote/speaker_id.py:336-342 | every range handed to extraction lasts at least one second |
| Resolver.ResolveSpeakers | pyannote/speaker_id.py:312-369 | the mapping and the confidence table have exactly one key per label; each entry is the decision for that label's group; the extraction calls are those of every group in order |
| Service.FindByName | pyannote/speaker_id.py:419-434 | a fallback match is a listed directory |
| Service.FindByNameNone | pyannote/speaker_id.py:419-437 | the scan finds nothing iff no listed directory has parsed metadata whose `name` or `display_name` matches ignoring case |
| Service.FindByNameFirst | pyannote/speaker_id.py:421-432 | a match the scan reports is the first matching directory in iteration order |
| Service.Lookup | pyannote/speaker_id.py:413-437 | corrected lookup: delete targets one existing profile directory, or reports not found or a missing store; it never targets the profiles directory |
| Service.EmptyIdDeleteWipesStore | pyannote/speaker_id.py:414-440 | as written, deleting `?!` (empty id) targets the profiles directory and removes every profile; the corrected lookup removes at most one directory |
| Service.ProfileStore.Enroll | pyannote/speaker_id.py:135-215 | missing name or audio path gives `validation_error`; a missing audio file gives `file_not_found`; both leave the store unchanged; `profile_exists` iff the id is empty or taken; `enrollment_error` iff extraction or the index rebuild fails, and the store is restored; otherwise the new profile and index are in place |
| Service.ProfileStore.CreateProfile | pyannote/speaker_id.py:166-215 | the `try` block either adds the directory with its embedding and metadata and the rebuilt index, or restores the store |
| Service.ProfileStore.RemoveNew | pyannote/speaker_id.py:210-214 | the cleanup restores the directories and listing from before the directory was created |
| Service.ProfileStore.Identify | pyannote/speaker_id.py:277-369 | validation and file errors come first; with no loadable profile the reply is empty and the model is never loaded; a model failure gives `model_error`; otherwise it is the resolution of every label against the loaded profiles at the given or default (0.70) threshold |
| Service.ProfileStore.List | pyannote/speaker_id.py:372-400 | `list` reports the entries of the directories whose metadata parses, or none when the store is missing |
| Service.ProfileStore.Delete | pyannote/speaker_id.py:403-449 | a missing name gives `validation_error`; not found gives `profile_not_found`; a missing store gives `unexpected_error`; otherwise exactly the target directory is removed, then the index is rebuilt or `delete_error` is reported |
| Service.IdIsNotIndexFile | pyannote/speaker_id.py:159-161 | a derived id never names `index.json` |
| Service.RemovedDirForgotten | pyannote/speaker_id.py:440-441 | after a delete, a successful index rebuild has no entry for the removed directory, and `list` no longer reports it |
| Service.EnrollIntoEmptyStore | pyannote/speaker_id.py:155-208 | enrolling "alice" into a missing store creates the store with the one profile `alice` |
| Service.EnrollAgain | pyannote/speaker_id.py:159-164 | enrolling "alice" again gives `profile_exists` and leaves the one profile |
| Dispatch.Route | pyannote/speaker_id.py:454-480 | blank input gives `input_error`; malformed JSON gives `json_error`; a routed action is the one whose name is the `action` key, which defaults to `check`; any other request gives `unknown_action` |
| Dispatch.RouteSelectsNamedAction | pyannote/speaker_id.py:462-473 | each action's name routes to that action, and a request without `action` is a `check` |
| Dispatch.RouteRejectsOthers | pyannote/speaker_id.py:473-475 | any `action` value that names no handler, `null` included, gives `unknown_action` |

## Left out

- `setup_check.py`, `check_dependencies` and the body of `action_check`: these only probe the
  Python environment. Only the routing to `check` is modelled.
- `get_model`, `extract_embedding` and the inside of `cosine_similarity` (norms, dot product,
  floating point, NaN): these are numeric library calls. They are oracles, as described above.
- Resolver.Retained: start and end times, durations and the threshold are exact reals. The
  double rounding of `end - start` is not modelled (0.13 to 1.13 lasts 0.9999999999999999 in
  Python and is skipped, but lasts exactly 1 here), nor is the binary value of `0.70`. So probe
  retention, the tie order of the duration sort and equality with the threshold can differ from
  the script at float boundaries; the same holds for Resolver.SortByDuration and
  Resolver.ThresholdDecision.
- Resolver.ThresholdDecision: the confidence is the raw best score, not `round(best_score, 3)`.
  The reason is that Python's float rounding is not modelled.
- `str.lower` and `str.isalnum` are modelled on ASCII only. Other Unicode letters and digits,
  which Python keeps, are dropped by this model's id derivation.
- File formats are not modelled: `np.save`/`np.load`, JSON writing with `indent=2`, and the
  `profile_path` string in the replies. Write failures are also out: the model assumes every
  write and `mkdir` succeeds, so the only failures are the ones listed above.
- Non-directory entries of the profiles directory other than `index.json` are not modelled.
- Concurrency is out: the check-then-act race between the existence tests and
  `mkdir`/`rmtree` cannot occur in a sequential model.
- Malformed values that make the script raise and report `unexpected_error` are not modelled.
  Examples: a non-string name, an explicit `null` start, end or speaker, a non-numeric or null
  threshold, a request that is a JSON array.
- The human-readable messages and the warnings written to stderr are not modelled; only error
  kinds are.
- `expand_path` (`~` expansion) is not modelled: paths are taken as given.
- Service.ProfileStore.Delete: is stated with the corrected lookup. The lookup as written is
  `Service.LookupAsWritten`; see Findings.

## Findings

| source | as written | input that shows it | evidently intended | confidence | as-written member | corrected member |
|---|---|---|---|---|---|---|
| pyannote/speaker_id.py:414-440 | `profile_path = profiles_dir / profile_id`; when the derived id is empty, this is the profiles directory itself. It exists, so the fallback scan is skipped and `shutil.rmtree` removes every enrolled profile | `{"action": "delete", "name": "?!"}` with any profiles enrolled | an empty id names no profile: fall back to the name scan, and report `profile_not_found` when nothing matches | high (not executed) | Service.EmptyIdDeleteWipesStore | Service.Lookup |
