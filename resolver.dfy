/** Speaker resolution (`action_identify`): group the diarized segments by
    local speaker label, pick up to three of each speaker's longest
    segments as probes, compare each probe's embedding with every loaded
    profile, keep the running best match, and apply the threshold.
    Embedding extraction and similarity are parameters: `extract` maps a
    time range to an embedding or None (it raised), `sim` compares two
    embeddings or gives None (it raised). */
module Resolver {
  import opened Wrappers
  import opened Profiles

  /** One segment of the request. An absent `start` or `end` reads as 0;
      `speakerId` is None when the key is absent or null, `speaker` when
      the key is absent. The transcript text is not used. */
  datatype Segment = Segment(start: Option<real>, end: Option<real>, speakerId: Option<string>, speaker: Option<string>)

  function Start(s: Segment): real { s.start.GetOr(0.0) }
  function End(s: Segment): real { s.end.GetOr(0.0) }

  /** `s.get('end', 0) - s.get('start', 0)` */
  function Duration(s: Segment): real { End(s) - Start(s) }

  const ProbeLimit := 3
  const MinProbeDuration := 1.0
  const DefaultThreshold := 0.70

  type Extractor = (real, real) -> Option<Embedding>
  type Similarity = (Embedding, Embedding) -> Option<real>

  // ---------------------------------------------------------------- labels

  const HumanPrefix := "Speaker "
  const LocalPrefix := "speaker_"

  /** `s.replace('Speaker ', 'speaker_')`: every occurrence, scanning left
      to right without overlap. */
  function Rewrite(s: string): (r: string)
    ensures |r| == |s|
    decreases |s|
  {
    if |s| < 8 then s
    else if s[..8] == HumanPrefix then LocalPrefix + Rewrite(s[8..])
    else [s[0]] + Rewrite(s[1..])
  }

  predicate HumanPrefixAt(s: string, i: int) {
    0 <= i && i + 8 <= |s| && s[i..i + 8] == HumanPrefix
  }

  /** Where the rewritten text holds no `s`, nothing was rewritten. */
  lemma {:induction false} RewriteKeepsPrefix(t: string, k: nat)
    requires k <= |t|
    requires forall j :: 0 <= j < k ==> Rewrite(t)[j] != 's'
    ensures Rewrite(t)[..k] == t[..k]
    decreases |t|
  {
    if k > 0 && |t| >= 8 {
      assert t[..8] == HumanPrefix ==> Rewrite(t)[0] == 's';
      assert Rewrite(t)[0] != 's';
      var r' := Rewrite(t[1..]);
      assert Rewrite(t) == [t[0]] + r';
      forall j | 0 <= j < k - 1 ensures r'[j] != 's' {
        assert r'[j] == Rewrite(t)[j + 1];
      }
      RewriteKeepsPrefix(t[1..], k - 1);
      assert Rewrite(t)[..k] == [t[0]] + r'[..k - 1];
      assert t[..k] == [t[0]] + t[1..][..k - 1];
    }
  }

  /** No `"Speaker "` is left after the rewrite. */
  lemma {:induction false} RewriteLeavesNoHumanPrefix(s: string)
    ensures forall i :: !HumanPrefixAt(Rewrite(s), i)
    decreases |s|
  {
    var r := Rewrite(s);
    if |s| >= 8 {
      if s[..8] == HumanPrefix {
        var r' := Rewrite(s[8..]);
        RewriteLeavesNoHumanPrefix(s[8..]);
        assert r == LocalPrefix + r';
        forall i ensures !HumanPrefixAt(r, i) {
          if 0 <= i < 8 && i + 8 <= |r| {
            assert r[i..i + 8][0] == LocalPrefix[i];
          } else if 8 <= i && i + 8 <= |r| {
            assert r[i..i + 8] == r'[i - 8..i];
            assert !HumanPrefixAt(r', i - 8);
          }
        }
      } else {
        var r' := Rewrite(s[1..]);
        RewriteLeavesNoHumanPrefix(s[1..]);
        assert r == [s[0]] + r';
        forall i ensures !HumanPrefixAt(r, i) {
          if i == 0 && 8 <= |r| {
            var w := r'[..7];
            assert r[..8] == [s[0]] + w;
            assert s[..8] == [s[0]] + s[1..][..7];
            if forall j :: 0 <= j < 7 ==> r'[j] != 's' {
              RewriteKeepsPrefix(s[1..], 7);
            } else {
              var j :| 0 <= j < 7 && r'[j] == 's';
              assert w[j] == 's';
              assert HumanPrefix[j + 1] != 's';
            }
          } else if 1 <= i && i + 8 <= |r| {
            assert r[i..i + 8] == r'[i - 1..i + 7];
            assert !HumanPrefixAt(r', i - 1);
          }
        }
      }
    }
  }

  /** A leading `"Speaker "` becomes `"speaker_"` and the scan goes on
      after it. */
  lemma RewriteHumanPrefix(t: string)
    ensures Rewrite(HumanPrefix + t) == LocalPrefix + Rewrite(t)
  {
    var s := HumanPrefix + t;
    assert s[..8] == HumanPrefix;
    assert s[8..] == t;
  }

  /** A text without any `"Speaker "` is left as it is. */
  lemma {:induction false} RewriteWithoutHumanPrefix(s: string)
    requires forall i :: !HumanPrefixAt(s, i)
    ensures Rewrite(s) == s
    decreases |s|
  {
    if |s| >= 8 {
      assert !HumanPrefixAt(s, 0);
      assert s[0..8] == s[..8];
      forall i ensures !HumanPrefixAt(s[1..], i) {
        if 0 <= i && i + 8 <= |s[1..]| {
          assert s[1..][i..i + 8] == s[i + 1..i + 9];
          assert !HumanPrefixAt(s, i + 1);
        }
      }
      RewriteWithoutHumanPrefix(s[1..]);
      assert s == [s[0]] + s[1..];
    }
  }

  /** The local label of a segment: a non-empty `speaker_id`, else the
      `speaker` field with `"Speaker "` rewritten to `"speaker_"`. */
  function Label(s: Segment): string {
    if s.speakerId.Some? && s.speakerId.value != "" then s.speakerId.value
    else Rewrite(s.speaker.GetOr(""))
  }

  /** A segment with no `speaker_id` whose `speaker` is `"Speaker "`
      followed by a plain suffix (`"Speaker 2"`, say) is labelled
      `"speaker_"` and that suffix (`"speaker_2"`). */
  lemma HumanSpeakerLabel(seg: Segment, t: string)
    requires seg.speakerId.None? || seg.speakerId == Some("")
    requires seg.speaker == Some(HumanPrefix + t)
    requires forall i :: !HumanPrefixAt(t, i)
    ensures Label(seg) == LocalPrefix + t
  {
    RewriteHumanPrefix(t);
    RewriteWithoutHumanPrefix(t);
  }

  // ---------------------------------------------------------------- grouping

  /** The distinct labels in order of first appearance (the key order of
      `speaker_segments`). */
  function Labels(segs: seq<Segment>): seq<string> {
    if segs == [] then []
    else
      var ls := Labels(segs[..|segs| - 1]);
      var k := Label(segs[|segs| - 1]);
      if k in ls then ls else ls + [k]
  }

  /** The segments labelled `k`, in request order. */
  function Group(segs: seq<Segment>, k: string): seq<Segment> {
    if segs == [] then []
    else
      var g := Group(segs[..|segs| - 1], k);
      if Label(segs[|segs| - 1]) == k then g + [segs[|segs| - 1]] else g
  }

  /** The labels are exactly those of the segments, each listed once. */
  lemma {:induction false} LabelsExact(segs: seq<Segment>)
    ensures forall k :: k in Labels(segs) <==> exists i :: 0 <= i < |segs| && Label(segs[i]) == k
    ensures Distinct(Labels(segs))
  {
    if segs != [] {
      var init := segs[..|segs| - 1];
      LabelsExact(init);
      var k := Label(segs[|segs| - 1]);
      assert forall i :: 0 <= i < |init| ==> init[i] == segs[i];
      if k !in Labels(init) {
        DistinctSnoc(Labels(init), k);
      }
    }
  }

  /** A group is empty exactly when its label does not occur, and every
      member of a group carries the group's label. */
  lemma {:induction false} GroupExact(segs: seq<Segment>, k: string)
    ensures Group(segs, k) == [] <==> k !in Labels(segs)
    ensures forall x :: x in Group(segs, k) ==> Label(x) == k
  {
    if segs != [] {
      GroupExact(segs[..|segs| - 1], k);
    }
  }

  /** Order inside a group is request order: grouping a concatenation
      concatenates the groups. */
  lemma {:induction false} GroupConcat(a: seq<Segment>, b: seq<Segment>, k: string)
    ensures Group(a + b, k) == Group(a, k) + Group(b, k)
    decreases |b|
  {
    if b == [] {
      assert a + b == a;
    } else {
      var b' := b[..|b| - 1];
      assert a + b == (a + b') + [b[|b| - 1]];
      assert (a + b)[..|a + b| - 1] == a + b';
      GroupConcat(a, b', k);
    }
  }

  /** Every segment is in the group of its own label. */
  lemma {:induction false} SegmentInOwnGroup(segs: seq<Segment>, i: nat)
    requires i < |segs|
    ensures segs[i] in Group(segs, Label(segs[i]))
  {
    assert segs == segs[..i] + segs[i..];
    assert segs[i..] == [segs[i]] + segs[i + 1..];
    GroupConcat(segs[..i], segs[i..], Label(segs[i]));
    GroupConcat([segs[i]], segs[i + 1..], Label(segs[i]));
    assert Group([segs[i]], Label(segs[i])) == [segs[i]];
  }

  /** Total size of the groups of `ks`. */
  function GroupSizes(segs: seq<Segment>, ks: seq<string>): nat {
    if ks == [] then 0 else GroupSizes(segs, ks[..|ks| - 1]) + |Group(segs, ks[|ks| - 1])|
  }

  lemma {:induction false} GroupSizesSnoc(segs: seq<Segment>, x: Segment, ks: seq<string>)
    requires Distinct(ks)
    ensures GroupSizes(segs + [x], ks) == GroupSizes(segs, ks) + if Label(x) in ks then 1 else 0
  {
    if ks != [] {
      var init := ks[..|ks| - 1];
      assert ks == init + [ks[|ks| - 1]];
      assert (segs + [x])[..|segs|] == segs;
      GroupSizesSnoc(segs, x, init);
    }
  }

  /** The groups partition the segments: their sizes add up to the number
      of segments, and (by GroupExact and SegmentInOwnGroup) each segment
      sits in the group of its label and in no other. */
  lemma {:induction false} GroupsPartition(segs: seq<Segment>)
    ensures GroupSizes(segs, Labels(segs)) == |segs|
  {
    if segs != [] {
      var init := segs[..|segs| - 1];
      var x := segs[|segs| - 1];
      assert segs == init + [x];
      GroupsPartition(init);
      LabelsExact(init);
      var ls := Labels(init);
      GroupSizesSnoc(init, x, ls);
      if Label(x) !in ls {
        GroupExact(init, Label(x));
        assert (ls + [Label(x)])[..|ls|] == ls;
      }
    }
  }

  /** `speaker_segments`: the loop that appends each segment to the list
      of its label, creating the list on first sight. */
  method GroupSegments(segs: seq<Segment>) returns (order: seq<string>, groups: map<string, seq<Segment>>)
    ensures order == Labels(segs)
    ensures forall k :: k in groups <==> k in order
    ensures forall k :: k in groups ==> groups[k] == Group(segs, k)
  {
    order, groups := [], map[];
    var i := 0;
    while i < |segs|
      invariant 0 <= i <= |segs|
      invariant order == Labels(segs[..i])
      invariant forall k :: k in groups <==> k in order
      invariant forall k :: k in groups ==> groups[k] == Group(segs[..i], k)
    {
      assert segs[..i + 1][..i] == segs[..i];
      var k := Label(segs[i]);
      if k !in groups {
        GroupExact(segs[..i], k);
        groups := groups[k := []];
        order := order + [k];
      }
      groups := groups[k := groups[k] + [segs[i]]];
      i := i + 1;
    }
    assert segs[..i] == segs;
  }

  // ---------------------------------------------------------------- probe selection

  /** Place `x` before the first element that is not strictly longer. */
  function InsertByDuration(x: Segment, t: seq<Segment>): seq<Segment> {
    if t == [] || Duration(t[0]) <= Duration(x) then [x] + t
    else [t[0]] + InsertByDuration(x, t[1..])
  }

  /** `sorted(segs, key=duration, reverse=True)`: a stable sort, longest first. */
  function SortByDuration(s: seq<Segment>): seq<Segment> {
    if s == [] then [] else InsertByDuration(s[0], SortByDuration(s[1..]))
  }

  predicate LongestFirst(s: seq<Segment>) {
    forall i, j :: 0 <= i < j < |s| ==> Duration(s[i]) >= Duration(s[j])
  }

  /** The segments of `s` of duration `d`, in order. */
  function OfDuration(s: seq<Segment>, d: real): seq<Segment> {
    if s == [] then []
    else if Duration(s[0]) == d then [s[0]] + OfDuration(s[1..], d)
    else OfDuration(s[1..], d)
  }

  lemma {:induction false} InsertByDurationPerm(x: Segment, t: seq<Segment>)
    ensures multiset(InsertByDuration(x, t)) == multiset([x] + t)
  {
    if t != [] && Duration(t[0]) > Duration(x) {
      InsertByDurationPerm(x, t[1..]);
      assert t == [t[0]] + t[1..];
    }
  }

  /** Inserting keeps every duration under a common bound. */
  lemma {:induction false} InsertByDurationBounded(x: Segment, t: seq<Segment>, d: real)
    requires Duration(x) <= d && forall i :: 0 <= i < |t| ==> Duration(t[i]) <= d
    ensures forall i :: 0 <= i < |InsertByDuration(x, t)| ==> Duration(InsertByDuration(x, t)[i]) <= d
  {
    if t != [] && Duration(t[0]) > Duration(x) {
      InsertByDurationBounded(x, t[1..], d);
    }
  }

  lemma {:induction false} InsertByDurationSorted(x: Segment, t: seq<Segment>)
    requires LongestFirst(t)
    ensures LongestFirst(InsertByDuration(x, t))
  {
    if t != [] && Duration(t[0]) > Duration(x) {
      InsertByDurationSorted(x, t[1..]);
      InsertByDurationBounded(x, t[1..], Duration(t[0]));
    }
  }

  lemma {:induction false} InsertByDurationStable(x: Segment, t: seq<Segment>, d: real)
    ensures OfDuration(InsertByDuration(x, t), d) == OfDuration([x] + t, d)
  {
    if t != [] && Duration(t[0]) > Duration(x) {
      InsertByDurationStable(x, t[1..], d);
      assert ([x] + t)[1..] == t;
      assert ([x] + t[1..])[1..] == t[1..];
    } else {
      assert InsertByDuration(x, t) == [x] + t;
    }
  }

  /** The sort keeps every segment, orders longest first and is stable:
      segments of equal duration keep their request order. */
  lemma {:induction false} SortByDurationProps(s: seq<Segment>)
    ensures multiset(SortByDuration(s)) == multiset(s)
    ensures |SortByDuration(s)| == |s|
    ensures LongestFirst(SortByDuration(s))
    ensures forall d :: OfDuration(SortByDuration(s), d) == OfDuration(s, d)
  {
    if s != [] {
      var t := SortByDuration(s[1..]);
      SortByDurationProps(s[1..]);
      InsertByDurationPerm(s[0], t);
      InsertByDurationSorted(s[0], t);
      assert s == [s[0]] + s[1..];
      forall d ensures OfDuration(SortByDuration(s), d) == OfDuration(s, d) {
        InsertByDurationStable(s[0], t, d);
        assert ([s[0]] + t)[1..] == t;
      }
    }
  }

  function Min(a: int, b: int): int { if a < b then a else b }

  /** `segs_sorted[:3]` */
  function Candidates(group: seq<Segment>): seq<Segment> {
    var s := SortByDuration(group);
    s[..Min(ProbeLimit, |s|)]
  }

  /** The segments of the group that are never tried. */
  function Unprobed(group: seq<Segment>): seq<Segment> {
    var s := SortByDuration(group);
    s[Min(ProbeLimit, |s|)..]
  }

  /** Cutting a longest-first sequence leaves no later segment longer
      than an earlier one. */
  lemma SplitLongest(s: seq<Segment>, k: nat)
    requires LongestFirst(s) && k <= |s|
    ensures LongestFirst(s[..k])
    ensures forall x, y :: x in s[..k] && y in s[k..] ==> Duration(y) <= Duration(x)
  {
    forall x, y | x in s[..k] && y in s[k..] ensures Duration(y) <= Duration(x) {
      var i :| 0 <= i < k && s[..k][i] == x;
      var j :| 0 <= j < |s| - k && s[k..][j] == y;
      assert s[i] == x && s[k + j] == y;
    }
  }

  /** At most three candidates are tried; together with the untried
      segments they are the whole group, and no untried segment is longer
      than any candidate. */
  lemma CandidatesAreLongest(group: seq<Segment>)
    ensures |Candidates(group)| == Min(ProbeLimit, |group|)
    ensures multiset(Candidates(group)) + multiset(Unprobed(group)) == multiset(group)
    ensures LongestFirst(Candidates(group))
    ensures forall x, y :: x in Candidates(group) && y in Unprobed(group) ==> Duration(y) <= Duration(x)
  {
    var s := SortByDuration(group);
    SortByDurationProps(group);
    var k := Min(ProbeLimit, |s|);
    assert s == s[..k] + s[k..];
    SplitLongest(s, k);
  }

  /** The candidates long enough to be tried (`end - start >= 1.0`). */
  function Retained(cands: seq<Segment>): (r: seq<Segment>)
    ensures forall x :: x in r <==> x in cands && Duration(x) >= MinProbeDuration
  {
    if cands == [] then []
    else
      var rest := Retained(cands[..|cands| - 1]);
      var x := cands[|cands| - 1];
      assert cands == cands[..|cands| - 1] + [x];
      if Duration(x) < MinProbeDuration then rest else rest + [x]
  }

  /** The time range handed to extraction for a probe. */
  function Ranges(ps: seq<Segment>): (r: seq<(real, real)>)
    ensures |r| == |ps| && forall i :: 0 <= i < |ps| ==> r[i] == (Start(ps[i]), End(ps[i]))
  {
    if ps == [] then [] else Ranges(ps[..|ps| - 1]) + [(Start(ps[|ps| - 1]), End(ps[|ps| - 1]))]
  }

  // ---------------------------------------------------------------- scoring

  /** A similarity and the display name of the profile it was computed
      against; also the running best `(best_score, best_match)`. */
  datatype Scored = Scored(score: real, name: Option<string>)

  /** The similarities of one probe embedding against the profiles, in
      order, up to the first comparison that raises. */
  function ProbeScores(e: Embedding, profiles: seq<LoadedProfile>, sim: Similarity): seq<Scored> {
    if profiles == [] then []
    else
      match sim(e, profiles[0].embedding)
      case None => []
      case Some(v) => [Scored(v, profiles[0].displayName)] + ProbeScores(e, profiles[1..], sim)
  }

  /** The similarities one candidate contributes: none when it is too
      short or its extraction raises. */
  function ScoresOf(seg: Segment, profiles: seq<LoadedProfile>, extract: Extractor, sim: Similarity): seq<Scored> {
    if Duration(seg) < MinProbeDuration then []
    else
      match extract(Start(seg), End(seg))
      case None => []
      case Some(e) => ProbeScores(e, profiles, sim)
  }

  /** Every similarity computed for a speaker, in the order computed. */
  function Computed(cands: seq<Segment>, profiles: seq<LoadedProfile>, extract: Extractor, sim: Similarity): seq<Scored> {
    if cands == [] then []
    else Computed(cands[..|cands| - 1], profiles, extract, sim) + ScoresOf(cands[|cands| - 1], profiles, extract, sim)
  }

  /** One step of the scan: `if similarity > best_score: ...` */
  function Step(b: Scored, x: Scored): Scored {
    if x.score > b.score then x else b
  }

  /** The running best after scanning `xs` from `(0, None)`. */
  function Best(xs: seq<Scored>): Scored {
    if xs == [] then Scored(0.0, None) else Step(Best(xs[..|xs| - 1]), xs[|xs| - 1])
  }

  function Max(a: real, b: real): real { if a >= b then a else b }

  /** The reference maximum of 0 and all scores. */
  function MaxScore(xs: seq<Scored>): real {
    if xs == [] then 0.0 else Max(xs[0].score, MaxScore(xs[1..]))
  }

  lemma {:induction false} MaxScoreSnoc(xs: seq<Scored>, x: Scored)
    ensures MaxScore(xs + [x]) == Max(MaxScore(xs), x.score)
  {
    if xs == [] {
      assert [] + [x] == [x];
      assert [x][1..] == [];
    } else {
      assert (xs + [x])[1..] == xs[1..] + [x];
      MaxScoreSnoc(xs[1..], x);
    }
  }

  /** The scan's best score is the maximum of 0 and every computed
      similarity. */
  lemma {:induction false} BestIsMax(xs: seq<Scored>)
    ensures Best(xs).score == MaxScore(xs)
  {
    if xs != [] {
      var init := xs[..|xs| - 1];
      assert xs == init + [xs[|xs| - 1]];
      BestIsMax(init);
      MaxScoreSnoc(init, xs[|xs| - 1]);
    }
  }

  /** The best score bounds every similarity and is positive iff one is;
      when positive, the best match is that of the first similarity to
      reach it (ties keep the earlier one); otherwise there is no match. */
  lemma {:induction false} BestIsFirstMaximum(xs: seq<Scored>)
    ensures Best(xs).score >= 0.0
    ensures forall i :: 0 <= i < |xs| ==> xs[i].score <= Best(xs).score
    ensures Best(xs).score > 0.0 <==> exists i :: 0 <= i < |xs| && xs[i].score > 0.0
    ensures Best(xs).score > 0.0 ==>
              exists i :: 0 <= i < |xs| && xs[i] == Best(xs) && forall j :: 0 <= j < i ==> xs[j].score < xs[i].score
    ensures Best(xs).score <= 0.0 ==> Best(xs) == Scored(0.0, None)
  {
    if xs != [] {
      var init := xs[..|xs| - 1];
      var x := xs[|xs| - 1];
      assert xs == init + [x];
      BestIsFirstMaximum(init);
      var b := Best(init);
      if x.score > b.score {
        assert xs[|xs| - 1] == Best(xs);
        assert forall j :: 0 <= j < |xs| - 1 ==> xs[j] == init[j];
      } else {
        assert forall j :: 0 <= j < |xs| - 1 ==> xs[j] == init[j];
        if b.score > 0.0 {
          var i :| 0 <= i < |init| && init[i] == b && forall j :: 0 <= j < i ==> init[j].score < init[i].score;
          assert xs[i] == Best(xs);
        }
      }
    }
  }

  lemma ComputedSnoc(c: seq<Segment>, x: Segment, profiles: seq<LoadedProfile>, extract: Extractor, sim: Similarity)
    ensures Computed(c + [x], profiles, extract, sim) == Computed(c, profiles, extract, sim) + ScoresOf(x, profiles, extract, sim)
  {
    assert (c + [x])[..|c|] == c;
  }

  lemma AppendAssoc(ca: seq<Scored>, cb: seq<Scored>, sx: seq<Scored>, cab: seq<Scored>, cab': seq<Scored>, cb': seq<Scored>)
    requires cab == ca + cb && cab' == cab + sx && cb' == cb + sx
    ensures cab' == ca + cb'
  {
  }

  lemma {:induction false} ComputedConcat(a: seq<Segment>, b: seq<Segment>, profiles: seq<LoadedProfile>, extract: Extractor, sim: Similarity)
    ensures Computed(a + b, profiles, extract, sim) == Computed(a, profiles, extract, sim) + Computed(b, profiles, extract, sim)
    decreases |b|
  {
    if b == [] {
      assert a + b == a;
    } else {
      var b', x := b[..|b| - 1], b[|b| - 1];
      assert a + b == (a + b') + [x] && b == b' + [x];
      ComputedConcat(a, b', profiles, extract, sim);
      ComputedSnoc(a + b', x, profiles, extract, sim);
      ComputedSnoc(b', x, profiles, extract, sim);
      AppendAssoc(Computed(a, profiles, extract, sim), Computed(b', profiles, extract, sim), ScoresOf(x, profiles, extract, sim),
                  Computed(a + b', profiles, extract, sim), Computed(a + b, profiles, extract, sim), Computed(b, profiles, extract, sim));
    }
  }

  /** A probe that is too short or whose extraction raises adds nothing,
      and the probes around it are scored as if it were not there. */
  lemma FailedProbeIsolated(a: seq<Segment>, p: Segment, b: seq<Segment>, profiles: seq<LoadedProfile>, extract: Extractor, sim: Similarity)
    requires Duration(p) < MinProbeDuration || extract(Start(p), End(p)).None?
    ensures Computed(a + [p] + b, profiles, extract, sim) == Computed(a, profiles, extract, sim) + Computed(b, profiles, extract, sim)
  {
    ComputedConcat(a + [p], b, profiles, extract, sim);
    ComputedSnoc(a, p, profiles, extract, sim);
  }

  /** A comparison that raises ends that probe's scores: nothing after it
      is computed for the probe. */
  lemma {:induction false} ComparisonFailureStops(e: Embedding, profiles: seq<LoadedProfile>, sim: Similarity, j: nat)
    requires j < |profiles| && sim(e, profiles[j].embedding).None?
    ensures ProbeScores(e, profiles, sim) == ProbeScores(e, profiles[..j], sim)
  {
    if j > 0 {
      assert profiles[..j][1..] == profiles[1..][..j - 1];
      ComparisonFailureStops(e, profiles[1..], sim, j - 1);
    }
  }

  predicate NoFailure(e: Embedding, profiles: seq<LoadedProfile>, sim: Similarity) {
    forall i :: 0 <= i < |profiles| ==> sim(e, profiles[i].embedding).Some?
  }

  lemma {:induction false} ProbeScoresSnoc(e: Embedding, profiles: seq<LoadedProfile>, sim: Similarity, j: nat)
    requires j < |profiles| && NoFailure(e, profiles[..j + 1], sim)
    ensures ProbeScores(e, profiles[..j + 1], sim) ==
            ProbeScores(e, profiles[..j], sim) + [Scored(sim(e, profiles[j].embedding).value, profiles[j].displayName)]
  {
    if j > 0 {
      assert profiles[..j + 1][1..] == profiles[1..][..j];
      assert profiles[..j][1..] == profiles[1..][..j - 1];
      assert NoFailure(e, profiles[1..][..j], sim) by {
        forall i | 0 <= i < j ensures profiles[1..][..j][i] == profiles[..j + 1][i + 1] { }
      }
      ProbeScoresSnoc(e, profiles[1..], sim, j - 1);
    } else {
      assert profiles[..1][1..] == [];
    }
  }

  lemma NoFailureSnoc(e: Embedding, profiles: seq<LoadedProfile>, sim: Similarity, j: nat)
    requires j < |profiles| && NoFailure(e, profiles[..j], sim) && sim(e, profiles[j].embedding).Some?
    ensures NoFailure(e, profiles[..j + 1], sim)
  {
    var pre := profiles[..j + 1];
    forall k | 0 <= k < j + 1 ensures sim(e, pre[k].embedding).Some? {
      if k < j { assert pre[k] == profiles[..j][k]; }
    }
  }

  /** The inner loop of the scan for one probe embedding `e`: compare it
      with every profile in order, updating the running best on a strictly
      greater similarity; a comparison that raises abandons the probe.
      `seen` are the similarities scanned before, and `b` their best. */
  method ScanProbe(e: Embedding, profiles: seq<LoadedProfile>, sim: Similarity, ghost seen: seq<Scored>, b: Scored)
    returns (best: Scored)
    requires b == Best(seen)
    ensures best == Best(seen + ProbeScores(e, profiles, sim))
  {
    best := b;
    ghost var cur := seen;
    var j := 0;
    while j < |profiles|
      invariant 0 <= j <= |profiles|
      invariant NoFailure(e, profiles[..j], sim)
      invariant cur == seen + ProbeScores(e, profiles[..j], sim)
      invariant best == Best(cur)
    {
      var s := sim(e, profiles[j].embedding);
      if s.None? {
        ComparisonFailureStops(e, profiles, sim, j);
        return;
      }
      var x := Scored(s.value, profiles[j].displayName);
      if x.score > best.score {
        best := x;
      }
      NoFailureSnoc(e, profiles, sim, j);
      ProbeScoresSnoc(e, profiles, sim, j);
      assert (cur + [x])[..|cur|] == cur;
      cur := cur + [x];
      j := j + 1;
    }
    assert profiles[..j] == profiles;
  }

  lemma RangesRetainedSnoc(c: seq<Segment>, x: Segment)
    ensures Ranges(Retained(c + [x])) ==
              Ranges(Retained(c)) + if Duration(x) >= MinProbeDuration then [(Start(x), End(x))] else []
  {
    assert (c + [x])[..|c|] == c;
    var r := Retained(c);
    if Duration(x) >= MinProbeDuration {
      assert (r + [x])[..|r|] == r;
    }
  }

  /** The probe loop of the scan over candidates `cands`: each one that
      lasts at least a second has its embedding extracted and scanned
      against the profiles; a probe whose extraction raises is skipped.
      `calls` lists the ranges handed to extraction. */
  method ScanCandidates(cands: seq<Segment>, profiles: seq<LoadedProfile>, extract: Extractor, sim: Similarity)
    returns (best: Scored, calls: seq<(real, real)>)
    ensures best == Best(Computed(cands, profiles, extract, sim))
    ensures calls == Ranges(Retained(cands))
  {
    best := Scored(0.0, None);
    calls := [];
    var i := 0;
    while i < |cands|
      invariant 0 <= i <= |cands|
      invariant best == Best(Computed(cands[..i], profiles, extract, sim))
      invariant calls == Ranges(Retained(cands[..i]))
    {
      var seg := cands[i];
      assert cands[..i + 1] == cands[..i] + [seg];
      RangesRetainedSnoc(cands[..i], seg);
      ComputedSnoc(cands[..i], seg, profiles, extract, sim);
      ghost var seen := Computed(cands[..i], profiles, extract, sim);
      ghost var scores := ScoresOf(seg, profiles, extract, sim);
      var start, end := Start(seg), End(seg);
      if end - start >= MinProbeDuration {
        calls := calls + [(start, end)];
        var emb := extract(start, end);
        if emb.Some? {
          assert scores == ProbeScores(emb.value, profiles, sim);
          best := ScanProbe(emb.value, profiles, sim, seen, best);
        } else {
          assert scores == [] && seen + scores == seen;
        }
      } else {
        assert scores == [] && seen + scores == seen;
      }
      assert best == Best(seen + scores);
      i := i + 1;
    }
    assert cands[..i] == cands;
  }

  /** The per-speaker scan: the first three segments of the group,
      longest first, are the candidates. */
  method ScanSpeaker(group: seq<Segment>, profiles: seq<LoadedProfile>, extract: Extractor, sim: Similarity)
    returns (best: Scored, calls: seq<(real, real)>)
    ensures best == Best(Computed(Candidates(group), profiles, extract, sim))
    ensures calls == Ranges(Retained(Candidates(group)))
  {
    best, calls := ScanCandidates(Candidates(group), profiles, extract, sim);
  }

  // ---------------------------------------------------------------- decision

  /** What the response says about one speaker. */
  datatype Outcome = Outcome(mapping: Option<string>, confidence: real)

  /** A truthy display name: present and non-empty. */
  predicate Truthy(name: Option<string>) { name.Some? && name.value != "" }

  /** `if best_match and best_score >= threshold: ...` */
  function Decide(best: Scored, threshold: real): Outcome {
    if Truthy(best.name) && best.score >= threshold then Outcome(best.name, best.score)
    else Outcome(None, if best.score > 0.0 then best.score else 0.0)
  }

  /** The outcome for one speaker group. */
  function SpeakerOutcome(group: seq<Segment>, profiles: seq<LoadedProfile>, threshold: real, extract: Extractor, sim: Similarity): Outcome {
    Decide(Best(Computed(Candidates(group), profiles, extract, sim)), threshold)
  }

  /** A speaker resolves to a name iff the first profile to reach the
      maximum similarity has a truthy display name and that maximum is at
      least the threshold (a score equal to the threshold resolves); the
      confidence is that maximum, or 0 when no similarity was positive. */
  lemma ThresholdDecision(group: seq<Segment>, profiles: seq<LoadedProfile>, threshold: real, extract: Extractor, sim: Similarity)
    ensures var xs := Computed(Candidates(group), profiles, extract, sim);
            var o := SpeakerOutcome(group, profiles, threshold, extract, sim);
            && (o.mapping.Some? <==> Truthy(Best(xs).name) && MaxScore(xs) >= threshold)
            && (o.mapping.Some? ==> o.mapping == Best(xs).name && MaxScore(xs) > 0.0)
            && o.confidence == MaxScore(xs)
            && (o.mapping.None? && MaxScore(xs) > 0.0 ==> !Truthy(Best(xs).name) || MaxScore(xs) < threshold)
  {
    var xs := Computed(Candidates(group), profiles, extract, sim);
    BestIsMax(xs);
    BestIsFirstMaximum(xs);
  }

  lemma {:induction false} ComputedOfShort(cands: seq<Segment>, profiles: seq<LoadedProfile>, extract: Extractor, sim: Similarity)
    requires forall x :: x in cands ==> Duration(x) < MinProbeDuration
    ensures Computed(cands, profiles, extract, sim) == []
  {
    if cands != [] {
      assert cands[|cands| - 1] in cands;
      assert forall x :: x in cands[..|cands| - 1] ==> x in cands;
      ComputedOfShort(cands[..|cands| - 1], profiles, extract, sim);
    }
  }

  /** A speaker whose segments all last less than a second is unresolved
      with confidence 0, and nothing is extracted for it. */
  lemma AllShortUnresolved(group: seq<Segment>, profiles: seq<LoadedProfile>, threshold: real, extract: Extractor, sim: Similarity)
    requires forall x :: x in group ==> Duration(x) < MinProbeDuration
    ensures SpeakerOutcome(group, profiles, threshold, extract, sim) == Outcome(None, 0.0)
    ensures Retained(Candidates(group)) == []
  {
    CandidatesAreLongest(group);
    forall x | x in Candidates(group) ensures Duration(x) < MinProbeDuration {
      assert x in multiset(group);
    }
    ComputedOfShort(Candidates(group), profiles, extract, sim);
    if Retained(Candidates(group)) != [] {
      assert Retained(Candidates(group))[0] in Retained(Candidates(group));
    }
  }

  // ---------------------------------------------------------------- whole request

  /** One profile "Alice" and a speaker with one probe of at least a
      second whose embedding scores `s > 0` against hers: under the default
      threshold the speaker is "Alice" with confidence `s` when `s >= 0.70`
      (0.82, say) and stays unresolved with confidence `s` otherwise
      (0.55, say). */
  lemma SingleProbeScenario(seg: Segment, alice: LoadedProfile, extract: Extractor, sim: Similarity, e: Embedding, s: real)
    requires alice.displayName == Some("Alice")
    requires Duration(seg) >= MinProbeDuration && extract(Start(seg), End(seg)) == Some(e)
    requires sim(e, alice.embedding) == Some(s) && s > 0.0
    ensures SpeakerOutcome([seg], [alice], DefaultThreshold, extract, sim) ==
              if s >= DefaultThreshold then Outcome(Some("Alice"), s) else Outcome(None, s)
  {
    assert SortByDuration([seg]) == [seg] by {
      assert [seg][..0] == [];
    }
    assert Candidates([seg]) == [seg];
    assert ProbeScores(e, [alice], sim) == [Scored(s, Some("Alice"))];
    var xs := [Scored(s, Some("Alice"))];
    assert Computed([seg], [alice], extract, sim) == xs by {
      assert [seg][..0] == [];
    }
    assert Best(xs) == Scored(s, Some("Alice")) by {
      assert xs[..0] == [];
    }
  }

  /** The extraction ranges for the speakers `ks`, in order. */
  function AllCalls(segs: seq<Segment>, ks: seq<string>): seq<(real, real)> {
    if ks == [] then []
    else AllCalls(segs, ks[..|ks| - 1]) + Ranges(Retained(Candidates(Group(segs, ks[|ks| - 1]))))
  }

  /** Extraction is only ever asked for ranges of at least a second. */
  lemma {:induction false} CallsAreLong(segs: seq<Segment>, ks: seq<string>)
    ensures forall c :: c in AllCalls(segs, ks) ==> c.1 - c.0 >= MinProbeDuration
  {
    if ks != [] {
      CallsAreLong(segs, ks[..|ks| - 1]);
      var ps := Retained(Candidates(Group(segs, ks[|ks| - 1])));
      forall c | c in Ranges(ps) ensures c.1 - c.0 >= MinProbeDuration {
        var i :| 0 <= i < |ps| && Ranges(ps)[i] == c;
        assert ps[i] in ps;
      }
    }
  }

  lemma AllCallsSnoc(segs: seq<Segment>, ks: seq<string>, k: string)
    ensures AllCalls(segs, ks + [k]) == AllCalls(segs, ks) + Ranges(Retained(Candidates(Group(segs, k))))
  {
    assert (ks + [k])[..|ks|] == ks;
  }

  /** One speaker of the per-speaker loop: scan its group and decide. */
  method ResolveSpeaker(group: seq<Segment>, profiles: seq<LoadedProfile>, threshold: real, extract: Extractor, sim: Similarity)
    returns (o: Outcome, calls: seq<(real, real)>)
    ensures o == SpeakerOutcome(group, profiles, threshold, extract, sim)
    ensures calls == Ranges(Retained(Candidates(group)))
  {
    var best;
    best, calls := ScanSpeaker(group, profiles, extract, sim);
    o := Decide(best, threshold);
  }

  /** The grouping and the per-speaker loop of `action_identify`, once the
      profiles are loaded and the model is available: one mapping entry
      and one confidence entry per label, and no other keys. */
  method ResolveSpeakers(segs: seq<Segment>, profiles: seq<LoadedProfile>, threshold: real, extract: Extractor, sim: Similarity)
    returns (mapping: map<string, Option<string>>, confidence: map<string, real>, calls: seq<(real, real)>)
    ensures forall k :: k in mapping <==> k in Labels(segs)
    ensures forall k :: k in confidence <==> k in Labels(segs)
    ensures forall k :: k in mapping ==>
              Outcome(mapping[k], confidence[k]) == SpeakerOutcome(Group(segs, k), profiles, threshold, extract, sim)
    ensures calls == AllCalls(segs, Labels(segs))
  {
    var order, groups := GroupSegments(segs);
    mapping, confidence, calls := map[], map[], [];
    var i := 0;
    while i < |order|
      invariant 0 <= i <= |order|
      invariant forall k :: k in mapping <==> k in order[..i]
      invariant forall k :: k in confidence <==> k in order[..i]
      invariant forall k :: k in mapping ==>
                  Outcome(mapping[k], confidence[k]) == SpeakerOutcome(Group(segs, k), profiles, threshold, extract, sim)
      invariant calls == AllCalls(segs, order[..i])
    {
      var k := order[i];
      PrefixSnoc(order, i);
      AllCallsSnoc(segs, order[..i], k);
      var o, c := ResolveSpeaker(groups[k], profiles, threshold, extract, sim);
      mapping := mapping[k := o.mapping];
      confidence := confidence[k := o.confidence];
      calls := calls + c;
      i := i + 1;
    }
    assert order[..i] == order;
  }
}
