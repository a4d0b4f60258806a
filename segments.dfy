/** `speaker_segments_extract.py`: per audio file, the diarization tracks are
    summed per speaker, the speaker with the longest total is taken as the
    target, and that speaker's turns are exported as numbered chunks. The
    diarization itself is an input (a track list); times are integer
    milliseconds. */
module SpeakerSegments {
  import opened Wrappers
  import opened Strings

  const AudiosPath := "G:/My Drive/Voice_Clone/training_audios/raw/"

  /** `audios_path.replace("raw", "segments")`. */
  function SegmentsPath(audiosPath: string): string {
    ReplaceAll(audiosPath, "raw", "segments")
  }

  /** `segments_path + audio_name`: plain concatenation, no separator added. */
  function OutDir(segmentsPath: string, audioName: string): string {
    segmentsPath + audioName
  }

  /** Each "raw" becomes "segments"; for `.../raw/` with no other "raw",
      the segments directory sits beside the raw one. */
  lemma SegmentsPathOf(a: string, rest: string)
    requires !Occurs(a, "raw") && !Occurs(rest, "raw")
    ensures SegmentsPath(a + "raw" + rest) == a + "segments" + rest
  {
    ReplaceAfterClean(a, "raw", "segments", rest);
    ReplaceNoMatch(rest, "raw", "segments");
  }

  /** One diarization turn: start and end in milliseconds, and its label. */
  datatype Track = Track(startMs: int, endMs: int, speaker: string)

  function Duration(t: Track): int {
    t.endMs - t.startMs
  }

  // ---------------------------------------------------------------------------
  // durations

  /** Sum of the durations of the tracks labelled `s`. */
  function Total(ts: seq<Track>, s: string): int
    decreases |ts|
  {
    if ts == [] then 0
    else Total(ts[..|ts| - 1], s) + (if ts[|ts| - 1].speaker == s then Duration(ts[|ts| - 1]) else 0)
  }

  /** The speakers of the tracks, each once, in order of first appearance. */
  function Speakers(ts: seq<Track>): seq<string>
    decreases |ts|
  {
    if ts == [] then []
    else
      var p := Speakers(ts[..|ts| - 1]);
      if ts[|ts| - 1].speaker in p then p else p + [ts[|ts| - 1].speaker]
  }

  /** The `durations` dict as a map. */
  function Durations(ts: seq<Track>): map<string, int> {
    map s | s in Speakers(ts) :: Total(ts, s)
  }

  predicate Labelled(ts: seq<Track>, s: string) {
    exists i :: 0 <= i < |ts| && ts[i].speaker == s
  }

  predicate Distinct(ks: seq<string>) {
    forall i, j :: 0 <= i < j < |ks| ==> ks[i] != ks[j]
  }

  /** A speaker is a key exactly when some track carries its label, and no
      key repeats. */
  lemma {:induction false} SpeakersMembers(ts: seq<Track>)
    ensures forall s :: s in Speakers(ts) <==> Labelled(ts, s)
    ensures Distinct(Speakers(ts))
    decreases |ts|
  {
    if ts != [] {
      var q := ts[..|ts| - 1];
      SpeakersMembers(q);
      forall s ensures Labelled(ts, s) <==> Labelled(q, s) || ts[|ts| - 1].speaker == s {
        if Labelled(ts, s) {
          var i :| 0 <= i < |ts| && ts[i].speaker == s;
          if i < |ts| - 1 {
            assert q[i].speaker == s;
          }
        }
        if Labelled(q, s) {
          var i :| 0 <= i < |q| && q[i].speaker == s;
          assert ts[i].speaker == s;
        }
      }
    }
  }

  /** Keys are in order of first appearance: whenever track `k` carries key
      `j`, an earlier track `m` carries each key `i` before it. */
  lemma {:induction false} SpeakersOrderAt(ts: seq<Track>, i: nat, j: nat, k: nat) returns (m: nat)
    requires i < j < |Speakers(ts)| && k < |ts| && ts[k].speaker == Speakers(ts)[j]
    ensures m < k && ts[m].speaker == Speakers(ts)[i]
    decreases |ts|
  {
    var n := |ts| - 1;
    var q := ts[..n];
    var p := Speakers(q);
    var ks := Speakers(ts);
    SpeakersMembers(q);
    assert ks[i] == p[i];
    if j < |p| {
      assert ks[j] == p[j];
      var k' := k;
      if k == n {
        assert Labelled(q, p[j]);
        k' :| 0 <= k' < |q| && q[k'].speaker == p[j];
      }
      m := SpeakersOrderAt(q, i, j, k');
    } else {
      assert ks[j] !in p && ks[j] == ts[n].speaker;
      assert forall x :: 0 <= x < n ==> q[x] == ts[x];
      assert k == n;
      assert Labelled(q, p[i]);
      m :| 0 <= m < |q| && q[m].speaker == p[i];
    }
  }

  lemma SpeakersOrder(ts: seq<Track>)
    ensures var ks := Speakers(ts);
      forall i, j, k :: 0 <= i < j < |ks| && 0 <= k < |ts| && ts[k].speaker == ks[j] ==>
        exists m :: 0 <= m < k && ts[m].speaker == ks[i]
  {
    var ks := Speakers(ts);
    forall i, j, k | 0 <= i < j < |ks| && 0 <= k < |ts| && ts[k].speaker == ks[j]
      ensures exists m :: 0 <= m < k && ts[m].speaker == ks[i]
    {
      var m := SpeakersOrderAt(ts, i, j, k);
    }
  }

  lemma TotalStep(ts: seq<Track>, i: nat, s: string)
    requires i < |ts|
    ensures Total(ts[..i + 1], s) == Total(ts[..i], s) + (if ts[i].speaker == s then Duration(ts[i]) else 0)
  {
    assert ts[..i + 1][..i] == ts[..i];
  }

  lemma SpeakersStep(ts: seq<Track>, i: nat)
    requires i < |ts|
    ensures var p := Speakers(ts[..i]);
      Speakers(ts[..i + 1]) == if ts[i].speaker in p then p else p + [ts[i].speaker]
  {
    assert ts[..i + 1][..i] == ts[..i];
  }

  /** A speaker with no track has total 0 (`durations.get(speaker, 0)`). */
  lemma {:induction false} TotalUnlabelled(ts: seq<Track>, s: string)
    requires !Labelled(ts, s)
    ensures Total(ts, s) == 0
    decreases |ts|
  {
    if ts != [] {
      var q := ts[..|ts| - 1];
      assert forall i :: 0 <= i < |q| ==> q[i] == ts[i];
      TotalUnlabelled(q, s);
      assert ts[|ts| - 1].speaker != s;
    }
  }

  /** The accumulation loop: `durations[speaker] = durations.get(speaker, 0) + (end - start)`.
      `keys` is the dict's key order. */
  method Accumulate(ts: seq<Track>) returns (keys: seq<string>, totals: map<string, int>)
    ensures keys == Speakers(ts)
    ensures totals == Durations(ts)
  {
    keys := [];
    totals := map[];
    var i := 0;
    while i < |ts|
      invariant 0 <= i <= |ts|
      invariant keys == Speakers(ts[..i])
      invariant forall s :: s in totals <==> s in keys
      invariant forall s :: s in totals ==> totals[s] == Total(ts[..i], s)
    {
      var t := ts[i];
      SpeakersStep(ts, i);
      forall s ensures Total(ts[..i + 1], s) == Total(ts[..i], s) + (if t.speaker == s then Duration(t) else 0) {
        TotalStep(ts, i, s);
      }
      if t.speaker in totals {
        totals := totals[t.speaker := totals[t.speaker] + Duration(t)];
      } else {
        SpeakersMembers(ts[..i]);
        TotalUnlabelled(ts[..i], t.speaker);
        keys := keys + [t.speaker];
        totals := totals[t.speaker := Duration(t)];
      }
      i := i + 1;
    }
    assert ts[..i] == ts;
  }

  // ---------------------------------------------------------------------------
  // selection

  /** Index of the first maximum: a later value replaces the current best only
      when strictly greater, as `max` does. */
  function ArgMax(vals: seq<int>): (k: nat)
    requires |vals| >= 1
    ensures k < |vals|
    ensures forall j :: 0 <= j < |vals| ==> vals[j] <= vals[k]
    ensures forall j :: 0 <= j < k ==> vals[j] < vals[k]
    decreases |vals|
  {
    if |vals| == 1 then 0
    else
      var k := ArgMax(vals[..|vals| - 1]);
      if vals[|vals| - 1] > vals[k] then |vals| - 1 else k
  }

  /** `max(durations, key=durations.get)` on an empty dict. */
  datatype SelectError = EmptySequence

  /** `max(durations, key=durations.get)`: the first key, in key order, whose
      value no other value exceeds; `ValueError` when there are no keys. */
  function MaxByValue(keys: seq<string>, totals: map<string, int>): (r: Result<string, SelectError>)
    requires forall i :: 0 <= i < |keys| ==> keys[i] in totals
    ensures r.Failure? <==> keys == []
    ensures r.Success? ==> r.value in keys
    ensures r.Success? ==> forall i :: 0 <= i < |keys| ==> totals[keys[i]] <= totals[r.value]
    ensures r.Success? ==>
      exists k :: 0 <= k < |keys| && keys[k] == r.value && (forall i :: 0 <= i < k ==> totals[keys[i]] < totals[r.value])
  {
    if keys == [] then Failure(EmptySequence)
    else
      var vals := seq(|keys|, i requires 0 <= i < |keys| => totals[keys[i]]);
      var k := ArgMax(vals);
      assert forall i :: 0 <= i < |keys| ==> vals[i] == totals[keys[i]];
      Success(keys[k])
  }

  /** The target chosen for a track list: no speaker's summed duration is
      longer, a speaker with the same total never appears before it, and an
      empty track list has none. */
  lemma TargetIsLongest(ts: seq<Track>)
    ensures var ks := Speakers(ts);
      forall i :: 0 <= i < |ks| ==> ks[i] in Durations(ts)
    ensures var r := MaxByValue(Speakers(ts), Durations(ts));
      && (r.Failure? <==> ts == [])
      && (r.Success? ==> Labelled(ts, r.value))
      && (r.Success? ==> forall s :: Labelled(ts, s) ==> Total(ts, s) <= Total(ts, r.value))
      && (r.Success? ==> forall m :: 0 <= m < |ts| && Total(ts, ts[m].speaker) == Total(ts, r.value) ==>
            exists m' :: 0 <= m' <= m && ts[m'].speaker == r.value)
  {
    SpeakersMembers(ts);
    var ks := Speakers(ts);
    if ts == [] {
      assert ks == [];
    } else {
      assert Labelled(ts, ts[0].speaker);
    }
    var r := MaxByValue(ks, Durations(ts));
    if r.Success? {
      forall s | Labelled(ts, s) ensures Total(ts, s) <= Total(ts, r.value) {
        var i :| 0 <= i < |ks| && ks[i] == s;
        assert Durations(ts)[ks[i]] <= Durations(ts)[r.value];
      }
    }
    TargetBeforeTies(ts);
  }

  /** On a tie the first maximum wins: the target's first track comes no
      later than any track of a speaker with the same total. */
  lemma TargetBeforeTies(ts: seq<Track>)
    ensures var r := MaxByValue(Speakers(ts), Durations(ts));
      r.Success? ==> forall m :: 0 <= m < |ts| && Total(ts, ts[m].speaker) == Total(ts, r.value) ==>
        exists m' :: 0 <= m' <= m && ts[m'].speaker == r.value
  {
    var ks := Speakers(ts);
    var d := Durations(ts);
    SpeakersMembers(ts);
    assert forall i :: 0 <= i < |ks| ==> d[ks[i]] == Total(ts, ks[i]);
    var r := MaxByValue(ks, d);
    if r.Success? {
      var k := FirstMax(ks, d);
      forall m | 0 <= m < |ts| && Total(ts, ts[m].speaker) == Total(ts, r.value)
        ensures exists m' :: 0 <= m' <= m && ts[m'].speaker == r.value
      {
        var m' := TieAt(ts, k, m);
      }
    }
  }

  /** The position of the first maximum that `MaxByValue` picks. */
  lemma FirstMax(keys: seq<string>, totals: map<string, int>) returns (k: nat)
    requires forall i :: 0 <= i < |keys| ==> keys[i] in totals
    requires MaxByValue(keys, totals).Success?
    ensures k < |keys| && keys[k] == MaxByValue(keys, totals).value
    ensures forall i :: 0 <= i < k ==> totals[keys[i]] < totals[keys[k]]
  {
    var v := MaxByValue(keys, totals).value;
    k :| 0 <= k < |keys| && keys[k] == v && (forall i :: 0 <= i < k ==> totals[keys[i]] < totals[v]);
  }

  /** One tied track: the key `k`, whose earlier keys all total less, has a
      track at or before it. */
  lemma TieAt(ts: seq<Track>, k: nat, m: nat) returns (m': nat)
    requires k < |Speakers(ts)| && m < |ts|
    requires forall i :: 0 <= i < k ==> Total(ts, Speakers(ts)[i]) < Total(ts, Speakers(ts)[k])
    requires Total(ts, ts[m].speaker) == Total(ts, Speakers(ts)[k])
    ensures m' <= m && ts[m'].speaker == Speakers(ts)[k]
  {
    var ks := Speakers(ts);
    SpeakersMembers(ts);
    var s := ts[m].speaker;
    assert Labelled(ts, s);
    var j :| 0 <= j < |ks| && ks[j] == s;
    if j == k {
      m' := m;
    } else {
      assert !(j < k);
      m' := SpeakersOrderAt(ts, k, j, m);
    }
  }

  // ---------------------------------------------------------------------------
  // export

  /** The target's tracks, in track order. */
  function TargetTracks(ts: seq<Track>, target: string): seq<Track>
    decreases |ts|
  {
    if ts == [] then []
    else TargetTracks(ts[..|ts| - 1], target) + (if ts[|ts| - 1].speaker == target then [ts[|ts| - 1]] else [])
  }

  /** Number of tracks labelled `target`. */
  function CountLabelled(ts: seq<Track>, target: string): nat
    decreases |ts|
  {
    if ts == [] then 0
    else CountLabelled(ts[..|ts| - 1], target) + (if ts[|ts| - 1].speaker == target then 1 else 0)
  }

  /** The exported tracks are exactly the target's: as many as are labelled
      with it, each labelled with it, and every labelled one among them. */
  lemma {:induction false} TargetTracksSpec(ts: seq<Track>, target: string)
    ensures var tt := TargetTracks(ts, target);
      && |tt| == CountLabelled(ts, target)
      && (forall i :: 0 <= i < |tt| ==> tt[i].speaker == target)
      && (forall t :: t in tt <==> t in ts && t.speaker == target)
    decreases |ts|
  {
    if ts != [] {
      TargetTracksSpec(ts[..|ts| - 1], target);
      assert ts == ts[..|ts| - 1] + [ts[|ts| - 1]];
    }
  }

  /** `f"{out_dir}/target_{count:03d}.wav"`. */
  function ChunkName(outDir: string, count: nat): string {
    outDir + "/target_" + Format03(count) + ".wav"
  }

  /** Different counts give different file names, so no chunk overwrites
      another. */
  lemma ChunkNamesDistinct(outDir: string, i: nat, j: nat)
    requires ChunkName(outDir, i) == ChunkName(outDir, j)
    ensures i == j
  {
    var p := outDir + "/target_";
    var a, b := Format03(i), Format03(j);
    assert p + a + ".wav" == p + b + ".wav";
    assert (p + a + ".wav")[|p|..] == a + ".wav";
    assert (p + b + ".wav")[|p|..] == b + ".wav";
    assert a + ".wav" == b + ".wav";
    assert a == (a + ".wav")[..|a + ".wav"| - 4];
    assert b == (b + ".wav")[..|b + ".wav"| - 4];
    Format03Injective(i, j);
  }

  /** One exported chunk: `audio[start_ms:end_ms]` saved under `file`. */
  datatype Chunk = Chunk(startMs: int, endMs: int, file: string)

  lemma TargetTracksStep(ts: seq<Track>, i: nat, target: string)
    requires i < |ts|
    ensures TargetTracks(ts[..i + 1], target)
      == TargetTracks(ts[..i], target) + (if ts[i].speaker == target then [ts[i]] else [])
  {
    assert ts[..i + 1][..i] == ts[..i];
  }

  /** The export loop: the target's turns, in track order, numbered from 0
      with no gaps; the final `count` is the number of target tracks. */
  method ExportTarget(ts: seq<Track>, target: string, outDir: string) returns (count: nat, chunks: seq<Chunk>)
    ensures count == |chunks| == |TargetTracks(ts, target)| == CountLabelled(ts, target)
    ensures forall i :: 0 <= i < count ==>
      var t := TargetTracks(ts, target)[i];
      chunks[i] == Chunk(t.startMs, t.endMs, ChunkName(outDir, i))
  {
    count := 0;
    chunks := [];
    var i := 0;
    while i < |ts|
      invariant 0 <= i <= |ts|
      invariant count == |chunks| == |TargetTracks(ts[..i], target)|
      invariant forall k :: 0 <= k < count ==>
        var t := TargetTracks(ts[..i], target)[k];
        chunks[k] == Chunk(t.startMs, t.endMs, ChunkName(outDir, k))
    {
      TargetTracksStep(ts, i, target);
      if ts[i].speaker == target {
        chunks := chunks + [Chunk(ts[i].startMs, ts[i].endMs, ChunkName(outDir, count))];
        count := count + 1;
      }
      i := i + 1;
    }
    assert ts[..i] == ts;
    TargetTracksSpec(ts, target);
  }

  /** The body of the per-file loop: accumulate, select, export. */
  method ExtractTarget(segmentsPath: string, audioName: string, ts: seq<Track>)
    returns (r: Result<(string, string, seq<Chunk>), SelectError>)
    ensures r.Failure? <==> ts == []
    ensures r.Success? ==>
      var (target, outDir, chunks) := r.value;
      && outDir == OutDir(segmentsPath, audioName)
      && MaxByValue(Speakers(ts), Durations(ts)) == Success(target)
      && Labelled(ts, target)
      && (forall s :: Labelled(ts, s) ==> Total(ts, s) <= Total(ts, target))
      && (forall m :: 0 <= m < |ts| && Total(ts, ts[m].speaker) == Total(ts, target) ==>
            exists m' :: 0 <= m' <= m && ts[m'].speaker == target)
      && |chunks| == |TargetTracks(ts, target)| == CountLabelled(ts, target)
      && forall i :: 0 <= i < |chunks| ==>
           var t := TargetTracks(ts, target)[i];
           chunks[i] == Chunk(t.startMs, t.endMs, ChunkName(outDir, i))
  {
    var keys, totals := Accumulate(ts);
    TargetIsLongest(ts);
    var choice := MaxByValue(keys, totals);
    if choice.Failure? {
      return Failure(choice.error);
    }
    var target := choice.value;
    var outDir := OutDir(segmentsPath, audioName);
    var count, chunks := ExportTarget(ts, target, outDir);
    r := Success((target, outDir, chunks));
  }
}
