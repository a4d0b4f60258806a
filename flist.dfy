/** The file-list builder `preprocess_flist.py`: per speaker folder, the `.wav`
    names are shuffled and cut with Python slices into validation (`[:2]`),
    training (`[2:-10]`) and test (`[-10:]`) parts; the three gathered lists
    are shuffled again and written one path per line. Directory listings and
    the results of `random.shuffle` are inputs; a shuffle is any permutation. */
module PreprocessFlist {
  import opened Wrappers
  import opened Strings
  import opened Paths

  /** One listed clip: its speaker folder and its file name. */
  datatype Entry = Entry(folder: string, fname: string)

  /** A speaker folder with the names `os.listdir` returned for it. */
  datatype SpeakerDir = SpeakerDir(speaker: string, names: seq<string>)

  /** `[(speaker, wav) for wav in names if wav.endswith('.wav')]`. */
  function WavEntries(speaker: string, names: seq<string>): seq<Entry>
    decreases |names|
  {
    if names == [] then []
    else (if EndsWith(names[0], ".wav") then [Entry(speaker, names[0])] else [])
         + WavEntries(speaker, names[1..])
  }

  /** Exactly the `.wav` names are kept, each paired with its folder, and each
      kept name occurs as often as it is listed. */
  lemma {:induction false} WavEntriesSpec(speaker: string, names: seq<string>)
    ensures forall e :: e in WavEntries(speaker, names) <==>
      (e.folder == speaker && e.fname in names && EndsWith(e.fname, ".wav"))
    ensures forall n :: (multiset(WavEntries(speaker, names))[Entry(speaker, n)]
                         == if EndsWith(n, ".wav") then multiset(names)[n] else 0)
    ensures |WavEntries(speaker, names)| <= |names|
    decreases |names|
  {
    if names != [] {
      WavEntriesSpec(speaker, names[1..]);
      assert names == [names[0]] + names[1..];
    }
  }

  /** `'/'.join(train_list.split("/")[:-1])`: the directory created for the
      list files. */
  function ListsDir(trainList: string): string {
    var parts := Split(trainList, '/');
    if |parts| == 1 then "" else JoinWith(parts[..|parts| - 1], '/')
  }

  /** `os.makedirs('')` on the empty string. */
  datatype ListsDirError = EmptyPath

  /** `os.makedirs(ListsDir(train_list), exist_ok=True)`: the directory made,
      or the `FileNotFoundError` that stops the script when it is empty. */
  function MakeListsDir(trainList: string): Result<string, ListsDirError> {
    var d := ListsDir(trainList);
    if d == "" then Failure(EmptyPath) else Success(d)
  }

  /** The lists directory of `d/name` is `d`; a bare name, or a name right
      under the root, gives the empty path, on which `makedirs` fails. */
  lemma ListsDirSpec(d: string, name: string)
    requires '/' !in name
    ensures ListsDir(d + "/" + name) == d
    ensures MakeListsDir(d + "/" + name) == if d == "" then Failure(EmptyPath) else Success(d)
    ensures ListsDir(name) == "" && MakeListsDir(name) == Failure(EmptyPath)
  {
    assert d + "/" + name == d + ['/'] + name;
    SplitConcat(d, name, '/');
    SplitNoSep(name, '/');
    var parts := Split(d + "/" + name, '/');
    assert parts[..|parts| - 1] == Split(d, '/');
    SplitJoin(d, '/');
  }

  // ---------------------------------------------------------------------------
  // Python slices

  /** A Python slice bound: a negative one counts from the end; both are
      clamped to the list. */
  function SliceBound(i: int, n: nat): nat {
    if i < 0 then (if i + n < 0 then 0 else i + n) else if i > n then n else i
  }

  /** `s[lo:hi]`; an omitted start is 0 and an omitted stop is `len(s)`. */
  function Slice<T>(s: seq<T>, lo: int, hi: int): seq<T> {
    var a, b := SliceBound(lo, |s|), SliceBound(hi, |s|);
    if a <= b then s[a..b] else []
  }

  datatype Lists = Lists(train: seq<Entry>, val: seq<Entry>, test: seq<Entry>)

  /** One speaker's cut: `wavs[2:-10]`, `wavs[:2]`, `wavs[-10:]`. */
  function SpeakerSplit(w: seq<Entry>): Lists {
    Lists(Slice(w, 2, -10), Slice(w, 0, 2), Slice(w, -10, |w|))
  }

  function Min(a: int, b: int): int {
    if a <= b then a else b
  }

  /** For `n` clips: validation takes the first min(2, n), test the last
      min(10, n), training the ones from index 2 up to n - 10, so training
      is empty when n <= 12. */
  lemma SpeakerSplitSizes(w: seq<Entry>)
    ensures var n, l := |w|, SpeakerSplit(w);
      && l.val == w[..Min(2, n)]
      && l.test == w[n - Min(10, n)..]
      && l.train == (if n > 12 then w[2..n - 10] else [])
      && (n <= 12 ==> l.train == [])
  {
  }

  /** With at least 12 clips the three parts are validation, training and
      test in list order, together exactly the speaker's list. */
  lemma SpeakerSplitPartition(w: seq<Entry>)
    requires |w| >= 12
    ensures var l := SpeakerSplit(w); l.val + l.train + l.test == w
  {
    var l := SpeakerSplit(w);
    var n := |w|;
    assert l.val == w[..2] && l.test == w[n - 10..];
    assert l.train == w[2..n - 10];
    assert w[..2] + w[2..n - 10] + w[n - 10..] == w;
  }

  /** For a speaker with at least 12 clips, all with different names, no clip
      is in two of the three parts. */
  lemma SpeakerSplitDisjoint(w: seq<Entry>)
    requires |w| >= 12
    requires forall i, j :: 0 <= i < j < |w| ==> w[i] != w[j]
    ensures var l := SpeakerSplit(w);
      && (forall e :: e in l.val ==> e !in l.train && e !in l.test)
      && (forall e :: e in l.train ==> e !in l.test)
  {
    var n := |w|;
    var l := SpeakerSplit(w);
    assert l.val == w[..2] && l.train == w[2..n - 10] && l.test == w[n - 10..];
  }

  /** With 1 to 11 clips some clip lands in both validation and test. */
  lemma SpeakerSplitOverlap(w: seq<Entry>)
    requires 1 <= |w| < 12
    ensures var l := SpeakerSplit(w); exists e :: e in l.val && e in l.test
  {
    var l := SpeakerSplit(w);
    var n := |w|;
    var e := l.val[|l.val| - 1];
    if n <= 10 {
      assert l.test == w;
      assert e == w[Min(2, n) - 1];
    } else {
      assert l.val == w[..2] && l.test == w[1..];
      assert e == w[1] == l.test[0];
    }
    assert e in l.val && e in l.test;
  }

  /** The part sizes depend only on how many clips there are, so they are the
      same for every shuffle of the list. */
  lemma SpeakerSplitShuffle(w: seq<Entry>, p: seq<Entry>)
    requires multiset(p) == multiset(w)
    ensures |SpeakerSplit(p).train| == |SpeakerSplit(w).train|
    ensures |SpeakerSplit(p).val| == |SpeakerSplit(w).val|
    ensures |SpeakerSplit(p).test| == |SpeakerSplit(w).test|
  {
    assert |p| == |multiset(p)| == |multiset(w)| == |w|;
  }

  // ---------------------------------------------------------------------------
  // the per-speaker loop

  function Append(a: Lists, b: Lists): Lists {
    Lists(a.train + b.train, a.val + b.val, a.test + b.test)
  }

  /** `train += ...; val += ...; test += ...` over the speakers in listing order. */
  function Gather(ws: seq<seq<Entry>>): Lists
    decreases |ws|
  {
    if ws == [] then Lists([], [], []) else Append(SpeakerSplit(ws[0]), Gather(ws[1..]))
  }

  lemma GatherStep(ws: seq<seq<Entry>>, i: nat)
    requires i < |ws|
    ensures Gather(ws[i..]) == Append(SpeakerSplit(ws[i]), Gather(ws[i + 1..]))
  {
    assert ws[i..][1..] == ws[i + 1..];
  }

  lemma AppendAssoc(a: Lists, b: Lists, c: Lists)
    ensures Append(a, Append(b, c)) == Append(Append(a, b), c)
  {
    assert a.train + (b.train + c.train) == (a.train + b.train) + c.train;
    assert a.val + (b.val + c.val) == (a.val + b.val) + c.val;
    assert a.test + (b.test + c.test) == (a.test + b.test) + c.test;
  }

  function Flatten(ws: seq<seq<Entry>>): seq<Entry>
    decreases |ws|
  {
    if ws == [] then [] else ws[0] + Flatten(ws[1..])
  }

  /** All `.wav` entries of all speaker folders, in listing order. */
  function AllWavs(dirs: seq<SpeakerDir>): seq<Entry>
    decreases |dirs|
  {
    if dirs == [] then [] else WavEntries(dirs[0].speaker, dirs[0].names) + AllWavs(dirs[1..])
  }

  /** When every speaker has at least 12 clips, every clip goes to exactly one
      of the three lists. */
  lemma {:induction false} GatherCovers(ws: seq<seq<Entry>>)
    requires forall i :: 0 <= i < |ws| ==> |ws[i]| >= 12
    ensures var g := Gather(ws); multiset(g.val) + multiset(g.train) + multiset(g.test) == multiset(Flatten(ws))
    decreases |ws|
  {
    if ws != [] {
      GatherCovers(ws[1..]);
      SpeakerSplitPartition(ws[0]);
      var l := SpeakerSplit(ws[0]);
      assert multiset(ws[0]) == multiset(l.val) + multiset(l.train) + multiset(l.test) by {
        assert ws[0] == l.val + l.train + l.test;
      }
    }
  }

  /** Shuffling each speaker's list keeps the clips of all speakers. */
  lemma {:induction false} FlattenShuffled(dirs: seq<SpeakerDir>, ws: seq<seq<Entry>>)
    requires |ws| == |dirs|
    requires forall i :: 0 <= i < |dirs| ==> multiset(ws[i]) == multiset(WavEntries(dirs[i].speaker, dirs[i].names))
    ensures multiset(Flatten(ws)) == multiset(AllWavs(dirs))
    decreases |ws|
  {
    if ws != [] {
      FlattenShuffled(dirs[1..], ws[1..]);
    }
  }

  /** With at least 12 clips per speaker, the gathered lists of the shuffled
      speaker lists hold every `.wav` entry of every folder once. */
  lemma GatherCoversAll(dirs: seq<SpeakerDir>, ws: seq<seq<Entry>>)
    requires |ws| == |dirs|
    requires forall i :: 0 <= i < |dirs| ==>
      multiset(ws[i]) == multiset(WavEntries(dirs[i].speaker, dirs[i].names))
    requires forall i :: 0 <= i < |ws| ==> |ws[i]| >= 12
    ensures var g := Gather(ws); multiset(g.val) + multiset(g.train) + multiset(g.test) == multiset(AllWavs(dirs))
  {
    GatherCovers(ws);
    FlattenShuffled(dirs, ws);
  }

  /** The speaker loop. `shuffled[i]` is speaker i's `.wav` list after
      `shuffle(wavs)`. The lists are the gathered cuts; when every speaker has
      at least 12 clips, together they hold every `.wav` clip once. */
  method CollectLists(dirs: seq<SpeakerDir>, shuffled: seq<seq<Entry>>) returns (lists: Lists)
    requires |shuffled| == |dirs|
    requires forall i :: 0 <= i < |dirs| ==>
      multiset(shuffled[i]) == multiset(WavEntries(dirs[i].speaker, dirs[i].names))
    ensures lists == Gather(shuffled)
    ensures (forall i :: 0 <= i < |shuffled| ==> |shuffled[i]| >= 12) ==>
      multiset(lists.val) + multiset(lists.train) + multiset(lists.test) == multiset(AllWavs(dirs))
  {
    lists := Lists([], [], []);
    var i := 0;
    while i < |shuffled|
      invariant 0 <= i <= |shuffled|
      invariant Append(lists, Gather(shuffled[i..])) == Gather(shuffled)
    {
      var cut := SpeakerSplit(shuffled[i]);
      GatherStep(shuffled, i);
      AppendAssoc(lists, cut, Gather(shuffled[i + 1..]));
      lists := Append(lists, cut);
      i := i + 1;
    }
    assert shuffled[i..] == [];
    assert Append(lists, Lists([], [], [])) == lists;
    if forall i :: 0 <= i < |shuffled| ==> |shuffled[i]| >= 12 {
      GatherCoversAll(dirs, shuffled);
    }
  }

  // ---------------------------------------------------------------------------
  // writing the lists

  /** `os.path.join(source_dir, folder, fname)`. */
  function WavPath(sourceDir: string, e: Entry): string {
    Join(Join(sourceDir, e.folder), e.fname)
  }

  function PathOf(sourceDir: string): Entry -> string {
    e => WavPath(sourceDir, e)
  }

  function MapSeq<T, U>(f: T -> U, s: seq<T>): (r: seq<U>)
    ensures |r| == |s|
    ensures forall i :: 0 <= i < |s| ==> r[i] == f(s[i])
    decreases |s|
  {
    if s == [] then [] else [f(s[0])] + MapSeq(f, s[1..])
  }

  /** The lines of a list file, in list order. */
  function WavPaths(sourceDir: string, es: seq<Entry>): seq<string> {
    MapSeq(PathOf(sourceDir), es)
  }

  /** Each line followed by a newline. */
  function Lines(ps: seq<string>): string
    decreases |ps|
  {
    if ps == [] then "" else ps[0] + "\n" + Lines(ps[1..])
  }

  /** The text of a list file. */
  function ListText(sourceDir: string, es: seq<Entry>): string {
    Lines(WavPaths(sourceDir, es))
  }

  /** Splitting newline-ended lines at newlines gives the lines back, then the
      empty rest after the last newline. */
  lemma {:induction false} LinesSplit(ps: seq<string>)
    requires forall i :: 0 <= i < |ps| ==> '\n' !in ps[i]
    ensures Split(Lines(ps), '\n') == ps + [""]
    decreases |ps|
  {
    if ps != [] {
      LinesSplit(ps[1..]);
      SplitConcat(ps[0], Lines(ps[1..]), '\n');
      SplitNoSep(ps[0], '\n');
      assert ps == [ps[0]] + ps[1..];
    }
  }

  /** Reading a written list file back line by line gives the entries' paths
      in list order. */
  lemma ListTextLines(sourceDir: string, es: seq<Entry>)
    requires forall e :: e in es ==> '\n' !in WavPath(sourceDir, e)
    ensures Split(ListText(sourceDir, es), '\n') == WavPaths(sourceDir, es) + [""]
  {
    LinesSplit(WavPaths(sourceDir, es));
  }

  lemma {:induction false} MapConcat<T, U>(f: T -> U, a: seq<T>, b: seq<T>)
    ensures MapSeq(f, a + b) == MapSeq(f, a) + MapSeq(f, b)
    decreases |a|
  {
    if a == [] {
      assert a + b == b;
    } else {
      assert (a + b)[1..] == a[1..] + b;
      MapConcat(f, a[1..], b);
    }
  }

  lemma MultisetCancel<T>(a: multiset<T>, b: multiset<T>, c: multiset<T>)
    requires a + c == b + c
    ensures a == b
  {
    assert forall x :: a[x] == (a + c)[x] - c[x] == (b + c)[x] - c[x] == b[x];
  }

  lemma MultisetRemove<T>(q: seq<T>, k: nat)
    requires k < |q|
    ensures multiset(q) == multiset(q[..k] + q[k + 1..]) + multiset{q[k]}
  {
    assert q == q[..k] + [q[k]] + q[k + 1..];
  }

  lemma MapRemove<T, U>(f: T -> U, p: seq<T>, k: nat)
    requires k < |p|
    ensures var m := MapSeq(f, p); m[..k] + m[k + 1..] == MapSeq(f, p[..k] + p[k + 1..])
  {
    MapConcat(f, p[..k], p[k + 1..]);
    var m := MapSeq(f, p);
    assert m[..k] == MapSeq(f, p[..k]);
    assert m[k + 1..] == MapSeq(f, p[k + 1..]);
  }

  /** Taking the same element out of two permutations of each other leaves
      permutations of each other. */
  lemma PermutationRemove<T>(es: seq<T>, p: seq<T>, k: nat)
    requires multiset(p) == multiset(es) && es != [] && k < |p| && p[k] == es[0]
    ensures multiset(p[..k] + p[k + 1..]) == multiset(es[1..])
  {
    assert es == [es[0]] + es[1..];
    MultisetRemove(p, k);
    MultisetCancel(multiset(p[..k] + p[k + 1..]), multiset(es[1..]), multiset{es[0]});
  }

  /** Mapping a permutation of a list gives a permutation of the mapped list. */
  lemma {:induction false} MapPermutation<T, U>(f: T -> U, es: seq<T>, p: seq<T>)
    requires multiset(p) == multiset(es)
    ensures multiset(MapSeq(f, p)) == multiset(MapSeq(f, es))
    decreases |es|
  {
    if es == [] {
      assert |p| == |multiset(p)| == 0;
    } else {
      assert es[0] in multiset(p);
      var k :| 0 <= k < |p| && p[k] == es[0];
      var rest := p[..k] + p[k + 1..];
      PermutationRemove(es, p, k);
      MapPermutation(f, es[1..], rest);
      MapRemove(f, p, k);
      var m := MapSeq(f, p);
      MultisetRemove(m, k);
      assert multiset(m) == multiset(MapSeq(f, rest)) + multiset{f(es[0])};
      assert MapSeq(f, es) == [f(es[0])] + MapSeq(f, es[1..]);
    }
  }

  /** The final `shuffle` of a list changes the order of its lines, not the
      lines themselves. */
  lemma ShuffledLines(sourceDir: string, es: seq<Entry>, p: seq<Entry>)
    requires multiset(p) == multiset(es)
    ensures multiset(WavPaths(sourceDir, p)) == multiset(WavPaths(sourceDir, es))
  {
    MapPermutation(PathOf(sourceDir), es, p);
  }

  lemma LinesStep(text: string, ps: seq<string>, i: nat)
    requires i < |ps|
    ensures text + Lines(ps[i..]) == (text + ps[i] + "\n") + Lines(ps[i + 1..])
  {
    assert ps[i..][1..] == ps[i + 1..];
  }

  /** The writing loop: `f.write(wavpath + "\n")` for each entry in order. */
  method WriteList(sourceDir: string, es: seq<Entry>) returns (text: string)
    ensures text == ListText(sourceDir, es)
  {
    ghost var ps := WavPaths(sourceDir, es);
    text := "";
    var i := 0;
    while i < |es|
      invariant 0 <= i <= |es|
      invariant text + Lines(ps[i..]) == Lines(ps)
    {
      LinesStep(text, ps, i);
      text := text + WavPath(sourceDir, es[i]) + "\n";
      i := i + 1;
    }
    assert ps[i..] == [];
    assert ps[0..] == ps;
  }
}
