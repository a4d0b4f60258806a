/** The argument handling and file naming of the inference script `convert.py`:
    which mode runs, which loader reads the speaker embedding, how the embedding
    shape is brought to rank 2, how a `src|tgt` list is read and which files the
    script writes. The signal processing and synthesis are not modelled: the
    loaded source clip is represented by its sample count, the stored embedding
    by its shape. */
module Convert {
  import opened Wrappers
  import opened Strings
  import opened Paths

  /** The command-line options (argparse defaults noted beside each). */
  datatype Args = Args(
    hpfile: string,                   // --hpfile, "configs/freevc.json"
    ptfile: string,                   // --ptfile, "checkpoints/freevc.pth"
    txtpath: string,                  // --txtpath, "convert.txt"
    outdir: string,                   // --outdir, "output/freevc"
    useTimestamp: bool,               // --use_timestamp, off
    savedEmbedding: Option<string>,   // --saved_embedding, None
    inputAudio: Option<string>)       // --input_audio, None

  const DefaultArgs: Args :=
    Args("configs/freevc.json", "checkpoints/freevc.pth", "convert.txt", "output/freevc", false, None, None)

  /** Python truthiness of an optional string option: given and non-empty. */
  predicate Truthy(o: Option<string>) {
    o.Some? && o.value != ""
  }

  // ---------------------------------------------------------------------------
  // titles and output files

  const TransformedSuffix := "_transformed"

  /** Direct-mode title: the base name of the input up to its first '.',
      followed by "_transformed". */
  function DirectTitle(src: string): (title: string)
    ensures EndsWith(title, TransformedSuffix)
    ensures var stem := title[..|title| - |TransformedSuffix|]; var base := BaseName(src);
      '.' !in stem && '/' !in stem && StartsWith(base, stem) && (|stem| < |base| ==> base[|stem|] == '.')
  {
    var base := BaseName(src);
    FirstField(base, '.');
    var stem := Split(base, '.')[0];
    assert '/' !in base;
    assert stem == base[..|stem|];
    assert (stem + TransformedSuffix)[..|stem|] == stem;
    stem + TransformedSuffix
  }

  /** The file a converted clip is written to: `outdir/<title>.wav`, or
      `outdir/<timestamp>_<title>.wav` under --use_timestamp. */
  function OutputFile(outdir: string, title: string, useTimestamp: bool, timestamp: string): string {
    Join(outdir, (if useTimestamp then timestamp + "_" + title else title) + ".wav")
  }

  /** The output lands directly in `outdir` under the announced name. */
  lemma OutputFileInOutdir(outdir: string, title: string, useTimestamp: bool, timestamp: string)
    requires IsPlainDir(outdir) && '/' !in title && '/' !in timestamp
    ensures var f := OutputFile(outdir, title, useTimestamp, timestamp);
      DirName(f) == outdir
      && BaseName(f) == (if useTimestamp then timestamp + "_" else "") + title + ".wav"
  {
    var name := (if useTimestamp then timestamp + "_" + title else title) + ".wav";
    assert '/' !in name by {
      if useTimestamp {
        assert name == timestamp + "_" + title + ".wav";
        assert forall i :: 0 <= i < |name| ==> name[i] != '/' by {
          forall i | 0 <= i < |name| ensures name[i] != '/' {
            if i < |timestamp| { assert name[i] == timestamp[i]; }
            else if i == |timestamp| { assert name[i] == '_'; }
            else if i < |timestamp| + 1 + |title| { assert name[i] == title[i - |timestamp| - 1]; }
            else { assert name[i] == ".wav"[i - |timestamp| - 1 - |title|]; }
          }
        }
      } else {
        assert forall i :: 0 <= i < |name| ==> name[i] != '/' by {
          forall i | 0 <= i < |name| ensures name[i] != '/' {
            if i < |title| { assert name[i] == title[i]; }
            else { assert name[i] == ".wav"[i - |title|]; }
          }
        }
      }
    }
    JoinPlain(outdir, name);
    DirNameAfterSlash(outdir, name);
    BaseNameAfterSlash(outdir, name);
  }

  // ---------------------------------------------------------------------------
  // speaker embedding

  datatype Loader = NumpyLoader | TorchLoader | NoLoader

  /** `.npy` is read with numpy, `.pt` with torch, anything else with nothing. */
  function LoaderFor(path: string): (l: Loader)
    ensures l == NumpyLoader <==> EndsWith(path, ".npy")
    ensures l == TorchLoader <==> EndsWith(path, ".pt")
    ensures l == NoLoader <==> !EndsWith(path, ".npy") && !EndsWith(path, ".pt")
  {
    if EndsWith(path, ".npy") then
      assert path[|path| - 1] == ".npy"[3];
      NumpyLoader
    else if EndsWith(path, ".pt") then TorchLoader
    else NoLoader
  }

  /** `tensor.squeeze()` on a shape: every dimension of size 1 is dropped and
      the others keep their order. */
  function Squeeze(shape: seq<nat>): (r: seq<nat>)
    ensures |r| <= |shape| && 1 !in r
    ensures forall d :: d != 1 ==> multiset(r)[d] == multiset(shape)[d]
    ensures 1 !in shape ==> r == shape
    ensures 1 in shape ==> |r| < |shape|
    decreases |shape|
  {
    if shape == [] then []
    else
      var rest := Squeeze(shape[1..]);
      assert shape == [shape[0]] + shape[1..];
      if shape[0] == 1 then rest else [shape[0]] + rest
  }

  /** Squeezing works dimension by dimension: a shape squeezes to the
      squeezed halves side by side, so the kept dimensions stay in order. */
  lemma {:induction false} SqueezeConcat(a: seq<nat>, b: seq<nat>)
    ensures Squeeze(a + b) == Squeeze(a) + Squeeze(b)
    ensures |a| == 1 ==> Squeeze(a) == if a[0] == 1 then [] else a
    decreases |a|
  {
    if a != [] {
      assert (a + b)[1..] == a[1..] + b;
      SqueezeConcat(a[1..], b);
    } else {
      assert a + b == b;
    }
  }

  datatype Normalized = Normalized(dims: seq<nat>) | LoopsForever

  /** What `while t.dim() > 2: t = t.squeeze()` followed by `if t.dim() == 1:
      t = t.unsqueeze(0)` does to a shape. A second squeeze changes nothing, so
      the loop either ends after at most one pass or never ends. */
  function Normalize(shape: seq<nat>): Normalized {
    var s := if |shape| <= 2 then shape else Squeeze(shape);
    if |s| > 2 then LoopsForever else Normalized(if |s| == 1 then [1] + s else s)
  }

  /** The loop hangs exactly when the rank exceeds 2 and more than two
      dimensions differ from 1; otherwise the result has rank 0 or 2 and keeps
      the non-unit dimensions of the input, in order. A shape of rank 0 or 2
      is left alone, and a rank-1 result gets its new unit dimension in
      front. */
  lemma NormalizeSpec(shape: seq<nat>)
    ensures Normalize(shape).LoopsForever? <==> |shape| > 2 && |Squeeze(shape)| > 2
    ensures Normalize(shape).Normalized? ==>
      var d := Normalize(shape).dims; |d| <= 2 && |d| != 1 && Squeeze(d) == Squeeze(shape)
    ensures |shape| == 0 || |shape| == 2 ==> Normalize(shape) == Normalized(shape)
    ensures |shape| == 1 ==> Normalize(shape) == Normalized([1] + shape)
    ensures |shape| > 2 && Normalize(shape).Normalized? ==>
      var d := Normalize(shape).dims;
      d == (if |Squeeze(shape)| == 1 then [1] + Squeeze(shape) else Squeeze(shape))
  {
    if |shape| > 2 {
      assert Squeeze(Squeeze(shape)) == Squeeze(shape);
      var s := Squeeze(shape);
      if |s| == 1 {
        assert ([1] + s)[1..] == s;
      }
    } else if |shape| == 1 {
      assert ([1] + shape)[1..] == shape;
    }
  }

  /** The squeeze loop as the script runs it; a pass that removes nothing means
      the loop would repeat forever, which is reported as `LoopsForever`. */
  method NormalizeShape(shape: seq<nat>) returns (r: Normalized)
    ensures r == Normalize(shape)
  {
    var s := shape;
    while |s| > 2
      invariant s == shape || (|shape| > 2 && s == Squeeze(shape))
      decreases |s|
    {
      var next := Squeeze(s);
      if next == s {
        return LoopsForever;
      }
      s := next;
    }
    if |s| == 1 {
      s := [1] + s;
    }
    return Normalized(s);
  }

  datatype Embedding = NotLoaded | Loaded(dims: seq<nat>) | MissingLoader | Hangs

  /** The embedding block: skipped unless an embedding path is given and the
      model uses speaker embeddings; a `.npy` array gains a leading batch
      dimension; an unknown suffix leaves the value `None`, whose `.dim()`
      then fails. */
  function EmbeddingOf(saved: Option<string>, useSpk: bool, stored: seq<nat>): Embedding {
    if !(Truthy(saved) && useSpk) then NotLoaded
    else
      match LoaderFor(saved.value)
      case NoLoader => MissingLoader
      case NumpyLoader => NormalizedEmbedding(Normalize([1] + stored))
      case TorchLoader => NormalizedEmbedding(Normalize(stored))
  }

  function NormalizedEmbedding(n: Normalized): Embedding {
    if n.LoopsForever? then Hangs else Loaded(n.dims)
  }

  method LoadEmbedding(saved: Option<string>, useSpk: bool, stored: seq<nat>) returns (e: Embedding)
    ensures e == EmbeddingOf(saved, useSpk, stored)
  {
    if !(Truthy(saved) && useSpk) {
      return NotLoaded;
    }
    var raw: seq<nat>;
    if EndsWith(saved.value, ".npy") {
      raw := [1] + stored;
    } else if EndsWith(saved.value, ".pt") {
      raw := stored;
    } else {
      return MissingLoader;
    }
    var n := NormalizeShape(raw);
    e := NormalizedEmbedding(n);
  }

  // ---------------------------------------------------------------------------
  // text mode

  /** One `src|tgt` line: stripped, it must split on '|' into exactly two fields. */
  function ParseLine(line: string): Option<(string, string)> {
    var parts := Split(Strip(line), '|');
    if |parts| == 2 then Some((parts[0], parts[1])) else None
  }

  /** A line is accepted exactly when, stripped, it is two '|'-free fields
      joined by one '|'. */
  lemma ParseLineSpec(line: string, src: string, tgt: string)
    ensures ParseLine(line) == Some((src, tgt))
        <==> Strip(line) == src + "|" + tgt && '|' !in src && '|' !in tgt
  {
    var s := Strip(line);
    if Strip(line) == src + "|" + tgt && '|' !in src && '|' !in tgt {
      SplitConcat(src, tgt, '|');
      SplitNoSep(src, '|');
      SplitNoSep(tgt, '|');
    }
    if ParseLine(line) == Some((src, tgt)) {
      var parts := Split(s, '|');
      SplitJoin(s, '|');
      SplitPiecesFree(s, '|');
      assert parts[0] == src && parts[1] == tgt;
      assert JoinWith(parts, '|') == src + "|" + tgt;
      assert '|' !in parts[0] && '|' !in parts[1];
    }
  }

  /** Batch title: the last '/'-part of the source, '_', the last '/'-part of the target. */
  function BatchTitle(src: string, tgt: string): string {
    var a := Split(src, '/');
    var b := Split(tgt, '/');
    a[|a| - 1] + "_" + b[|b| - 1]
  }

  /** The last '/'-part is the base name, so the title is free of '/'. */
  lemma BatchTitleSpec(src: string, tgt: string)
    ensures BatchTitle(src, tgt) == BaseName(src) + "_" + BaseName(tgt)
    ensures '/' !in BatchTitle(src, tgt)
  {
    var a, b := BaseName(src), BaseName(tgt);
    BaseNameIsLastPiece(src);
    BaseNameIsLastPiece(tgt);
    assert BatchTitle(src, tgt) == a + "_" + b;
    BaseNameFree(src);
    BaseNameFree(tgt);
    UnderscoreJoinFree(a, b);
  }

  lemma BaseNameFree(p: string)
    ensures '/' !in BaseName(p)
  {
    BaseNameIsLastPiece(p);
    SplitPiecesFree(p, '/');
    var parts := Split(p, '/');
    assert '/' !in parts[|parts| - 1];
  }

  lemma UnderscoreJoinFree(a: string, b: string)
    requires '/' !in a && '/' !in b
    ensures '/' !in a + "_" + b
  {
    var t := a + "_" + b;
    forall i | 0 <= i < |t| ensures t[i] != '/' {
      if i < |a| { assert t[i] == a[i]; }
      else if i > |a| { assert t[i] == b[i - |a| - 1]; }
    }
  }

  datatype Batch = Batch(titles: seq<string>, srcs: seq<string>, tgts: seq<string>)

  /** Line `i` parsed into `(src, tgt)`; titled as a batch entry. */
  function LineSource(line: string): string
    requires ParseLine(line).Some?
  {
    ParseLine(line).value.0
  }

  function LineTarget(line: string): string
    requires ParseLine(line).Some?
  {
    ParseLine(line).value.1
  }

  /** The three lists are index-aligned with the lines, in file order. */
  ghost predicate BatchOf(b: Batch, lines: seq<string>) {
    && |b.titles| == |lines| && |b.srcs| == |lines| && |b.tgts| == |lines|
    && forall i :: 0 <= i < |lines| ==>
         && ParseLine(lines[i]) == Some((b.srcs[i], b.tgts[i]))
         && b.titles[i] == BatchTitle(b.srcs[i], b.tgts[i])
  }

  /** The reading loop: appends title, source and target per line; the first
      line that is not two fields stops it (the unpacking error), reported
      with its index. */
  method ParseList(lines: seq<string>) returns (r: Result<Batch, nat>)
    ensures r.Success? ==> BatchOf(r.value, lines)
    ensures r.Failure? ==>
      && r.error < |lines| && ParseLine(lines[r.error]).None?
      && (forall i :: 0 <= i < r.error ==> ParseLine(lines[i]).Some?)
    ensures r.Success? <==> forall i :: 0 <= i < |lines| ==> ParseLine(lines[i]).Some?
  {
    var titles, srcs, tgts := [], [], [];
    var k := 0;
    while k < |lines|
      invariant 0 <= k <= |lines|
      invariant |titles| == k && |srcs| == k && |tgts| == k
      invariant forall i :: 0 <= i < k ==>
        && ParseLine(lines[i]) == Some((srcs[i], tgts[i]))
        && titles[i] == BatchTitle(srcs[i], tgts[i])
    {
      var p := ParseLine(lines[k]);
      if p.None? {
        return Failure(k);
      }
      var src, tgt := p.value.0, p.value.1;
      assert ParseLine(lines[k]) == Some((src, tgt));
      titles := titles + [BatchTitle(src, tgt)];
      srcs := srcs + [src];
      tgts := tgts + [tgt];
      k := k + 1;
    }
    return Success(Batch(titles, srcs, tgts));
  }

  // ---------------------------------------------------------------------------
  // a whole run

  datatype ConvertError =
    | BadLine(index: nat)       // `src, tgt = ...split("|")` raised
    | NoneHasNoDim              // `None.dim()`: embedding suffix is neither .npy nor .pt
    | EmptyInput                // "Input audio is empty or invalid."
    | EmbeddingRequired         // "Target audio or embedding is required for voice conversion."
    | NeverEnds                 // the squeeze loop does not terminate

  /** The files a run writes, or the error that stops it. Direct mode runs
      when --input_audio is given: the embedding block, then the empty-signal
      check, then one output file. Text mode reads every line first, then the
      embedding block, then writes one file per line. `clock(i)` is the
      timestamp read for the i-th write; `sourceSamples` is the length of the
      loaded source clip. */
  method Run(args: Args, useSpk: bool, stored: seq<nat>, sourceSamples: nat,
             lines: seq<string>, clock: nat -> string)
    returns (r: Result<seq<string>, ConvertError>)
    ensures Truthy(args.inputAudio) ==>
      var e := EmbeddingOf(args.savedEmbedding, useSpk, stored);
      r == if e.MissingLoader? then Failure(NoneHasNoDim)
           else if e.Hangs? then Failure(NeverEnds)
           else if sourceSamples == 0 then Failure(EmptyInput)
           else if !useSpk then Failure(EmbeddingRequired)
           else Success([OutputFile(args.outdir, DirectTitle(args.inputAudio.value), args.useTimestamp, clock(0))])
    ensures !Truthy(args.inputAudio) ==>
      (r.Success? <==> (forall i :: 0 <= i < |lines| ==> ParseLine(lines[i]).Some?)
                       && !EmbeddingOf(args.savedEmbedding, useSpk, stored).MissingLoader?
                       && !EmbeddingOf(args.savedEmbedding, useSpk, stored).Hangs?)
    ensures !Truthy(args.inputAudio) && (exists i :: 0 <= i < |lines| && ParseLine(lines[i]).None?) ==>
      r.Failure? && r.error.BadLine?
    ensures !Truthy(args.inputAudio) && r.Success? ==>
      && |r.value| == |lines|
      && forall i :: 0 <= i < |lines| ==>
           r.value[i] == OutputFile(args.outdir, BatchTitle(LineSource(lines[i]), LineTarget(lines[i])),
                                    args.useTimestamp, clock(i))
    ensures !Truthy(args.inputAudio) && r.Failure? ==>
      if r.error.BadLine? then
        r.error.index < |lines| && ParseLine(lines[r.error.index]).None?
        && forall i :: 0 <= i < r.error.index ==> ParseLine(lines[i]).Some?
      else
        var e := EmbeddingOf(args.savedEmbedding, useSpk, stored);
        (r.error == NoneHasNoDim && e.MissingLoader?) || (r.error == NeverEnds && e.Hangs?)
  {
    if Truthy(args.inputAudio) {
      var title := DirectTitle(args.inputAudio.value);
      var e := LoadEmbedding(args.savedEmbedding, useSpk, stored);
      if e.MissingLoader? {
        return Failure(NoneHasNoDim);
      } else if e.Hangs? {
        return Failure(NeverEnds);
      }
      if sourceSamples == 0 {
        return Failure(EmptyInput);
      }
      if !useSpk {
        return Failure(EmbeddingRequired);
      }
      return Success([OutputFile(args.outdir, title, args.useTimestamp, clock(0))]);
    }
    var parsed := ParseList(lines);
    if parsed.Failure? {
      return Failure(BadLine(parsed.error));
    }
    var batch := parsed.value;
    var e := LoadEmbedding(args.savedEmbedding, useSpk, stored);
    if e.MissingLoader? {
      return Failure(NoneHasNoDim);
    } else if e.Hangs? {
      return Failure(NeverEnds);
    }
    var written: seq<string> := [];
    var i := 0;
    while i < |batch.titles|
      invariant 0 <= i <= |batch.titles|
      invariant |written| == i
      invariant forall j :: 0 <= j < i ==>
        written[j] == OutputFile(args.outdir, batch.titles[j], args.useTimestamp, clock(j))
    {
      written := written + [OutputFile(args.outdir, batch.titles[i], args.useTimestamp, clock(i))];
      i := i + 1;
    }
    return Success(written);
  }
}
