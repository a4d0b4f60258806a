/** The path part of `process(filename)` in `preprocess_ssl.py`: where the
    content features of one input `.wav` are saved. The base name is taken
    with `posixpath.basename` on the path as given; backslashes are then made
    '/' and the parent folder is the second-to-last '/'-piece. */
module PreprocessSsl {
  import opened Wrappers
  import opened Strings
  import opened Paths

  /** `filename.split('/')[-2]` on a path with a single piece. */
  datatype PathError = IndexError

  /** `filename.replace('\\', '/')`. */
  function NormalizeSeparators(filename: string): string {
    ReplaceAll(filename, "\\", "/")
  }

  /** `filename.split('/')[-2]`. */
  function ParentFolder(normalized: string): Result<string, PathError> {
    var parts := Split(normalized, '/');
    if |parts| < 2 then Failure(IndexError) else Success(parts[|parts| - 2])
  }

  /** `os.path.join(os.path.join(out_dir, folder), basename.replace(".wav", ".pt"))`. */
  function FeatureFile(outDir: string, filename: string): Result<string, PathError> {
    var basename := BaseName(filename);
    match ParentFolder(NormalizeSeparators(filename))
    case Failure(e) => Failure(e)
    case Success(folder) => Success(Join(Join(outDir, folder), ReplaceAll(basename, ".wav", ".pt")))
  }

  /** Every backslash becomes '/', every other character stays. */
  lemma NormalizeSpec(filename: string)
    ensures var n := NormalizeSeparators(filename);
      && |n| == |filename|
      && '\\' !in n
      && forall i :: 0 <= i < |n| ==> n[i] == if filename[i] == '\\' then '/' else filename[i]
  {
    ReplaceChar(filename, '\\', '/');
  }

  /** After normalising there is a '/' exactly where there was a '/' or a '\\'. */
  lemma SlashAfterNormalize(filename: string)
    ensures '/' in NormalizeSeparators(filename) <==> '/' in filename || '\\' in filename
  {
    var n := NormalizeSeparators(filename);
    NormalizeSpec(filename);
    if '/' in n {
      var i :| 0 <= i < |n| && n[i] == '/';
      assert filename[i] == '/' || filename[i] == '\\';
    }
    if '/' in filename || '\\' in filename {
      var i :| 0 <= i < |filename| && (filename[i] == '/' || filename[i] == '\\');
      assert n[i] == '/';
    }
  }

  /** The path fails with `IndexError` exactly when it has neither '/' nor '\\'. */
  lemma FeatureFileError(outDir: string, filename: string)
    ensures FeatureFile(outDir, filename).Failure? <==> '/' !in filename && '\\' !in filename
  {
    SlashAfterNormalize(filename);
    SplitSeveral(NormalizeSeparators(filename), '/');
  }

  /** The second-to-last piece of `a/folder/name`. */
  lemma ParentFolderOf(a: string, folder: string, name: string)
    requires '/' !in folder && '/' !in name
    ensures ParentFolder(a + "/" + folder + "/" + name) == Success(folder)
  {
    assert a + "/" + folder + "/" + name == (a + ['/'] + folder) + ['/'] + name;
    SplitConcat(a + "/" + folder, name, '/');
    SplitConcat(a, folder, '/');
    SplitNoSep(folder, '/');
    SplitNoSep(name, '/');
  }

  /** The first piece of `folder/name`, when there are two. */
  lemma ParentFolderOfTwo(folder: string, name: string)
    requires '/' !in folder && '/' !in name
    ensures ParentFolder(folder + "/" + name) == Success(folder)
  {
    assert folder + "/" + name == folder + ['/'] + name;
    SplitConcat(folder, name, '/');
    SplitNoSep(folder, '/');
    SplitNoSep(name, '/');
  }

  lemma JoinTwice(outDir: string, folder: string, save: string)
    requires IsPlainDir(outDir) && IsComponent(folder) && (save == [] || save[0] != '/')
    ensures Join(Join(outDir, folder), save) == outDir + "/" + folder + "/" + save
  {
    JoinPlain(outDir, folder);
    assert IsPlainDir(outDir + "/" + folder);
    JoinPlain(outDir + "/" + folder, save);
  }

  /** `out_dir/folder/save` lies in `out_dir/folder` and is named `save`. */
  lemma SavePathShape(outDir: string, folder: string, save: string)
    requires IsPlainDir(outDir) && IsComponent(folder) && '/' !in save
    ensures var p := Join(Join(outDir, folder), save);
      && p == outDir + "/" + folder + "/" + save
      && DirName(p) == outDir + "/" + folder
      && BaseName(DirName(p)) == folder
      && BaseName(p) == save
  {
    if save != [] {
      assert save[0] in save;
    }
    JoinTwice(outDir, folder, save);
    assert IsPlainDir(outDir + "/" + folder);
    DirNameAfterSlash(outDir + "/" + folder, save);
    BaseNameAfterSlash(outDir, folder);
    BaseNameAfterSlash(outDir + "/" + folder, save);
  }

  lemma NoBackslashUnchanged(p: string)
    requires '\\' !in p
    ensures NormalizeSeparators(p) == p
  {
    assert !Occurs(p, "\\") by {
      forall i | 0 <= i <= |p| - 1 ensures !MatchAt(p, "\\", i) {
        assert p[i..i + 1] == [p[i]];
      }
    }
    ReplaceNoMatch(p, "\\", "/");
  }

  /** For a '/'-separated input `dir/folder/name` the features go to
      `out_dir/folder/<name with every ".wav" made ".pt">`: directly under
      `out_dir`, in a directory named after the input's parent folder. */
  lemma FeatureFileInFolder(outDir: string, dir: string, folder: string, name: string)
    requires IsPlainDir(outDir) && IsComponent(folder) && '/' !in name
    requires '\\' !in dir && '\\' !in folder && '\\' !in name
    ensures var p := dir + "/" + folder + "/" + name;
      var save := ReplaceAll(name, ".wav", ".pt");
      && FeatureFile(outDir, p) == Success(outDir + "/" + folder + "/" + save)
      && DirName(outDir + "/" + folder + "/" + save) == outDir + "/" + folder
      && BaseName(DirName(outDir + "/" + folder + "/" + save)) == folder
      && BaseName(outDir + "/" + folder + "/" + save) == save
  {
    var p := dir + "/" + folder + "/" + name;
    assert '\\' !in p;
    NoBackslashUnchanged(p);
    ParentFolderOf(dir, folder, name);
    BaseNameAfterSlash(dir + "/" + folder, name);
    ReplaceFree(name, ".wav", ".pt", '/');
    SavePathShape(outDir, folder, ReplaceAll(name, ".wav", ".pt"));
  }

  /** A name `stem.wav` whose stem holds no ".wav" is saved as `stem.pt`. */
  lemma WavStemToPt(stem: string)
    requires !Occurs(stem, ".wav")
    ensures ReplaceAll(stem + ".wav", ".wav", ".pt") == stem + ".pt"
  {
    ReplaceAfterClean(stem, ".wav", ".pt", "");
    assert stem + ".wav" + "" == stem + ".wav";
  }

  /** `str.replace` substitutes every ".wav", not only the extension:
      `a.wav` followed by `b.wav` becomes `a.pt` followed by `b.pt`. */
  lemma EveryWavReplaced(a: string, b: string)
    requires !Occurs(a, ".wav") && !Occurs(b, ".wav")
    ensures ReplaceAll(a + ".wav" + b + ".wav", ".wav", ".pt") == a + ".pt" + b + ".pt"
  {
    ReplaceAfterClean(a, ".wav", ".pt", b + ".wav");
    assert a + ".wav" + (b + ".wav") == a + ".wav" + b + ".wav";
    WavStemToPt(b);
  }

  lemma NormalizeOneBackslash(folder: string, rest: string)
    requires '\\' !in folder && '\\' !in rest
    ensures NormalizeSeparators(folder + "\\" + rest) == folder + "/" + rest
  {
    var f := folder + "\\" + rest;
    var m := folder + "/" + rest;
    NormalizeSpec(f);
    var n := NormalizeSeparators(f);
    forall i | 0 <= i < |n| ensures n[i] == m[i] {
      if i < |folder| {
        assert f[i] == folder[i] && m[i] == folder[i];
      } else if i > |folder| {
        assert f[i] == rest[i - |folder| - 1] && m[i] == rest[i - |folder| - 1];
      }
    }
  }

  /** A Windows-style input `folder\stem.wav` still finds its folder, but
      `basename` on a POSIX system keeps the whole input, backslash included,
      as the file name: the features go to `out_dir/folder/folder\stem.pt`. */
  lemma BackslashPath(outDir: string, folder: string, stem: string)
    requires IsPlainDir(outDir) && IsComponent(folder) && '\\' !in folder
    requires '/' !in stem && '\\' !in stem && !Occurs(folder + "\\" + stem, ".wav")
    ensures var save := folder + "\\" + stem + ".pt";
      FeatureFile(outDir, folder + "\\" + stem + ".wav") == Success(outDir + "/" + folder + "/" + save)
  {
    var f := folder + "\\" + stem + ".wav";
    BackslashFolder(folder, stem);
    WavStemToPt(folder + "\\" + stem);
    var save := folder + "\\" + stem + ".pt";
    assert ReplaceAll(f, ".wav", ".pt") == save;
    assert FeatureFile(outDir, f) == Success(Join(Join(outDir, folder), save));
    assert save[0] == folder[0];
    JoinTwice(outDir, folder, save);
  }

  lemma BackslashFolder(folder: string, stem: string)
    requires IsComponent(folder) && '\\' !in folder && '/' !in stem && '\\' !in stem
    ensures var f := folder + "\\" + stem + ".wav";
      ParentFolder(NormalizeSeparators(f)) == Success(folder) && BaseName(f) == f
  {
    var f := folder + "\\" + stem + ".wav";
    assert f == folder + "\\" + (stem + ".wav");
    NormalizeOneBackslash(folder, stem + ".wav");
    ParentFolderOfTwo(folder, stem + ".wav");
    assert '/' !in f;
    NoSlashBaseName(f);
  }

  lemma NoSlashBaseName(p: string)
    requires '/' !in p
    ensures BaseName(p) == p
  {
  }
}
