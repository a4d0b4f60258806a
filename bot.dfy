/** The Telegram front end `voice_clone_bot.py`: an upload is stored in the
    sender's workspace, a menu offers one button per catalogue voice, each
    button carries a token that a process-wide table maps back to
    (input, embedding, checkpoint), and a selection runs `convert.py` on that
    triple and reports the outcome. The table and the stored files are the
    state of a `Bot` object; the transport, the MD5 function and the external
    process are parameters. */
module VoiceCloneBot {
  import opened Wrappers
  import opened Strings
  import opened Paths
  import Convert

  const InputDir := "telegram_audios/input"
  const OutputDir := "telegram_audios/output"

  /** One catalogue entry of `AVAILABLE_VOICES`. */
  datatype Voice = Voice(name: string, embedding: string, checkpoint: string)

  const AvailableVoices: seq<Voice> :=
    [Voice("Messi", "speaker_embeddings/messi_emb.pt", "checkpoints/messi/G_1000.pth")]

  /** What a token stands for: `(file_path, embedding, checkpoint)`. */
  datatype Selection = Selection(inputPath: string, embedding: string, checkpoint: string)

  datatype User = User(username: Option<string>, id: int)

  /** The downloaded bytes of a voice note or audio file. */
  datatype Attachment = Attachment(content: seq<bv8>)

  datatype Message = Message(sender: User, voice: Option<Attachment>, audio: Option<Attachment>)

  /** An inline button: its label and its callback data. */
  datatype Button = Button(text: string, token: string)

  /** What the bot sends: a reply, a reply with a keyboard (one row per
      button), an edit of the selection message, or a voice message. */
  datatype Effect =
    | Reply(text: string)
    | ReplyMenu(text: string, keyboard: seq<seq<Button>>)
    | Edit(text: string)
    | SendVoice(path: string)

  /** How the `convert.py` subprocess ends: exit status 0 (and whether the
      expected output file then exists), a non-zero status, no process at
      all because the interpreter could not be started, or no end at all:
      `subprocess.run` has no timeout, so a script that never exits keeps
      `run_conversion` waiting for good. */
  datatype Outcome = ExitOk(outputExists: bool) | ExitNonZero | NotStarted | Hangs

  const InvalidFileText := "Please send a valid audio file."
  const MenuText := "Choose a voice to transform to:"
  const InvalidSelectionText := "Invalid selection."
  const ProcessingText := "Processing audio..."
  const CompleteText := "Voice transformation complete! Sending the transformed audio..."
  const FailedText := "An error occurred during voice transformation."
  const NotFoundText := "Output file not found. Please check the conversion script."

  // ---------------------------------------------------------------------------
  // workspace paths

  /** `username or str(id)`: an absent or empty username falls back to the
      decimal id. */
  function UserId(u: User): (uid: string)
    ensures uid != []
  {
    if u.username.Some? && u.username.value != "" then u.username.value else IntToString(u.id)
  }

  function UserInputDir(u: User): string {
    Join(InputDir, UserId(u))
  }

  function UserOutputDir(u: User): string {
    Join(OutputDir, UserId(u))
  }

  /** `os.path.join(user_input_dir, f"{id}.wav")`: depends on the user only. */
  function UploadPath(u: User): string {
    Join(UserInputDir(u), IntToString(u.id) + ".wav")
  }

  /** A user id `join` appends as one component. */
  predicate PlainUserId(u: User) {
    '/' !in UserId(u)
  }

  lemma NumericIdPlain(i: int)
    ensures '/' !in IntToString(i) && '.' !in IntToString(i)
  {
    var s := IntToString(i);
    assert forall k :: 0 <= k < |s| ==> s[k] != '/' && s[k] != '.';
  }

  /** Without a username the user id is the numeric id, which is always plain. */
  lemma UserIdSpec(u: User)
    ensures u.username.Some? && u.username.value != "" ==> UserId(u) == u.username.value
    ensures u.username.None? || u.username.value == "" ==> UserId(u) == IntToString(u.id) && PlainUserId(u)
  {
    NumericIdPlain(u.id);
  }

  /** The workspace of a plain user id: `INPUT_DIR/uid`, `OUTPUT_DIR/uid`, and
      the upload at `INPUT_DIR/uid/<id>.wav`, the same path for every upload
      of that user. */
  lemma WorkspacePaths(u: User)
    requires PlainUserId(u)
    ensures UserInputDir(u) == InputDir + "/" + UserId(u)
    ensures UserOutputDir(u) == OutputDir + "/" + UserId(u)
    ensures UploadPath(u) == InputDir + "/" + UserId(u) + "/" + IntToString(u.id) + ".wav"
    ensures DirName(UploadPath(u)) == UserInputDir(u)
    ensures BaseName(UploadPath(u)) == IntToString(u.id) + ".wav"
  {
    var uid := UserId(u);
    JoinPlain(InputDir, uid);
    JoinPlain(OutputDir, uid);
    assert IsPlainDir(InputDir + "/" + uid);
    var name := IntToString(u.id) + ".wav";
    NumericIdPlain(u.id);
    assert '/' !in name;
    JoinPlain(InputDir + "/" + uid, name);
    DirNameAfterSlash(InputDir + "/" + uid, name);
    BaseNameAfterSlash(InputDir + "/" + uid, name);
  }

  // ---------------------------------------------------------------------------
  // tokens and the menu

  /** `f"{file_path}|{embedding}|{checkpoint}"`. */
  function CallbackData(sel: Selection): string {
    sel.inputPath + "|" + sel.embedding + "|" + sel.checkpoint
  }

  predicate PipeFree(sel: Selection) {
    '|' !in sel.inputPath && '|' !in sel.embedding && '|' !in sel.checkpoint
  }

  /** The data string identifies its triple when no part contains '|': it
      splits back into the three parts. */
  lemma CallbackDataSplits(sel: Selection)
    requires PipeFree(sel)
    ensures Split(CallbackData(sel), '|') == [sel.inputPath, sel.embedding, sel.checkpoint]
  {
    var a, b, c := sel.inputPath, sel.embedding, sel.checkpoint;
    assert CallbackData(sel) == (a + ['|'] + b) + ['|'] + c;
    SplitConcat(a + "|" + b, c, '|');
    SplitConcat(a, b, '|');
    SplitNoSep(a, '|');
    SplitNoSep(b, '|');
    SplitNoSep(c, '|');
  }

  lemma CallbackDataInjective(s1: Selection, s2: Selection)
    requires PipeFree(s1) && PipeFree(s2) && CallbackData(s1) == CallbackData(s2)
    ensures s1 == s2
  {
    CallbackDataSplits(s1);
    CallbackDataSplits(s2);
  }

  /** The token of a selection: the MD5 hex digest of its data string. */
  function Token(digest: string -> string, sel: Selection): string {
    digest(CallbackData(sel))
  }

  function SelectionFor(inputPath: string, v: Voice): Selection {
    Selection(inputPath, v.embedding, v.checkpoint)
  }

  /** The keyboard: one row per catalogue voice, in catalogue order. */
  function Menu(digest: string -> string, inputPath: string, voices: seq<Voice>): seq<seq<Button>>
    decreases |voices|
  {
    if voices == [] then []
    else [[Button(voices[0].name, Token(digest, SelectionFor(inputPath, voices[0])))]]
         + Menu(digest, inputPath, voices[1..])
  }

  /** The table after issuing a token for every voice, in catalogue order. */
  function Register(digest: string -> string, m: map<string, Selection>, inputPath: string, voices: seq<Voice>)
    : map<string, Selection>
    decreases |voices|
  {
    if voices == [] then m
    else
      var sel := SelectionFor(inputPath, voices[0]);
      Register(digest, m[Token(digest, sel) := sel], inputPath, voices[1..])
  }

  /** The menu has exactly one button per voice, in order, labelled with the
      voice's name and carrying that voice's token. */
  lemma {:induction false} MenuSpec(digest: string -> string, inputPath: string, voices: seq<Voice>)
    ensures var kb := Menu(digest, inputPath, voices);
      && |kb| == |voices|
      && forall i :: 0 <= i < |voices| ==>
           kb[i] == [Button(voices[i].name, Token(digest, SelectionFor(inputPath, voices[i])))]
    decreases |voices|
  {
    if voices != [] {
      MenuSpec(digest, inputPath, voices[1..]);
    }
  }

  predicate IssuedBy(digest: string -> string, k: string, inputPath: string, voices: seq<Voice>) {
    exists i :: 0 <= i < |voices| && k == Token(digest, SelectionFor(inputPath, voices[i]))
  }

  /** Issuing the menu's tokens adds exactly those keys, leaves every other
      entry as it was, and sends each token to its voice's triple unless a
      later voice's triple has the same digest. */
  lemma {:induction false} RegisterSpec(digest: string -> string, m: map<string, Selection>, inputPath: string,
                                        voices: seq<Voice>)
    ensures var r := Register(digest, m, inputPath, voices);
      && (forall k :: k in r <==> k in m || IssuedBy(digest, k, inputPath, voices))
      && (forall k :: k in m && !IssuedBy(digest, k, inputPath, voices) ==> r[k] == m[k])
      && (forall i :: 0 <= i < |voices| ==>
            (forall j :: i < j < |voices| ==>
               Token(digest, SelectionFor(inputPath, voices[j])) != Token(digest, SelectionFor(inputPath, voices[i]))) ==>
            r[Token(digest, SelectionFor(inputPath, voices[i]))] == SelectionFor(inputPath, voices[i]))
    decreases |voices|
  {
    if voices != [] {
      var sel := SelectionFor(inputPath, voices[0]);
      var t := Token(digest, sel);
      var m' := m[t := sel];
      var rest := voices[1..];
      RegisterSpec(digest, m', inputPath, rest);
      var r := Register(digest, m, inputPath, voices);
      assert r == Register(digest, m', inputPath, rest);
      forall k ensures IssuedBy(digest, k, inputPath, voices) <==> k == t || IssuedBy(digest, k, inputPath, rest) {
        if IssuedBy(digest, k, inputPath, voices) {
          var i :| 0 <= i < |voices| && k == Token(digest, SelectionFor(inputPath, voices[i]));
          if i > 0 {
            assert k == Token(digest, SelectionFor(inputPath, rest[i - 1]));
          }
        }
        if IssuedBy(digest, k, inputPath, rest) {
          var i :| 0 <= i < |rest| && k == Token(digest, SelectionFor(inputPath, rest[i]));
          assert voices[i + 1] == rest[i];
        }
      }
      forall i | 0 <= i < |voices| &&
          (forall j :: i < j < |voices| ==>
             Token(digest, SelectionFor(inputPath, voices[j])) != Token(digest, SelectionFor(inputPath, voices[i])))
        ensures r[Token(digest, SelectionFor(inputPath, voices[i]))] == SelectionFor(inputPath, voices[i])
      {
        if i > 0 {
          assert voices[i] == rest[i - 1];
          forall j | i - 1 < j < |rest|
            ensures Token(digest, SelectionFor(inputPath, rest[j])) != Token(digest, SelectionFor(inputPath, rest[i - 1]))
          {
            assert rest[j] == voices[j + 1];
          }
        } else {
          assert !IssuedBy(digest, t, inputPath, rest) by {
            forall j | 0 <= j < |rest| ensures t != Token(digest, SelectionFor(inputPath, rest[j])) {
              assert rest[j] == voices[j + 1];
            }
          }
        }
      }
    }
  }

  // ---------------------------------------------------------------------------
  // resolving a selection

  /** What `handle_voice_selection` derives from a stored triple. */
  datatype Job = Job(inputPath: string, embedding: string, checkpoint: string,
                     userId: string, outputDir: string, outputPath: string)

  /** The user id is the name of the input's directory; the output is
      `OUTPUT_DIR/<user id>/<input base name up to its first '.'>_transformed.wav`. */
  function ResolveJob(sel: Selection): Job {
    var uid := BaseName(DirName(sel.inputPath));
    var outDir := Join(OutputDir, uid);
    var stem := Split(BaseName(sel.inputPath), '.')[0];
    Job(sel.inputPath, sel.embedding, sel.checkpoint, uid, outDir, Join(outDir, stem + "_transformed.wav"))
  }

  /** The options the bot passes to `convert.py`; the rest keep their defaults. */
  function ConvertArgs(job: Job): Convert.Args {
    Convert.Args(Convert.DefaultArgs.hpfile, job.checkpoint, Convert.DefaultArgs.txtpath, job.outputDir,
                 false, Some(job.embedding), Some(job.inputPath))
  }

  /** The bot looks for the converted clip exactly where `convert.py` writes
      it in direct mode, whatever the stored path is. */
  lemma JobMatchesConvert(sel: Selection, timestamp: string)
    ensures var job := ResolveJob(sel); var args := ConvertArgs(job);
      && (sel.inputPath != "" ==> Convert.Truthy(args.inputAudio))
      && job.outputPath
         == Convert.OutputFile(args.outdir, Convert.DirectTitle(args.inputAudio.value), args.useTimestamp, timestamp)
  {
    var stem := Split(BaseName(sel.inputPath), '.')[0];
    assert stem + Convert.TransformedSuffix + ".wav" == stem + "_transformed.wav";
  }

  /** For an upload of a user with a plain id, the job works in the output
      directory `handle_audio` created for that user, and the output is
      `OUTPUT_DIR/uid/<id>_transformed.wav`. */
  lemma UploadRoundTrip(u: User, v: Voice)
    requires PlainUserId(u)
    ensures var job := ResolveJob(SelectionFor(UploadPath(u), v));
      && job.userId == UserId(u)
      && job.outputDir == UserOutputDir(u)
      && job.outputPath == OutputDir + "/" + UserId(u) + "/" + IntToString(u.id) + "_transformed.wav"
  {
    var uid := UserId(u);
    var n := IntToString(u.id);
    WorkspacePaths(u);
    NumericIdPlain(u.id);
    ResolveStored(InputDir, uid, n, v);
    OutputNamePlain(n);
    JoinPlain(OutputDir + "/" + uid, n + "_transformed.wav");
  }

  /** The job of a stored `a/uid/n.wav`. */
  lemma ResolveStored(a: string, uid: string, n: string, v: Voice)
    requires IsPlainDir(a) && IsComponent(uid) && '/' !in n && '.' !in n
    ensures var job := ResolveJob(SelectionFor(a + "/" + uid + "/" + n + ".wav", v));
      && job.userId == uid
      && job.outputDir == Join(OutputDir, uid)
      && job.outputPath == Join(Join(OutputDir, uid), n + "_transformed.wav")
  {
    var d := a + "/" + uid;
    var f := n + ".wav";
    var p := a + "/" + uid + "/" + n + ".wav";
    assert p == d + "/" + f;
    assert '/' !in f;
    assert d[|d| - 1] == uid[|uid| - 1];
    assert IsPlainDir(d);
    DirNameAfterSlash(d, f);
    BaseNameAfterSlash(d, f);
    BaseNameAfterSlash(a, uid);
    assert f == n + "." + "wav";
    StemBeforeDot(n, "wav");
  }

  lemma StemBeforeDot(n: string, ext: string)
    requires '.' !in n
    ensures Split(n + "." + ext, '.')[0] == n
  {
    assert n + "." + ext == n + ['.'] + ext;
    SplitConcat(n, ext, '.');
    SplitNoSep(n, '.');
  }

  lemma OutputNamePlain(n: string)
    requires '/' !in n
    ensures '/' !in n + "_transformed.wav"
  {
    var name := n + "_transformed.wav";
    forall i | 0 <= i < |name| ensures name[i] != '/' {
      if i < |n| {
        assert name[i] == n[i];
      }
    }
  }

  /** The output path depends on the input only: two voices chosen for the
      same upload are converted into the same file. */
  lemma OutputPathIgnoresVoice(inputPath: string, v: Voice, w: Voice)
    ensures ResolveJob(SelectionFor(inputPath, v)).outputPath == ResolveJob(SelectionFor(inputPath, w)).outputPath
    ensures ResolveJob(SelectionFor(inputPath, v)).outputDir == ResolveJob(SelectionFor(inputPath, w)).outputDir
  {
  }

  // ---------------------------------------------------------------------------
  // terminal status

  /** `run_conversion` after the subprocess ends. A zero exit first replaces
      the status by the completion text unless it already reads so, then
      sends the file, or, when the file is missing, edits again. A process
      that cannot be started raises the same `FileNotFoundError` as a
      missing output file. A process that never exits is never followed by
      anything. */
  function ConversionEffects(outcome: Outcome, currentText: string, outputPath: string): seq<Effect> {
    match outcome
    case ExitNonZero => [Edit(FailedText)]
    case NotStarted => [Edit(NotFoundText)]
    case Hangs => []
    case ExitOk(found) =>
      (if currentText != CompleteText then [Edit(CompleteText)] else [])
      + (if found then [SendVoice(outputPath)] else [Edit(NotFoundText)])
  }

  /** A failed run sends only the error text; a successful run sends the
      output file last, and announces completion only when the text differs;
      a missing file ends with the not-found text and sends nothing. A zero
      exit edits the status once, to the completion text, exactly when it
      read otherwise, and does nothing else before its last effect. A run
      that never started sends only the not-found text. A terminal status
      follows exactly when the process ends or never starts; one that hangs
      leaves the status as it was. */
  lemma ConversionOutcomes(outcome: Outcome, currentText: string, outputPath: string)
    ensures var es := ConversionEffects(outcome, currentText, outputPath);
      && |es| <= 2
      && (es != [] <==> !outcome.Hangs?)
      && (outcome.ExitNonZero? ==> es == [Edit(FailedText)])
      && (outcome.NotStarted? ==> es == [Edit(NotFoundText)])
      && (outcome == ExitOk(true) ==>
            es[|es| - 1] == SendVoice(outputPath) && (Edit(CompleteText) in es <==> currentText != CompleteText))
      && (outcome.ExitOk? && currentText == CompleteText ==> |es| == 1)
      && (outcome.ExitOk? && currentText != CompleteText ==> |es| == 2 && es[0] == Edit(CompleteText))
      && (outcome == ExitOk(false) ==>
            es[|es| - 1] == Edit(NotFoundText) && (forall e :: e in es ==> e.Edit?))
      && (forall p :: SendVoice(p) in es ==> p == outputPath && outcome == ExitOk(true))
  {
  }

  /** A zero exit without an output file, seen from any other status text,
      edits the status twice: first to the completion text, then to the
      not-found text. */
  lemma MissingOutputEditsTwice(currentText: string, outputPath: string)
    requires currentText != CompleteText
    ensures ConversionEffects(ExitOk(false), currentText, outputPath) == [Edit(CompleteText), Edit(NotFoundText)]
  {
  }

  // ---------------------------------------------------------------------------
  // the bot

  class Bot {
    /** The MD5 hex digest of a string. */
    const digest: string -> string
    /** `CALLBACK_DATA_MAP`. */
    var callbacks: map<string, Selection>
    /** Directories created so far. */
    var dirs: set<string>
    /** Downloaded uploads by path. */
    var files: map<string, seq<bv8>>

    /** Every entry is stored under the token of its own triple. */
    ghost predicate Valid()
      reads this
    {
      forall k :: k in callbacks ==> k == Token(digest, callbacks[k])
    }

    /** Module start-up: both base directories are created, the table is empty. */
    constructor(digest: string -> string)
      ensures Valid()
      ensures this.digest == digest
      ensures callbacks == map[] && dirs == {InputDir, OutputDir} && files == map[]
    {
      this.digest := digest;
      callbacks := map[];
      dirs := {InputDir, OutputDir};
      files := map[];
    }

    /** `generate_callback_data`: the token is the digest of the data string
      and is stored with its triple; re-issuing a stored triple changes nothing. */
    method GenerateCallbackData(sel: Selection) returns (token: string)
      requires Valid()
      modifies this
      ensures Valid()
      ensures token == Token(digest, sel)
      ensures callbacks == old(callbacks)[token := sel]
      ensures token in old(callbacks) && old(callbacks)[token] == sel ==> callbacks == old(callbacks)
      ensures dirs == old(dirs) && files == old(files)
    {
      token := digest(CallbackData(sel));
      callbacks := callbacks[token := sel];
    }

    /** The keyboard comprehension: one `generate_callback_data` per voice. */
    method BuildKeyboard(inputPath: string, voices: seq<Voice>) returns (keyboard: seq<seq<Button>>)
      requires Valid()
      modifies this
      ensures Valid()
      ensures keyboard == Menu(digest, inputPath, voices)
      ensures callbacks == Register(digest, old(callbacks), inputPath, voices)
      ensures dirs == old(dirs) && files == old(files)
    {
      keyboard := [];
      var i := 0;
      while i < |voices|
        invariant 0 <= i <= |voices|
        invariant Valid()
        invariant keyboard + Menu(digest, inputPath, voices[i..]) == Menu(digest, inputPath, voices)
        invariant Register(digest, callbacks, inputPath, voices[i..]) == Register(digest, old(callbacks), inputPath, voices)
        invariant dirs == old(dirs) && files == old(files)
      {
        assert voices[i..][1..] == voices[i + 1..];
        var token := GenerateCallbackData(SelectionFor(inputPath, voices[i]));
        var row := [Button(voices[i].name, token)];
        assert keyboard + Menu(digest, inputPath, voices[i..])
            == (keyboard + [row]) + Menu(digest, inputPath, voices[i + 1..]);
        keyboard := keyboard + [row];
        i := i + 1;
      }
      assert voices[i..] == [];
    }

    /** `handle_audio`: without a voice note or audio file only the error
      reply is sent; otherwise both workspace directories exist afterwards,
      the upload is stored at the user's upload path (replacing an earlier
      one), a token is issued per catalogue voice and the menu is sent. */
    method HandleAudio(msg: Message) returns (reply: Effect)
      requires Valid()
      modifies this
      ensures Valid()
      ensures msg.voice.None? && msg.audio.None? ==>
        reply == Reply(InvalidFileText)
        && callbacks == old(callbacks) && dirs == old(dirs) && files == old(files)
      ensures msg.voice.Some? || msg.audio.Some? ==>
        var file := if msg.voice.Some? then msg.voice.value else msg.audio.value;
        var path := UploadPath(msg.sender);
        && dirs == old(dirs) + {UserInputDir(msg.sender), UserOutputDir(msg.sender)}
        && files == old(files)[path := file.content]
        && callbacks == Register(digest, old(callbacks), path, AvailableVoices)
        && reply == ReplyMenu(MenuText, Menu(digest, path, AvailableVoices))
    {
      var file: Attachment;
      if msg.voice.Some? {
        file := msg.voice.value;
      } else if msg.audio.Some? {
        file := msg.audio.value;
      } else {
        return Reply(InvalidFileText);
      }
      var inDir := UserInputDir(msg.sender);
      var outDir := UserOutputDir(msg.sender);
      dirs := dirs + {inDir, outDir};
      var path := Join(inDir, IntToString(msg.sender.id) + ".wav");
      files := files[path := file.content];
      var keyboard := BuildKeyboard(path, AvailableVoices);
      reply := ReplyMenu(MenuText, keyboard);
    }

    /** `handle_voice_selection` with the conversion's outcome given. A failed
      `query.answer` does nothing more; an unknown token gets the invalid
      selection text; neither starts a job. A known token resolves its
      triple into a job, reports processing and then the outcome, and when
      the process never exits the processing text is the last word; that
      token is the digest of the triple it resolves to. The table is only
      read. */
    method HandleVoiceSelection(answered: bool, token: string, currentText: string, outcome: Outcome)
      returns (effects: seq<Effect>, job: Option<Job>)
      requires Valid()
      ensures !answered ==> effects == [] && job == None
      ensures answered && token !in callbacks ==> effects == [Edit(InvalidSelectionText)] && job == None
      ensures answered && token in callbacks ==>
        && Token(digest, callbacks[token]) == token
        && job == Some(ResolveJob(callbacks[token]))
        && effects == [Edit(ProcessingText)] + ConversionEffects(outcome, currentText, job.value.outputPath)
        && (outcome.Hangs? <==> effects == [Edit(ProcessingText)])
    {
      if !answered {
        return [], None;
      }
      if token !in callbacks {
        return [Edit(InvalidSelectionText)], None;
      }
      var j := ResolveJob(callbacks[token]);
      var rest := ConversionEffects(outcome, currentText, j.outputPath);
      ConversionOutcomes(outcome, currentText, j.outputPath);
      effects := [Edit(ProcessingText)] + rest;
      assert |effects| == 1 + |rest|;
      job := Some(j);
    }
  }

  /** The token on any button of the menu sent for an upload resolves to
      that upload and that button's voice (the catalogue has one voice, so
      no later token of the same menu can overwrite it). */
  lemma MenuSelectionResolves(digest: string -> string, m: map<string, Selection>, u: User, i: nat)
    requires i < |AvailableVoices|
    ensures var r := Register(digest, m, UploadPath(u), AvailableVoices);
      var b := Menu(digest, UploadPath(u), AvailableVoices)[i][0];
      b.token in r && r[b.token] == SelectionFor(UploadPath(u), AvailableVoices[i])
  {
    MenuSpec(digest, UploadPath(u), AvailableVoices);
    RegisterSpec(digest, m, UploadPath(u), AvailableVoices);
    assert IssuedBy(digest, Token(digest, SelectionFor(UploadPath(u), AvailableVoices[i])), UploadPath(u), AvailableVoices);
  }
}
