# voice_clone: the bookkeeping around the voice converter

This project models the parts of the voice_clone repository that decide
which file goes where and which message is sent. It does not model the
neural converter. There are five pieces, one Dafny module each, plus three
shared modules.

- **`VoiceCloneBot`** (`bot.dfy`) models the Telegram bot `voice_clone_bot.py`.
  - An upload is stored at `telegram_audios/input/<user id>/<numeric id>.wav`.
  - A menu has one button per catalogue voice.
  - Each button carries the MD5 digest of `input|embedding|checkpoint`.
  - A process-wide table (`CALLBACK_DATA_MAP`) maps that digest back to the triple.
  - A selection looks the token up, re-derives the user id and output path from the stored input path, and reports the outcome of the `convert.py` run.
  - The table, the created directories and the downloaded files are the fields of a `Bot` class.
  - The MD5 function is an uninterpreted `digest: string -> string`.
  - The external process is an input `Outcome`: `ExitOk(outputExists)`, `ExitNonZero`, `NotStarted` (the interpreter could not be started) or `Hangs` (it never exits).
- **`Convert`** (`convert.py`) models the inference script's argument and naming rules.
  - It covers the direct-mode title `<base name up to first '.'>_transformed` and the output file `outdir/[<timestamp>_]<title>.wav`.
  - It covers the embedding loader chosen by suffix and the squeeze loop that brings an embedding shape to rank 2.
  - It covers the `src|tgt` list parser, the batch title, and the order in which a run fails.
  - Shapes are `seq<nat>`, the loaded source clip is its sample count, and the clock is a function from write index to timestamp string.
- **`PreprocessFlist`** (`preprocess_flist.py`) models the train/val/test split.
  - Each speaker folder's `.wav` names are kept and shuffled.
  - The list is cut into `[:2]` (validation), `[2:-10]` (training) and `[-10:]` (test) with Python slice semantics.
  - The cuts are gathered, shuffled again, and written one `source_dir/folder/fname` line each.
  - Directory listings are inputs, and a shuffle is any permutation.
- **`PreprocessSsl`** (`preprocess_ssl.py`) models the path part of `process(filename)`.
  - The base name is taken first.
  - Backslashes are then made '/'.
  - The parent folder is the second-to-last '/'-piece.
  - The features go to `out_dir/<folder>/<base name with every ".wav" made ".pt">`.
- **`SpeakerSegments`** (`speaker_segments_extract.py`) models target-speaker selection.
  - Durations are summed per speaker, in first-appearance key order.
  - `max(durations, key=durations.get)` picks the first maximum.
  - The target's turns are exported as `out_dir/target_000.wav`, `target_001.wav`, and so on.
  - The diarization is an input track list with integer millisecond times.
- **`Strings`, `Paths`, `Wrappers`** model the Python built-ins these scripts rely on.
  - `Strings` has `str.split`, `str.join`, `str.replace`, `str.strip`, `str(int)` and `f"{n:03d}"`.
  - `Paths` has posixpath `join`, `basename` and `dirname`, with the absolute-component and trailing-slash rules.
  - `Wrappers` has `Option` and `Result`.

The bot's job handling has these properties:

- On a zero exit with no output file, `run_conversion` first edits the
  status to the completion text and then to "Output file not found...".
  That is two status edits, one of them a success message
  (`VoiceCloneBot.MissingOutputEditsTwice`).
- The missing-output message differs from the non-zero-exit message.
- The `subprocess.run` call at voice_clone_bot.py:110 has no timeout. A
  `convert.py` that never exits leaves "Processing audio..." as the last
  status (`VoiceCloneBot.ConversionOutcomes`), for instance on a saved
  embedding of shape `[2, 3, 4]` (`Convert.NormalizeSpec`).
- That call is synchronous inside the coroutine that `asyncio.create_task`
  (voice_clone_bot.py:137) schedules on the application's one event loop.
  So at most one `convert.py` runs at a time, and the bot handles no other
  update while it runs; a hung conversion stalls the whole bot.
- Two voices chosen for one upload resolve to the same output file
  (`VoiceCloneBot.OutputPathIgnoresVoice`). Nothing stops a second job from
  overwriting the first one's output after its process has exited but
  before its `reply_voice`: the awaited edit at voice_clone_bot.py:126 lets
  the next task's subprocess run in between.
- A later upload by the same user replaces the stored file at the same
  path, so an older menu's token converts the newer clip.

A few of the script's behaviours are easy to miss:

- For a speaker with 1 to 11 clips, the validation and test cuts share a
  clip (`PreprocessFlist.SpeakerSplitOverlap`).
- `str.replace(".wav", ".pt")` rewrites every ".wav" in the name
  (`PreprocessSsl.EveryWavReplaced`).
- On a POSIX host, the base name is taken before backslashes are
  normalised. A Windows-style `folder\stem.wav` is then saved as
  `folder\stem.pt` inside `out_dir/folder` (`PreprocessSsl.BackslashPath`).
- `preprocess_flist.py` stops with `FileNotFoundError` before writing any
  list when `--train_list` is a bare file name or a file directly under
  `/`, because `os.makedirs('')` fails (`PreprocessFlist.ListsDirSpec`).
- The squeeze loop never ends for a rank > 2 shape with more than two
  dimensions different from 1 (`Convert.NormalizeSpec`). A dimension of
  size 0 is not squeezed.

## Model

| member | source | states |
|---|---|---|
| Strings.Split | convert.py:97 | `str.split(sep)` always yields at least one piece |
| Strings.SplitPiecesFree | convert.py:97 | no piece of a split contains the separator |
| Strings.SplitJoin | preprocess_flist.py:16 | joining the pieces of a split with the separator gives the string back |
| Strings.JoinSplit | preprocess_flist.py:16 | splitting a join of separator-free pieces gives the pieces back |
| Strings.SplitNoSep | convert.py:97 | a string without the separator splits into itself alone |
| Strings.SplitConcat | convert.py:97 | splitting `a + sep + b` is the split of `a` followed by the split of `b` |
| Strings.SplitSeveral | preprocess_ssl.py:15 | a split has two or more pieces exactly when the separator occurs |
| Strings.FirstField | convert.py:50 | the first piece is the longest separator-free prefix, followed by the separator when shorter than the string |
| Strings.LastIndexOf | preprocess_ssl.py:13 | the result is -1 or an index of the character, with no occurrence after it |
| Strings.LastField | convert.py:98 | the last piece of a split is what follows the last separator |
| Strings.ReplaceSkip | preprocess_ssl.py:21 | `replace` leaves a match-free prefix unchanged |
| Strings.ReplaceNoMatch | speaker_segments_extract.py:7 | `replace` of a pattern that does not occur changes nothing |
| Strings.ReplaceChar | preprocess_ssl.py:14 | replacing one character by another maps the string pointwise and keeps its length |
| Strings.ReplaceFree | preprocess_ssl.py:21 | a character in neither the string nor the replacement is not in the result |
| Strings.ReplaceAfterClean | preprocess_ssl.py:21 | the first occurrence after a match-free prefix is replaced, then the rest is processed |
| Strings.TrimStartSpec | convert.py:97 | `lstrip` removes exactly a whitespace prefix and leaves a string not starting with whitespace |
| Strings.TrimEndSpec | convert.py:97 | `rstrip` removes exactly a whitespace suffix and leaves a string not ending with whitespace |
| Strings.DigitChar | voice_clone_bot.py:60 | a decimal digit character with the given value |
| Strings.NatToString | voice_clone_bot.py:60 | `str(n)` is a non-empty string of digits |
| Strings.NatToStringValue | voice_clone_bot.py:60 | the digits of `str(n)` read back as `n` |
| Strings.IntToString | voice_clone_bot.py:51 | `str(id)` is non-empty and holds only digits and '-' |
| Strings.LeadingZerosValue | speaker_segments_extract.py:35 | leading zeros do not change the value of a digit string |
| Strings.Format03 | speaker_segments_extract.py:35 | `f"{n:03d}"` has at least three digits and reads back as `n` |
| Strings.Format03Injective | speaker_segments_extract.py:35 | different counts give different `03d` texts |
| Paths.JoinPlain | voice_clone_bot.py:52-53 | joining a relative part onto a directory not ending in '/' inserts one '/' |
| Paths.LastSlash | preprocess_ssl.py:13 | the last '/' of `a/b` is the inserted one when `b` has none |
| Paths.BaseNameAfterSlash | preprocess_ssl.py:13 | `basename(a/b)` is `b` |
| Paths.DirNameAfterSlash | voice_clone_bot.py:100 | `dirname(a/b)` is `a` |
| Paths.BaseNameIsLastPiece | convert.py:98 | `basename(p)` equals `p.split('/')[-1]` |
| Convert.DirectTitle | convert.py:50 | the title ends in `_transformed`, and its stem is the base name up to its first '.' |
| Convert.OutputFileInOutdir | convert.py:86-90 | the output lies directly in `outdir`, named `[<timestamp>_]<title>.wav` |
| Convert.LoaderFor | convert.py:56-59 | `.npy` selects numpy, `.pt` selects torch, any other suffix selects no loader |
| Convert.Squeeze | convert.py:62 | `squeeze` drops every size-1 dimension, keeps every other dimension as often as it occurs, and changes a shape without a 1 not at all |
| Convert.SqueezeConcat | convert.py:62 | squeezing works dimension by dimension, so the kept dimensions stay in order |
| Convert.BaseNameFree | convert.py:98 | a base name holds no '/' |
| Convert.NormalizeSpec | convert.py:61-65 | the loop hangs exactly for rank > 2 with more than two non-unit dims; otherwise the rank is 0 or 2 and the non-unit dims are kept in order; rank 0 and rank 2 are left alone, and an added unit dimension goes first |
| Convert.NormalizeShape | convert.py:61-65 | the squeeze loop and the rank-1 unsqueeze compute `Normalize` |
| Convert.LoadEmbedding | convert.py:53-65 | the embedding block is skipped, fails on an unknown suffix, hangs, or yields the normalised shape (a leading 1 for `.npy`) |
| Convert.ParseLineSpec | convert.py:97 | a line is accepted with `(src, tgt)` exactly when, stripped, it is src, a pipe, then tgt, with no other pipe |
| Convert.BatchTitleSpec | convert.py:98 | the batch title is `basename(src)_basename(tgt)` and has no '/' |
| Convert.ParseList | convert.py:94-101 | on success the three lists are index-aligned with the lines; otherwise the first bad line is reported |
| Convert.Run | convert.py:46-171 | direct mode fails on embedding, empty input and `use_spk`, in that order, else writes one file; text mode writes one file per line, in order, or fails; any bad line makes it fail on the first bad line, before the embedding is looked at |
| PreprocessFlist.WavEntriesSpec | preprocess_flist.py:26 | exactly the `.wav` names are kept, each paired with its speaker folder and as often as it is listed |
| PreprocessFlist.ListsDirSpec | preprocess_flist.py:16 | the directory made for `d/name` is `d`; for a bare name, or a name directly under `/`, the path is empty and `makedirs` fails |
| PreprocessFlist.SpeakerSplitSizes | preprocess_flist.py:28-30 | validation is the first min(2, n), test the last min(10, n), training indices 2 to n-10 and empty for n <= 12 |
| PreprocessFlist.SpeakerSplitPartition | preprocess_flist.py:28-30 | for n >= 12, validation, training and test together are the speaker's list in order |
| PreprocessFlist.SpeakerSplitDisjoint | preprocess_flist.py:28-30 | for n >= 12 distinct clips, the three cuts are pairwise disjoint |
| PreprocessFlist.SpeakerSplitOverlap | preprocess_flist.py:29-30 | for 1 <= n < 12, some clip is in both validation and test |
| PreprocessFlist.SpeakerSplitShuffle | preprocess_flist.py:27-30 | the cut sizes are the same for every shuffle of the list |
| PreprocessFlist.GatherCovers | preprocess_flist.py:23-30 | with >= 12 clips per speaker, the gathered lists hold every clip exactly once (multiset union) |
| PreprocessFlist.FlattenShuffled | preprocess_flist.py:26-27 | shuffling each speaker's list keeps all clips of all speakers |
| PreprocessFlist.GatherCoversAll | preprocess_flist.py:23-30 | with >= 12 clips per speaker, the lists hold every `.wav` entry of every folder once |
| PreprocessFlist.CollectLists | preprocess_flist.py:23-30 | the speaker loop's lists are the gathered cuts and, with >= 12 clips each, cover all clips |
| PreprocessFlist.MapPermutation | preprocess_flist.py:32-34 | mapping a permutation gives a permutation of the mapped list |
| PreprocessFlist.ShuffledLines | preprocess_flist.py:32-34 | the final shuffle changes the order of a list's lines, not the lines |
| PreprocessFlist.LinesSplit | preprocess_flist.py:41 | newline-terminated lines split back into the lines and an empty rest |
| PreprocessFlist.ListTextLines | preprocess_flist.py:37-53 | a written list file reads back as the entries' `source_dir/folder/fname` paths in list order |
| PreprocessFlist.WriteList | preprocess_flist.py:37-41 | the writing loop produces one `wavpath\n` per entry, in list order |
| PreprocessSsl.NormalizeSpec | preprocess_ssl.py:14 | every backslash becomes '/', every other character stays, and no backslash remains |
| PreprocessSsl.SlashAfterNormalize | preprocess_ssl.py:14 | after normalising there is a '/' exactly when there was a '/' or a backslash |
| PreprocessSsl.FeatureFileError | preprocess_ssl.py:14-15 | the path fails with `IndexError` exactly when it has neither '/' nor backslash |
| PreprocessSsl.ParentFolderOf | preprocess_ssl.py:15 | the folder of `a/folder/name` is `folder` |
| PreprocessSsl.ParentFolderOfTwo | preprocess_ssl.py:15 | the folder of `folder/name` is `folder` |
| PreprocessSsl.JoinTwice | preprocess_ssl.py:16-21 | the two joins give `out_dir/folder/save` |
| PreprocessSsl.SavePathShape | preprocess_ssl.py:16-21 | the save path lies in `out_dir/folder` and is named `save` |
| PreprocessSsl.NoBackslashUnchanged | preprocess_ssl.py:14 | a path without backslashes is unchanged by normalising |
| PreprocessSsl.FeatureFileInFolder | preprocess_ssl.py:12-21 | `dir/folder/name` saves to `out_dir/folder/<name with .wav made .pt>`, directly under `out_dir` in a directory named `folder` |
| PreprocessSsl.WavStemToPt | preprocess_ssl.py:21 | `stem.wav` becomes `stem.pt` |
| PreprocessSsl.EveryWavReplaced | preprocess_ssl.py:21 | every ".wav" in the name is replaced, not only the extension |
| PreprocessSsl.NormalizeOneBackslash | preprocess_ssl.py:14 | `folder\rest` normalises to `folder/rest` |
| PreprocessSsl.BackslashFolder | preprocess_ssl.py:13-15 | `folder\stem.wav` finds its folder, but its base name is the whole input |
| PreprocessSsl.BackslashPath | preprocess_ssl.py:12-21 | `folder\stem.wav` saves to `out_dir/folder/folder\stem.pt` |
| PreprocessSsl.NoSlashBaseName | preprocess_ssl.py:13 | a path without '/' is its own base name |
| SpeakerSegments.SegmentsPathOf | speaker_segments_extract.py:7 | for a path with a single "raw", the segments path replaces that "raw" by "segments" |
| SpeakerSegments.SpeakersMembers | speaker_segments_extract.py:17-19 | a speaker is a key exactly when some track carries its label, and no key repeats |
| SpeakerSegments.SpeakersOrderAt | speaker_segments_extract.py:17-19 | a key's first track follows some track of every earlier key |
| SpeakerSegments.SpeakersOrder | speaker_segments_extract.py:17-19 | keys are in order of first appearance |
| SpeakerSegments.TotalUnlabelled | speaker_segments_extract.py:19 | a speaker without tracks totals 0, which is the `get(speaker, 0)` default |
| SpeakerSegments.Accumulate | speaker_segments_extract.py:17-19 | the loop's key order is first appearance, and each value is the sum of that speaker's durations |
| SpeakerSegments.ArgMax | speaker_segments_extract.py:21 | the index of the first maximal value |
| SpeakerSegments.MaxByValue | speaker_segments_extract.py:21 | `ValueError` exactly for no keys; otherwise a key with the largest value, and the first such |
| SpeakerSegments.TargetIsLongest | speaker_segments_extract.py:16-21 | the target is labelled on some track, no speaker's total exceeds it, no speaker with an equal total appears before it, and only an empty track list fails |
| SpeakerSegments.TargetBeforeTies | speaker_segments_extract.py:21 | on a tie the first maximum wins: the target's first track comes no later than any track of a speaker with the same total |
| SpeakerSegments.TargetTracksSpec | speaker_segments_extract.py:30-31 | the exported tracks are exactly the target's, as many as are labelled with it |
| SpeakerSegments.ChunkNamesDistinct | speaker_segments_extract.py:35 | different counts give different chunk files |
| SpeakerSegments.ExportTarget | speaker_segments_extract.py:29-36 | chunk i is the i-th target track, named `target_<i:03d>.wav`, and the final count is the number of target tracks |
| SpeakerSegments.ExtractTarget | speaker_segments_extract.py:12-36 | per audio file: fails exactly on no tracks; otherwise the target is the first longest speaker, and its tracks are exported in order as numbered chunks into `segments_path + audio_name` |
| VoiceCloneBot.UserId | voice_clone_bot.py:51 | the user id is never empty |
| VoiceCloneBot.NumericIdPlain | voice_clone_bot.py:60 | the decimal id holds neither '/' nor '.' |
| VoiceCloneBot.UserIdSpec | voice_clone_bot.py:51 | the user id is the username when one is set, else the decimal id, which is a plain component |
| VoiceCloneBot.WorkspacePaths | voice_clone_bot.py:51-60 | the input dir is `INPUT_DIR/uid`, the output dir is `OUTPUT_DIR/uid`, and an upload is always `INPUT_DIR/uid/<id>.wav` |
| VoiceCloneBot.CallbackDataSplits | voice_clone_bot.py:66 | the data string splits back into the triple when no part holds a pipe |
| VoiceCloneBot.CallbackDataInjective | voice_clone_bot.py:66 | pipe-free triples with the same data string are equal |
| VoiceCloneBot.MenuSpec | voice_clone_bot.py:72-78 | one button per catalogue voice, in order, labelled with its name and carrying its token |
| VoiceCloneBot.RegisterSpec | voice_clone_bot.py:65-78 | issuing adds exactly the menu's tokens, leaves every other entry, and maps each token to its triple unless a later voice has the same token |
| VoiceCloneBot.MenuSelectionResolves | voice_clone_bot.py:72-99 | the token on each menu button resolves to that upload and voice |
| VoiceCloneBot.JobMatchesConvert | voice_clone_bot.py:99-119 | the bot's output path is exactly the file `convert.py` writes in direct mode for the arguments it is given |
| VoiceCloneBot.ResolveStored | voice_clone_bot.py:99-102 | for `a/uid/n.wav` the user id is `uid` and the output is `OUTPUT_DIR/uid/n_transformed.wav` |
| VoiceCloneBot.UploadRoundTrip | voice_clone_bot.py:51-102 | a stored upload resolves to its own user id, the output dir `handle_audio` created, and `OUTPUT_DIR/uid/<id>_transformed.wav` |
| VoiceCloneBot.StemBeforeDot | voice_clone_bot.py:102 | the part before the first '.' of `n.ext` is `n` |
| VoiceCloneBot.OutputNamePlain | voice_clone_bot.py:102 | the output name holds no '/' |
| VoiceCloneBot.OutputPathIgnoresVoice | voice_clone_bot.py:99-102 | one upload gives the same output path whichever voice is chosen |
| VoiceCloneBot.ConversionOutcomes | voice_clone_bot.py:110-135 | a terminal status follows exactly when the process ends or never starts, and a hung process sends nothing; a zero exit edits once, to the completion text, exactly when the text differs, and with the file present then only sends it, which nothing else does; a zero exit without the file ends with the not-found text and sends nothing |
| VoiceCloneBot.MissingOutputEditsTwice | voice_clone_bot.py:122-135 | a missing output edits first to the completion text, then to the not-found text |
| VoiceCloneBot.Bot.constructor | voice_clone_bot.py:11-14 | both base directories exist and the token table is empty |
| VoiceCloneBot.Bot.GenerateCallbackData | voice_clone_bot.py:65-69 | the token is the digest of the data string and maps to the triple; re-issuing a stored triple leaves the table unchanged |
| VoiceCloneBot.Bot.BuildKeyboard | voice_clone_bot.py:72-78 | the keyboard is the menu and the table is updated by one issue per voice, in order |
| VoiceCloneBot.Bot.HandleAudio | voice_clone_bot.py:44-80 | no attachment gives only the error reply; otherwise both workspace dirs exist, the upload replaces the one at the user's path, the tokens are issued and the menu is sent |
| VoiceCloneBot.Bot.HandleVoiceSelection | voice_clone_bot.py:84-135 | a failed answer does nothing, an unknown token gets "Invalid selection.", and a known token resolves its triple, reports processing, then the outcome, and a process that never exits leaves processing as the last status; that token is the digest of its triple, and the table is only read |

## Left out

- Telegram transport: the application, polling and event-loop recovery,
  and the fixed replies of `start` and `handle_text`. These are network
  I/O through an external library with no decisions of their own.
- `asyncio.create_task`: the conversion is a sequential step whose outcome
  is an input. The interleaving of tasks on the one event loop (the blocking
  subprocess stalls every other update; the awaited edits let the next task
  run) is not modelled.
- `subprocess.run` of `convert.py`: only its outcome is an input: exit status,
  whether the output exists, that it never exits, or that the interpreter could not be started
  (the `FileNotFoundError` of voice_clone_bot.py:134). The bot's job is tied to `convert.py` through
  `VoiceCloneBot.JobMatchesConvert`.
- The MD5 hex digest: it is an uninterpreted function. No collision
  freedom and no digest length is claimed.
- VoiceCloneBot.RegisterSpec: a token is stated to map to its own triple
  only when no later voice of the same menu has the same digest. With an
  uninterpreted digest, a collision is possible.
- Model inference in `convert.py` is not modelled: model and WavLM loading,
  `librosa` loading and trimming, the speaker encoder, mel spectrograms,
  `infer` and the `scipy` write. These are floating point numerics and foreign calls.
  - The source clip is only its sample count.
  - A stored embedding is only its shape.
  - Text mode without a saved embedding is treated like any other successful text-mode run, because the per-line embedding computation is numeric.
- Convert.Run: direct mode with `use_spk` and no saved embedding calls
  `infer` with `g=None`. It is modelled as a success that writes the
  output file. What `infer` does with a missing embedding is not modelled.
- `time.strftime`: the timestamp is an input, `clock(i)` for the i-th
  write.
- `extract_speaker_embedding.py` is not part of this model. It is float
  averaging of neural embeddings.
- `downsample_audios.py` is not part of this model. It is resampling through
  audio libraries.
- pyannote diarization and the pydub slicing and export are not modelled. The track list is
  an input, and a chunk records its bounds and file name.
- SpeakerSegments.ExtractTarget: models one pass of the per-file loop. In
  the script, the `ValueError` that `max` raises for an audio file with no
  tracks also stops every later file. That cross-file effect is not
  modelled.
- SpeakerSegments.Duration: times are integer milliseconds. The script
  sums float seconds and truncates to milliseconds only at export, so
  ties decided by float rounding are not modelled.
- SpeakerSegments.SegmentsPathOf: stated for a path with a single "raw".
  There is no separate lemma instantiating it on the built-in
  `AudiosPath` literal.
- Filesystem effects (`makedirs`, `open`, downloads, `glob`, `listdir`) are not performed.
  - Directory listings are inputs.
  - Created directories and stored uploads are sets and maps in the `Bot` class.
  - A written list file is its text.
  - Ancestor directories that `makedirs` also creates are not tracked.
- `random.shuffle` is not modelled as randomness: every shuffle is any
  permutation of its input, given as a parameter.
- `print` and `tqdm` output is not modelled.
- `os.path` is modelled as posixpath. On Windows, ntpath's `basename`
  also splits at backslashes and its `join` inserts a backslash. Those semantics
  are not modelled, and `PreprocessSsl.BackslashPath` describes a POSIX host.
- Failures of the Telegram transport calls are not modelled. These are
  `reply_text`, `get_file` and `download_to_drive` in `handle_audio`
  (voice_clone_bot.py:47, 61-62, 80), the edits at voice_clone_bot.py:96 and
  :105, and `edit_message_text` and `reply_voice` inside `run_conversion`.
  Telegram rejects an edit that sets the same text again. So a second click
  on a button fails at :105 and ends the handler before `create_task`,
  while the known-token branch of `Bot.HandleVoiceSelection` always starts
  the job.
