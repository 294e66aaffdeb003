# Offline video captions, modelled in Dafny

`generate_vtt.py` walks a course folder (`course/`). For every file whose lower-cased
suffix is a video extension, it writes a WebVTT caption file at the mirrored place under
`captions/`. The audio is first extracted with ffmpeg into a `.wav` next to the video. Whisper
then transcribes it, the cues are written, and the wav is deleted. A video whose caption
already exists is skipped, which makes a second run resumable.

This project models the script's logic and proves what it guarantees:

- **Timestamps** (`Timestamp`): `format_timestamp` on a natural number of milliseconds.
  The fields are in range and put back together give the offset. Hours are never wrapped.
  The layout is `HH:MM:SS.mmm`, and a parser for that layout reads every timestamp back, so
  distinct offsets give distinct timestamps. Below 100 hours, later offsets never sort
  before earlier ones as strings.
- **The caption file** (`Strings`, `Seqs`, `Vtt`): Python's `str.strip()`, and `write_vtt` as
  an imperative loop over an open text file. It is proved equal to a declarative description
  of the document: the header, then one cue block per segment with text, in input order.
- **Paths** (`Paths`): the pathlib operations the script uses (`relative_to`, `parent`,
  `name`, `suffix`, `stem`, `with_suffix`, the case-insensitive extension match), with
  CPython's rules for dots. Also the facts about the caption and wav paths derived from them.
- **The filesystem** (`FileSystem`): files with their contents and a set of directories,
  `mkdir` with and without `parents=True`, and a mutable `Disk` class whose methods the
  pipeline calls. A ghost record of the external steps started lets ordering be stated.
- **`process_video`** (`Pipeline`, `ProcessFacts`): the method performs the five steps on the
  disk. It is proved equal to a specification function, `ProcessSpec`, that runs a fixed plan
  of steps and stops at the first one that ends the call. The lemmas about that function show:
  - the skip rule, both ways;
  - the effects of success and of each failure;
  - the step order;
  - that the tree stays well formed;
  - that a repeated call skips and changes nothing.
- **`scan_course` and `main`** (`Scanner`, `ScanFacts`): the loop over the listing and the
  checks of `main`, proved equal to specification functions. The lemmas show:
  - exactly the videos are handed over, in listing order;
  - "no videos" is reported exactly when there are none;
  - the tree stays well formed;
  - the first failure aborts the scan;
  - a second scan after a finished one changes nothing and transcribes nothing.

ffmpeg and Whisper are a parameter `Env`. `Env.decodes(video)` says whether ffmpeg can
decode the video. `Env.transcript(video)` gives the segments Whisper returns for its audio,
or `None` when reading the wav or transcribing fails. The recursive listing `rglob("*")` is a
parameter `walk`, in the order the listing yields it.

The wav is deleted only after extraction and transcription both succeed, and is left behind
when either raises (`FailureEffects`). There is no per-file `try`, so the first exception
ends the scan and `main` (`ScanFrom`, `ScanErrors`).

## Model

| member | source | states |
|---|---|---|
| `Timestamp.FieldsReconstruct` | generate_vtt.py:49-51 | minutes and whole seconds are below 60, milliseconds below 1000, and hours·3600000 + minutes·60000 + seconds·1000 + millis is the offset exactly; hours are not reduced |
| `Timestamp.MinuteOfHour` | generate_vtt.py:50-51 | the offset modulo a minute is the offset within the hour modulo a minute, so `seconds % 60` agrees with the minutes field taken from `seconds % 3600` |
| `Timestamp.HoursBelow` | generate_vtt.py:49 | the offset is below h hours exactly when the hours field is below h |
| `Timestamp.PadInt` | generate_vtt.py:52 | `{n:0{w}d}` is all digits, at least w long, exactly w long iff the decimal digits of n fit in w, and otherwise exactly as long as those digits, with no extra zeros |
| `Timestamp.DecimalLength` | generate_vtt.py:52 | a number has one digit iff it is below 10, at most two iff below 100, at most three iff below 1000 |
| `Timestamp.DecimalValue` | generate_vtt.py:52 | the decimal digits written for n read back as n |
| `Timestamp.PadIntValue` | generate_vtt.py:52 | the zero-padded digits read back as n: padding adds nothing and cuts nothing |
| `Timestamp.TailShape` | generate_vtt.py:52 | `:MM:SS.mmm` built from in-range fields is ten characters with `:`, `:` and `.` at positions 0, 3 and 6 |
| `Timestamp.FormatShape` | generate_vtt.py:45-52 | a timestamp is at least 12 characters, ends in `:MM:SS.mmm` with its separators in place, and is exactly 12 iff the offset is below 100 hours (wider hours are kept, not wrapped) |
| `Timestamp.ParseTail` | generate_vtt.py:52 | digit fields in range, joined by the separators, are accepted and read as their value |
| `Timestamp.ParsePadded` | generate_vtt.py:52 | the padded fields joined as `format_timestamp` joins them read back as the offset they stand for |
| `Timestamp.ParseFormat` | generate_vtt.py:45-52 | every timestamp written reads back, under the WebVTT timestamp syntax (section 4.1 of the W3C WebVTT specification), as the offset it was written from |
| `Timestamp.FormatInjective` | generate_vtt.py:45-52 | distinct offsets give distinct timestamps |
| `Timestamp.FormatZero` | generate_vtt.py:45-52 | offset 0 is written `00:00:00.000` |
| `Timestamp.FormatExample` | generate_vtt.py:45-52 | 3661.25 seconds is written `01:01:01.250` |
| `Timestamp.FieldsOf` | generate_vtt.py:49-51 | in-range hours, minutes, seconds and milliseconds are the fields of the offset they make up |
| `Timestamp.DigitsOrder` | generate_vtt.py:52 | equal-length digit strings compare as strings the way their values compare |
| `Timestamp.PadOrder` | generate_vtt.py:52 | padded to a width both fit in, the smaller number gives the string that is no greater, and equal strings mean equal numbers |
| `Timestamp.FieldsOrder` | generate_vtt.py:49-51 | a later offset has fields no smaller, hours first, then minutes, seconds and milliseconds |
| `Timestamp.FieldsMonotone` | generate_vtt.py:52 | `HH:MM:SS.mmm` from in-range fields orders as strings as the fields order as a tuple |
| `Timestamp.FormatMonotone` | generate_vtt.py:45-52 | below 100 hours a later offset never gives a timestamp that sorts before an earlier one in Python's string order |
| `Strings.StripWithin` | generate_vtt.py:60 | `strip()` returns the part of the text that starts right after its leading white space |
| `Strings.StripTrailing` | generate_vtt.py:60 | everything after the stripped text is white space |
| `Strings.StripEnds` | generate_vtt.py:60 | a non-empty stripped text neither starts nor ends with white space |
| `Strings.StripSpec` | generate_vtt.py:60 | the stripped text is the middle of the text between a white-space prefix and a white-space suffix, has no white space at either end, and is empty iff the text is all white space (so `if not text` drops exactly the blank segments) |
| `Strings.StripUnique` | generate_vtt.py:60 | any split of the text into white space, a core without white space at its ends, and white space has `strip()` as that core |
| `Strings.StripIdempotent` | generate_vtt.py:60 | stripping twice is stripping once |
| `Strings.LowerChar` | generate_vtt.py:114 | `A`..`Z` are lowered by 32 code points; the result is never an upper-case ASCII letter or the Kelvin sign, so lowering again keeps it; an ASCII result comes from itself, from its upper-case letter or, for `k`, from the Kelvin sign |
| `Strings.Lower` | generate_vtt.py:114 | `lower()` keeps the length and lowers every character on its own |
| `Strings.LowerIdempotent` | generate_vtt.py:114 | lowering a lowered string changes nothing |
| `Seqs.FilterIndices` | generate_vtt.py:59-62 | the positions kept are increasing and include every position that passes the test |
| `Seqs.FilterAt` | generate_vtt.py:59-62 | the kept elements are exactly the elements at those positions, in input order |
| `Seqs.FilterEmpty` | generate_vtt.py:113-119 | nothing is kept iff no element passes the test |
| `Seqs.FilterCons` | generate_vtt.py:113-116 | filtering a listing is the first entry's contribution followed by filtering the rest |
| `Vtt.TextFile.constructor` | generate_vtt.py:56 | a file opened with `"w"` starts empty |
| `Vtt.TextFile.Write` | generate_vtt.py:57 | `f.write(s)` appends `s` to what is written |
| `Vtt.WriteVtt` | generate_vtt.py:55-68 | the loop leaves in the file the header and, per segment, the block `Written` says: nothing for a blank segment, its cue block otherwise |
| `Vtt.WrittenStep` | generate_vtt.py:59-68 | one more turn of the loop appends the next segment's block |
| `Vtt.WrittenIsDocument` | generate_vtt.py:57-68 | the file is the header followed by the cue blocks of exactly the segments with text, in input order |
| `Vtt.StartsWithHeader` | generate_vtt.py:57 | the file always begins with `WEBVTT` and a blank line |
| `Vtt.AllBlankIsHeader` | generate_vtt.py:57-62 | the file is the bare header iff every segment is blank, the empty list included |
| `Paths.LastDot` | generate_vtt.py:92 | the position found holds a dot and no dot comes after it |
| `Paths.StemSuffix` | generate_vtt.py:92 | stem and suffix split the name; a suffix is empty or a dot and at least one more character, none of them a dot; a non-empty name has a non-empty stem |
| `Paths.WithSuffixIsStem` | generate_vtt.py:98 | `with_suffix` keeps the directory and gives the stem the new suffix |
| `Paths.RelativeTo` | generate_vtt.py:88 | `relative_to` succeeds iff the root is a leading part of the path, and the path is the root followed by the result |
| `Paths.SplitAppended` | generate_vtt.py:92 | a stem followed by a well-formed suffix splits back into the two |
| `Paths.Renamed` | generate_vtt.py:92 | for a suffix with one dot, the new name splits back into the old name's stem and that suffix |
| `Paths.CaptionMirrorsVideo` | generate_vtt.py:88-92 | the caption is below the output root, in the sub-directory the video occupies below the input root, named by the video's stem and `.vtt`, so `relative_to(OUTPUT_ROOT)` in the final report cannot raise |
| `Paths.WavName` | generate_vtt.py:98 | the wav is in the video's directory, with the video's stem and the suffix `.wav` |
| `Paths.WavBesideVideo` | generate_vtt.py:98 | `WavName`, and a wav of a video below the input root stays below it and out of the output tree |
| `Paths.RootsDisjoint` | generate_vtt.py:9-10 | no path is below both the input root and the output root |
| `Paths.LowerWav` | generate_vtt.py:15 | neither `.wav` nor the empty suffix is a video extension |
| `Paths.WavIsNotVideo` | generate_vtt.py:98 | the wav of a video is never the video itself and is never mistaken for a video |
| `Paths.VideoHasSuffix` | generate_vtt.py:114 | a match always has a real suffix and a non-empty stem, so dotfiles like `.mp4` are never videos |
| `Paths.CaseInsensitiveMatch` | generate_vtt.py:114 | a file whose suffix lowers to one of the five extensions is a video |
| `Paths.UpperCaseSuffix` | generate_vtt.py:114 | a `.MP4` file is a video |
| `Paths.SuffixesShareCaption` | generate_vtt.py:92 | two videos that differ only in their suffix map to the same caption path |
| `FileSystem.Mkdirs` | generate_vtt.py:90 | `mkdir(parents=True, exist_ok=True)` fails iff the directory or an ancestor is a regular file; otherwise it changes no file, removes no directory, leaves the directory and all its ancestors directories, and adds no directory outside them |
| `FileSystem.Mkdir` | generate_vtt.py:128 | `mkdir(exist_ok=True)` fails iff the path is a regular file or its parent is not a directory; otherwise it changes no file, removes no directory, leaves the path a directory, and adds no other directory |
| `FileSystem.MakeDirsValid` | generate_vtt.py:90 | a successful `Mkdirs` keeps the tree well formed, leaves the directory existing and not a file, and is a no-op when it and its ancestors are already directories |
| `FileSystem.MakeDirValid` | generate_vtt.py:128 | a successful `Mkdir` keeps the tree well formed and leaves the directory existing and not a file |
| `FileSystem.AncestorsAreDirs` | generate_vtt.py:94 | in a well-formed tree every proper leading part of an existing entry is a directory |
| `FileSystem.NothingBelowFile` | generate_vtt.py:94 | nothing exists below a regular file |
| `FileSystem.Disk.constructor` | generate_vtt.py:125 | the disk starts in the given state with no steps recorded |
| `FileSystem.Disk.Contains` | generate_vtt.py:94 | `exists()` is true for a file, a directory, or the working directory |
| `FileSystem.Disk.MakeDirs` | generate_vtt.py:90 | the disk method does what `Mkdirs` says and reports whether it succeeded |
| `FileSystem.Disk.MakeDir` | generate_vtt.py:128 | the disk method does what `Mkdir` says and reports whether it succeeded |
| `FileSystem.Disk.Put` | generate_vtt.py:56 | creating or truncating a file sets its contents and nothing else |
| `FileSystem.Disk.Unlink` | generate_vtt.py:106 | `unlink(missing_ok=True)` removes the file if there is one and is silent otherwise |
| `Pipeline.Plan` | generate_vtt.py:87-106 | five steps in source order: the directory made is the caption's parent, the caption checked is the one transcribed into, the video extracted is the one given, and the wav extracted, transcribed and deleted is one file beside the video |
| `Pipeline.PerformStep` | generate_vtt.py:89-106 | one step on the disk changes it as `StepSpec` says, records the step, and reports the outcome when the step ends the call |
| `Pipeline.RunStep` | generate_vtt.py:89-106 | after the next step of the plan, the call either has ended as `RunSteps` says or goes on with the steps after it |
| `Pipeline.ConvertVideo` | generate_vtt.py:98-106 | extraction, transcription and deletion run in that order, each only if the previous one succeeded |
| `Pipeline.ProcessVideo` | generate_vtt.py:87-108 | `process_video` leaves the disk, the record of steps and the outcome exactly as `ProcessSpec` says |
| `ProcessFacts.ConvertRuns` | generate_vtt.py:98-106 | the last three steps of the plan run as the nested reading of the code after the skip check says |
| `ProcessFacts.DirectRuns` | generate_vtt.py:89-106 | the whole plan runs as the nested reading of the body says |
| `ProcessFacts.CheckRuns` | generate_vtt.py:92-106 | once the directory is made, the caption check and the conversion run as that reading says |
| `ProcessFacts.ProcessIsDirect` | generate_vtt.py:87-106 | for a video below the input root, `ProcessSpec` is that nested reading |
| `ProcessFacts.CaptionNotMadeByMkdirs` | generate_vtt.py:90-92 | the caption is none of the directories `mkdir` makes for it |
| `ProcessFacts.CaptionExistsAfterMkdirs` | generate_vtt.py:90-94 | making the output directory neither creates nor hides the caption, and when it fails the caption does not exist |
| `ProcessFacts.SkipIffCaptionExists` | generate_vtt.py:90-96 | a call skips iff the caption already exists; then no file changes, the only new directories are the caption's, and only the mkdir and the check happen |
| `ProcessFacts.CaptionIsNotWav` | generate_vtt.py:92-98 | the caption and the wav are different files |
| `ProcessFacts.DirectNeeds` | generate_vtt.py:92-104 | a run that creates the caption found no caption there, decoded a regular file different from the wav, and got a transcript |
| `ProcessFacts.CreatedNeeds` | generate_vtt.py:87-104 | `DirectNeeds` for `process_video`: the video is below the input root and the caption is its mirrored path |
| `ProcessFacts.DirectCreated` | generate_vtt.py:89-106 | a creating run adds the caption with the written transcript, removes the wav, changes no other file, and adds only the output directories |
| `ProcessFacts.CreatedEffects` | generate_vtt.py:87-108 | after a created caption: the caption holds what `write_vtt` writes for the transcript, the wav is gone, every other file is unchanged, and only the caption's directories are new |
| `ProcessFacts.DirectKeepsVideo` | generate_vtt.py:98-106 | a creating run leaves the video file as it was, for any directory and any caption other than the video |
| `ProcessFacts.CreatedKeepsVideo` | generate_vtt.py:98-106 | a call that creates the caption leaves the video file as it was |
| `ProcessFacts.DirectFailed` | generate_vtt.py:89-104 | a failed run stops at the failing step, for any directory, caption and wav |
| `ProcessFacts.FailureEffects` | generate_vtt.py:89-104 | a failed mkdir changes nothing; a failed extraction changes no file; a failed transcription leaves the wav behind and writes no caption |
| `ProcessFacts.DirectErrors` | generate_vtt.py:89-104 | a run can only raise the mkdir, ffmpeg and transcription errors |
| `ProcessFacts.ProcessErrors` | generate_vtt.py:87-104 | `process_video` raises `relative_to`'s error for a video outside the input root, and otherwise only those three |
| `ProcessFacts.DirectOrder` | generate_vtt.py:89-106 | a run starts a non-empty prefix of the plan, all of it iff it creates the caption, the first two steps iff it skips |
| `ProcessFacts.StepOrder` | generate_vtt.py:87-106 | `DirectOrder` for `process_video`: the wav is deleted only after extraction and transcription succeeded, and a video outside the input root raises before any step |
| `ProcessFacts.DirectValid` | generate_vtt.py:89-106 | a run keeps the tree well formed when the caption sits in the output directory and differs from the wav |
| `ProcessFacts.ProcessValid` | generate_vtt.py:87-108 | `process_video` keeps the filesystem well formed |
| `ProcessFacts.SkipWhenDone` | generate_vtt.py:90-96 | on a video whose caption and directories exist, the call skips and changes nothing |
| `ProcessFacts.DoneAfterProcess` | generate_vtt.py:90-106 | a call that does not raise leaves the video's caption and directories existing |
| `ProcessFacts.SecondCallSkips` | generate_vtt.py:87-108 | calling `process_video` again on the video it just handled skips it and changes nothing |
| `ProcessFacts.DirectKeeps` | generate_vtt.py:89-106 | a run removes at most the wav and no directory |
| `ProcessFacts.ProcessKeeps` | generate_vtt.py:87-106 | `process_video` removes no directory and no file but its wav |
| `ProcessFacts.WavIsNoCaption` | generate_vtt.py:92-98 | no video's wav is any video's caption |
| `ProcessFacts.DonePersists` | generate_vtt.py:87-106 | a video whose caption exists keeps it when `process_video` runs on any video |
| `Scanner.PassOver` | generate_vtt.py:113-114 | an entry that is not a video is passed over |
| `Scanner.HandOverFails` | generate_vtt.py:114-116 | an exception from `process_video` ends the scan with it |
| `Scanner.HandOver` | generate_vtt.py:114-116 | a video on which `process_video` returns sets the flag and the scan goes on with the next entry |
| `Scanner.ScanCourse` | generate_vtt.py:111-119 | the loop leaves the disk, the record of steps and the outcome, with its `found` flag, exactly as `ScanSpec` says |
| `Scanner.GenerateCaptions` | generate_vtt.py:122-133 | `main` leaves the disk, the record and the outcome exactly as `MainSpec` says |
| `ScanFacts.ScanVisitsVideos` | generate_vtt.py:111-119 | a finished scan handed exactly the videos of the listing to `process_video`, in listing order, and `found` says whether there was one; an aborted scan handed over a non-empty leading part of them |
| `ScanFacts.ScanOnlyVideos` | generate_vtt.py:113-114 | entries that are not videos play no part: the scan of the listing is the scan of its videos |
| `ScanFacts.NoVideosFound` | generate_vtt.py:111-119 | "No videos found." is reported iff no entry is a video, and then the scan changes nothing and starts nothing |
| `ScanFacts.ScanValid` | generate_vtt.py:111-116 | a scan keeps the filesystem well formed |
| `ScanFacts.ScanKeepsDone` | generate_vtt.py:111-116 | a video whose caption exists keeps it through a scan |
| `ScanFacts.ScanLeavesDone` | generate_vtt.py:111-116 | after a finished scan every video it handed over has its caption |
| `ScanFacts.SkipOne` | generate_vtt.py:113-116 | a video whose caption exists is skipped by the scan, which goes on with the flag set |
| `ScanFacts.PlanStartsWithChecks` | generate_vtt.py:89-94 | the first two steps of a plan only make the directory and check the caption |
| `ScanFacts.ScanSkipsDone` | generate_vtt.py:111-119 | a scan whose videos all have captions changes nothing, hands over exactly its videos, and starts only directory and caption checks |
| `ScanFacts.ScanTwice` | generate_vtt.py:111-119 | a second scan after a finished one, over a listing with the same videos in the same order, changes nothing, reports the same, and extracts and transcribes nothing |
| `ScanFacts.ScanKeepsDirs` | generate_vtt.py:111-116 | a scan removes no directory |
| `ScanFacts.ScanErrors` | generate_vtt.py:111-116 | an aborted scan handed over at least one video and never ends with the missing-input-root error |
| `ScanFacts.MainChecks` | generate_vtt.py:122-131 | `main` raises for a missing input root iff it is missing; an output root that is a regular file makes `mkdir` fail before any scan; otherwise the output root is made and the course scanned |
| `ScanFacts.MainValid` | generate_vtt.py:122-131 | `main` keeps the filesystem well formed, and past its checks leaves the output root a directory |

## Left out

- Floating point: offsets are whole milliseconds, and `//`, `%` and `:06.3f` are exact
  integer arithmetic on them. Two float effects are therefore not captured. Sub-millisecond
  input is rounded by `:06.3f`. An offset such as 59.9996 s is written with the seconds field
  `60.000`, because the rounding happens after `% 60`.
- ffmpeg (generate_vtt.py:25-42) is `Env.decodes`. Extraction succeeds when ffmpeg can
  decode the video, the video is a regular file, the wav is not the video, and the wav can
  be created in an existing directory. A failed run of ffmpeg is modelled as changing no
  file. A partial or truncated wav that a real failure can leave is not modelled.
- soundfile and Whisper (generate_vtt.py:71-84) are `Env.transcript`, keyed by the video
  whose audio the wav holds. The audio decoding, the model options and their effect on the
  segments are not modelled. A segment is typed, so the `KeyError` of a segment without
  `text`, `start` or `end` does not arise.
- Loading the model (generate_vtt.py:20-22, 130) is left out. Its failure would raise before
  the scan.
- `rglob("*")` (generate_vtt.py:113) is the parameter `walk`. Its order, its recursion and
  its relation to the tree are not modelled. Two consequences follow:
  - A directory named like a video is an entry like any other. The model then raises
    `ExtractFailed`, as ffmpeg does on a directory.
  - Wav files created under the input root while the listing is being walked are never
    videos (`WavIsNotVideo`), so whether the listing yields them does not matter.
- All `print` calls (generate_vtt.py:21, 95, 100, 103, 108, 119, 123, 133) are left out. The
  skip is the outcome `Skipped`. "No videos found." is the outcome `Finished(false)`.
- The UTF-8 encoding of the caption file (generate_vtt.py:56) is left out: the file is a
  string of code points.
- Text mode `"w"` (generate_vtt.py:56) writes each `"\n"` as `os.linesep`. The model keeps
  the POSIX behaviour, where that is `"\n"` itself; on Windows the file would hold CRLF.
- Strings.Lower: models `str.lower()` only on the characters whose lower-case form is a
  single ASCII letter (`A`..`Z` and the Kelvin sign). Other characters are kept as they are.
  Characters that lower to several code points are also kept. This is exact for comparing
  the lowered suffix with the ASCII extensions. It is not full Unicode lower-casing.
- Paths: relative paths only, as the script uses them. Absolute paths, `..`, symbolic links,
  permissions and case-insensitive filesystems are not modelled. A `Name` is never empty,
  never `.`, and holds no `/`, as pathlib normalises it.
- Errors the operating system raises for other reasons (permissions, a full disk, a write
  that fails halfway) are not modelled. A `write` is atomic in the model.
- FileSystem.Disk.Unlink: removes only regular files. The wav it deletes is a regular file
  whenever extraction succeeded, so `IsADirectoryError` cannot arise on the modelled paths.
- The ghost record `Disk.calls` holds the steps started, not the operating-system calls made.
