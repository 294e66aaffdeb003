/**
 * What `process_video` (generate_vtt.py:87-108) guarantees: when it skips, what a created
 * caption holds, what a failure leaves behind, the order of its steps, that the tree stays
 * well formed, and that a second call on the same video skips.
 */
module ProcessFacts {
  import opened Wrappers
  import opened Paths
  import opened FileSystem
  import opened Vtt
  import opened Pipeline

  /** The part of `process_video` after the caption check, read as nested conditions: extract
      `video` to `wav`, transcribe it into `caption`, delete `wav`, stopping at the first failure. */
  function Convert(fs: Fs, caption: Path, video: Path, wav: Path, env: Env): Run {
    var extract, transcribe := ExtractAudio(video, wav), TranscribeToVtt(video, wav, caption);
    if !CanExtract(fs, video, wav, env) then Run(fs, [extract], Failed(ExtractFailed(video)))
    else
      var extracted := fs.(files := fs.files[wav := Audio(video)]);
      match env.transcript(video)
      case None => Run(extracted, [extract, transcribe], Failed(TranscribeFailed(wav)))
      case Some(segments) =>
        var written := extracted.(files := extracted.files[caption := Text(Written(segments))]);
        Run(written.(files := written.files - {wav}), [extract, transcribe, DeleteWav(wav)], Created(caption))
  }

  /** `process_video` read as nested conditions, the way its body is written, for a video with
      output directory `dir`, caption `caption` and wav `wav`. */
  function Direct(fs: Fs, dir: Path, caption: Path, video: Path, wav: Path, env: Env): Run {
    match Mkdirs(fs, dir)
    case None => Run(fs, [MakeOutputDir(dir)], Failed(CannotMakeDir(dir)))
    case Some(made) => Checked(made, dir, caption, video, wav, env)
  }

  /** The rest of `Direct` once the output directory is made, the filesystem then being `made`. */
  function Checked(made: Fs, dir: Path, caption: Path, video: Path, wav: Path, env: Env): Run {
    if Exists(made, caption) then Run(made, [MakeOutputDir(dir), CheckCaption(caption)], Skipped(caption))
    else Resume([MakeOutputDir(dir), CheckCaption(caption)], Convert(made, caption, video, wav, env))
  }

  /** Each kind of step, first in a run: it ends the run or the rest runs from the state it
      leaves. */
  lemma MakeDirStep(fs: Fs, dir: Path, rest: seq<Step>, env: Env, caption: Path)
    ensures RunSteps(fs, [MakeOutputDir(dir)] + rest, env, caption)
         == if Mkdirs(fs, dir).None? then Run(fs, [MakeOutputDir(dir)], Failed(CannotMakeDir(dir)))
            else Resume([MakeOutputDir(dir)], RunSteps(Mkdirs(fs, dir).value, rest, env, caption))
  {
    assert ([MakeOutputDir(dir)] + rest)[1..] == rest;
  }

  lemma CheckStep(fs: Fs, rest: seq<Step>, env: Env, caption: Path)
    ensures RunSteps(fs, [CheckCaption(caption)] + rest, env, caption)
         == if Exists(fs, caption) then Run(fs, [CheckCaption(caption)], Skipped(caption))
            else Resume([CheckCaption(caption)], RunSteps(fs, rest, env, caption))
  {
    assert ([CheckCaption(caption)] + rest)[1..] == rest;
  }

  lemma ExtractStep(fs: Fs, video: Path, wav: Path, rest: seq<Step>, env: Env, caption: Path)
    ensures RunSteps(fs, [ExtractAudio(video, wav)] + rest, env, caption)
         == if !CanExtract(fs, video, wav, env) then Run(fs, [ExtractAudio(video, wav)], Failed(ExtractFailed(video)))
            else Resume([ExtractAudio(video, wav)], RunSteps(fs.(files := fs.files[wav := Audio(video)]), rest, env, caption))
  {
    assert ([ExtractAudio(video, wav)] + rest)[1..] == rest;
  }

  lemma TranscribeStep(fs: Fs, video: Path, wav: Path, rest: seq<Step>, env: Env, caption: Path)
    ensures RunSteps(fs, [TranscribeToVtt(video, wav, caption)] + rest, env, caption)
         == if env.transcript(video).None? then Run(fs, [TranscribeToVtt(video, wav, caption)], Failed(TranscribeFailed(wav)))
            else Resume([TranscribeToVtt(video, wav, caption)],
                        RunSteps(fs.(files := fs.files[caption := Text(Written(env.transcript(video).value))]), rest, env, caption))
  {
    var step := TranscribeToVtt(video, wav, caption);
    var steps := [step] + rest;
    assert steps[0] == step && steps[1..] == rest;
    match env.transcript(video) {
      case None =>
        assert StepSpec(fs, step, env) == Stop(fs, Failed(TranscribeFailed(wav)));
      case Some(segments) =>
        var written := fs.(files := fs.files[caption := Text(Written(segments))]);
        assert StepSpec(fs, step, env) == Continue(written);
        assert RunSteps(fs, steps, env, caption) == Resume([step], RunSteps(written, rest, env, caption));
    }
  }

  lemma DeleteStep(fs: Fs, wav: Path, env: Env, caption: Path)
    ensures RunSteps(fs, [DeleteWav(wav)], env, caption) == Run(fs.(files := fs.files - {wav}), [DeleteWav(wav)], Created(caption))
  {
    assert [DeleteWav(wav)][1..] == [];
  }

  /** The last three steps of the plan run as `Convert` says. */
  lemma ConvertRuns(fs: Fs, caption: Path, video: Path, wav: Path, env: Env)
    ensures RunSteps(fs, [ExtractAudio(video, wav), TranscribeToVtt(video, wav, caption), DeleteWav(wav)], env, caption)
         == Convert(fs, caption, video, wav, env)
  {
    var last := [DeleteWav(wav)];
    var tail := [TranscribeToVtt(video, wav, caption)] + last;
    assert [ExtractAudio(video, wav), TranscribeToVtt(video, wav, caption), DeleteWav(wav)] == [ExtractAudio(video, wav)] + tail;
    ExtractStep(fs, video, wav, tail, env, caption);
    if CanExtract(fs, video, wav, env) {
      var extracted := fs.(files := fs.files[wav := Audio(video)]);
      TranscribeStep(extracted, video, wav, last, env, caption);
      if env.transcript(video).Some? {
        DeleteStep(extracted.(files := extracted.files[caption := Text(Written(env.transcript(video).value))]), wav, env, caption);
      }
    }
  }

  /** The whole plan runs as `Direct` says. */
  lemma DirectRuns(fs: Fs, dir: Path, caption: Path, video: Path, wav: Path, env: Env)
    ensures RunSteps(fs, [MakeOutputDir(dir), CheckCaption(caption), ExtractAudio(video, wav),
                          TranscribeToVtt(video, wav, caption), DeleteWav(wav)], env, caption)
         == Direct(fs, dir, caption, video, wav, env)
  {
    var rest := [ExtractAudio(video, wav), TranscribeToVtt(video, wav, caption), DeleteWav(wav)];
    var check := [CheckCaption(caption)] + rest;
    assert [MakeOutputDir(dir), CheckCaption(caption), ExtractAudio(video, wav),
            TranscribeToVtt(video, wav, caption), DeleteWav(wav)] == [MakeOutputDir(dir)] + check;
    MakeDirStep(fs, dir, check, env, caption);
    if Mkdirs(fs, dir).Some? {
      CheckRuns(Mkdirs(fs, dir).value, dir, caption, video, wav, env);
    }
  }

  /** Once the output directory is made, the caption check and the conversion run as `Checked`
      says. */
  lemma CheckRuns(made: Fs, dir: Path, caption: Path, video: Path, wav: Path, env: Env)
    ensures Resume([MakeOutputDir(dir)], RunSteps(made, [CheckCaption(caption), ExtractAudio(video, wav),
                                                         TranscribeToVtt(video, wav, caption), DeleteWav(wav)], env, caption))
         == Checked(made, dir, caption, video, wav, env)
  {
    var rest := [ExtractAudio(video, wav), TranscribeToVtt(video, wav, caption), DeleteWav(wav)];
    assert [CheckCaption(caption), ExtractAudio(video, wav), TranscribeToVtt(video, wav, caption), DeleteWav(wav)]
        == [CheckCaption(caption)] + rest;
    CheckStep(made, rest, env, caption);
    if !Exists(made, caption) {
      ConvertRuns(made, caption, video, wav, env);
      ResumeTwice([MakeOutputDir(dir)], [CheckCaption(caption)], Convert(made, caption, video, wav, env));
    }
  }

  lemma ResumeTwice(a: seq<Step>, b: seq<Step>, r: Run)
    ensures Resume(a, Resume(b, r)) == Resume(a + b, r)
  {
    assert a + (b + r.steps) == (a + b) + r.steps;
  }

  /** The specification of `process_video` for a video below the input root is its nested
      reading. */
  lemma ProcessIsDirect(fs: Fs, video: Path, env: Env)
    requires RelativeTo(video, InputRoot).Some?
    ensures ProcessSpec(fs, video, env) == Direct(fs, OutputDir(video), CaptionPath(video), video, WavPath(video), env)
  {
    DirectRuns(fs, OutputDir(video), CaptionPath(video), video, WavPath(video), env);
  }

  /** The caption is not one of the directories `mkdir` creates for it. */
  lemma CaptionNotMadeByMkdirs(video: Path)
    requires RelativeTo(video, InputRoot).Some?
    ensures CaptionPath(video) !in Prefixes(OutputDir(video))
  {
    var d := OutputDir(video);
    forall k | 1 <= k <= |d|
      ensures d[..k] != CaptionPath(video)
    {
      assert |d[..k]| < |CaptionPath(video)|;
    }
  }

  /** The caption exists after the output directory is made exactly when it existed before, and
      it does not exist when making the directory fails. */
  lemma CaptionExistsAfterMkdirs(fs: Fs, video: Path)
    requires Valid(fs) && RelativeTo(video, InputRoot).Some?
    ensures Mkdirs(fs, OutputDir(video)).None? ==> !Exists(fs, CaptionPath(video))
    ensures Mkdirs(fs, OutputDir(video)).Some? ==>
      (Exists(Mkdirs(fs, OutputDir(video)).value, CaptionPath(video)) <==> Exists(fs, CaptionPath(video)))
  {
    var d, caption := OutputDir(video), CaptionPath(video);
    if Mkdirs(fs, d).None? {
      var k :| 1 <= k <= |d| && d[..k] in fs.files;
      assert caption[..k] == d[..k];
      NothingBelowFile(fs, caption, k);
    } else {
      CaptionNotMadeByMkdirs(video);
    }
  }

  /** The skip rule: a call skips exactly when the caption already exists, and then its only
      effect is the output directory; nothing is extracted, transcribed, written or deleted. */
  lemma SkipIffCaptionExists(fs: Fs, video: Path, env: Env)
    requires Valid(fs) && RelativeTo(video, InputRoot).Some?
    ensures var r := ProcessSpec(fs, video, env);
      r.outcome.Skipped? <==> Exists(fs, CaptionPath(video))
    ensures var r := ProcessSpec(fs, video, env);
      r.outcome.Skipped? ==>
        && r.outcome.caption == CaptionPath(video)
        && r.fs.files == fs.files
        && r.fs.dirs == fs.dirs + Prefixes(OutputDir(video))
        && r.steps == [MakeOutputDir(OutputDir(video)), CheckCaption(CaptionPath(video))]
  {
    ProcessIsDirect(fs, video, env);
    CaptionExistsAfterMkdirs(fs, video);
  }

  /** The caption and the wav of a video below the input root are different files. */
  lemma CaptionIsNotWav(video: Path)
    requires RelativeTo(video, InputRoot).Some?
    ensures CaptionPath(video) != WavPath(video)
  {
    var caption, wav := CaptionPath(video), WavPath(video);
    WithSuffixIsStem(video, ".wav");
    assert caption[0] == "captions";
    if |video| > 1 {
      assert wav[0] == video[0];
    } else {
      assert |wav| == 1 < |caption|;
    }
  }

  /** What a call that creates a caption needed: the caption did not exist, and the video is a
      regular file that ffmpeg decoded into a wav different from it, which Whisper transcribed. */
  lemma CreatedNeeds(fs: Fs, video: Path, env: Env)
    requires ProcessSpec(fs, video, env).outcome.Created?
    ensures RelativeTo(video, InputRoot).Some?
    ensures ProcessSpec(fs, video, env).outcome.caption == CaptionPath(video)
    ensures !Exists(fs, CaptionPath(video))
    ensures video in fs.files && WavPath(video) != video
    ensures env.decodes(video) && env.transcript(video).Some?
  {
    ProcessIsDirect(fs, video, env);
    DirectNeeds(fs, OutputDir(video), CaptionPath(video), video, WavPath(video), env);
  }

  /** `CreatedNeeds` for any output directory, caption and wav. */
  lemma DirectNeeds(fs: Fs, dir: Path, caption: Path, video: Path, wav: Path, env: Env)
    requires Direct(fs, dir, caption, video, wav, env).outcome.Created?
    ensures Direct(fs, dir, caption, video, wav, env).outcome.caption == caption
    ensures !Exists(fs, caption)
    ensures video in fs.files && wav != video
    ensures env.decodes(video) && env.transcript(video).Some?
  {
  }

  /** What a run that creates the caption leaves behind, for any output directory, caption and
      wav with the caption different from the wav. */
  lemma DirectCreated(fs: Fs, dir: Path, caption: Path, video: Path, wav: Path, env: Env)
    requires Direct(fs, dir, caption, video, wav, env).outcome.Created? && caption != wav
    ensures env.transcript(video).Some?
    ensures var r := Direct(fs, dir, caption, video, wav, env);
      && r.fs.files.Keys == fs.files.Keys + {caption} - {wav}
      && caption in r.fs.files && r.fs.files[caption] == Text(Written(env.transcript(video).value))
      && (forall p :: p in fs.files && p != caption && p != wav ==> r.fs.files[p] == fs.files[p])
      && r.fs.dirs == fs.dirs + Prefixes(dir)
  {
  }

  /** What a created caption leaves: the caption holds what `write_vtt` writes for the
      transcript, the wav is gone (even a file of that name that was there before the call), no
      other file changed, and the only new directories are the caption's. */
  lemma CreatedEffects(fs: Fs, video: Path, env: Env)
    requires RelativeTo(video, InputRoot).Some? && ProcessSpec(fs, video, env).outcome.Created?
    ensures env.transcript(video).Some?
    ensures var r := ProcessSpec(fs, video, env);
      var caption, wav := CaptionPath(video), WavPath(video);
      && r.fs.files.Keys == fs.files.Keys + {caption} - {wav}
      && caption in r.fs.files && r.fs.files[caption] == Text(Written(env.transcript(video).value))
      && (forall p :: p in fs.files && p != caption && p != wav ==> r.fs.files[p] == fs.files[p])
      && r.fs.dirs == fs.dirs + Prefixes(OutputDir(video))
  {
    ProcessIsDirect(fs, video, env);
    CaptionIsNotWav(video);
    DirectCreated(fs, OutputDir(video), CaptionPath(video), video, WavPath(video), env);
  }

  /** The video itself is left as it was by a call that creates its caption. */
  lemma CreatedKeepsVideo(fs: Fs, video: Path, env: Env)
    requires RelativeTo(video, InputRoot).Some? && ProcessSpec(fs, video, env).outcome.Created?
    ensures var r := ProcessSpec(fs, video, env);
      video in fs.files && video in r.fs.files && r.fs.files[video] == fs.files[video]
  {
    ProcessIsDirect(fs, video, env);
    VideoIsNotCaption(video);
    DirectKeepsVideo(fs, OutputDir(video), CaptionPath(video), video, WavPath(video), env);
  }

  /** `CreatedKeepsVideo` for any output directory, caption and wav. */
  lemma DirectKeepsVideo(fs: Fs, dir: Path, caption: Path, video: Path, wav: Path, env: Env)
    requires Direct(fs, dir, caption, video, wav, env).outcome.Created? && video != caption
    ensures var r := Direct(fs, dir, caption, video, wav, env);
      video in fs.files && video in r.fs.files && r.fs.files[video] == fs.files[video]
  {
  }

  lemma VideoIsNotCaption(video: Path)
    requires RelativeTo(video, InputRoot).Some?
    ensures video != CaptionPath(video)
  {
    assert video[0] == "course" && CaptionPath(video)[0] == "captions";
  }

  /** What a failed run leaves behind, for any output directory, caption and wav with the caption
      different from the wav. */
  lemma DirectFailed(fs: Fs, dir: Path, caption: Path, video: Path, wav: Path, env: Env)
    requires caption != wav
    ensures var r := Direct(fs, dir, caption, video, wav, env);
      r.outcome == Failed(CannotMakeDir(dir)) ==> r.fs == fs
    ensures var r := Direct(fs, dir, caption, video, wav, env);
      r.outcome == Failed(ExtractFailed(video)) ==> r.fs.files == fs.files
    ensures var r := Direct(fs, dir, caption, video, wav, env);
      r.outcome.Failed? && r.outcome.error.TranscribeFailed? ==>
        && r.outcome.error.wav == wav
        && r.fs.files == fs.files[wav := Audio(video)]
        && caption !in r.fs.files
  {
  }

  /** A failure stops the call at the failing step: a directory that cannot be made changes
      nothing; after a failed extraction no file changed; after a failed transcription the wav
      stays behind and no caption is written. */
  lemma FailureEffects(fs: Fs, video: Path, env: Env)
    requires RelativeTo(video, InputRoot).Some?
    ensures var r := ProcessSpec(fs, video, env);
      r.outcome == Failed(CannotMakeDir(OutputDir(video))) ==> r.fs == fs
    ensures var r := ProcessSpec(fs, video, env);
      r.outcome == Failed(ExtractFailed(video)) ==> r.fs.files == fs.files
    ensures var r := ProcessSpec(fs, video, env);
      r.outcome.Failed? && r.outcome.error.TranscribeFailed? ==>
        && r.outcome.error.wav == WavPath(video)
        && r.fs.files == fs.files[WavPath(video) := Audio(video)]
        && CaptionPath(video) !in r.fs.files
  {
    ProcessIsDirect(fs, video, env);
    CaptionIsNotWav(video);
    DirectFailed(fs, OutputDir(video), CaptionPath(video), video, WavPath(video), env);
  }

  /** The exceptions a run can raise, for any output directory, caption and wav. */
  lemma DirectErrors(fs: Fs, dir: Path, caption: Path, video: Path, wav: Path, env: Env)
    ensures var r := Direct(fs, dir, caption, video, wav, env);
      r.outcome.Failed? ==>
        r.outcome.error in {CannotMakeDir(dir), ExtractFailed(video), TranscribeFailed(wav)}
  {
  }

  /** The exceptions `process_video` raises: the video is not below the input root, its output
      directory cannot be made, ffmpeg fails, or reading or transcribing the wav fails. */
  lemma ProcessErrors(fs: Fs, video: Path, env: Env)
    ensures var r := ProcessSpec(fs, video, env);
      r.outcome.Failed? && RelativeTo(video, InputRoot).None? ==> r.outcome.error == NotUnderInputRoot(video)
    ensures var r := ProcessSpec(fs, video, env);
      r.outcome.Failed? && RelativeTo(video, InputRoot).Some? ==>
        r.outcome.error in {CannotMakeDir(OutputDir(video)), ExtractFailed(video), TranscribeFailed(WavPath(video))}
  {
    if RelativeTo(video, InputRoot).Some? {
      ProcessIsDirect(fs, video, env);
      DirectErrors(fs, OutputDir(video), CaptionPath(video), video, WavPath(video), env);
    }
  }

  /** The order of the steps, for any output directory, caption and wav. */
  lemma DirectOrder(fs: Fs, dir: Path, caption: Path, video: Path, wav: Path, env: Env)
    ensures var r := Direct(fs, dir, caption, video, wav, env);
      var plan := [MakeOutputDir(dir), CheckCaption(caption), ExtractAudio(video, wav),
                   TranscribeToVtt(video, wav, caption), DeleteWav(wav)];
      && 1 <= |r.steps| && r.steps <= plan
      && (r.outcome.Created? <==> r.steps == plan)
      && (r.outcome.Skipped? <==> r.steps == plan[..2])
  {
  }

  /** The order of the steps: a call runs a non-empty prefix of the plan, so the wav is deleted
      only after extraction and transcription succeeded; it ends with a caption exactly when it
      ran the whole plan, and skips exactly when it stopped after the caption check. A video
      outside the input root raises before anything happens. */
  lemma StepOrder(fs: Fs, video: Path, env: Env)
    ensures RelativeTo(video, InputRoot).None? ==>
      ProcessSpec(fs, video, env) == Run(fs, [], Failed(NotUnderInputRoot(video)))
    ensures RelativeTo(video, InputRoot).Some? ==>
      var r := ProcessSpec(fs, video, env);
      && 1 <= |r.steps| && r.steps <= Plan(video)
      && (r.outcome.Created? <==> r.steps == Plan(video))
      && (r.outcome.Skipped? <==> r.steps == Plan(video)[..2])
  {
    if RelativeTo(video, InputRoot).Some? {
      ProcessIsDirect(fs, video, env);
      DirectOrder(fs, OutputDir(video), CaptionPath(video), video, WavPath(video), env);
    }
  }

  /** A run keeps the tree well formed when the caption sits directly in the output directory and
      the working directory is neither the output directory nor the wav. */
  lemma DirectValid(fs: Fs, dir: Path, caption: Path, video: Path, wav: Path, env: Env)
    requires Valid(fs) && dir != [] && wav != [] && Parent(caption) == dir && caption != wav
    ensures Valid(Direct(fs, dir, caption, video, wav, env).fs)
  {
    if Mkdirs(fs, dir).Some? {
      MakeDirsValid(fs, dir);
      var made := Mkdirs(fs, dir).value;
      if !Exists(made, caption) && CanExtract(made, video, wav, env) {
        var extracted := made.(files := made.files[wav := Audio(video)]);
        assert Valid(extracted);
        if env.transcript(video).Some? {
          var written := extracted.(files := extracted.files[caption := Text(Written(env.transcript(video).value))]);
          assert Valid(written);
          assert Valid(written.(files := written.files - {wav}));
        }
      }
    }
  }

  /** `process_video` keeps the filesystem well formed. */
  lemma ProcessValid(fs: Fs, video: Path, env: Env)
    requires Valid(fs)
    ensures Valid(ProcessSpec(fs, video, env).fs)
  {
    if RelativeTo(video, InputRoot).Some? {
      ProcessIsDirect(fs, video, env);
      CaptionIsNotWav(video);
      WithSuffixIsStem(video, ".wav");
      assert OutputDir(video)[0] == "captions";
      DirectValid(fs, OutputDir(video), CaptionPath(video), video, WavPath(video), env);
    }
  }

  /** A video needs no more work: its caption exists, and so do the directories leading to it. */
  predicate Done(fs: Fs, video: Path)
    requires RelativeTo(video, InputRoot).Some?
  {
    Exists(fs, CaptionPath(video)) && Prefixes(OutputDir(video)) <= fs.dirs
  }

  /** A call on a video that needs no more work skips it and changes nothing. */
  lemma SkipWhenDone(fs: Fs, video: Path, env: Env)
    requires Valid(fs) && RelativeTo(video, InputRoot).Some? && Done(fs, video)
    ensures ProcessSpec(fs, video, env) == Run(fs, Plan(video)[..2], Skipped(CaptionPath(video)))
  {
    var d := OutputDir(video);
    assert Mkdirs(fs, d).Some? by {
      forall k | 1 <= k <= |d|
        ensures d[..k] !in fs.files
      {
        assert d[..k] in Prefixes(d);
      }
    }
    MakeDirsValid(fs, d);
    SkipIffCaptionExists(fs, video, env);
    StepOrder(fs, video, env);
  }

  /** A call that does not fail leaves its video needing no more work. */
  lemma DoneAfterProcess(fs: Fs, video: Path, env: Env)
    requires Valid(fs) && RelativeTo(video, InputRoot).Some?
    requires !ProcessSpec(fs, video, env).outcome.Failed?
    ensures Done(ProcessSpec(fs, video, env).fs, video)
  {
    SkipIffCaptionExists(fs, video, env);
    if ProcessSpec(fs, video, env).outcome.Created? {
      CreatedEffects(fs, video, env);
    }
  }

  /** Running `process_video` again on a video it has just captioned or skipped skips it and
      changes nothing. */
  lemma SecondCallSkips(fs: Fs, video: Path, env: Env)
    requires Valid(fs) && RelativeTo(video, InputRoot).Some?
    requires ProcessSpec(fs, video, env).outcome.Created? || ProcessSpec(fs, video, env).outcome.Skipped?
    ensures var r := ProcessSpec(fs, video, env);
      ProcessSpec(r.fs, video, env) == Run(r.fs, Plan(video)[..2], Skipped(CaptionPath(video)))
  {
    ProcessValid(fs, video, env);
    DoneAfterProcess(fs, video, env);
    SkipWhenDone(ProcessSpec(fs, video, env).fs, video, env);
  }

  /** What any run can remove, for any output directory, caption and wav: at most the wav, and
      never a directory. */
  lemma DirectKeeps(fs: Fs, dir: Path, caption: Path, video: Path, wav: Path, env: Env)
    ensures var r := Direct(fs, dir, caption, video, wav, env);
      fs.files.Keys - {wav} <= r.fs.files.Keys && fs.dirs <= r.fs.dirs
  {
  }

  /** `process_video` removes no directory and no file but the video's wav. */
  lemma ProcessKeeps(fs: Fs, video: Path, env: Env)
    requires video != []
    ensures var r := ProcessSpec(fs, video, env);
      fs.files.Keys - {WavPath(video)} <= r.fs.files.Keys && fs.dirs <= r.fs.dirs
  {
    if RelativeTo(video, InputRoot).Some? {
      ProcessIsDirect(fs, video, env);
      DirectKeeps(fs, OutputDir(video), CaptionPath(video), video, WavPath(video), env);
    }
  }

  /** No video's wav is any video's caption: captions lie below the output root, wavs do not. */
  lemma WavIsNoCaption(video: Path, other: Path)
    requires RelativeTo(video, InputRoot).Some? && RelativeTo(other, InputRoot).Some?
    ensures WavPath(video) != CaptionPath(other)
  {
    WithSuffixIsStem(video, ".wav");
    assert CaptionPath(other)[0] == "captions";
    if |video| > 1 {
      assert WavPath(video)[0] == video[0] == "course";
    } else {
      assert WavPath(video) == [Stem("course") + ".wav"];
      assert WavPath(video)[0][|WavPath(video)[0]| - 1] == 'v';
    }
  }

  /** A video that needs no more work keeps needing none when `process_video` runs on any
      video. */
  lemma DonePersists(fs: Fs, video: Path, env: Env, other: Path)
    requires RelativeTo(other, InputRoot).Some? && Done(fs, other)
    ensures Done(ProcessSpec(fs, video, env).fs, other)
  {
    if RelativeTo(video, InputRoot).Some? {
      ProcessKeeps(fs, video, env);
      WavIsNoCaption(video, other);
    }
  }
}
