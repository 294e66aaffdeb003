/**
 * `process_video` (generate_vtt.py:87-108). Once the video's path relative to the input root is
 * known, the call is a fixed plan of steps run in order: make the mirrored output directory,
 * check for an existing caption, extract the audio to a sibling wav, transcribe it into the
 * caption, delete the wav. A step either lets the call go on or ends it: the existing caption
 * ends it with a skip, an exception with the error, and nothing after that step runs.
 */
module Pipeline {
  import opened Wrappers
  import opened Paths
  import opened FileSystem
  import opened Vtt

  /** The external tools, decided per video: whether ffmpeg manages to decode it, and the
      segments Whisper produces from its audio (`None` when reading or transcribing fails). */
  datatype Env = Env(decodes: Path -> bool, transcript: Path -> Option<seq<Segment>>)

  /** The steps of `process_video`. */
  datatype Step =
    | MakeOutputDir(dir: Path)                                // generate_vtt.py:89-90
    | CheckCaption(caption: Path)                             // generate_vtt.py:94-96
    | ExtractAudio(video: Path, wav: Path)                    // generate_vtt.py:98-101
    | TranscribeToVtt(video: Path, wav: Path, caption: Path)  // generate_vtt.py:103-104
    | DeleteWav(wav: Path)                                    // generate_vtt.py:106

  /** The exceptions that end a run. */
  datatype Error =
    | NotUnderInputRoot(path: Path)   // ValueError from `relative_to`
    | CannotMakeDir(dir: Path)         // OSError from `mkdir`
    | ExtractFailed(video: Path)       // CalledProcessError from ffmpeg
    | TranscribeFailed(wav: Path)      // from soundfile or Whisper
    | InputRootMissing                 // FileNotFoundError raised by `main`

  datatype Outcome = Created(caption: Path) | Skipped(caption: Path) | Failed(error: Error)

  /** How a step ends: the call goes on, or it ends here with an outcome. */
  datatype StepEnd = Continue(fs: Fs) | Stop(fs: Fs, outcome: Outcome)

  /** The plan of `process_video` for a video below the input root. */
  function Plan(video: Path): (plan: seq<Step>)
    requires RelativeTo(video, InputRoot).Some?
    ensures |plan| == 5 && plan[0].MakeOutputDir? && plan[1].CheckCaption? && plan[2].ExtractAudio?
      && plan[3].TranscribeToVtt? && plan[4].DeleteWav?
    ensures plan[0].dir == Parent(plan[1].caption) && plan[1].caption == plan[3].caption
    ensures plan[2].video == plan[3].video == video
    ensures plan[2].wav == plan[3].wav == plan[4].wav && Parent(plan[2].wav) == Parent(video)
  {
    WavName(video);
    var wav, caption := WavPath(video), CaptionPath(video);
    [MakeOutputDir(OutputDir(video)), CheckCaption(caption), ExtractAudio(video, wav),
     TranscribeToVtt(video, wav, caption), DeleteWav(wav)]
  }

  /** Whether ffmpeg writes the wav: it can decode the video, the video is a regular file, the
      output is not the input (ffmpeg refuses to overwrite its own input), and the wav can be
      created as a file in an existing directory (`-y` overwrites a file). */
  predicate CanExtract(fs: Fs, video: Path, wav: Path, env: Env) {
    env.decodes(video) && video in fs.files && wav != video && wav !in fs.dirs && IsDir(fs, Parent(wav))
  }

  /** What one step does to the filesystem, and whether the call goes on. */
  function StepSpec(fs: Fs, step: Step, env: Env): StepEnd {
    match step
    case MakeOutputDir(dir) =>
      var made := Mkdirs(fs, dir);
      if made.None? then Stop(fs, Failed(CannotMakeDir(dir))) else Continue(made.value)
    case CheckCaption(caption) =>
      if Exists(fs, caption) then Stop(fs, Skipped(caption)) else Continue(fs)
    case ExtractAudio(video, wav) =>
      if CanExtract(fs, video, wav, env) then Continue(fs.(files := fs.files[wav := Audio(video)]))
      else Stop(fs, Failed(ExtractFailed(video)))
    case TranscribeToVtt(video, wav, caption) =>
      (match env.transcript(video)
       case None => Stop(fs, Failed(TranscribeFailed(wav)))
       case Some(segments) => Continue(fs.(files := fs.files[caption := Text(Written(segments))])))
    case DeleteWav(wav) =>
      Continue(fs.(files := fs.files - {wav}))
  }

  /** The filesystem after a call, the steps it started, and how it ended. */
  datatype Run = Run(fs: Fs, steps: seq<Step>, outcome: Outcome)

  /** `steps` run in order from `fs`, stopping at the first step that ends the call; a call that
      runs them all has created `caption`. */
  function RunSteps(fs: Fs, steps: seq<Step>, env: Env, caption: Path): Run
    decreases |steps|
  {
    if steps == [] then Run(fs, [], Created(caption))
    else match StepSpec(fs, steps[0], env)
      case Stop(fs', outcome) => Run(fs', [steps[0]], outcome)
      case Continue(fs') =>
        var rest := RunSteps(fs', steps[1..], env, caption);
        Run(rest.fs, [steps[0]] + rest.steps, rest.outcome)
  }

  /** The specification of `process_video`. */
  function ProcessSpec(fs: Fs, video: Path, env: Env): Run {
    if RelativeTo(video, InputRoot).None? then Run(fs, [], Failed(NotUnderInputRoot(video)))
    else RunSteps(fs, Plan(video), env, CaptionPath(video))
  }

  /** The steps already started, followed by a run of the remaining ones. */
  function Resume(started: seq<Step>, r: Run): Run {
    Run(r.fs, started + r.steps, r.outcome)
  }

  /** Running a step that lets the call go on, then the rest. */
  lemma RunContinues(fs: Fs, steps: seq<Step>, env: Env, caption: Path, started: seq<Step>)
    requires steps != [] && StepSpec(fs, steps[0], env).Continue?
    ensures Resume(started, RunSteps(fs, steps, env, caption))
         == Resume(started + [steps[0]], RunSteps(StepSpec(fs, steps[0], env).fs, steps[1..], env, caption))
  {
  }

  /** One step on the disk, recorded in its calls; `stop` is the outcome when the step ends the
      call. */
  method PerformStep(disk: Disk<Step>, step: Step, env: Env) returns (stop: Option<Outcome>)
    modifies disk
    ensures var end := StepSpec(old(disk.State()), step, env);
      && disk.State() == end.fs
      && disk.calls == old(disk.calls) + [step]
      && stop == if end.Stop? then Some(end.outcome) else None
  {
    disk.Record(step);
    match step {
      case MakeOutputDir(dir) =>
        var ok := disk.MakeDirs(dir);
        stop := if ok then None else Some(Failed(CannotMakeDir(dir)));
      case CheckCaption(caption) =>
        var present := disk.Contains(caption);
        stop := if present then Some(Skipped(caption)) else None;
      case ExtractAudio(video, wav) =>
        var ok := env.decodes(video) && video in disk.files && wav != video && wav !in disk.dirs
          && (Parent(wav) == [] || Parent(wav) in disk.dirs);
        if ok {
          disk.Put(wav, Audio(video));
          stop := None;
        } else {
          stop := Some(Failed(ExtractFailed(video)));
        }
      case TranscribeToVtt(video, wav, caption) =>
        var transcript := env.transcript(video);
        if transcript.None? {
          stop := Some(Failed(TranscribeFailed(wav)));
        } else {
          var text := WriteVtt(transcript.value);
          disk.Put(caption, Text(text));
          stop := None;
        }
      case DeleteWav(wav) =>
        disk.Unlink(wav);
        stop := None;
    }
  }

  /** `process_video`: the plan's steps one after the other, returning at the first that ends
      the call. */
  method ProcessVideo(disk: Disk<Step>, video: Path, env: Env) returns (outcome: Outcome)
    modifies disk
    ensures var r := ProcessSpec(old(disk.State()), video, env);
      disk.State() == r.fs && disk.calls == old(disk.calls) + r.steps && outcome == r.outcome
  {
    if RelativeTo(video, InputRoot).None? {
      return Failed(NotUnderInputRoot(video));
    }
    var outputDir, caption, wav := OutputDir(video), CaptionPath(video), WavPath(video);
    ghost var rest := Plan(video);
    ghost var whole := Resume(disk.calls, ProcessSpec(disk.State(), video, env));
    var stop := RunStep(disk, MakeOutputDir(outputDir), rest, env, caption, whole);
    if stop.Some? {
      return stop.value;
    }
    rest := rest[1..];
    stop := RunStep(disk, CheckCaption(caption), rest, env, caption, whole);
    if stop.Some? {
      return stop.value;
    }
    rest := rest[1..];
    outcome := ConvertVideo(disk, video, wav, caption, rest, env, whole);
  }

  /** The steps of `process_video` after the caption check: extract the audio, transcribe it,
      delete the wav. */
  method ConvertVideo(disk: Disk<Step>, video: Path, wav: Path, caption: Path, ghost steps: seq<Step>,
                      env: Env, ghost whole: Run) returns (outcome: Outcome)
    requires steps == [ExtractAudio(video, wav), TranscribeToVtt(video, wav, caption), DeleteWav(wav)]
    requires whole == Resume(disk.calls, RunSteps(disk.State(), steps, env, caption))
    modifies disk
    ensures whole == Run(disk.State(), disk.calls, outcome)
  {
    ghost var rest := steps;
    var stop := RunStep(disk, ExtractAudio(video, wav), rest, env, caption, whole);
    if stop.Some? {
      return stop.value;
    }
    rest := rest[1..];
    stop := RunStep(disk, TranscribeToVtt(video, wav, caption), rest, env, caption, whole);
    if stop.Some? {
      return stop.value;
    }
    rest := rest[1..];
    stop := RunStep(disk, DeleteWav(wav), rest, env, caption, whole);
    assert rest[1..] == [];
    outcome := Created(caption);
  }

  /** The first of the remaining `steps` of a call that is still going: afterwards the call has
      either ended as the whole run does, or goes on with the steps after it. */
  method RunStep(disk: Disk<Step>, step: Step, ghost steps: seq<Step>, env: Env, ghost caption: Path,
                 ghost whole: Run) returns (stop: Option<Outcome>)
    requires steps != [] && steps[0] == step
    requires whole == Resume(disk.calls, RunSteps(disk.State(), steps, env, caption))
    modifies disk
    ensures stop.Some? ==> whole == Run(disk.State(), disk.calls, stop.value)
    ensures stop.None? ==> whole == Resume(disk.calls, RunSteps(disk.State(), steps[1..], env, caption))
  {
    ghost var before := disk.State();
    ghost var started := disk.calls;
    stop := PerformStep(disk, step, env);
    if stop.None? {
      RunContinues(before, steps, env, caption, started);
    }
  }
}
