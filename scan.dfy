/**
 * `scan_course` (generate_vtt.py:111-119) and `main` (generate_vtt.py:122-133). The recursive
 * listing of the input root is a parameter, `walk`, in the order the listing yields it. Every
 * entry whose lower-cased suffix is a video extension is handed to `process_video`; an
 * exception from it ends the whole scan.
 */
module Scanner {
  import opened Paths
  import opened FileSystem
  import opened Seqs
  import opened Pipeline
  import opened ProcessFacts

  /** How a scan ends: with the `found` flag, or with the exception that ended it. */
  datatype ScanOutcome = Finished(found: bool) | Aborted(error: Error)

  /** The filesystem after a scan, the steps it started, the videos it handed to
      `process_video`, and how it ended. */
  datatype ScanRun = ScanRun(fs: Fs, steps: seq<Step>, videos: seq<Path>, outcome: ScanOutcome)

  /** The scan of the rest of `walk`, with the flag so far `found`. */
  function ScanFrom(fs: Fs, walk: seq<Path>, env: Env, found: bool): ScanRun
    decreases |walk|
  {
    if walk == [] then ScanRun(fs, [], [], Finished(found))
    else if !IsVideo(walk[0]) then ScanFrom(fs, walk[1..], env, found)
    else
      var r := ProcessSpec(fs, walk[0], env);
      if r.outcome.Failed? then ScanRun(r.fs, r.steps, [walk[0]], Aborted(r.outcome.error))
      else Prepend(r.steps, [walk[0]], ScanFrom(r.fs, walk[1..], env, true))
  }

  /** The specification of `scan_course`. */
  function ScanSpec(fs: Fs, walk: seq<Path>, env: Env): ScanRun {
    ScanFrom(fs, walk, env, false)
  }

  /** The steps and videos of an earlier part of a scan, followed by a scan of the rest. */
  function Prepend(steps: seq<Step>, videos: seq<Path>, r: ScanRun): ScanRun {
    ScanRun(r.fs, steps + r.steps, videos + r.videos, r.outcome)
  }

  /** The specification of `main`: the input root must exist, the output root is made with
      `mkdir(exist_ok=True)`, then the course is scanned. */
  function MainSpec(fs: Fs, walk: seq<Path>, env: Env): ScanRun {
    if !Exists(fs, InputRoot) then ScanRun(fs, [], [], Aborted(InputRootMissing))
    else match Mkdir(fs, OutputRoot)
      case None => ScanRun(fs, [], [], Aborted(CannotMakeDir(OutputRoot)))
      case Some(made) => ScanSpec(made, walk, env)
  }

  /** Scanning an entry that is not a video moves on to the next. */
  lemma PassOver(fs: Fs, walk: seq<Path>, env: Env, found: bool, started: seq<Step>, videos: seq<Path>)
    requires walk != [] && !IsVideo(walk[0])
    ensures Prepend(started, videos, ScanFrom(fs, walk, env, found))
         == Prepend(started, videos, ScanFrom(fs, walk[1..], env, found))
  {
  }

  /** Scanning a video on which `process_video` raises ends the scan with that exception. */
  lemma HandOverFails(fs: Fs, walk: seq<Path>, env: Env, found: bool, started: seq<Step>, videos: seq<Path>)
    requires walk != [] && IsVideo(walk[0]) && ProcessSpec(fs, walk[0], env).outcome.Failed?
    ensures var r := ProcessSpec(fs, walk[0], env);
      Prepend(started, videos, ScanFrom(fs, walk, env, found))
      == ScanRun(r.fs, started + r.steps, videos + [walk[0]], Aborted(r.outcome.error))
  {
  }

  /** Scanning a video on which `process_video` returns moves on to the next entry with the flag
      set. */
  lemma HandOver(fs: Fs, walk: seq<Path>, env: Env, found: bool, started: seq<Step>, videos: seq<Path>)
    requires walk != [] && IsVideo(walk[0]) && !ProcessSpec(fs, walk[0], env).outcome.Failed?
    ensures var r := ProcessSpec(fs, walk[0], env);
      Prepend(started, videos, ScanFrom(fs, walk, env, found))
      == Prepend(started + r.steps, videos + [walk[0]], ScanFrom(r.fs, walk[1..], env, true))
  {
    var r := ProcessSpec(fs, walk[0], env);
    PrependTwice(started, videos, r.steps, [walk[0]], ScanFrom(r.fs, walk[1..], env, true));
  }

  lemma PrependTwice(started: seq<Step>, videos: seq<Path>, steps: seq<Step>, more: seq<Path>, r: ScanRun)
    ensures Prepend(started, videos, Prepend(steps, more, r)) == Prepend(started + steps, videos + more, r)
  {
    assert started + (steps + r.steps) == (started + steps) + r.steps;
    assert videos + (more + r.videos) == (videos + more) + r.videos;
  }

  /** `scan_course`: each entry of the listing in turn, handing the videos to `process_video`
      and stopping at the first exception. */
  method ScanCourse(disk: Disk<Step>, walk: seq<Path>, env: Env) returns (outcome: ScanOutcome)
    modifies disk
    ensures var r := ScanSpec(old(disk.State()), walk, env);
      disk.State() == r.fs && disk.calls == old(disk.calls) + r.steps && outcome == r.outcome
  {
    var found := false;
    ghost var whole := Prepend(disk.calls, [], ScanSpec(disk.State(), walk, env));
    ghost var videos: seq<Path> := [];
    for i := 0 to |walk|
      invariant whole == Prepend(disk.calls, videos, ScanFrom(disk.State(), walk[i..], env, found))
    {
      var entry := walk[i];
      assert walk[i..][0] == entry && walk[i..][1..] == walk[i + 1..];
      if IsVideo(entry) {
        ghost var before, started, was := disk.State(), disk.calls, found;
        found := true;
        var result := ProcessVideo(disk, entry, env);
        if result.Failed? {
          HandOverFails(before, walk[i..], env, was, started, videos);
          return Aborted(result.error);
        }
        HandOver(before, walk[i..], env, was, started, videos);
        videos := videos + [entry];
      } else {
        PassOver(disk.State(), walk[i..], env, found, disk.calls, videos);
      }
    }
    assert walk[|walk|..] == [];
    outcome := Finished(found);
  }

  /** `main`, without its prints and without loading the model. */
  method GenerateCaptions(disk: Disk<Step>, walk: seq<Path>, env: Env) returns (outcome: ScanOutcome)
    modifies disk
    ensures var r := MainSpec(old(disk.State()), walk, env);
      disk.State() == r.fs && disk.calls == old(disk.calls) + r.steps && outcome == r.outcome
  {
    var present := disk.Contains(InputRoot);
    if !present {
      return Aborted(InputRootMissing);
    }
    var ok := disk.MakeDir(OutputRoot);
    if !ok {
      return Aborted(CannotMakeDir(OutputRoot));
    }
    outcome := ScanCourse(disk, walk, env);
  }
}
