/**
 * What `scan_course` and `main` (generate_vtt.py:111-133) guarantee: the videos are handed to
 * `process_video` in listing order and nothing else is, "no videos" is reported exactly when
 * the listing holds none, the tree stays well formed, and a second scan after a finished one
 * changes nothing and transcribes nothing.
 */
module ScanFacts {
  import opened Paths
  import opened FileSystem
  import opened Seqs
  import opened Pipeline
  import opened ProcessFacts
  import opened Scanner

  /** A finished scan handed every video of the listing to `process_video`, in listing order,
      and nothing else, and its flag says whether there was one; an aborted scan handed over a
      leading part of them and stopped at the one that failed. */
  lemma {:induction false} ScanVisitsVideos(fs: Fs, walk: seq<Path>, env: Env, found: bool)
    ensures var r := ScanFrom(fs, walk, env, found);
      r.outcome.Finished? ==> r.videos == Filter(walk, IsVideo) && r.outcome.found == (found || r.videos != [])
    ensures var r := ScanFrom(fs, walk, env, found);
      r.outcome.Aborted? ==> r.videos != [] && r.videos <= Filter(walk, IsVideo)
    decreases |walk|
  {
    if walk != [] {
      var w, rest := walk[0], walk[1..];
      assert walk == [w] + rest;
      FilterCons(w, rest, IsVideo);
      if !IsVideo(w) {
        ScanVisitsVideos(fs, rest, env, found);
      } else if !ProcessSpec(fs, w, env).outcome.Failed? {
        ScanVisitsVideos(ProcessSpec(fs, w, env).fs, rest, env, true);
      }
    }
  }

  /** Non-videos play no part in a scan. */
  lemma {:induction false} ScanOnlyVideos(fs: Fs, walk: seq<Path>, env: Env, found: bool)
    ensures ScanFrom(fs, walk, env, found) == ScanFrom(fs, Filter(walk, IsVideo), env, found)
    decreases |walk|
  {
    if walk != [] {
      var w, rest := walk[0], walk[1..];
      assert walk == [w] + rest;
      FilterCons(w, rest, IsVideo);
      var videos := Filter(rest, IsVideo);
      if IsVideo(w) {
        assert Filter(walk, IsVideo) == [w] + videos;
        assert ([w] + videos)[0] == w && ([w] + videos)[1..] == videos;
        ScanOnlyVideos(ProcessSpec(fs, w, env).fs, rest, env, true);
      } else {
        assert Filter(walk, IsVideo) == videos;
        assert ScanFrom(fs, walk, env, found) == ScanFrom(fs, rest, env, found);
        ScanOnlyVideos(fs, rest, env, found);
      }
    }
  }

  /** "No videos found." is reported exactly when no entry of the listing is a video, and a scan
      of such a listing changes nothing and starts nothing. */
  lemma NoVideosFound(fs: Fs, walk: seq<Path>, env: Env)
    ensures ScanSpec(fs, walk, env).outcome == Finished(false) <==> forall i :: 0 <= i < |walk| ==> !IsVideo(walk[i])
    ensures (forall i :: 0 <= i < |walk| ==> !IsVideo(walk[i])) ==> ScanSpec(fs, walk, env) == ScanRun(fs, [], [], Finished(false))
  {
    ScanVisitsVideos(fs, walk, env, false);
    ScanOnlyVideos(fs, walk, env, false);
    FilterEmpty(walk, IsVideo);
  }

  /** A scan keeps the filesystem well formed. */
  lemma {:induction false} ScanValid(fs: Fs, walk: seq<Path>, env: Env, found: bool)
    requires Valid(fs)
    ensures Valid(ScanFrom(fs, walk, env, found).fs)
    decreases |walk|
  {
    if walk != [] {
      var w, rest := walk[0], walk[1..];
      if !IsVideo(w) {
        ScanValid(fs, rest, env, found);
      } else {
        ProcessValid(fs, w, env);
        if !ProcessSpec(fs, w, env).outcome.Failed? {
          ScanValid(ProcessSpec(fs, w, env).fs, rest, env, true);
        }
      }
    }
  }

  /** A video that needs no more work keeps needing none through a scan. */
  lemma {:induction false} ScanKeepsDone(fs: Fs, walk: seq<Path>, env: Env, found: bool, other: Path)
    requires RelativeTo(other, InputRoot).Some? && Done(fs, other)
    ensures Done(ScanFrom(fs, walk, env, found).fs, other)
    decreases |walk|
  {
    if walk != [] {
      var w, rest := walk[0], walk[1..];
      if !IsVideo(w) {
        ScanKeepsDone(fs, rest, env, found, other);
      } else {
        DonePersists(fs, w, env, other);
        if !ProcessSpec(fs, w, env).outcome.Failed? {
          ScanKeepsDone(ProcessSpec(fs, w, env).fs, rest, env, true, other);
        }
      }
    }
  }

  /** After a finished scan every video it handed over needs no more work. */
  lemma {:induction false} ScanLeavesDone(fs: Fs, walk: seq<Path>, env: Env, found: bool)
    requires Valid(fs) && ScanFrom(fs, walk, env, found).outcome.Finished?
    ensures var r := ScanFrom(fs, walk, env, found);
      forall v :: v in r.videos ==> RelativeTo(v, InputRoot).Some? && Done(r.fs, v)
    decreases |walk|
  {
    if walk != [] {
      var w, rest := walk[0], walk[1..];
      if !IsVideo(w) {
        ScanLeavesDone(fs, rest, env, found);
      } else {
        var p := ProcessSpec(fs, w, env);
        assert RelativeTo(w, InputRoot).Some?;
        ProcessValid(fs, w, env);
        DoneAfterProcess(fs, w, env);
        ScanKeepsDone(p.fs, rest, env, true, w);
        ScanLeavesDone(p.fs, rest, env, true);
      }
    }
  }

  /** Steps that only make output directories and check for captions. */
  predicate OnlyChecks(steps: seq<Step>) {
    forall k :: 0 <= k < |steps| ==> steps[k].MakeOutputDir? || steps[k].CheckCaption?
  }

  lemma ChecksJoin(a: seq<Step>, b: seq<Step>)
    requires OnlyChecks(a) && OnlyChecks(b)
    ensures OnlyChecks(a + b)
  {
    assert forall k :: |a| <= k < |a + b| ==> (a + b)[k] == b[k - |a|];
  }

  /** Scanning a video that needs no more work skips it and moves on. */
  lemma SkipOne(fs: Fs, walk: seq<Path>, env: Env, found: bool)
    requires Valid(fs) && walk != [] && IsVideo(walk[0])
    requires RelativeTo(walk[0], InputRoot).Some? && Done(fs, walk[0])
    ensures ScanFrom(fs, walk, env, found) == Prepend(Plan(walk[0])[..2], [walk[0]], ScanFrom(fs, walk[1..], env, true))
  {
    SkipWhenDone(fs, walk[0], env);
  }

  /** The first two steps of a plan only make the output directory and look for the caption. */
  lemma PlanStartsWithChecks(video: Path)
    requires RelativeTo(video, InputRoot).Some?
    ensures OnlyChecks(Plan(video)[..2])
  {
    assert Plan(video)[..2] == [MakeOutputDir(OutputDir(video)), CheckCaption(CaptionPath(video))];
  }

  /** A scan in which every video needs no more work skips them all: it changes nothing and
      starts only directory and caption checks. */
  lemma {:induction false} ScanSkipsDone(fs: Fs, walk: seq<Path>, env: Env, found: bool)
    requires Valid(fs)
    requires forall v :: v in Filter(walk, IsVideo) ==> RelativeTo(v, InputRoot).Some? && Done(fs, v)
    ensures var r := ScanFrom(fs, walk, env, found);
      && r.fs == fs && r.outcome == Finished(found || Filter(walk, IsVideo) != [])
      && r.videos == Filter(walk, IsVideo)
      && OnlyChecks(r.steps)
    decreases |walk|
  {
    if walk != [] {
      var w, rest := walk[0], walk[1..];
      assert walk == [w] + rest;
      FilterCons(w, rest, IsVideo);
      if !IsVideo(w) {
        ScanSkipsDone(fs, rest, env, found);
      } else {
        assert w in Filter(walk, IsVideo);
        SkipOne(fs, walk, env, found);
        PlanStartsWithChecks(w);
        ScanSkipsDone(fs, rest, env, true);
        ChecksJoin(Plan(w)[..2], ScanFrom(fs, rest, env, true).steps);
      }
    }
  }

  /** Scanning the course again after a finished scan, with a listing that holds the same videos
      in the same order, changes nothing: the same videos are handed over, every one is skipped,
      and nothing is extracted or transcribed. */
  lemma ScanTwice(fs: Fs, walk: seq<Path>, again: seq<Path>, env: Env)
    requires Valid(fs) && ScanSpec(fs, walk, env).outcome.Finished?
    requires Filter(again, IsVideo) == Filter(walk, IsVideo)
    ensures var r := ScanSpec(fs, walk, env);
      var r2 := ScanSpec(r.fs, again, env);
      && r2.fs == r.fs && r2.outcome == r.outcome && r2.videos == r.videos
      && OnlyChecks(r2.steps)
  {
    ScanVisitsVideos(fs, walk, env, false);
    ScanLeavesDone(fs, walk, env, false);
    ScanValid(fs, walk, env, false);
    ScanSkipsDone(ScanSpec(fs, walk, env).fs, again, env, false);
  }

  /** A scan removes no directory. */
  lemma {:induction false} ScanKeepsDirs(fs: Fs, walk: seq<Path>, env: Env, found: bool)
    ensures fs.dirs <= ScanFrom(fs, walk, env, found).fs.dirs
    decreases |walk|
  {
    if walk != [] {
      var w, rest := walk[0], walk[1..];
      if !IsVideo(w) {
        ScanKeepsDirs(fs, rest, env, found);
      } else {
        VideoHasSuffix(w);
        ProcessKeeps(fs, w, env);
        if !ProcessSpec(fs, w, env).outcome.Failed? {
          ScanKeepsDirs(ProcessSpec(fs, w, env).fs, rest, env, true);
        }
      }
    }
  }

  /** A scan ends with the exception of the video that failed, never with the missing input
      root `main` checks for. */
  lemma {:induction false} ScanErrors(fs: Fs, walk: seq<Path>, env: Env, found: bool)
    ensures var r := ScanFrom(fs, walk, env, found);
      r.outcome.Aborted? ==> r.videos != [] && r.outcome.error != InputRootMissing
    decreases |walk|
  {
    if walk != [] {
      var w, rest := walk[0], walk[1..];
      if !IsVideo(w) {
        ScanErrors(fs, rest, env, found);
      } else {
        ProcessErrors(fs, w, env);
        if !ProcessSpec(fs, w, env).outcome.Failed? {
          ScanErrors(ProcessSpec(fs, w, env).fs, rest, env, true);
        }
      }
    }
  }

  /** `main` raises for a missing input root, and only then; an output root that is a regular
      file makes `mkdir` fail before anything is scanned; otherwise the output root is made and
      the course scanned. */
  lemma MainChecks(fs: Fs, walk: seq<Path>, env: Env)
    ensures MainSpec(fs, walk, env).outcome == Aborted(InputRootMissing) <==> !Exists(fs, InputRoot)
    ensures Exists(fs, InputRoot) && OutputRoot in fs.files ==>
      MainSpec(fs, walk, env) == ScanRun(fs, [], [], Aborted(CannotMakeDir(OutputRoot)))
    ensures Exists(fs, InputRoot) && OutputRoot !in fs.files ==>
      MainSpec(fs, walk, env) == ScanSpec(fs.(dirs := fs.dirs + {OutputRoot}), walk, env)
  {
    if Exists(fs, InputRoot) && OutputRoot !in fs.files {
      ScanErrors(fs.(dirs := fs.dirs + {OutputRoot}), walk, env, false);
    }
  }

  /** `main` keeps the filesystem well formed, and once it gets past its checks the output root
      is a directory when it ends. */
  lemma MainValid(fs: Fs, walk: seq<Path>, env: Env)
    requires Valid(fs)
    ensures Valid(MainSpec(fs, walk, env).fs)
    ensures Exists(fs, InputRoot) && OutputRoot !in fs.files ==> OutputRoot in MainSpec(fs, walk, env).fs.dirs
  {
    if Exists(fs, InputRoot) && OutputRoot !in fs.files {
      var made := fs.(dirs := fs.dirs + {OutputRoot});
      MakeDirValid(fs, OutputRoot);
      ScanValid(made, walk, env, false);
      ScanKeepsDirs(made, walk, env, false);
    }
  }
}
