/**
 * The pathlib operations `process_video` and `scan_course` rely on (generate_vtt.py:88-98,
 * 114), with CPython's `PurePath` semantics: a path is its sequence of components, and
 * `suffix`, `stem` and `with_suffix` look at the last dot of the final component.
 */
module Paths {
  import opened Wrappers
  import opened Strings

  /** A path component as pathlib keeps it: never empty, never `.`, and without a separator. */
  type Name = s: string | s != "" && s != "." && '/' !in s witness "a"

  /** A relative path, component by component; `[]` is pathlib's `Path(".")`. */
  type Path = seq<Name>

  /** `INPUT_ROOT` and `OUTPUT_ROOT` (generate_vtt.py:9-10). */
  const InputRoot: Path := ["course"]
  const OutputRoot: Path := ["captions"]

  /** `VIDEO_EXTENSIONS` (generate_vtt.py:15). */
  const VideoExtensions: set<string> := {".mp4", ".mkv", ".mov", ".avi", ".webm"}

  /** `p.name`: the final component, or the empty string for `Path(".")`. */
  function FileName(p: Path): string {
    if p == [] then "" else p[|p| - 1]
  }

  /** `p.parent`: everything but the final component; the parent of `Path(".")` is itself. */
  function Parent(p: Path): Path {
    if p == [] then [] else p[..|p| - 1]
  }

  /** `name.rfind('.')`: the position of the last dot, or -1. */
  function LastDot(name: string): (i: int)
    ensures -1 <= i < |name|
    ensures i >= 0 ==> name[i] == '.'
    ensures forall k :: i < k < |name| ==> name[k] != '.'
  {
    if name == [] then -1
    else if name[|name| - 1] == '.' then |name| - 1
    else LastDot(name[..|name| - 1])
  }

  /** Whether `name` has a suffix in pathlib's sense: a last dot that is neither the first nor
      the last character (so `.mp4` and `movie.` have none). */
  predicate HasSuffix(name: string) {
    0 < LastDot(name) < |name| - 1
  }

  /** `PurePath.suffix`: from the last dot on, or empty. */
  function Suffix(name: string): string {
    if HasSuffix(name) then name[LastDot(name)..] else ""
  }

  /** `PurePath.stem`: the name without its suffix. */
  function Stem(name: string): string {
    if HasSuffix(name) then name[..LastDot(name)] else name
  }

  /** The stem and the suffix split the name: the suffix is empty or a dot followed by at least
      one character none of which is a dot, and a non-empty name keeps a non-empty stem. */
  lemma StemSuffix(name: string)
    ensures Stem(name) + Suffix(name) == name
    ensures Suffix(name) == [] || (|Suffix(name)| >= 2 && Suffix(name)[0] == '.' && '.' !in Suffix(name)[1..])
    ensures name != [] ==> Stem(name) != []
  {
    if HasSuffix(name) {
      var i := LastDot(name);
      assert name[..i] + name[i..] == name;
      assert forall k :: 0 <= k < |name[i..]| - 1 ==> name[i..][1..][k] == name[i + 1 + k];
    }
  }

  /** The suffixes `with_suffix` accepts without raising ValueError: a dot and at least one
      more character, and no separator. */
  predicate ValidSuffix(suffix: string) {
    |suffix| >= 2 && suffix[0] == '.' && '/' !in suffix
  }

  /** `p.with_suffix(suffix)` for a path with a final component, following CPython: append the
      new suffix when there is none, otherwise cut the old one off first. */
  function WithSuffix(p: Path, suffix: string): (r: Path)
    requires p != [] && ValidSuffix(suffix)
  {
    var name := FileName(p);
    var prev := Suffix(name);
    var renamed := if prev == [] then name + suffix else name[..|name| - |prev|] + suffix;
    StemSuffix(name);
    assert renamed == Stem(name) + suffix;
    assert forall k :: 0 <= k < |renamed| ==> renamed[k] in name + suffix;
    Parent(p) + [renamed]
  }

  /** Replacing the suffix keeps the directory and gives the stem the new suffix. */
  lemma WithSuffixIsStem(p: Path, suffix: string)
    requires p != [] && ValidSuffix(suffix)
    ensures WithSuffix(p, suffix) == Parent(p) + [Stem(FileName(p)) + suffix]
  {
    StemSuffix(FileName(p));
  }

  /** `p.relative_to(root)`, which raises ValueError unless `root` is a leading part of `p`. */
  function RelativeTo(p: Path, root: Path): (r: Option<Path>)
    ensures r.Some? <==> |root| <= |p| && p[..|root|] == root
    ensures r.Some? ==> p == root + r.value
  {
    if |root| <= |p| && p[..|root|] == root then Some(p[|root|..]) else None
  }

  /** `path.suffix.lower() in VIDEO_EXTENSIONS` (generate_vtt.py:114). */
  predicate IsVideo(p: Path) {
    Lower(Suffix(FileName(p))) in VideoExtensions
  }

  /** A stem followed by a well-formed suffix is split back into the two. */
  lemma SplitAppended(stem: string, suffix: string)
    requires stem != [] && ValidSuffix(suffix) && '.' !in suffix[1..]
    ensures Suffix(stem + suffix) == suffix && Stem(stem + suffix) == stem
  {
    var name := stem + suffix;
    assert name[|stem|] == '.';
    assert forall k :: |stem| < k < |name| ==> name[k] == suffix[1..][k - |stem| - 1];
    assert LastDot(name) == |stem|;
    assert name[..|stem|] == stem && name[|stem|..] == suffix;
  }

  /** `stem + suffix` as a path component, for the stem of a component. */
  function Renamed(name: Name, suffix: string): (r: Name)
    requires ValidSuffix(suffix)
    ensures '.' !in suffix[1..] ==> Stem(r) == Stem(name) && Suffix(r) == suffix
  {
    StemSuffix(name);
    var r := Stem(name) + suffix;
    assert forall k :: 0 <= k < |r| ==> r[k] in name + suffix;
    if '.' in suffix[1..] then r
    else SplitAppended(Stem(name), suffix); r
  }

  /** The wav file the audio is extracted to: `video_path.with_suffix(".wav")`
      (generate_vtt.py:98). */
  function WavPath(video: Path): Path
    requires video != []
  {
    WithSuffix(video, ".wav")
  }

  /** `OUTPUT_ROOT / relative.parent` (generate_vtt.py:88-89). */
  function OutputDir(video: Path): Path
    requires RelativeTo(video, InputRoot).Some?
  {
    OutputRoot + Parent(RelativeTo(video, InputRoot).value)
  }

  /** `output_dir / f"{video_path.stem}.vtt"` (generate_vtt.py:92). */
  function CaptionPath(video: Path): Path
    requires RelativeTo(video, InputRoot).Some?
  {
    OutputDir(video) + [Renamed(FileName(video), ".vtt")]
  }

  /** Whether `p` lies strictly below `root`. */
  predicate Below(p: Path, root: Path) {
    |root| < |p| && p[..|root|] == root
  }

  /** The caption mirrors the video: relative to the output root it sits in the same
      sub-directory as the video does relative to the input root, and its name is the video's
      stem with the suffix `.vtt`. */
  lemma CaptionMirrorsVideo(video: Path)
    requires RelativeTo(video, InputRoot).Some?
    ensures Below(CaptionPath(video), OutputRoot)
    ensures var rel := RelativeTo(video, InputRoot).value;
      RelativeTo(CaptionPath(video), OutputRoot) == Some(Parent(rel) + [FileName(CaptionPath(video))])
    ensures Stem(FileName(CaptionPath(video))) == Stem(FileName(video))
    ensures Suffix(FileName(CaptionPath(video))) == ".vtt"
  {
    var caption := CaptionPath(video);
    var rel := RelativeTo(video, InputRoot).value;
    assert caption == OutputRoot + (Parent(rel) + [FileName(caption)]);
    StemSuffix(FileName(video));
    SplitAppended(Stem(FileName(video)), ".vtt");
  }

  /** The wav is a sibling of the video with the same stem and the suffix `.wav`; for a video
      below the input root it stays there, so it is never inside the output tree. */
  lemma WavBesideVideo(video: Path)
    requires video != []
    ensures Parent(WavPath(video)) == Parent(video)
    ensures Stem(FileName(WavPath(video))) == Stem(FileName(video))
    ensures Suffix(FileName(WavPath(video))) == ".wav"
    ensures Below(video, InputRoot) ==> Below(WavPath(video), InputRoot) && !Below(WavPath(video), OutputRoot)
  {
    WavName(video);
    if Below(video, InputRoot) {
      WithSuffixIsStem(video, ".wav");
      assert WavPath(video)[0] == video[0];
    }
  }

  lemma WavName(video: Path)
    requires video != []
    ensures Parent(WavPath(video)) == Parent(video)
    ensures Stem(FileName(WavPath(video))) == Stem(FileName(video))
    ensures Suffix(FileName(WavPath(video))) == ".wav"
  {
    WithSuffixIsStem(video, ".wav");
    var wav := WavPath(video);
    assert wav[..|wav| - 1] == Parent(video);
    StemSuffix(FileName(video));
    SplitAppended(Stem(FileName(video)), ".wav");
  }

  /** A path below the input root is never below the output root, so captions and the files
      of the course tree never coincide. */
  lemma RootsDisjoint(p: Path)
    requires Below(p, InputRoot)
    ensures !Below(p, OutputRoot)
  {
    assert p[0] == "course";
  }

  /** Neither the empty suffix nor `.wav` lowers to a video suffix. */
  lemma LowerWav()
    ensures Lower(".wav") == ".wav" && Lower("") == ""
    ensures ".wav" !in VideoExtensions && "" !in VideoExtensions
  {
    var r := Lower(".wav");
    assert r[0] == '.' && r[1] == 'w' && r[2] == 'a' && r[3] == 'v';
  }

  /** Extracting audio never overwrites the video itself: `.wav` is not a video suffix. */
  lemma WavIsNotVideo(video: Path)
    requires IsVideo(video)
    ensures video != [] && WavPath(video) != video && !IsVideo(WavPath(video))
  {
    LowerWav();
    WavBesideVideo(video);
  }

  /** A match always has a real suffix: dotfiles such as `.mp4` and names ending in a dot are
      never videos, and the stem of a match is never empty. */
  lemma VideoHasSuffix(p: Path)
    requires IsVideo(p)
    ensures p != [] && HasSuffix(FileName(p)) && Stem(FileName(p)) != []
  {
    LowerWav();
    StemSuffix(FileName(p));
  }

  /** The match ignores case: a file whose suffix lowers to a video extension is a video,
      `.MP4` and `.Mkv` among them. */
  lemma CaseInsensitiveMatch(dir: Path, stem: Name, suffix: string)
    requires ValidSuffix(suffix) && '.' !in suffix[1..] && Lower(suffix) in VideoExtensions
    ensures IsVideo(dir + [stem + suffix])
  {
    SplitAppended(stem, suffix);
  }

  lemma UpperCaseSuffix(dir: Path, stem: Name)
    ensures IsVideo(dir + [stem + ".MP4"])
  {
    var a := Lower(".MP4");
    assert a[0] == '.' && a[1] == 'm' && a[2] == 'p' && a[3] == '4';
    assert a == ".mp4";
    CaseInsensitiveMatch(dir, stem, ".MP4");
  }

  /** Two videos that differ only in their suffix share one caption path. */
  lemma SuffixesShareCaption(dir: Path, stem: Name, a: string, b: string)
    requires ValidSuffix(a) && ValidSuffix(b) && '.' !in a[1..] && '.' !in b[1..]
    requires var va := InputRoot + dir + [stem + a]; RelativeTo(va, InputRoot).Some?
    ensures var va := InputRoot + dir + [stem + a];
            var vb := InputRoot + dir + [stem + b];
            RelativeTo(vb, InputRoot).Some? && CaptionPath(va) == CaptionPath(vb)
  {
    var va := InputRoot + dir + [stem + a];
    var vb := InputRoot + dir + [stem + b];
    assert va[..|InputRoot|] == InputRoot && vb[..|InputRoot|] == InputRoot;
    SplitAppended(stem, a);
    SplitAppended(stem, b);
    assert va[|InputRoot|..] == dir + [stem + a] && vb[|InputRoot|..] == dir + [stem + b];
    assert Parent(dir + [stem + a]) == dir && Parent(dir + [stem + b]) == dir;
  }
}
