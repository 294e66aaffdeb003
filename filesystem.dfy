/**
 * The part of the filesystem the script touches: regular files with their contents and the
 * directories, keyed by relative path. `Path(".")`, the working directory, always exists.
 */
module FileSystem {
  import opened Wrappers
  import opened Paths

  /** What a regular file holds: caption text, audio extracted from a video, or anything else
      (the videos themselves, and whatever else the course tree contains). */
  datatype Blob = Text(content: string) | Audio(source: Path) | Media

  datatype Fs = Fs(files: map<Path, Blob>, dirs: set<Path>)

  /** A well-formed tree: nothing is both a file and a directory, the working directory is
      neither, and every entry's parent is a directory. */
  predicate Valid(fs: Fs) {
    && fs.files.Keys !! fs.dirs
    && [] !in fs.files && [] !in fs.dirs
    && (forall p :: p in fs.files ==> Parent(p) == [] || Parent(p) in fs.dirs)
    && (forall p :: p in fs.dirs ==> Parent(p) == [] || Parent(p) in fs.dirs)
  }

  /** `Path.exists()`: a file or a directory. */
  predicate Exists(fs: Fs, p: Path) {
    p == [] || p in fs.files || p in fs.dirs
  }

  /** The non-empty leading parts of `d`, `d` itself included. */
  function Prefixes(d: Path): set<Path> {
    set k | 1 <= k <= |d| :: d[..k]
  }

  /** `d.mkdir(parents=True, exist_ok=True)`: fails when `d` or one of its ancestors is a regular
      file, and otherwise makes `d` and every missing ancestor a directory. */
  function Mkdirs(fs: Fs, d: Path): (r: Option<Fs>)
    ensures r.None? <==> exists k :: 1 <= k <= |d| && d[..k] in fs.files
    ensures r.Some? ==> r.value.files == fs.files && fs.dirs <= r.value.dirs
    ensures r.Some? ==> forall k :: 1 <= k <= |d| ==> d[..k] in r.value.dirs
    ensures r.Some? ==> r.value.dirs - fs.dirs <= Prefixes(d)
  {
    if exists k :: 1 <= k <= |d| && d[..k] in fs.files then None
    else Some(fs.(dirs := fs.dirs + Prefixes(d)))
  }

  /** Whether `d` is the working directory or an existing directory. */
  predicate IsDir(fs: Fs, d: Path) {
    d == [] || d in fs.dirs
  }

  /** `d.mkdir(exist_ok=True)`: fails when `d` is a regular file or its parent is not a
      directory, and otherwise makes `d` a directory. */
  function Mkdir(fs: Fs, d: Path): (r: Option<Fs>)
    ensures r.None? <==> d in fs.files || !IsDir(fs, Parent(d))
    ensures r.Some? ==> r.value.files == fs.files && fs.dirs <= r.value.dirs
    ensures r.Some? ==> IsDir(r.value, d) && r.value.dirs - fs.dirs <= {d}
  {
    if d in fs.files || !IsDir(fs, Parent(d)) then None
    else if d == [] then Some(fs)
    else Some(fs.(dirs := fs.dirs + {d}))
  }

  /** A successful `Mkdirs` keeps the tree well formed, leaves `d` existing as a directory,
      and changes nothing when `d` is already one with all its ancestors. */
  lemma MakeDirsValid(fs: Fs, d: Path)
    requires Valid(fs) && Mkdirs(fs, d).Some?
    ensures Valid(Mkdirs(fs, d).value)
    ensures Exists(Mkdirs(fs, d).value, d) && d !in Mkdirs(fs, d).value.files
    ensures Prefixes(d) <= fs.dirs ==> Mkdirs(fs, d).value == fs
  {
    var fs' := Mkdirs(fs, d).value;
    forall p | p in Prefixes(d)
      ensures Parent(p) == [] || Parent(p) in fs'.dirs
    {
      var k :| 1 <= k <= |d| && p == d[..k];
      if k > 1 {
        assert Parent(p) == d[..k - 1];
      }
    }
    if d != [] {
      assert d[..|d|] == d;
    }
  }

  /** A successful `Mkdir` keeps the tree well formed and leaves `d` existing as a directory. */
  lemma MakeDirValid(fs: Fs, d: Path)
    requires Valid(fs) && Mkdir(fs, d).Some?
    ensures Valid(Mkdir(fs, d).value)
    ensures Exists(Mkdir(fs, d).value, d) && d !in Mkdir(fs, d).value.files
  {
  }

  /** In a well-formed tree every proper leading part of an existing entry is a directory. */
  lemma {:induction false} AncestorsAreDirs(fs: Fs, p: Path, k: nat)
    requires Valid(fs) && (p in fs.files || p in fs.dirs)
    requires 1 <= k < |p|
    ensures p[..k] in fs.dirs
    decreases |p|
  {
    var up := Parent(p);
    assert up == p[..|p| - 1] && up in fs.dirs;
    if k < |up| {
      AncestorsAreDirs(fs, up, k);
      assert up[..k] == p[..k];
    }
  }

  /** An entry below a regular file does not exist. */
  lemma NothingBelowFile(fs: Fs, p: Path, k: nat)
    requires Valid(fs) && 1 <= k < |p| && p[..k] in fs.files
    ensures !Exists(fs, p)
  {
    if p in fs.files || p in fs.dirs {
      AncestorsAreDirs(fs, p, k);
    }
  }

  /** The filesystem as a mutable object, with the external calls made on it recorded in
      `calls` in the order they happen. */
  class Disk<E> {
    var files: map<Path, Blob>
    var dirs: set<Path>
    ghost var calls: seq<E>

    function State(): Fs
      reads this
    {
      Fs(files, dirs)
    }

    constructor (fs: Fs)
      ensures State() == fs && calls == []
    {
      files := fs.files;
      dirs := fs.dirs;
      calls := [];
    }

    /** `Path.exists()`. */
    method Contains(p: Path) returns (b: bool)
      ensures b == Exists(State(), p)
    {
      b := p == [] || p in files || p in dirs;
    }

    /** `d.mkdir(parents=True, exist_ok=True)`. */
    method MakeDirs(d: Path) returns (ok: bool)
      modifies this
      ensures ok == Mkdirs(old(State()), d).Some?
      ensures State() == if ok then Mkdirs(old(State()), d).value else old(State())
      ensures calls == old(calls)
    {
      ok := forall k :: 1 <= k <= |d| ==> d[..k] !in files;
      if ok {
        dirs := dirs + Prefixes(d);
      }
    }

    /** `d.mkdir(exist_ok=True)`. */
    method MakeDir(d: Path) returns (ok: bool)
      modifies this
      ensures ok == Mkdir(old(State()), d).Some?
      ensures State() == if ok then Mkdir(old(State()), d).value else old(State())
      ensures calls == old(calls)
    {
      ok := d !in files && (Parent(d) == [] || Parent(d) in dirs);
      if ok && d != [] {
        dirs := dirs + {d};
      }
    }

    /** Creates or overwrites the regular file `p`. */
    method Put(p: Path, b: Blob)
      modifies this
      ensures files == old(files)[p := b] && dirs == old(dirs) && calls == old(calls)
    {
      files := files[p := b];
    }

    /** `p.unlink(missing_ok=True)`: removes the regular file `p`, if there is one. */
    method Unlink(p: Path)
      modifies this
      ensures files == old(files) - {p} && dirs == old(dirs) && calls == old(calls)
    {
      files := files - {p};
    }

    /** Appends one external call to the record. */
    method Record(e: E)
      modifies this`calls
      ensures calls == old(calls) + [e]
    {
      calls := calls + [e];
    }
  }
}
