/**
 * The part of Python's pathlib (POSIX flavour) that the credential manager
 * uses: building a path from a string, `parts`, `name`, `parent`, joining a
 * component with `/`, and `exists()` against a view of the file system.
 */
module Paths {
  import opened Strings

  /** A pure POSIX path: whether it is anchored at '/', and its components. */
  datatype Path = Path(absolute: bool, segments: seq<string>)

  /** A component as pathlib keeps it: non-empty, not ".", and free of '/'. */
  predicate IsComponent(s: string)
  {
    s != "" && s != "." && '/' !in s
  }

  predicate WellFormed(p: Path)
  {
    forall i :: 0 <= i < |p.segments| ==> IsComponent(p.segments[i])
  }

  /** The pieces of a split string that pathlib keeps as components. */
  function Components(pieces: seq<string>): (cs: seq<string>)
    requires forall k :: 0 <= k < |pieces| ==> '/' !in pieces[k]
    ensures forall i :: 0 <= i < |cs| ==> IsComponent(cs[i])
  {
    if pieces == [] then []
    else (if pieces[0] == "" || pieces[0] == "." then [] else [pieces[0]]) + Components(pieces[1..])
  }

  /** `Path(s)`: empty and "." components are dropped, so `Path("")` is the current directory ".". */
  function Parse(s: string): (p: Path)
    ensures WellFormed(p)
    ensures p.absolute <==> |s| > 0 && s[0] == '/'
  {
    Path(|s| > 0 && s[0] == '/', Components(Split(s, '/')))
  }

  /** Pieces that are all components are kept as they are. */
  lemma {:induction false} ComponentsKeepsComponents(pieces: seq<string>)
    requires forall k :: 0 <= k < |pieces| ==> pieces[k] != "" && pieces[k] != "." && '/' !in pieces[k]
    ensures Components(pieces) == pieces
  {
    if pieces != [] {
      ComponentsKeepsComponents(pieces[1..]);
      assert pieces == [pieces[0]] + pieces[1..];
    }
  }

  /**
   * Writing a well-formed path out as a string ("/" for the anchor, then the
   * components joined by '/') and reading it back with `Path(...)` gives the
   * same path.
   */
  lemma ParseRoundTrip(p: Path)
    requires WellFormed(p)
    ensures Parse((if p.absolute then "/" else "") + Join("/", p.segments)) == p
  {
    if p.segments == [] {
      if p.absolute {
        var s := "/" + Join("/", p.segments);
        assert s == "/" && s[1..] == "";
        assert Split(s, '/') == ["", ""];
      } else {
        assert Split("", '/') == [""];
      }
    } else {
      SplitJoin(p.segments, '/');
      ComponentsKeepsComponents(p.segments);
      if p.absolute {
        SplitAfterAnchor(Join("/", p.segments));
        assert ([""] + p.segments)[1..] == p.segments;
      } else {
        JoinHead(p.segments);
        assert "" + Join("/", p.segments) == Join("/", p.segments);
      }
    }
  }

  /** A leading '/' adds one empty piece in front of the split. */
  lemma SplitAfterAnchor(rest: string)
    ensures Split("/" + rest, '/') == [""] + Split(rest, '/')
  {
    assert ("/" + rest)[0] == '/' && ("/" + rest)[1..] == rest;
  }

  /** A join of components starts with the first component's first character. */
  lemma JoinHead(segments: seq<string>)
    requires |segments| >= 1 && segments[0] != ""
    ensures |Join("/", segments)| > 0 && Join("/", segments)[0] == segments[0][0]
  {
    if |segments| > 1 {
      assert Join("/", segments) == segments[0] + "/" + Join("/", segments[1..]);
    }
  }


  /** `p.parts`: the anchor "/" of an absolute path, then its components. */
  function Parts(p: Path): seq<string>
  {
    (if p.absolute then ["/"] else []) + p.segments
  }

  /** `p.name`: the last component, or "" for "/" and ".". */
  function Name(p: Path): string
  {
    if p.segments == [] then "" else p.segments[|p.segments| - 1]
  }

  /** `p.parent`: the path without its last component; "/" and "." are their own parents. */
  function Parent(p: Path): Path
  {
    if p.segments == [] then p else Path(p.absolute, p.segments[..|p.segments| - 1])
  }

  /** `p / c` for a single component `c`. */
  function Child(p: Path, c: string): (q: Path)
    requires IsComponent(c)
    ensures Parent(q) == p && Name(q) == c
  {
    Path(p.absolute, p.segments + [c])
  }

  /** `s.endswith(suffix)` */
  predicate EndsWith(s: string, suffix: string)
  {
    |suffix| <= |s| && s[|s| - |suffix|..] == suffix
  }

  /** The absolute path a relative one names when the working directory is `cwd`. */
  function Resolve(cwd: Path, p: Path): Path
  {
    if p.absolute then p else Path(true, cwd.segments + p.segments)
  }

  /**
   * What the program sees of the machine: the absolute paths that exist, the
   * working directory, the home directory and the file the package's module
   * was loaded from (`__file__`).
   */
  datatype FileSystem = FileSystem(existing: set<Path>, cwd: Path, home: Path, moduleFile: Path)

  /** `p.exists()`: a relative path is looked up from the working directory. */
  predicate Exists(fs: FileSystem, p: Path)
  {
    Resolve(fs.cwd, p) in fs.existing
  }
}
