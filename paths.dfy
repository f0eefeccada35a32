/**
 * The little path logic the program relies on: turning an argument string into a
 * path, taking a path's last component (`Path.name`) and joining a component onto
 * a directory (`root / name`), as pathlib does for POSIX paths.
 */
module Paths {

  /** A normalised path: whether it starts at `/`, and its components in order. */
  datatype Path = Path(absolute: bool, parts: seq<string>)

  /** A component as pathlib keeps it: non-empty, not ".", and without a separator. */
  predicate IsPart(c: string) {
    c != "" && c != "." && '/' !in c
  }

  predicate Normal(p: Path) {
    forall i :: 0 <= i < |p.parts| ==> IsPart(p.parts[i])
  }

  /** Empty components (from "a//b" or a trailing "/") and "." components are dropped. */
  function Keep(c: string): (r: seq<string>)
    ensures '/' !in c ==> forall i :: 0 <= i < |r| ==> IsPart(r[i])
    ensures IsPart(c) ==> r == [c]
  {
    if c == "" || c == "." then [] else [c]
  }

  /** Splits `s` on '/', where `cur` is the component read so far. */
  function Components(s: string, cur: string): (r: seq<string>)
    requires '/' !in cur
    ensures forall i :: 0 <= i < |r| ==> IsPart(r[i])
    decreases |s|
  {
    if s == [] then Keep(cur)
    else if s[0] == '/' then Keep(cur) + Components(s[1..], "")
    else Components(s[1..], cur + [s[0]])
  }

  /** `Path(s)`: the path an argument string denotes. */
  function Parse(s: string): (p: Path)
    ensures p.absolute <==> |s| > 0 && s[0] == '/'
    ensures Normal(p)
  {
    Path(|s| > 0 && s[0] == '/', Components(s, ""))
  }

  /** A string without separators is read as a single component. */
  lemma {:induction false} ComponentsOfPlainName(s: string, cur: string)
    requires '/' !in s && '/' !in cur
    ensures Components(s, cur) == Keep(cur + s)
    decreases |s|
  {
    if s != [] {
      assert cur + s == (cur + [s[0]]) + s[1..];
      ComponentsOfPlainName(s[1..], cur + [s[0]]);
    } else {
      assert cur + s == cur;
    }
  }

  /** A plain relative name such as "alice" parses to the one-component path. */
  lemma ParsePlainName(s: string)
    requires IsPart(s)
    ensures Parse(s) == Path(false, [s])
  {
    ComponentsOfPlainName(s, "");
    assert "" + s == s;
  }

  /** Reading `a`, a separator and `t` is reading `a`, then `t` from a fresh component. */
  lemma {:induction false} ComponentsSplit(a: string, t: string, cur: string)
    requires '/' !in cur
    ensures Components(a + "/" + t, cur) == Components(a, cur) + Components(t, "")
    decreases |a|
  {
    if a == [] {
      assert a + "/" + t == "/" + t;
      assert ("/" + t)[1..] == t;
    } else if a[0] == '/' {
      assert (a + "/" + t)[1..] == a[1..] + "/" + t;
      ComponentsSplit(a[1..], t, "");
    } else {
      assert (a + "/" + t)[1..] == a[1..] + "/" + t;
      ComponentsSplit(a[1..], t, cur + [a[0]]);
    }
  }

  /** A name appended after a separator becomes the last component: `Path("photos/alice")` ends in "alice". */
  lemma ParseSnoc(a: string, b: string)
    requires IsPart(b)
    ensures Parse(a + "/" + b).parts == Parse(a).parts + [b]
    ensures Name(Parse(a + "/" + b)) == b
  {
    ComponentsSplit(a, b, "");
    ComponentsOfPlainName(b, "");
    assert "" + b == b;
  }

  /**
   * A trailing separator changes no component: `Path("photos/alice/")` is
   * `Path("photos/alice")`. Only "/" alone differs from "", by its anchor.
   */
  lemma ParseTrailingSlash(s: string)
    ensures Parse(s + "/").parts == Parse(s).parts
    ensures s != "" ==> Parse(s + "/") == Parse(s)
  {
    ComponentsSplit(s, "", "");
    assert s + "/" + "" == s + "/";
  }

  /** The text after the last separator of a raw argument string. */
  function LastSegment(s: string): (r: string)
    ensures '/' !in r
    ensures |r| <= |s| && r == s[|s| - |r|..]
    ensures |r| == |s| || s[|s| - |r| - 1] == '/'
    decreases |s|
  {
    if s == [] || s[|s| - 1] == '/' then []
    else LastSegment(s[..|s| - 1]) + [s[|s| - 1]]
  }

  /**
   * A raw string that `open()` can read as a regular file: its last segment
   * names an entry. A trailing separator, "." or ".." names a directory (or
   * fails on a file), so opening it raises.
   */
  function NamesFile(s: string): (named: bool)
    ensures named ==> s != "" && s[|s| - 1] != '/'
  {
    var last := LastSegment(s);
    last != "" && last != "." && last != ".."
  }

  /** The last segment of a plain name is the name, and after a separator it is what follows the separator. */
  lemma LastSegmentOfName(a: string, b: string)
    requires '/' !in b
    ensures LastSegment(b) == b
    ensures LastSegment(a + "/" + b) == b
  {
    var s := a + "/" + b;
    var r := LastSegment(s);
    assert s[|a|] == '/';
    assert s[|s| - |b|..] == b;
  }

  /** A plain name other than "..", on its own or after a directory, names a file: `photos/p.jpg` opens `p.jpg`. */
  lemma NamesFileOfName(a: string, b: string)
    requires IsPart(b) && b != ".."
    ensures NamesFile(b) && NamesFile(a + "/" + b)
  {
    LastSegmentOfName(a, b);
  }

  /**
   * A trailing separator is dropped by `Path(s)` but not by `open(s)`: `p.jpg/`
   * parses like `p.jpg`, yet cannot be opened as a file.
   */
  lemma TrailingSlashNamesNoFile(s: string)
    requires s != ""
    ensures Parse(s + "/") == Parse(s)
    ensures !NamesFile(s + "/")
  {
    ParseTrailingSlash(s);
    assert (s + "/")[|s + "/"| - 1] == '/';
  }

  /** `Path.name`: the last component, or "" for a path without components. */
  function Name(p: Path): (n: string)
    ensures p.parts == [] ==> n == ""
    ensures p.parts != [] ==> n == p.parts[|p.parts| - 1]
    ensures Normal(p) ==> (n == "" <==> p.parts == []) && '/' !in n
  {
    if p.parts == [] then "" else p.parts[|p.parts| - 1]
  }

  /** `dir / name` for a single component; joining "" leaves the path as it is. */
  function Join(dir: Path, name: string): (r: Path)
    ensures r.absolute == dir.absolute
    ensures name == "" ==> r == dir
    ensures name != "" ==> r.parts == dir.parts + [name] && Name(r) == name
  {
    if name == "" then dir else Path(dir.absolute, dir.parts + [name])
  }

  /**
   * The folder `save` enumerates (modules/utils.py:146): the given folder when
   * `fullpath` is set, otherwise the project root joined with only the folder's
   * last component.
   */
  function ResolveFolder(folder: Path, fullpath: bool, root: Path): (r: Path)
    ensures fullpath ==> r == folder
    ensures !fullpath ==> r.absolute == root.absolute
    ensures !fullpath && folder.parts == [] ==> r == root
    ensures !fullpath && Normal(folder) && folder.parts != [] ==>
      r.parts == root.parts + [folder.parts[|folder.parts| - 1]]
  {
    if fullpath then folder else Join(root, Name(folder))
  }

  /**
   * Without `fullpath`, a folder given as `a/b` (with or without a trailing
   * separator) is looked up as `b` under the project root, whatever `a` is.
   */
  lemma ResolveNestedFolder(a: string, b: string, root: Path)
    requires IsPart(b)
    ensures ResolveFolder(Parse(a + "/" + b), false, root) == Join(root, b)
    ensures ResolveFolder(Parse(a + "/" + b + "/"), false, root) == Join(root, b)
  {
    ParseSnoc(a, b);
    ParseTrailingSlash(a + "/" + b);
  }
}
