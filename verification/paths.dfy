/** POSIX path arithmetic the tools use: `os.path.join`, `os.path.basename`,
    `os.path.splitext` and `pathlib.PurePath.suffix`. Paths are plain strings
    with `/` as the only separator. */
module Paths {
  import opened Strings

  /** Index of the last `c` in `s`, or -1 (Python's `str.rfind`). */
  function LastIndex(s: string, c: char): (r: int)
    ensures -1 <= r < |s|
    ensures r >= 0 ==> s[r] == c
    ensures forall i :: r < i < |s| ==> s[i] != c
  {
    if s == [] then -1
    else if s[|s| - 1] == c then |s| - 1
    else LastIndex(s[..|s| - 1], c)
  }

  /** `os.path.join(dir, name)`: an absolute `name` replaces `dir`; otherwise
      a separator is inserted unless `dir` is empty or already ends in one. */
  function Join(dir: string, name: string): string {
    if StartsWith(name, "/") then name
    else if dir == [] || dir[|dir| - 1] == '/' then dir + name
    else dir + "/" + name
  }

  /** The tools' `if not directory or not directory.strip()` guard: a blank
      requested directory (empty or whitespace) is replaced by the fallback. */
  function ChooseDirectory(requested: string, fallback: string): (r: string)
    ensures IsBlank(requested) ==> r == fallback
    ensures !IsBlank(requested) ==> r == requested
  {
    StripEmptyIffBlank(requested);
    if requested == [] || Strip(requested) == [] then fallback else requested
  }

  /** `os.path.basename(p)`: everything after the last separator. */
  function BaseName(p: string): (r: string)
    ensures '/' !in r
    ensures EndsWith(p, r)
  {
    p[LastIndex(p, '/') + 1..]
  }

  /** Joining a relative file name without separators to a directory and
      taking the base name gives the file name back. */
  lemma BaseNameJoin(dir: string, name: string)
    requires name != [] && '/' !in name
    ensures BaseName(Join(dir, name)) == name
    ensures EndsWith(Join(dir, name), name)
  {
    var p := Join(dir, name);
    assert !StartsWith(name, "/") by {
      assert name[0] != '/';
    }
    assert EndsWith(p, name);
    var k := LastIndex(p, '/');
    assert k == |p| - |name| - 1 || (dir == [] && k == -1) by {
      if dir != [] {
        assert p[|p| - |name| - 1] == '/';
      }
    }
  }

  /** `os.path.splitext(p)`: the extension runs from the last dot of the last
      path component, provided something other than dots precedes that dot
      within the component (so `.bashrc` and `..x` have no extension). */
  function SplitExt(p: string): (r: (string, string))
    ensures r.0 + r.1 == p
    ensures r.1 == [] || (r.1[0] == '.' && '.' !in r.1[1..] && '/' !in r.1)
  {
    var sepIndex := LastIndex(p, '/');
    var dotIndex := LastIndex(p, '.');
    if dotIndex > sepIndex && exists i :: sepIndex + 1 <= i < dotIndex && p[i] != '.' then
      (p[..dotIndex], p[dotIndex..])
    else (p, "")
  }

  /** `pathlib.PurePath(name).suffix` for a final component `name`: from the
      last dot, provided that dot is neither the first nor the last
      character. */
  function Suffix(name: string): (r: string)
    ensures r == [] || (r[0] == '.' && |r| >= 2 && EndsWith(name, r))
  {
    var i := LastIndex(name, '.');
    if 0 < i < |name| - 1 then name[i..] else ""
  }
}
