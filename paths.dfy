/**
 * The parts of Python's POSIX `pathlib` (`PurePosixPath`) that decide output names: the last path
 * component (`Path.name`), its last suffix (`Path.suffix`), the name without
 * that suffix (`Path.stem`) and joining a directory with a child name
 * (`Path / name`, then `str`). Paths are strings as `str(path)` prints them,
 * with '/' as the only separator and no drive.
 */
module PurePaths {

  /** Index of the last occurrence of `c` in `s`, or -1 (Python's `str.rfind`). */
  function RFind(s: string, c: char): (i: int)
    ensures -1 <= i < |s|
    ensures 0 <= i ==> s[i] == c
  {
    if |s| == 0 then -1
    else if s[|s| - 1] == c then |s| - 1
    else RFind(s[..|s| - 1], c)
  }

  /** No occurrence of `c` after the one `RFind` returns (none at all when it returns -1). */
  lemma {:induction false} RFindIsLast(s: string, c: char)
    ensures forall j :: RFind(s, c) < j < |s| ==> s[j] != c
  {
    if |s| > 0 && s[|s| - 1] != c {
      RFindIsLast(s[..|s| - 1], c);
    }
  }

  /** The last occurrence is the only index holding `c` with no `c` after it. */
  lemma RFindIs(s: string, c: char, k: nat)
    requires k < |s| && s[k] == c && c !in s[k + 1..]
    ensures RFind(s, c) == k
  {
    RFindIsLast(s, c);
  }

  /** `PurePath.suffix`: from the last dot on, if that dot is neither the first nor the last character. */
  function Suffix(name: string): (x: string)
    ensures x == "" || (|x| >= 2 && x[0] == '.')
    ensures x != "" ==> |x| < |name| && name[|name| - |x|..] == x
  {
    var i := RFind(name, '.');
    if 0 < i < |name| - 1 then name[i..] else ""
  }

  /** `PurePath.stem`: the name without its last suffix. */
  function Stem(name: string): string
  {
    var i := RFind(name, '.');
    if 0 < i < |name| - 1 then name[..i] else name
  }

  /** A suffix as `Suffix` can return it: a dot, at least one more character, no further dot. */
  predicate IsSuffixForm(ext: string)
  {
    |ext| >= 2 && ext[0] == '.' && '.' !in ext[1..]
  }

  /** `name` ends with `ext` and has at least one character before it. */
  predicate EndsWithAfterSomething(name: string, ext: string)
  {
    |name| > |ext| && name[|name| - |ext|..] == ext
  }

  /** Stem and suffix split a name with nothing lost. */
  lemma StemThenSuffix(name: string)
    ensures Stem(name) + Suffix(name) == name
  {
  }

  /**
   * The suffix test the classifier relies on, stated on the name itself:
   * the suffix is exactly `ext` iff the name ends with `ext` after at least
   * one other character (so a bare ".heic" has no suffix at all).
   */
  lemma SuffixIs(name: string, ext: string)
    requires IsSuffixForm(ext)
    ensures Suffix(name) == ext <==> EndsWithAfterSomething(name, ext)
  {
    if EndsWithAfterSomething(name, ext) {
      var k := |name| - |ext|;
      assert name[k..] == ext;
      assert name[k] == '.';
      assert name[k + 1..] == ext[1..];
      RFindIs(name, '.', k);
    }
  }

  /** When the suffix is `ext`, the stem is everything before it: `a.b.heic` has stem `a.b`. */
  lemma StemIs(name: string, ext: string)
    requires IsSuffixForm(ext) && EndsWithAfterSomething(name, ext)
    ensures Stem(name) == name[..|name| - |ext|]
  {
    SuffixIs(name, ext);
    StemThenSuffix(name);
  }

  /** `str(PurePosixPath(dir) / name)` for a directory as `str(PurePosixPath(dir))` prints it. */
  function Join(dir: string, name: string): string
  {
    if dir == "" || dir == "." then name
    else if dir[|dir| - 1] == '/' then dir + name
    else dir + "/" + name
  }

  /** `PurePath.name`: the part after the last '/'. */
  function Name(path: string): (n: string)
    ensures |n| <= |path| && path[|path| - |n|..] == n
  {
    var i := RFind(path, '/');
    if i == -1 then path else path[i + 1..]
  }

  /** Joining a child name and taking the name back gives the child. */
  lemma NameOfJoin(dir: string, name: string)
    requires '/' !in name
    ensures Name(Join(dir, name)) == name
  {
    var p := Join(dir, name);
    if dir == "" || dir == "." {
    } else {
      var k := if dir[|dir| - 1] == '/' then |dir| - 1 else |dir|;
      assert p[k] == '/';
      assert p[k + 1..] == name;
      RFindIs(p, '/', k);
    }
  }
}
