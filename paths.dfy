/** The final component of a POSIX path, as `std::filesystem::path::filename()`
    yields it for the entries of the image directory. */
module Paths {

  const Separator: char := '/'

  predicate IsSuffix(r: string, p: string) {
    |r| <= |p| && p[|p| - |r|..] == r
  }

  /** Everything after the last `/`; the whole path when it has none, and the
      empty string when the path ends with `/`. */
  function FileName(p: string): (r: string)
    ensures IsSuffix(r, p)
    ensures forall k :: 0 <= k < |r| ==> r[k] != Separator
    ensures |r| < |p| ==> p[|p| - |r| - 1] == Separator
  {
    if p == [] then []
    else if p[|p| - 1] == Separator then []
    else FileName(p[..|p| - 1]) + [p[|p| - 1]]
  }

  /** `FileName` is the only suffix that holds no separator and is preceded by
      one or is the whole path: the component after the last `/`. */
  lemma FileNameUnique(p: string, r: string)
    requires IsSuffix(r, p)
    requires forall k :: 0 <= k < |r| ==> r[k] != Separator
    requires |r| < |p| ==> p[|p| - |r| - 1] == Separator
    ensures r == FileName(p)
  {
  }

  /** A path without separators is its own file name. */
  lemma {:induction false} FileNameOfPlain(name: string)
    requires forall k :: 0 <= k < |name| ==> name[k] != Separator
    ensures FileName(name) == name
  {
    if name != [] {
      var init := name[..|name| - 1];
      FileNameOfPlain(init);
      assert init + [name[|name| - 1]] == name;
    }
  }

  /** The name of an entry listed in `dir` is what the listing appended to `dir + "/"`. */
  lemma {:induction false} FileNameOfJoin(dir: string, name: string)
    requires forall k :: 0 <= k < |name| ==> name[k] != Separator
    ensures FileName(dir + [Separator] + name) == name
  {
    if name == [] {
      assert dir + [Separator] + name == dir + [Separator];
    } else {
      var init := name[..|name| - 1];
      FileNameOfJoin(dir, init);
      assert (dir + [Separator] + name)[..|dir + [Separator] + name| - 1] == dir + [Separator] + init;
      assert init + [name[|name| - 1]] == name;
    }
  }
}
