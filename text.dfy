/**
 * Character classes and string helpers that spit.go takes from Go's
 * `regexp` and `strings` packages. Strings are ASCII character sequences.
 */
module Text {
  /** `\w` in Go's RE2 syntax: `[0-9A-Za-z_]`. */
  predicate IsWordChar(c: char) {
    ('0' <= c <= '9') || ('A' <= c <= 'Z') || ('a' <= c <= 'z') || c == '_'
  }

  /** `[0-9]`. */
  predicate IsDigit(c: char) {
    '0' <= c <= '9'
  }

  predicate HasPrefix(s: string, prefix: string) {
    |prefix| <= |s| && s[..|prefix|] == prefix
  }

  /** `strings.Contains(s, sub)`: `sub` occurs somewhere in `s`. */
  predicate Contains(s: string, sub: string) {
    exists i :: 0 <= i <= |s| && HasPrefix(s[i..], sub)
  }

  /**
   * The last element of `strings.Split(path, "/")`: everything after the
   * last `/`, or the whole path when it has none.
   */
  function LastSegment(path: string): (seg: string)
    ensures '/' !in seg
    ensures |seg| <= |path| && path[|path| - |seg|..] == seg
    ensures |seg| < |path| ==> path[|path| - |seg| - 1] == '/'
  {
    if path == [] || path[|path| - 1] == '/' then []
    else
      var init := path[..|path| - 1];
      var seg := LastSegment(init) + [path[|path| - 1]];
      assert path[|path| - |seg|..] == init[|init| - |seg| + 1..] + [path[|path| - 1]];
      seg
  }

  /** Splitting `dir + "/" + name` and keeping the last part gives back `name`. */
  lemma LastSegmentOfJoin(dir: string, name: string)
    requires '/' !in name
    ensures LastSegment(dir + "/" + name) == name
  {
    var path := dir + "/" + name;
    var seg := LastSegment(path);
    assert path[|dir|] == '/';
    assert |seg| == |name|;
    assert path[|path| - |seg|..] == name;
  }
}
