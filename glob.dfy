// The part of Go's `filepath.Match` that the glob `dir/*frag*` applies to
// each entry name of `dir`: patterns made of literal characters and `*`,
// where `*` matches any run of non-separator characters.
module Glob {
  import opened Text

  /** A pattern character with no special meaning to `filepath.Match`. */
  predicate IsLiteralChar(c: char) {
    c != '*' && c != '?' && c != '[' && c != '\\'
  }

  predicate IsLiteral(s: string) {
    forall i :: 0 <= i < |s| ==> IsLiteralChar(s[i])
  }

  /** `filepath.Match(pattern, name)` for patterns over literal characters and `*`. */
  predicate StarMatch(pattern: string, name: string)
    decreases |pattern| + |name|
  {
    if pattern == [] then name == []
    else if pattern[0] == '*' then
      StarMatch(pattern[1..], name) || (name != [] && name[0] != '/' && StarMatch(pattern, name[1..]))
    else name != [] && name[0] == pattern[0] && StarMatch(pattern[1..], name[1..])
  }

  /** A lone `*` matches every name without a separator. */
  lemma {:induction false} StarMatchesAll(name: string)
    requires '/' !in name
    ensures StarMatch("*", name)
  {
    if name != [] {
      StarMatchesAll(name[1..]);
    }
  }

  /** `lit*` matches exactly the names that start with `lit`. */
  lemma {:induction false} LiteralThenStar(lit: string, name: string)
    requires IsLiteral(lit) && '/' !in name
    ensures StarMatch(lit + "*", name) <==> HasPrefix(name, lit)
  {
    if lit == [] {
      assert lit + "*" == "*";
      StarMatchesAll(name);
    } else {
      assert (lit + "*")[0] == lit[0] && (lit + "*")[1..] == lit[1..] + "*";
      if name != [] {
        LiteralThenStar(lit[1..], name[1..]);
        if HasPrefix(name[1..], lit[1..]) && name[0] == lit[0] {
          assert name[..|lit|] == [name[0]] + name[1..][..|lit| - 1];
        }
      }
    }
  }

  /** A leading `*` lets the rest of the pattern match any suffix of the name. */
  lemma {:induction false} StarThen(rest: string, name: string)
    requires '/' !in name
    ensures StarMatch("*" + rest, name) <==> exists i :: 0 <= i <= |name| && StarMatch(rest, name[i..])
  {
    var p := "*" + rest;
    assert p[0] == '*' && p[1..] == rest;
    assert name[0..] == name;
    if name != [] {
      StarThen(rest, name[1..]);
      if exists i :: 0 <= i <= |name| && StarMatch(rest, name[i..]) {
        var i :| 0 <= i <= |name| && StarMatch(rest, name[i..]);
        if i > 0 {
          assert name[1..][i - 1..] == name[i..];
        }
      }
      if StarMatch(p, name[1..]) {
        var i :| 0 <= i <= |name[1..]| && StarMatch(rest, name[1..][i..]);
        assert name[1..][i..] == name[i + 1..];
      }
    }
  }

  /**
   * For a literal fragment, the glob `*frag*` selects exactly the names that
   * contain `frag` as a substring.
   */
  lemma StarLiteralStar(frag: string, name: string)
    requires IsLiteral(frag) && '/' !in name
    ensures StarMatch("*" + frag + "*", name) <==> Contains(name, frag)
  {
    assert "*" + frag + "*" == "*" + (frag + "*");
    StarThen(frag + "*", name);
    forall i | 0 <= i <= |name|
      ensures StarMatch(frag + "*", name[i..]) <==> HasPrefix(name[i..], frag)
    {
      LiteralThenStar(frag, name[i..]);
    }
  }
}
