/** `fnmatch.fnmatch(name, pattern)` on a POSIX system (where the case of
    names is kept), for patterns built from literal characters and the two
    wildcards `*` (any run of characters, `/` and newlines included) and `?`
    (any one character). Bracket classes (`[...]`) are not part of this
    model; the script's own pattern never holds one when the file name does
    not. */
module FnMatch {
  import opened PyStr

  /** True of the characters `fnmatch` gives a meaning. */
  predicate IsMeta(c: char)
  {
    c == '*' || c == '?' || c == '['
  }

  /** A name matched as a pattern stands only for itself. */
  predicate IsLiteral(name: string)
  {
    forall i :: 0 <= i < |name| ==> !IsMeta(name[i])
  }

  /** Whether the whole of `s` matches `pattern`. */
  function Matches(s: string, pattern: string): bool
    requires '[' !in pattern
    decreases |s| + |pattern|
  {
    if pattern == [] then s == []
    else if pattern[0] == '*' then
      Matches(s, pattern[1..]) || (s != [] && Matches(s[1..], pattern))
    else if pattern[0] == '?' then
      s != [] && Matches(s[1..], pattern[1..])
    else
      s != [] && s[0] == pattern[0] && Matches(s[1..], pattern[1..])
  }

  /** A lone `*` matches every name. */
  lemma {:induction false} StarMatchesAll(s: string)
    ensures Matches(s, "*")
  {
    if s != [] {
      StarMatchesAll(s[1..]);
    }
  }

  /** `fnmatch(s, name + "*")` for a literal `name` is `s.startswith(name)`,
      in both directions. */
  lemma {:induction false} LiteralStarIsPrefix(s: string, name: string)
    requires IsLiteral(name)
    ensures '[' !in name + "*"
    ensures Matches(s, name + "*") <==> StartsWith(s, name)
  {
    assert forall i :: 0 <= i < |name| ==> name[i] != '[';
    if name == [] {
      assert name + "*" == "*";
      StarMatchesAll(s);
    } else {
      var p := name + "*";
      assert p[0] == name[0] && !IsMeta(name[0]);
      assert p[1..] == name[1..] + "*";
      LiteralStarIsPrefix(if s == [] then s else s[1..], name[1..]);
      if s != [] && s[0] == name[0] {
        assert StartsWith(s[1..], name[1..]) <==> StartsWith(s, name) by {
          if |name| <= |s| {
            assert s[..|name|] == [s[0]] + s[1..][..|name| - 1];
            assert name == [name[0]] + name[1..];
          }
        }
      }
    }
  }
}
