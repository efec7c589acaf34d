/** Path strings as the crawler sees them: the extension of a file name
    (`get_extension`) and POSIX `os.path.join` of a directory and an entry name. */
module Paths {
  import opened Common

  type Path = string

  const Sep: char := '/'
  const Dot: char := '.'

  /** The text after the last `sep` in `s`, or all of `s` when `sep` does not
      occur: Python's `s.split(sep)[-1]`. The contract pins the result down
      completely: it is the longest suffix of `s` free of `sep`. */
  function AfterLast(s: string, sep: char): (r: string)
    ensures sep !in r
    ensures |r| <= |s| && r == s[|s| - |r|..]
    ensures |r| < |s| ==> s[|s| - |r| - 1] == sep
    decreases |s|
  {
    if |s| == 0 then []
    else if s[|s| - 1] == sep then []
    else
      var r0 := AfterLast(s[..|s| - 1], sep);
      AfterLastStep(s, sep, r0);
      r0 + [s[|s| - 1]]
  }

  /** One step of `AfterLast`: the final segment of `s` minus its last
      character, extended by that (non-separator) character, is the final
      segment of `s`. */
  lemma AfterLastStep(s: string, sep: char, r0: string)
    requires |s| > 0 && s[|s| - 1] != sep
    requires sep !in r0
    requires |r0| <= |s| - 1 && r0 == s[..|s| - 1][|s| - 1 - |r0|..]
    requires |r0| < |s| - 1 ==> s[..|s| - 1][|s| - 1 - |r0| - 1] == sep
    ensures sep !in r0 + [s[|s| - 1]]
    ensures |r0 + [s[|s| - 1]]| <= |s| && r0 + [s[|s| - 1]] == s[|s| - |r0 + [s[|s| - 1]]|..]
    ensures |r0 + [s[|s| - 1]]| < |s| ==> s[|s| - |r0 + [s[|s| - 1]]| - 1] == sep
  {
    SuffixOfInit(s, |r0|);
  }

  /** A suffix of `s` minus its last character, extended by that character,
      is the one-longer suffix of `s`. */
  lemma SuffixOfInit(s: string, n: nat)
    requires n < |s|
    ensures s[|s| - n - 1..] == s[..|s| - 1][|s| - 1 - n..] + [s[|s| - 1]]
    ensures n < |s| - 1 ==> s[|s| - n - 2] == s[..|s| - 1][|s| - 1 - n - 1]
  {
  }

  /** The extension of the final segment of `filepath`, or None when that
      segment has no dot. The extension is what follows the segment's last
      dot, and may be empty (`"a."` has extension `""`). */
  function GetExtension(filepath: string): (r: Option<string>)
    ensures r.None? <==> Dot !in AfterLast(filepath, Sep)
    ensures r.Some? ==> Dot !in r.value && Sep !in r.value
    ensures r.Some? ==> FollowsLastDot(AfterLast(filepath, Sep), r.value)
  {
    var filename := AfterLast(filepath, Sep);
    if Dot in filename then
      ExtensionOfName(filename);
      Some(AfterLast(filename, Dot))
    else None
  }

  /** Facts about the extension of a single path segment that has a dot. */
  lemma ExtensionOfName(filename: string)
    requires Sep !in filename && Dot in filename
    ensures Sep !in AfterLast(filename, Dot)
    ensures FollowsLastDot(filename, AfterLast(filename, Dot))
  {
    var ext := AfterLast(filename, Dot);
    SuffixChars(filename, ext, Sep);
    ProperSuffix(filename, ext, Dot);
  }

  /** A suffix that lacks a character its whole string has is a proper suffix. */
  lemma ProperSuffix(s: string, t: string, c: char)
    requires c in s && c !in t
    requires |t| <= |s| && t == s[|s| - |t|..]
    ensures |t| < |s|
  {
  }

  /** `ext` is the suffix of `name` that follows a dot in it. */
  predicate FollowsLastDot(name: string, ext: string)
  {
    |ext| < |name| && name[|name| - |ext| - 1] == Dot && ext == name[|name| - |ext|..]
  }

  /** A suffix has no character its whole string lacks. */
  lemma SuffixChars(s: string, t: string, c: char)
    requires c !in s
    requires |t| <= |s| && t == s[|s| - |t|..]
    ensures c !in t
  {
  }

  predicate IsAbsolute(p: Path)
  {
    |p| > 0 && p[0] == Sep
  }

  /** POSIX `os.path.join(dir, name)` for two arguments: an absolute `name`
      replaces `dir`; otherwise a separator is inserted unless `dir` is empty
      or already ends in one. */
  function Join(dir: Path, name: Path): (r: Path)
    ensures IsAbsolute(name) ==> r == name
    ensures !IsAbsolute(name) ==>
              |dir| + |name| <= |r| <= |dir| + |name| + 1
              && r[..|dir|] == dir && r[|r| - |name|..] == name
    ensures !IsAbsolute(name) && |dir| > 0 && dir[|dir| - 1] != Sep ==>
              |r| == |dir| + |name| + 1 && r[|dir|] == Sep
    ensures !IsAbsolute(name) && (|dir| == 0 || dir[|dir| - 1] == Sep) ==> |r| == |dir| + |name|
  {
    if IsAbsolute(name) then name
    else if |dir| == 0 || dir[|dir| - 1] == Sep then dir + name
    else dir + [Sep] + name
  }

  /** Whatever precedes a separator does not affect the final segment. */
  lemma {:induction false} AfterLastIgnoresPrefix(p: string, s: string, sep: char)
    requires |p| > 0 && p[|p| - 1] == sep
    ensures AfterLast(p + s, sep) == AfterLast(s, sep)
    decreases |s|
  {
    if |s| == 0 {
      assert p + s == p;
    } else {
      var last := s[|s| - 1];
      assert (p + s)[..|p + s| - 1] == p + s[..|s| - 1];
      assert (p + s)[|p + s| - 1] == last;
      if last != sep {
        AfterLastIgnoresPrefix(p, s[..|s| - 1], sep);
      }
    }
  }

  /** Dots in directory names are ignored: the extension of `dir/name` is the
      extension of `name`. */
  lemma DirectoryDotsIgnored(dir: string, name: string)
    ensures GetExtension(dir + [Sep] + name) == GetExtension(name)
  {
    assert dir + [Sep] + name == (dir + [Sep]) + name;
    AfterLastIgnoresPrefix(dir + [Sep], name, Sep);
  }

  /** Joining keeps the entry's final segment, so the extension recorded from
      an entry's name is also the extension of its joined path. */
  lemma JoinKeepsExtension(dir: Path, name: Path)
    ensures AfterLast(Join(dir, name), Sep) == AfterLast(name, Sep)
    ensures GetExtension(Join(dir, name)) == GetExtension(name)
  {
    if IsAbsolute(name) {
    } else if |dir| == 0 {
      assert dir + name == name;
    } else if dir[|dir| - 1] == Sep {
      AfterLastIgnoresPrefix(dir, name, Sep);
    } else {
      assert dir + [Sep] + name == (dir + [Sep]) + name;
      AfterLastIgnoresPrefix(dir + [Sep], name, Sep);
    }
  }

  /** A final segment ending in a dot has the empty extension, e.g. `"a."`. */
  lemma TrailingDotGivesEmptyExtension(p: string)
    ensures GetExtension(p + [Dot]) == Some("")
  {
    var s := p + [Dot];
    assert s[..|s| - 1] == p;
    assert AfterLast(s, Sep) == AfterLast(p, Sep) + [Dot];
  }
}
