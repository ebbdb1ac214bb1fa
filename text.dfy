/**
 * String helpers the server relies on: `str.rfind`, the ASCII part of
 * `str.lower`, `os.path.basename` and `os.path.join` on POSIX paths.
 */
module Text {

  /** Index of the last occurrence of `c` in `s`, or -1 when there is none (`str.rfind`). */
  function LastIndexOf(s: string, c: char): (r: int)
    ensures -1 <= r < |s|
    ensures r >= 0 ==> s[r] == c
    ensures forall j :: r < j < |s| ==> s[j] != c
  {
    if |s| == 0 then -1
    else if s[|s| - 1] == c then |s| - 1
    else LastIndexOf(s[..|s| - 1], c)
  }

  /** The text after the last `c` (all of `s` when `c` does not occur). */
  function AfterLast(s: string, c: char): (r: string)
    ensures c !in r
    ensures |r| <= |s| && s[|s| - |r|..] == r
    ensures |r| < |s| ==> s[|s| - |r| - 1] == c
  {
    s[LastIndexOf(s, c) + 1..]
  }

  lemma {:induction false} AfterLastOfJoin(stem: string, c: char, tail: string)
    requires c !in tail
    ensures AfterLast(stem + [c] + tail, c) == tail
  {
    var s := stem + [c] + tail;
    var k := LastIndexOf(s, c);
    assert s[|stem|] == c;
    assert k == |stem|;
    assert s[k + 1..] == tail;
  }

  /** Upper-case ASCII letters become lower case; every other character is kept. */
  function LowerChar(ch: char): (r: char)
    ensures 'A' <= ch <= 'Z' ==> 'a' <= r <= 'z' && r as int - ch as int == 'a' as int - 'A' as int
    ensures !('A' <= ch <= 'Z') ==> r == ch
  {
    if 'A' <= ch <= 'Z' then (ch as int - 'A' as int + 'a' as int) as char else ch
  }

  /** `s.lower()` restricted to ASCII letters. */
  function Lower(s: string): (r: string)
    ensures |r| == |s|
    ensures forall i :: 0 <= i < |s| ==> r[i] == LowerChar(s[i])
  {
    if s == [] then [] else [LowerChar(s[0])] + Lower(s[1..])
  }

  lemma LowerIdempotent(s: string)
    ensures Lower(Lower(s)) == Lower(s)
  {
    assert forall i :: 0 <= i < |s| ==> Lower(Lower(s))[i] == Lower(s)[i];
  }

  /** Lower-casing moves no `.` and no `/`, so it keeps the position of the last one. */
  lemma {:induction false} LastIndexOfLower(s: string, c: char)
    requires c == '.' || c == '/'
    ensures LastIndexOf(Lower(s), c) == LastIndexOf(s, c)
  {
    if |s| > 0 {
      var p := s[..|s| - 1];
      assert Lower(s)[..|s| - 1] == Lower(p);
      LastIndexOfLower(p, c);
    }
  }

  lemma LowerSlice(s: string, i: nat)
    requires i <= |s|
    ensures Lower(s)[i..] == Lower(s[i..])
  {
  }

  /** `os.path.basename`: the text after the last `/`. */
  function Basename(path: string): (b: string)
    ensures '/' !in b
    ensures |b| <= |path| && path[|path| - |b|..] == b
    ensures |b| < |path| ==> path[|path| - |b| - 1] == '/'
  {
    AfterLast(path, '/')
  }

  /** POSIX `os.path.join(dir, name)` for two components. */
  function JoinPath(dir: string, name: string): (path: string)
    ensures |name| <= |path| && path[|path| - |name|..] == name
    ensures name == [] || name[0] != '/' ==> |dir| <= |path| && path[..|dir|] == dir
    ensures |name| > 0 && name[0] == '/' ==> path == name
    ensures |name| > 0 && name[0] != '/' && |dir| > 0 && dir[|dir| - 1] != '/' ==> path == dir + "/" + name
  {
    if |name| > 0 && name[0] == '/' then name
    else if dir == [] || dir[|dir| - 1] == '/' then dir + name
    else dir + "/" + name
  }

  /** Joining a directory and a plain file name and taking the base name gives the file name back. */
  lemma BasenameOfJoin(dir: string, name: string)
    requires '/' !in name
    ensures Basename(JoinPath(dir, name)) == name
  {
    if dir == [] {
      assert JoinPath(dir, name) == name;
      AfterLastNoSep(name);
    } else if dir[|dir| - 1] == '/' {
      assert JoinPath(dir, name) == dir[..|dir| - 1] + ['/'] + name;
      AfterLastOfJoin(dir[..|dir| - 1], '/', name);
    } else {
      assert JoinPath(dir, name) == dir + ['/'] + name;
      AfterLastOfJoin(dir, '/', name);
    }
  }

  lemma AfterLastNoSep(s: string)
    requires '/' !in s
    ensures AfterLast(s, '/') == s
  {
  }
}
