/** The POSIX path functions the service uses (os.path.join, basename,
    splitext) and str.split(".")[-1]. */
module Paths {
  import opened Text

  /** The index of the last c in s, or -1 (str.rfind). */
  function LastIndexOf(s: string, c: char): (i: int)
    ensures -1 <= i < |s|
    ensures i >= 0 ==> s[i] == c
    ensures forall j :: i < j < |s| ==> s[j] != c
  {
    if |s| == 0 then -1
    else if s[|s| - 1] == c then |s| - 1
    else LastIndexOf(s[..|s| - 1], c)
  }

  /** os.path.join(a, b): b alone when it is absolute, otherwise a and b
      with one "/" between them. */
  function Join(a: string, b: string): (r: string)
    ensures StartsWith(b, "/") ==> r == b
    ensures !StartsWith(b, "/") && |a| > 0 && a[|a| - 1] != '/' ==> r == a + "/" + b
  {
    if StartsWith(b, "/") then b
    else if |a| == 0 || a[|a| - 1] == '/' then a + b
    else a + "/" + b
  }

  /** os.path.basename(p): what follows the last "/". */
  function Basename(p: string): (r: string)
    ensures '/' !in r
    ensures '/' !in p ==> r == p
  {
    p[LastIndexOf(p, '/') + 1..]
  }

  /** Whether splitext finds an extension: a "." after the last "/" that is
      preceded, within the last component, by a character other than ".". */
  predicate HasExtension(p: string) {
    var sep := LastIndexOf(p, '/');
    var dot := LastIndexOf(p, '.');
    dot > sep && exists k :: sep + 1 <= k < dot && p[k] != '.'
  }

  /** os.path.splitext(p): (root, ext) with root + ext == p, where ext is
      empty or a "." followed by no other "." and no "/". */
  function SplitExt(p: string): (r: (string, string))
    ensures r.0 + r.1 == p
    ensures r.1 == [] || (r.1[0] == '.' && '.' !in r.1[1..] && '/' !in r.1)
    ensures r.1 != [] <==> HasExtension(p)
  {
    if HasExtension(p) then
      var dot := LastIndexOf(p, '.');
      assert p[dot..][1..] == p[dot + 1..];
      (p[..dot], p[dot..])
    else (p, [])
  }

  /** A stem that starts with a character other than "." and has no "/",
      followed by "." and a suffix without "." or "/", splits back into that
      stem and that extension. */
  lemma SplitExtOf(stem: string, ext: string)
    requires |stem| > 0 && stem[0] != '.' && '/' !in stem
    requires |ext| > 0 && ext[0] == '.' && '.' !in ext[1..] && '/' !in ext
    ensures SplitExt(stem + ext) == (stem, ext)
  {
    var p := stem + ext;
    assert p[|stem|] == '.';
    forall j | |stem| < j < |p| ensures p[j] != '.' {
      assert p[j] == ext[1..][j - |stem| - 1];
    }
    assert LastIndexOf(p, '.') == |stem|;
    assert forall j :: 0 <= j < |p| ==> p[j] != '/';
    assert LastIndexOf(p, '/') == -1;
    assert p[0] != '.';
    assert p[..|stem|] == stem && p[|stem|..] == ext;
  }

  /** s.split(".")[-1]: the text after the last ".", or all of s. */
  function LastDotField(s: string): (r: string)
    ensures '.' !in r
    ensures '.' !in s ==> r == s
    ensures '.' in s ==> exists k :: 0 <= k < |s| && s[k] == '.' && r == s[k + 1..]
  {
    var i := LastIndexOf(s, '.');
    s[i + 1..]
  }
}
