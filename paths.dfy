/**
 * `os.path.splitext` as POSIX Python computes it: the extension starts at the
 * last `'.'` after the last `'/'`, unless only dots precede that `'.'` within
 * the final path component (so `".py"` and `"..py"` have no extension).
 */
module Paths {

  /** `s.rfind(c)`: the last index holding `c`, or -1. */
  function RFind(s: string, c: char): (k: int)
    ensures -1 <= k < |s|
    ensures k >= 0 ==> s[k] == c
    ensures forall j :: k < j < |s| ==> s[j] != c
  {
    if s == [] then -1
    else if s[|s| - 1] == c then |s| - 1
    else RFind(s[..|s| - 1], c)
  }

  /** `os.path.splitext(p)` as the pair `(root, ext)`. */
  function SplitExt(p: string): (r: (string, string))
    ensures r.0 + r.1 == p
    ensures r.1 == "" || (r.1[0] == '.' && '.' !in r.1[1..] && '/' !in r.1)
  {
    var sepIndex := RFind(p, '/');
    var dotIndex := RFind(p, '.');
    if dotIndex > sepIndex && exists i :: sepIndex < i < dotIndex && p[i] != '.' then
      assert p[dotIndex..][1..] == p[dotIndex + 1..];
      (p[..dotIndex], p[dotIndex..])
    else
      (p, "")
  }

  /** `os.path.splitext(p)[1]`. */
  function Extension(p: string): string
  {
    SplitExt(p).1
  }

  /** A name without a dot has no extension. */
  lemma NoDotNoExtension(p: string)
    requires '.' !in p
    ensures Extension(p) == ""
  {
    assert RFind(p, '.') == -1;
  }

  /** A name made of dots followed by one dotted word, such as `".py"`, has no extension. */
  lemma LeadingDotNoExtension(word: string)
    requires '.' !in word && '/' !in word
    ensures Extension("." + word) == ""
  {
    var p := "." + word;
    assert p[0] == '.';
    assert forall j :: 0 < j < |p| ==> p[j] == word[j - 1];
    assert RFind(p, '.') == 0;
  }

  /** A stem that ends in a character other than `'.'` or `'/'`, followed by `ext`, has extension `ext`. */
  lemma {:induction false} ExtensionOfSuffix(stem: string, ext: string)
    requires |stem| > 0 && stem[|stem| - 1] != '.' && stem[|stem| - 1] != '/'
    requires |ext| > 0 && ext[0] == '.' && '.' !in ext[1..] && '/' !in ext
    ensures Extension(stem + ext) == ext
  {
    var p := stem + ext;
    var d := |stem|;
    assert p[d] == '.';
    assert forall j :: d < j < |p| ==> p[j] == ext[1..][j - d - 1];
    assert forall j :: d < j < |p| ==> p[j] != '.';
    assert RFind(p, '.') == d;
    assert forall j :: d <= j < |p| ==> p[j] == ext[j - d];
    assert RFind(p, '/') < d - 1 by {
      assert p[d - 1] == stem[d - 1];
    }
    assert p[d - 1] != '.';
    assert p[d..] == ext;
  }
}
