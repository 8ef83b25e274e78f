/** String helpers used by the static-asset resolver: suffix tests and the
    path-traversal guard, plus the conversion of ASCII text to bytes. */
module Text {
  import opened Types

  /** `s` ends with `suffix` (the component's `ends_with`). */
  predicate EndsWith(s: string, suffix: string)
  {
    |s| >= |suffix| && s[|s| - |suffix|..] == suffix
  }

  /** Appending a suffix makes a string end with it. */
  lemma EndsWithAppend(p: string, suffix: string)
    ensures EndsWith(p + suffix, suffix)
  {
    assert (p + suffix)[|p|..] == suffix;
  }

  /** A string that ends with `suffix` is its prefix followed by `suffix`. */
  lemma EndsWithSplit(s: string, suffix: string)
    requires EndsWith(s, suffix)
    ensures s == s[..|s| - |suffix|] + suffix
  {
  }

  /** Whether `s` ends with a suffix no longer than `q` depends on `q` alone
      once `q` is the tail of `s`. */
  lemma EndsWithTail(p: string, q: string, suffix: string)
    requires |suffix| <= |q|
    ensures EndsWith(p + q, suffix) <==> EndsWith(q, suffix)
  {
    var s := p + q;
    assert s[|s| - |suffix|..] == q[|q| - |suffix|..];
  }

  /** The two-character sequence ".." occurs at position `i` of `s`. */
  ghost predicate DotDotAt(s: string, i: int)
  {
    0 <= i && i + 1 < |s| && s[i] == '.' && s[i + 1] == '.'
  }

  /** The path-traversal guard `has_dotdot`: ".." occurs anywhere in `s`,
      including inside a segment such as "/a..b". */
  function HasDotDot(s: string): (r: bool)
    ensures r <==> exists i :: DotDotAt(s, i)
  {
    if |s| < 2 then false
    else if s[0] == '.' && s[1] == '.' then
      assert DotDotAt(s, 0);
      true
    else
      var r := HasDotDot(s[1..]);
      if r then
        assert exists i :: DotDotAt(s, i) by {
          var i :| DotDotAt(s[1..], i);
          assert DotDotAt(s, i + 1);
        }
        true
      else
        assert forall i :: DotDotAt(s, i) ==> i > 0 && DotDotAt(s[1..], i - 1);
        false
  }

  /** The bytes of a text whose characters are all ASCII. */
  function Ascii(s: string): (b: bytes)
    requires forall i :: 0 <= i < |s| ==> s[i] as int < 128
    ensures |b| == |s|
    ensures forall i :: 0 <= i < |s| ==> b[i] as int == s[i] as int
  {
    seq(|s|, i requires 0 <= i < |s| => s[i] as int as byte)
  }
}
