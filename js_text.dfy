/** ECMAScript's String.prototype.trim, used by the locator to compare text content with its label. */
module JsText {

  /** The characters trim removes: ECMAScript's WhiteSpace and LineTerminator code points. */
  predicate IsTrimmable(c: char) {
    c == '\U{9}' || c == '\U{A}' || c == '\U{B}' || c == '\U{C}' || c == '\U{D}' || c == ' ' ||
    c == '\U{A0}' || c == '\U{1680}' || ('\U{2000}' <= c <= '\U{200A}') ||
    c == '\U{2028}' || c == '\U{2029}' || c == '\U{202F}' || c == '\U{205F}' ||
    c == '\U{3000}' || c == '\U{FEFF}'
  }

  predicate AllTrimmable(s: string) {
    forall i :: 0 <= i < |s| ==> IsTrimmable(s[i])
  }

  /** `s` without its leading white space: a suffix of `s` that does not start with white space. */
  function TrimStart(s: string): (r: string)
    ensures |r| <= |s| && r == s[|s| - |r|..]
    ensures r != [] ==> !IsTrimmable(r[0])
  {
    if s != [] && IsTrimmable(s[0]) then TrimStart(s[1..]) else s
  }

  /** `s` without its trailing white space: a prefix of `s` that does not end with white space. */
  function TrimEnd(s: string): (r: string)
    ensures |r| <= |s| && r == s[..|r|]
    ensures r != [] ==> !IsTrimmable(r[|r| - 1])
  {
    if s != [] && IsTrimmable(s[|s| - 1]) then TrimEnd(s[..|s| - 1]) else s
  }

  /** String.prototype.trim: an infix of `s` with no white space at either end. */
  function Trim(s: string): (r: string)
    ensures |r| <= |s|
    ensures r != [] ==> !IsTrimmable(r[0]) && !IsTrimmable(r[|r| - 1])
  {
    TrimEnd(TrimStart(s))
  }

  /** Leading white space does not change what TrimStart keeps. */
  lemma {:induction false} TrimStartSkips(pad: string, s: string)
    requires AllTrimmable(pad)
    ensures TrimStart(pad + s) == TrimStart(s)
  {
    if pad != [] {
      var t := pad + s;
      assert t[0] == pad[0] && IsTrimmable(pad[0]);
      assert t[1..] == pad[1..] + s;
      assert AllTrimmable(pad[1..]) by {
        forall i | 0 <= i < |pad| - 1 ensures IsTrimmable(pad[1..][i]) {
          assert pad[1..][i] == pad[i + 1];
        }
      }
      TrimStartSkips(pad[1..], s);
    } else {
      assert pad + s == s;
    }
  }

  /** Trailing white space does not change what TrimEnd keeps. */
  lemma {:induction false} TrimEndSkips(s: string, pad: string)
    requires AllTrimmable(pad)
    ensures TrimEnd(s + pad) == TrimEnd(s)
  {
    if pad != [] {
      var t := s + pad;
      var n := |pad| - 1;
      assert t[|t| - 1] == pad[n] && IsTrimmable(pad[n]);
      assert t[..|t| - 1] == s + pad[..n];
      assert AllTrimmable(pad[..n]) by {
        forall i | 0 <= i < n ensures IsTrimmable(pad[..n][i]) {
          assert pad[..n][i] == pad[i];
        }
      }
      TrimEndSkips(s, pad[..n]);
    } else {
      assert s + pad == s;
    }
  }

  /** Trim recovers a text from any white-space padding around it: the partner of Trim's contract. */
  lemma TrimPadded(pre: string, core: string, post: string)
    requires AllTrimmable(pre) && AllTrimmable(post)
    requires core != [] ==> !IsTrimmable(core[0]) && !IsTrimmable(core[|core| - 1])
    ensures Trim(pre + core + post) == core
  {
    assert pre + core + post == pre + (core + post);
    TrimStartSkips(pre, core + post);
    if core == [] {
      assert core + post == post + [];
      TrimStartSkips(post, []);
    } else {
      assert (core + post)[0] == core[0];
      assert TrimStart(core + post) == core + post;
      TrimEndSkips(core, post);
    }
  }

  /** Trimming twice trims nothing more. */
  lemma TrimIdempotent(s: string)
    ensures Trim(Trim(s)) == Trim(s)
  {
    var r := Trim(s);
    assert TrimStart(r) == r;
    assert TrimEnd(r) == r;
  }
}
