/**
 * `String.prototype.trim` as the editor uses it on every text field it
 * saves and on the WhatsApp number and message before building a link.
 */
module JsString {

  /**
   * The characters `trim` removes: ECMAScript's WhiteSpace (TAB, VT, FF,
   * ZWNBSP and every space separator of category Zs) and LineTerminator
   * (LF, CR, LS, PS).
   */
  predicate IsWhiteSpace(c: char) {
    || c == '\t' || c == '\n' || c == '\U{B}' || c == '\U{C}' || c == '\r'
    || c == ' ' || c == '\U{A0}' || c == '\U{1680}'
    || ('\U{2000}' <= c <= '\U{200A}')
    || c == '\U{2028}' || c == '\U{2029}' || c == '\U{202F}' || c == '\U{205F}'
    || c == '\U{3000}' || c == '\U{FEFF}'
  }

  ghost predicate AllWhiteSpace(s: string) {
    forall i :: 0 <= i < |s| ==> IsWhiteSpace(s[i])
  }

  /** `s` without its leading white space. */
  function TrimStart(s: string): string {
    if s != [] && IsWhiteSpace(s[0]) then TrimStart(s[1..]) else s
  }

  /** `s` without its trailing white space. */
  function TrimEnd(s: string): string {
    if s != [] && IsWhiteSpace(s[|s| - 1]) then TrimEnd(s[..|s| - 1]) else s
  }

  /** `s.trim()`. */
  function Trim(s: string): string {
    TrimEnd(TrimStart(s))
  }

  /** `TrimStart` drops a run of white space and keeps the rest, which does not start with white space. */
  lemma {:induction false} TrimStartSpec(s: string)
    ensures var r := TrimStart(s);
      && |r| <= |s| && r == s[|s| - |r|..]
      && AllWhiteSpace(s[..|s| - |r|])
      && (r == [] || !IsWhiteSpace(r[0]))
  {
    if s != [] && IsWhiteSpace(s[0]) {
      var rest := s[1..];
      TrimStartSpec(rest);
      var r := TrimStart(rest);
      assert s == [s[0]] + rest;
      assert r == s[|s| - |r|..];
      assert s[..|s| - |r|] == [s[0]] + rest[..|rest| - |r|];
    }
  }

  /** `TrimEnd` drops a run of white space at the end and keeps the rest, which does not end with white space. */
  lemma {:induction false} TrimEndSpec(s: string)
    ensures var r := TrimEnd(s);
      && |r| <= |s| && r == s[..|r|]
      && AllWhiteSpace(s[|r|..])
      && (r == [] || !IsWhiteSpace(r[|r| - 1]))
  {
    if s != [] && IsWhiteSpace(s[|s| - 1]) {
      var rest := s[..|s| - 1];
      TrimEndSpec(rest);
      var r := TrimEnd(rest);
      assert r == s[..|r|];
      assert s[|r|..] == rest[|r|..] + [s[|s| - 1]];
    }
  }

  /** A suffix `t` of `s` that starts at `n`, and a prefix `r` of `t`, cut `s` in three. */
  lemma SliceInThree(s: string, n: nat, t: string, r: string)
    requires n <= |s| && t == s[n..] && |r| <= |t| && r == t[..|r|]
    ensures n + |r| <= |s| && s == s[..n] + r + s[n + |r|..] && s[n + |r|..] == t[|r|..]
  {
    assert s == s[..n] + t;
    assert t == r + t[|r|..];
  }

  /** `trim` cuts `s` into the leading white space, the result and the trailing white space. */
  lemma TrimSplit(s: string)
    ensures |TrimStart(s)| <= |s|
    ensures var n, r := |s| - |TrimStart(s)|, Trim(s);
      && n + |r| <= |s| && s == s[..n] + r + s[n + |r|..]
      && AllWhiteSpace(s[..n]) && AllWhiteSpace(s[n + |r|..])
  {
    var t := TrimStart(s);
    var r := TrimEnd(t);
    TrimStartSpec(s);
    TrimEndSpec(t);
    SliceInThree(s, |s| - |t|, t, r);
  }

  /** The result of `trim` neither starts nor ends with white space. */
  lemma TrimEnds(s: string)
    ensures var r := Trim(s);
      r == [] || (!IsWhiteSpace(r[0]) && !IsWhiteSpace(r[|r| - 1]))
  {
    var t := TrimStart(s);
    TrimStartSpec(s);
    TrimEndSpec(t);
  }

  /**
   * What `trim` does: `s` is white space, then the result, then white
   * space, and the result neither starts nor ends with white space.
   */
  lemma TrimSpec(s: string)
    ensures var r := Trim(s);
      && (exists n :: 0 <= n && n + |r| <= |s| && s == s[..n] + r + s[n + |r|..]
                     && AllWhiteSpace(s[..n]) && AllWhiteSpace(s[n + |r|..]))
      && (r == [] || (!IsWhiteSpace(r[0]) && !IsWhiteSpace(r[|r| - 1])))
  {
    TrimSplit(s);
    TrimEnds(s);
    var n := |s| - |TrimStart(s)|;
    assert 0 <= n;
  }

  /** A string with no white space at either end is left alone by `trim`. */
  lemma TrimKeeps(s: string)
    requires s == [] || (!IsWhiteSpace(s[0]) && !IsWhiteSpace(s[|s| - 1]))
    ensures Trim(s) == s
  {
  }

  /** Trimming twice is trimming once. */
  lemma TrimIdempotent(s: string)
    ensures Trim(Trim(s)) == Trim(s)
  {
    TrimSpec(s);
    TrimKeeps(Trim(s));
  }
}
