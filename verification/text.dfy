/** Whitespace and `String.prototype.trim` as the chat client uses them:
    `sendMessage` only asks whether the trimmed text is empty. */
module Text {

  /** The characters ECMAScript's `trim` strips: the WhiteSpace production
      (tab, vertical tab, form feed, space, no-break space, byte-order mark and
      the Unicode space separators) and the LineTerminator production. */
  predicate IsWhitespace(c: char) {
    || c == '\t' || c == '\n' || c == '\U{B}' || c == '\U{C}' || c == '\r'
    || c == ' ' || c == '\U{A0}' || c == '\U{1680}'
    || ('\U{2000}' <= c <= '\U{200A}')
    || c == '\U{2028}' || c == '\U{2029}' || c == '\U{202F}' || c == '\U{205F}'
    || c == '\U{3000}' || c == '\U{FEFF}'
  }

  /** Every character of `s` is whitespace (the empty string included). */
  predicate Blank(s: string) {
    forall i :: 0 <= i < |s| ==> IsWhitespace(s[i])
  }

  /** Drops the leading whitespace. */
  function TrimStart(s: string): (r: string)
    ensures |r| <= |s|
    decreases |s|
  {
    if |s| > 0 && IsWhitespace(s[0]) then TrimStart(s[1..]) else s
  }

  /** Drops the trailing whitespace. */
  function TrimEnd(s: string): (r: string)
    ensures |r| <= |s|
    decreases |s|
  {
    if |s| > 0 && IsWhitespace(s[|s| - 1]) then TrimEnd(s[..|s| - 1]) else s
  }

  /** `s.trim()`. */
  function Trim(s: string): (r: string)
    ensures |r| <= |s|
  {
    TrimEnd(TrimStart(s))
  }

  /** `TrimStart` yields a suffix of its input that does not start with
      whitespace, and everything it dropped was whitespace. */
  lemma {:induction false} TrimStartSpec(s: string)
    ensures var r := TrimStart(s);
      && r == s[|s| - |r|..]
      && (r == [] || !IsWhitespace(r[0]))
      && forall i :: 0 <= i < |s| - |r| ==> IsWhitespace(s[i])
    decreases |s|
  {
    if |s| > 0 && IsWhitespace(s[0]) {
      TrimStartSpec(s[1..]);
    }
  }

  /** `TrimEnd` yields a prefix of its input that does not end with
      whitespace, and everything it dropped was whitespace. */
  lemma {:induction false} TrimEndSpec(s: string)
    ensures var r := TrimEnd(s);
      && r == s[..|r|]
      && (r == [] || !IsWhitespace(r[|r| - 1]))
      && forall i :: |r| <= i < |s| ==> IsWhitespace(s[i])
    decreases |s|
  {
    if |s| > 0 && IsWhitespace(s[|s| - 1]) {
      TrimEndSpec(s[..|s| - 1]);
    }
  }

  /** `Trim` keeps the piece of its input between the leading and the
      trailing whitespace: that piece neither starts nor ends with whitespace,
      and what is cut from either side is blank. */
  lemma TrimSpec(s: string)
    ensures var r, k := Trim(s), |s| - |TrimStart(s)|;
      && (r == [] || (!IsWhitespace(r[0]) && !IsWhitespace(r[|r| - 1])))
      && k + |r| <= |s| && r == s[k..k + |r|]
      && Blank(s[..k]) && Blank(s[k + |r|..])
  {
    var t := TrimStart(s);
    TrimStartSpec(s);
    TrimEndSpec(t);
    var r := Trim(s);
    var k := |s| - |t|;
    assert s[k..] == t;
    assert s[k + |r|..] == t[|r|..];
  }

  /** The send guard `!text.trim()` holds exactly for blank text. */
  lemma TrimEmptyIffBlank(s: string)
    ensures Trim(s) == [] <==> Blank(s)
  {
    TrimSpec(s);
    var r, k := Trim(s), |s| - |TrimStart(s)|;
    if r == [] {
      assert s == s[..k] + s[k..];
    } else {
      assert s[k] == r[0];
    }
  }
}
