/** Whitespace trimming as the clients do it before sending text anywhere:
    JavaScript's `String.prototype.trim` in the web client and Swift's
    `trimmingCharacters(in: .whitespacesAndNewlines)` in the mobile apps. */
module Text {

  /** The two platforms disagree on two characters: JavaScript strips the
      byte-order mark U+FEFF and keeps NEXT LINE U+0085; Swift does the reverse. */
  datatype Platform = JavaScript | Swift

  /** Space separators (Unicode category Zs), tab, and the line breaks
      LF, VT, FF, CR, LINE SEPARATOR and PARAGRAPH SEPARATOR. */
  predicate IsCommonSpace(c: char) {
    || c == ' ' || c == '\t' || c == '\n' || c == '\U{0B}' || c == '\U{0C}' || c == '\r'
    || c == '\U{A0}' || c == '\U{1680}' || ('\U{2000}' <= c <= '\U{200A}')
    || c == '\U{2028}' || c == '\U{2029}' || c == '\U{202F}' || c == '\U{205F}' || c == '\U{3000}'
  }

  predicate IsSpace(p: Platform, c: char) {
    || IsCommonSpace(c)
    || (p == JavaScript && c == '\U{FEFF}')
    || (p == Swift && c == '\U{85}')
  }

  /** Every character of `s` is whitespace (the empty string included). */
  predicate IsBlank(p: Platform, s: string) {
    forall k :: 0 <= k < |s| ==> IsSpace(p, s[k])
  }

  /** `s` without its leading whitespace: a suffix of `s` that starts with a
      non-space character, and everything dropped is whitespace. */
  function TrimStart(p: Platform, s: string): (r: string)
    ensures |r| <= |s| && r == s[|s| - |r|..]
    ensures forall k :: 0 <= k < |s| - |r| ==> IsSpace(p, s[k])
    ensures r == [] || !IsSpace(p, r[0])
  {
    if |s| > 0 && IsSpace(p, s[0]) then TrimStart(p, s[1..]) else s
  }

  /** `s` without its trailing whitespace: a prefix of `s` that ends with a
      non-space character, and everything dropped is whitespace. */
  function TrimEnd(p: Platform, s: string): (r: string)
    ensures |r| <= |s| && r == s[..|r|]
    ensures forall k :: |r| <= k < |s| ==> IsSpace(p, s[k])
    ensures r == [] || !IsSpace(p, r[|r| - 1])
  {
    if |s| > 0 && IsSpace(p, s[|s| - 1]) then TrimEnd(p, s[..|s| - 1]) else s
  }

  function Trim(p: Platform, s: string): (r: string)
    ensures r == [] || (!IsSpace(p, r[0]) && !IsSpace(p, r[|r| - 1]))
  {
    TrimEnd(p, TrimStart(p, s))
  }

  /** Trimming yields the empty string exactly when the input is blank:
      this is the "empty after trimming" guard of every client. */
  lemma TrimEmptyIffBlank(p: Platform, s: string)
    ensures Trim(p, s) == [] <==> IsBlank(p, s)
  {
    if Trim(p, s) == [] {
      assert |TrimStart(p, s)| == 0;
    }
  }

  /** Trimming drops only whitespace at the end: with `i` where the text
      kept by `TrimStart` begins, everything after the trimmed text is
      whitespace. */
  lemma TrimDropsOnlySpace(p: Platform, s: string)
    ensures var i := |s| - |TrimStart(p, s)|;
      forall k :: i + |Trim(p, s)| <= k < |s| ==> IsSpace(p, s[k])
  {
    var i := |s| - |TrimStart(p, s)|;
    var t := TrimStart(p, s);
    var r := TrimEnd(p, t);
    assert t == s[i..];
    forall k | i + |r| <= k < |s| ensures IsSpace(p, s[k]) {
      assert s[k] == t[k - i];
    }
  }

  /** Trimming twice is trimming once. */
  lemma TrimIdempotent(p: Platform, s: string)
    ensures Trim(p, Trim(p, s)) == Trim(p, s)
  {
    var r := Trim(p, s);
    if r != [] {
      assert TrimStart(p, r) == r;
      assert TrimEnd(p, r) == r;
    }
  }
}
