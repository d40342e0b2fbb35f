/** Whitespace trimming of slot titles: the request validator trims the
    title before its emptiness check and the schema trims it again when the
    title is stored. */
module Text {

  /** The whitespace characters the trim removes (JavaScript's `\s`,
      restricted to the ASCII controls, the space, NBSP and the BOM). */
  predicate IsSpace(c: char) {
    c == ' ' || c == '\t' || c == '\n' || c == '\r' || c == '\U{B}'
    || c == '\U{C}' || c == '\U{A0}' || c == '\U{FEFF}'
  }

  predicate AllSpace(s: string) {
    forall i :: 0 <= i < |s| ==> IsSpace(s[i])
  }

  /** A string with no whitespace at either end. */
  predicate Trimmed(s: string) {
    s == [] || (!IsSpace(s[0]) && !IsSpace(s[|s| - 1]))
  }

  /** Drops leading whitespace: the result is a suffix of `s`, everything
      dropped is whitespace, and it does not start with whitespace. */
  function TrimStart(s: string): (r: string)
    ensures |r| <= |s| && r == s[|s| - |r|..]
    ensures forall i :: 0 <= i < |s| - |r| ==> IsSpace(s[i])
    ensures r == [] || !IsSpace(r[0])
  {
    if |s| > 0 && IsSpace(s[0]) then TrimStart(s[1..]) else s
  }

  /** Drops trailing whitespace: the result is a prefix of `s`, everything
      dropped is whitespace, and it does not end with whitespace. */
  function TrimEnd(s: string): (r: string)
    ensures |r| <= |s| && r == s[..|r|]
    ensures forall i :: |r| <= i < |s| ==> IsSpace(s[i])
    ensures r == [] || !IsSpace(r[|r| - 1])
  {
    if |s| > 0 && IsSpace(s[|s| - 1]) then TrimEnd(s[..|s| - 1]) else s
  }

  /** Removes whitespace at both ends. The result is the slice `s[a..b]`
      with only whitespace outside it, and it is itself trimmed. */
  function Trim(s: string): (r: string)
    ensures Trimmed(r)
    ensures exists a, b :: 0 <= a <= b <= |s| && r == s[a..b]
                           && AllSpace(s[..a]) && AllSpace(s[b..])
  {
    var t := TrimStart(s);
    var r := TrimEnd(t);
    var a := |s| - |t|;
    var b := a + |r|;
    assert r == s[a..b];
    assert AllSpace(s[..a]);
    assert AllSpace(s[b..]) by {
      forall i | 0 <= i < |s| - b ensures IsSpace(s[b..][i]) {
        assert s[b..][i] == t[|r| + i];
      }
    }
    r
  }

  /** A title survives trimming exactly when it holds a non-space character. */
  lemma TrimEmptyIffAllSpace(s: string)
    ensures Trim(s) == [] <==> AllSpace(s)
  {
    var t := TrimStart(s);
    var k := |s| - |t|;
    assert Trim(s) == TrimEnd(t);
    assert t != [] ==> t[0] == s[k];
    forall i | k <= i < |s| ensures s[i] == t[i - k] {
    }
  }

  /** Trimming an already trimmed string changes nothing. */
  lemma TrimmedIsFixed(s: string)
    requires Trimmed(s)
    ensures Trim(s) == s
  {
    assert TrimStart(s) == s;
    assert TrimEnd(s) == s;
  }

  /** Trimming is idempotent, so the schema's second trim of an already
      trimmed title stores it unchanged. */
  lemma TrimIdempotent(s: string)
    ensures Trim(Trim(s)) == Trim(s)
  {
    TrimmedIsFixed(Trim(s));
  }
}
