/**
 The two string operations the task list depends on: `String.prototype.trim`
 on the new-task input, and the text comparison behind the name sort.
 */
module Text {

  /**
   The characters `trim` removes: the ECMAScript WhiteSpace production
   (tab, vertical tab, form feed, space, no-break space, the byte order
   mark and the other Unicode space separators) together with the
   LineTerminator production (line feed, carriage return, line and
   paragraph separators). U+0009 to U+000D are tab, line feed, vertical
   tab, form feed and carriage return.
   */
  predicate IsWhitespace(c: char) {
    || '\t' <= c <= '\r'
    || c == ' ' || c == '\U{00A0}' || c == '\U{1680}'
    || '\U{2000}' <= c <= '\U{200A}'
    || c == '\U{2028}' || c == '\U{2029}' || c == '\U{202F}' || c == '\U{205F}'
    || c == '\U{3000}' || c == '\U{FEFF}'
  }

  /** Nothing but whitespace (including the empty string). */
  predicate Blank(s: string) {
    forall i :: 0 <= i < |s| ==> IsWhitespace(s[i])
  }

  /** Drops leading whitespace. */
  function TrimStart(s: string): (r: string)
    ensures |r| <= |s| && r == s[|s| - |r|..]
    ensures Blank(s[..|s| - |r|])
    ensures r != [] ==> !IsWhitespace(r[0])
    ensures r == [] <==> Blank(s)
  {
    if s != [] && IsWhitespace(s[0]) then
      var r := TrimStart(s[1..]);
      assert s[1..][|s| - 1 - |r|..] == s[|s| - |r|..];
      assert forall k :: 1 <= k < |s| - |r| ==> s[k] == s[1..][..|s| - 1 - |r|][k - 1];
      r
    else s
  }

  /** Drops trailing whitespace. */
  function TrimEnd(s: string): (r: string)
    ensures |r| <= |s| && r == s[..|r|]
    ensures Blank(s[|r|..])
    ensures r != [] ==> !IsWhitespace(r[|r| - 1])
    ensures r == [] <==> Blank(s)
  {
    if s != [] && IsWhitespace(s[|s| - 1]) then
      var r := TrimEnd(s[..|s| - 1]);
      assert s[..|s| - 1][..|r|] == s[..|r|];
      assert forall k :: |r| <= k < |s| - 1 ==> s[k] == s[..|s| - 1][|r|..][k - |r|];
      r
    else s
  }

  /** `r` is what remains of `s` after cutting whitespace-only runs from either end. */
  ghost predicate TrimmedFrom(r: string, s: string) {
    exists i :: 0 <= i <= |s| - |r| && r == s[i..i + |r|] && Blank(s[..i]) && Blank(s[i + |r|..])
  }

  lemma TrimmedFromAt(r: string, s: string, i: int)
    requires 0 <= i <= |s| - |r| && r == s[i..i + |r|] && Blank(s[..i]) && Blank(s[i + |r|..])
    ensures TrimmedFrom(r, s)
  {
  }

  /**
   `trim`: the longest infix of `s` that neither starts nor ends with
   whitespace, everything cut away on either side being whitespace.
   */
  function Trim(s: string): (r: string)
    ensures TrimmedFrom(r, s)
    ensures r != [] ==> !IsWhitespace(r[0]) && !IsWhitespace(r[|r| - 1])
    ensures r == [] <==> Blank(s)
  {
    TrimBothEndsInfix(s);
    TrimBothEndsBlank(s);
    TrimEnd(TrimStart(s))
  }

  lemma TrimBothEndsInfix(s: string)
    ensures TrimmedFrom(TrimEnd(TrimStart(s)), s)
  {
    var a := TrimStart(s);
    var r := TrimEnd(a);
    var i := |s| - |a|;
    assert a[..|r|] == s[i..i + |r|];
    assert s[i + |r|..] == a[|r|..];
    TrimmedFromAt(r, s, i);
  }

  lemma TrimBothEndsBlank(s: string)
    ensures TrimEnd(TrimStart(s)) == [] <==> Blank(s)
  {
    var a := TrimStart(s);
    if a != [] {
      assert !IsWhitespace(a[0]);
    }
  }

  lemma BlankConcat(x: string, y: string)
    ensures Blank(x + y) <==> Blank(x) && Blank(y)
  {
    if Blank(x + y) {
      forall k | 0 <= k < |x| ensures IsWhitespace(x[k]) {
        assert x[k] == (x + y)[k];
      }
      forall k | 0 <= k < |y| ensures IsWhitespace(y[k]) {
        assert y[k] == (x + y)[|x| + k];
      }
    }
  }

  /** Trimming an already trimmed string changes nothing. */
  lemma TrimIdempotent(s: string)
    ensures Trim(Trim(s)) == Trim(s)
  {
    var r := Trim(s);
    if r != [] {
      assert TrimStart(r) == r;
      assert TrimEnd(r) == r;
    }
  }

  /**
   Lexicographic comparison by code point: negative when `a` sorts first,
   positive when `b` does, zero only for equal strings.
   */
  function Compare(a: string, b: string): (r: int)
    ensures -1 <= r <= 1
    ensures r == 0 <==> a == b
  {
    if a == [] && b == [] then 0
    else if a == [] then -1
    else if b == [] then 1
    else if a[0] < b[0] then -1
    else if a[0] > b[0] then 1
    else
      assert a == [a[0]] + a[1..] && b == [b[0]] + b[1..];
      Compare(a[1..], b[1..])
  }

  /** Swapping the arguments negates the comparison. */
  lemma {:induction false} CompareAntisymmetric(a: string, b: string)
    ensures Compare(a, b) == -Compare(b, a)
  {
    if a != [] && b != [] && a[0] == b[0] {
      CompareAntisymmetric(a[1..], b[1..]);
    }
  }

  /** "Sorts no later than" is transitive. */
  lemma {:induction false} CompareTransitive(a: string, b: string, c: string)
    requires Compare(a, b) <= 0 && Compare(b, c) <= 0
    ensures Compare(a, c) <= 0
  {
    if a != [] && b != [] && c != [] && a[0] == b[0] && b[0] == c[0] {
      CompareTransitive(a[1..], b[1..], c[1..]);
    }
  }
}
