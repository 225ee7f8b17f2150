/**
 * The two pieces of JavaScript string behaviour the message routes rely on:
 * String.prototype.trim (the empty-text guard of the send route) and the
 * default comparison of Array.prototype.sort (the conversation key).
 */
module JsText {

  /** The code points ECMAScript counts as WhiteSpace or LineTerminator, which trim removes. */
  predicate IsWhitespace(c: char)
  {
    || c == '\t' || c == '\n' || c == '\U{B}' || c == '\U{C}' || c == '\r' || c == ' '
    || c == '\U{A0}' || c == '\U{1680}' || ('\U{2000}' <= c <= '\U{200A}')
    || c == '\U{2028}' || c == '\U{2029}' || c == '\U{202F}' || c == '\U{205F}'
    || c == '\U{3000}' || c == '\U{FEFF}'
  }

  /** Every character of s is white space (vacuously true of the empty string). */
  predicate IsBlank(s: string)
  {
    forall i :: 0 <= i < |s| ==> IsWhitespace(s[i])
  }

  lemma BlankConcat(a: string, b: string)
    ensures IsBlank(a + b) <==> IsBlank(a) && IsBlank(b)
  {
    if IsBlank(a) && IsBlank(b) {
      forall i | 0 <= i < |a + b| ensures IsWhitespace((a + b)[i]) {
        if i < |a| {
          assert (a + b)[i] == a[i];
        } else {
          assert (a + b)[i] == b[i - |a|];
        }
      }
    }
    if IsBlank(a + b) {
      forall i | 0 <= i < |a| ensures IsWhitespace(a[i]) {
        assert (a + b)[i] == a[i];
      }
      forall i | 0 <= i < |b| ensures IsWhitespace(b[i]) {
        assert (a + b)[|a| + i] == b[i];
      }
    }
  }

  /**
   * Dropping one leading white-space character keeps the properties TrimStart
   * promises of its result.
   */
  lemma TrimStartStep(s: string, r: string)
    requires s != [] && IsWhitespace(s[0])
    requires |r| <= |s| - 1 && r == s[1..][|s| - 1 - |r|..]
    requires IsBlank(s[1..][..|s| - 1 - |r|])
    requires r == [] <==> IsBlank(s[1..])
    ensures r == s[|s| - |r|..]
    ensures IsBlank(s[..|s| - |r|])
    ensures r == [] <==> IsBlank(s)
  {
    assert s[1..][|s| - 1 - |r|..] == s[|s| - |r|..];
    assert s[..|s| - |r|] == [s[0]] + s[1..][..|s| - 1 - |r|];
    BlankConcat([s[0]], s[1..][..|s| - 1 - |r|]);
    BlankConcat([s[0]], s[1..]);
    assert [s[0]] + s[1..] == s;
  }

  /** s with its leading white space removed. */
  function TrimStart(s: string): (r: string)
    ensures |r| <= |s| && r == s[|s| - |r|..]
    ensures IsBlank(s[..|s| - |r|])
    ensures r != [] ==> !IsWhitespace(r[0])
    ensures r == [] <==> IsBlank(s)
  {
    if s != [] && IsWhitespace(s[0]) then
      var r := TrimStart(s[1..]);
      TrimStartStep(s, r);
      r
    else
      assert s[..0] == [];
      s
  }

  /**
   * Dropping one trailing white-space character keeps the properties TrimEnd
   * promises of its result.
   */
  lemma TrimEndStep(s: string, r: string)
    requires s != [] && IsWhitespace(s[|s| - 1])
    requires |r| <= |s| - 1 && r == s[..|s| - 1][..|r|]
    requires IsBlank(s[..|s| - 1][|r|..])
    requires r == [] <==> IsBlank(s[..|s| - 1])
    ensures r == s[..|r|]
    ensures IsBlank(s[|r|..])
    ensures r == [] <==> IsBlank(s)
  {
    var init := s[..|s| - 1];
    assert init[..|r|] == s[..|r|];
    assert s[|r|..] == init[|r|..] + [s[|s| - 1]];
    BlankConcat(init[|r|..], [s[|s| - 1]]);
    BlankConcat(init, [s[|s| - 1]]);
    assert init + [s[|s| - 1]] == s;
  }

  /** s with its trailing white space removed. */
  function TrimEnd(s: string): (r: string)
    ensures |r| <= |s| && r == s[..|r|]
    ensures IsBlank(s[|r|..])
    ensures r != [] ==> !IsWhitespace(r[|r| - 1])
    ensures r == [] <==> IsBlank(s)
  {
    if s != [] && IsWhitespace(s[|s| - 1]) then
      var r := TrimEnd(s[..|s| - 1]);
      TrimEndStep(s, r);
      r
    else
      assert s[|s|..] == [];
      s
  }

  /** Cutting a blank prefix and then a blank suffix leaves a contiguous piece of s. */
  lemma TrimPiece(s: string, t: string, r: string)
    requires |t| <= |s| && t == s[|s| - |t|..] && IsBlank(s[..|s| - |t|])
    requires t != [] ==> !IsWhitespace(t[0])
    requires t == [] <==> IsBlank(s)
    requires |r| <= |t| && r == t[..|r|] && IsBlank(t[|r|..])
    requires r == [] <==> IsBlank(t)
    ensures exists i :: 0 <= i <= |s| - |r| && r == s[i..i + |r|] && IsBlank(s[..i]) && IsBlank(s[i + |r|..])
    ensures r != [] ==> !IsWhitespace(r[0])
    ensures r == [] <==> IsBlank(s)
  {
    var i := |s| - |t|;
    assert s[i..i + |r|] == r;
    assert s[i + |r|..] == t[|r|..];
    if r != [] {
      assert r[0] == t[0];
    }
    if t != [] {
      assert !IsBlank(t);
    }
  }

  /**
   * String.prototype.trim: the result is a contiguous piece of s with only
   * white space cut away on either side, and it neither starts nor ends with
   * white space. It is empty exactly when s is blank.
   */
  function Trim(s: string): (r: string)
    ensures |r| <= |s|
    ensures exists i :: 0 <= i <= |s| - |r| && r == s[i..i + |r|] && IsBlank(s[..i]) && IsBlank(s[i + |r|..])
    ensures r != [] ==> !IsWhitespace(r[0]) && !IsWhitespace(r[|r| - 1])
    ensures r == [] <==> IsBlank(s)
  {
    var t := TrimStart(s);
    var r := TrimEnd(t);
    TrimPiece(s, t, r);
    r
  }

  /**
   * `a` sorts no later than `b` under the default comparison of
   * Array.prototype.sort: lexicographic order on the characters.
   */
  predicate LexLeq(a: string, b: string)
    ensures a <= b ==> LexLeq(a, b)
    ensures b < a ==> !LexLeq(a, b)
    ensures forall k :: 0 <= k < |a| && k < |b| && a[..k] == b[..k] && a[k] != b[k] ==>
      (LexLeq(a, b) <==> a[k] < b[k])
  {
    if a == [] then true
    else if b == [] then false
    else if a[0] != b[0] then
      assert forall k :: 0 < k <= |a| && k <= |b| ==> a[..k][0] == a[0] && b[..k][0] == b[0];
      a[0] < b[0]
    else
      assert forall k :: 0 < k < |a| && k < |b| && a[..k] == b[..k] ==>
        a[1..][..k - 1] == b[1..][..k - 1] && a[1..][k - 1] == a[k] && b[1..][k - 1] == b[k];
      assert a <= b ==> a[1..] <= b[1..];
      assert b < a ==> b[1..] < a[1..];
      LexLeq(a[1..], b[1..])
  }

  /** Any two strings are ordered one way or the other. */
  lemma {:induction false} LexLeqTotal(a: string, b: string)
    ensures LexLeq(a, b) || LexLeq(b, a)
  {
    if a != [] && b != [] && a[0] == b[0] {
      LexLeqTotal(a[1..], b[1..]);
    }
  }

  /** Two strings that sort no later than each other are equal. */
  lemma {:induction false} LexLeqAntisymmetric(a: string, b: string)
    requires LexLeq(a, b) && LexLeq(b, a)
    ensures a == b
  {
    if a != [] && b != [] {
      LexLeqAntisymmetric(a[1..], b[1..]);
      assert a == [a[0]] + a[1..];
      assert b == [b[0]] + b[1..];
    }
  }
}
