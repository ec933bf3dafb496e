/**
 * The pieces of JavaScript's string semantics that the contact pipeline relies on:
 * the white-space set shared by `String.prototype.trim` and the regular-expression
 * class `\s`, `trim()` itself, `.length` (UTF-16 code units), and a few search helpers
 * that the proofs use.
 */
module JsText {

  /** A code point that ECMAScript counts as WhiteSpace or LineTerminator. */
  predicate IsJsWhitespace(c: char) {
    var n := c as int;
    || 0x09 <= n <= 0x0D    // tab, line feed, vertical tab, form feed, carriage return
    || n == 0x20 || n == 0xA0 || n == 0x1680
    || 0x2000 <= n <= 0x200A
    || n == 0x2028 || n == 0x2029 || n == 0x202F || n == 0x205F
    || n == 0x3000 || n == 0xFEFF
  }

  /** Every character of `s` is white space (true of the empty string). */
  predicate Blank(s: string) {
    forall k | 0 <= k < |s| :: IsJsWhitespace(s[k])
  }

  /** `s.trimStart()`: drops the leading white space. */
  function TrimStart(s: string): (r: string)
    ensures |r| <= |s|
  {
    if s != [] && IsJsWhitespace(s[0]) then TrimStart(s[1..]) else s
  }

  /** What `trimStart()` drops is white space, and it stops at the first other character. */
  lemma {:induction false} TrimStartSpec(s: string)
    ensures var r := TrimStart(s);
      && r == s[|s| - |r|..]
      && Blank(s[..|s| - |r|])
      && (r == [] || !IsJsWhitespace(r[0]))
  {
    if s != [] && IsJsWhitespace(s[0]) {
      TrimStartSpec(s[1..]);
      var r := TrimStart(s);
      assert s[..|s| - |r|] == [s[0]] + s[1..][..|s| - 1 - |r|];
    }
  }

  /** `s.trimEnd()`: drops the trailing white space. */
  function TrimEnd(s: string): (r: string)
    ensures |r| <= |s|
  {
    if s != [] && IsJsWhitespace(s[|s| - 1]) then TrimEnd(s[..|s| - 1]) else s
  }

  /** What `trimEnd()` drops is white space, and it stops at the last other character. */
  lemma {:induction false} TrimEndSpec(s: string)
    ensures var r := TrimEnd(s);
      && r == s[..|r|]
      && Blank(s[|r|..])
      && (r == [] || !IsJsWhitespace(r[|r| - 1]))
  {
    if s != [] && IsJsWhitespace(s[|s| - 1]) {
      TrimEndSpec(s[..|s| - 1]);
      var r := TrimEnd(s);
      assert s[|r|..] == s[..|s| - 1][|r|..] + [s[|s| - 1]];
    }
  }

  /**
   * `s.trim()`: the middle slice of `s` left once the white space at both ends is
   * removed; when it is not empty it starts and ends with a character that is not
   * white space.
   */
  function Trim(s: string): (r: string)
    ensures |r| <= |s|
    ensures r != [] ==> !IsJsWhitespace(r[0]) && !IsJsWhitespace(r[|r| - 1])
  {
    TrimStartSpec(s);
    TrimEndSpec(TrimStart(s));
    TrimEnd(TrimStart(s))
  }

  /** `s.trim()` is empty exactly when `s` is blank. */
  lemma TrimEmptyIffBlank(s: string)
    ensures Trim(s) == [] <==> Blank(s)
  {
    TrimStartSpec(s);
    var t := TrimStart(s);
    TrimEndSpec(t);
    var r := TrimEnd(t);
    assert s[|s| - |t| + |r|..] == t[|r|..];
  }

  /** What `trim()` keeps is a slice of `s` with only white space on either side. */
  lemma TrimIsMiddleSlice(s: string)
    ensures exists i | 0 <= i <= |s| - |Trim(s)| ::
              Trim(s) == s[i..i + |Trim(s)|] && Blank(s[..i]) && Blank(s[i + |Trim(s)|..])
  {
    TrimStartSpec(s);
    var t := TrimStart(s);
    TrimEndSpec(t);
    var r := TrimEnd(t);
    var i := |s| - |t|;
    assert r == Trim(s);
    assert r == s[i..i + |r|];
    assert s[i + |r|..] == t[|r|..];
    assert Blank(s[..i]) && Blank(s[i + |r|..]);
  }

  /** Trimming a string with no white space at either end leaves it as it is. */
  lemma TrimUnpadded(s: string)
    requires s != [] && !IsJsWhitespace(s[0]) && !IsJsWhitespace(s[|s| - 1])
    ensures Trim(s) == s
  {
    assert TrimStart(s) == s;
    assert TrimEnd(s) == s;
  }

  /** Trailing white space is dropped by `trim()` and changes nothing else. */
  lemma {:induction false} TrimEndIgnoresPadding(s: string, pad: string)
    requires Blank(pad)
    ensures TrimEnd(s + pad) == TrimEnd(s)
    decreases |pad|
  {
    if pad != [] {
      var shorter := pad[..|pad| - 1];
      assert IsJsWhitespace(pad[|pad| - 1]);
      assert (s + pad)[..|s + pad| - 1] == s + shorter;
      TrimEndIgnoresPadding(s, shorter);
    } else {
      assert s + pad == s;
    }
  }

  /** A string that is not blank keeps its trimmed text when white space is appended. */
  lemma {:induction false} TrimIgnoresPadding(s: string, pad: string)
    requires !Blank(s) && Blank(pad)
    ensures Trim(s + pad) == Trim(s)
    decreases |s|
  {
    if IsJsWhitespace(s[0]) {
      assert (s + pad)[1..] == s[1..] + pad;
      assert !Blank(s[1..]) by {
        var k :| 0 <= k < |s| && !IsJsWhitespace(s[k]);
        assert s[1..][k - 1] == s[k];
      }
      TrimIgnoresPadding(s[1..], pad);
    } else {
      assert TrimStart(s + pad) == s + pad;
      assert TrimStart(s) == s;
      TrimEndIgnoresPadding(s, pad);
    }
  }

  /** The value of `s.length`: code points above U+FFFF take two UTF-16 code units. */
  function Utf16Length(s: string): (n: nat)
    ensures |s| <= n <= 2 * |s|
  {
    if s == [] then 0
    else (if s[0] as int < 0x1_0000 then 1 else 2) + Utf16Length(s[1..])
  }

  /** `.length` counts code points exactly when every one of them is in the BMP. */
  lemma {:induction false} Utf16LengthOfBmp(s: string)
    ensures Utf16Length(s) == |s| <==> forall k | 0 <= k < |s| :: s[k] as int < 0x1_0000
  {
    if s != [] {
      Utf16LengthOfBmp(s[1..]);
      assert forall k | 1 <= k < |s| :: s[k] == s[1..][k - 1];
    }
  }

  /** `.length` adds up over concatenation. */
  lemma {:induction false} Utf16LengthAppend(a: string, b: string)
    ensures Utf16Length(a + b) == Utf16Length(a) + Utf16Length(b)
  {
    if a != [] {
      assert (a + b)[1..] == a[1..] + b;
      Utf16LengthAppend(a[1..], b);
    } else {
      assert a + b == b;
    }
  }

  /** The number of occurrences of `c` in `s`. */
  function CountOf(s: string, c: char): (n: nat)
    ensures n <= |s|
    ensures n == 0 <==> c !in s
  {
    if s == [] then 0
    else
      var rest := CountOf(s[1..], c);
      assert c in s <==> s[0] == c || c in s[1..];
      (if s[0] == c then 1 else 0) + rest
  }

  /** Occurrences add up over concatenation. */
  lemma {:induction false} CountOfAppend(a: string, b: string, c: char)
    ensures CountOf(a + b, c) == CountOf(a, c) + CountOf(b, c)
  {
    if a != [] {
      assert (a + b)[1..] == a[1..] + b;
      CountOfAppend(a[1..], b, c);
    } else {
      assert a + b == b;
    }
  }

  /** The index of the first `c` in `s`, or `|s|` when there is none. */
  function FirstIndexOf(s: string, c: char): (i: nat)
    ensures i <= |s|
    ensures i < |s| ==> s[i] == c
    ensures c !in s[..i]
  {
    if s == [] then 0
    else if s[0] == c then 0
    else
      var i := FirstIndexOf(s[1..], c);
      assert s[..i + 1] == [s[0]] + s[1..][..i];
      i + 1
  }

  /** The first `c` is found right after a prefix that has none. */
  lemma FirstIndexAfter(a: string, c: char, b: string)
    requires c !in a
    ensures FirstIndexOf(a + [c] + b, c) == |a|
  {
    var s := a + [c] + b;
    assert s[|a|] == c;
  }

  /** `s` starts with `prefix`. */
  predicate StartsWith(s: string, prefix: string) {
    |prefix| <= |s| && s[..|prefix|] == prefix
  }

}
