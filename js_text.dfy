/** The two JavaScript string facilities the client forms rely on:
    `String.prototype.length`, which counts UTF-16 code units, and the
    `\S` class of regular expressions, whose complement is the ECMAScript
    WhiteSpace and LineTerminator characters. A Dafny `char` is a Unicode
    scalar value. */
module JsText {
  import opened Common

  /** JavaScript truthiness of a string that may be `null` or missing:
      present and not empty. */
  predicate Truthy(s: Option<string>) {
    s.Some? && s.value != ""
  }

  /** The UTF-16 code units of one character: two for a character outside
      the Basic Multilingual Plane, one otherwise. */
  function CodeUnits(c: char): nat {
    if c as int >= 0x1_0000 then 2 else 1
  }

  /** `s.length` in JavaScript. */
  function Utf16Length(s: string): (r: nat)
    ensures |s| <= r <= 2 * |s|
    ensures r == 0 <==> s == []
  {
    if s == [] then 0 else Utf16Length(s[..|s| - 1]) + CodeUnits(s[|s| - 1])
  }

  predicate InBasicPlane(c: char) {
    c as int < 0x1_0000
  }

  /** `length` counts characters exactly when no character needs a surrogate
      pair; otherwise it counts more. */
  lemma {:induction false} Utf16LengthCountsChars(s: string)
    ensures Utf16Length(s) == |s| <==> forall i :: 0 <= i < |s| ==> InBasicPlane(s[i])
  {
    if s != [] {
      var n := |s| - 1;
      Utf16LengthCountsChars(s[..n]);
      assert forall i :: 0 <= i < n ==> s[..n][i] == s[i];
    }
  }

  /** The characters `\s` matches: TAB, LF, VT, FF, CR, SPACE, NO-BREAK SPACE,
      OGHAM SPACE MARK, the spaces U+2000 to U+200A, LINE SEPARATOR,
      PARAGRAPH SEPARATOR, NARROW NO-BREAK SPACE, MEDIUM MATHEMATICAL SPACE,
      IDEOGRAPHIC SPACE and the byte order mark. */
  predicate IsJsWhitespace(c: char) {
    var n := c as int;
    || 0x09 <= n <= 0x0D
    || n == 0x20 || n == 0xA0 || n == 0x1680
    || 0x2000 <= n <= 0x200A
    || n == 0x2028 || n == 0x2029 || n == 0x202F || n == 0x205F
    || n == 0x3000 || n == 0xFEFF
  }

  /** What `\S+` matches: a non-empty run of characters none of which is
      white space. */
  predicate NonSpaceRun(s: string) {
    |s| > 0 && forall i :: 0 <= i < |s| ==> !IsJsWhitespace(s[i])
  }

  /** `/\S+@\S+\.\S+/.test(s)`: the pattern is not anchored, so it holds when
      some substring `s[a..e]` consists of a run, `@`, a run, `.`, a run. */
  ghost predicate EmailPatternMatches(s: string) {
    exists a, b, c, e :: EmailMatchAt(s, a, b, c, e)
  }

  /** The pattern matches `s[a..e]`, with its `@` at `b` and its `.` at `c`. */
  ghost predicate EmailMatchAt(s: string, a: int, b: int, c: int, e: int) {
    && 0 <= a < b && b + 1 < c && c + 1 < e <= |s|
    && s[b] == '@' && s[c] == '.'
    && NonSpaceRun(s[a..b]) && NonSpaceRun(s[b + 1..c]) && NonSpaceRun(s[c + 1..e])
  }

  /** A direct test: an `@` that is not the first character and a `.` at
      least two places after it, with no white space from the character
      before the `@` to the character after the `.`. */
  function EmailPatternTest(s: string): bool {
    exists b, c | 0 < b < |s| && b + 2 <= c < |s| - 1 ::
      && s[b] == '@' && s[c] == '.'
      && forall k | b - 1 <= k < c + 2 :: !IsJsWhitespace(s[k])
  }

  /** The direct test decides the regular expression: every match shrinks to
      one whose outer runs are a single character, and that shorter match is
      what the test looks for. */
  lemma EmailPatternTestDecides(s: string)
    ensures EmailPatternTest(s) <==> EmailPatternMatches(s)
  {
    if EmailPatternMatches(s) {
      var a, b, c, e :| EmailMatchAt(s, a, b, c, e);
      forall k | b - 1 <= k < c + 2 ensures !IsJsWhitespace(s[k]) {
        if k < b {
          assert s[a..b][k - a] == s[k];
        } else if b < k < c {
          assert s[b + 1..c][k - b - 1] == s[k];
        } else if k == c + 1 {
          assert s[c + 1..e][0] == s[k];
        }
      }
    }
    if EmailPatternTest(s) {
      var b, c :| && 0 < b < |s| && b + 2 <= c < |s| - 1
                  && s[b] == '@' && s[c] == '.'
                  && forall k | b - 1 <= k < c + 2 :: !IsJsWhitespace(s[k]);
      assert NonSpaceRun(s[b - 1..b]);
      assert NonSpaceRun(s[b + 1..c]);
      assert NonSpaceRun(s[c + 1..c + 2]);
      assert EmailMatchAt(s, b - 1, b, c, c + 2);
    }
  }

  /** Because the pattern is not anchored, text around a match never undoes
      it: `a@b.c` inside a longer string, spaces included, still passes. */
  lemma EmailPatternSurvivesContext(s: string, before: string, after: string)
    requires EmailPatternMatches(s)
    ensures EmailPatternMatches(before + s + after)
  {
    var a, b, c, e :| EmailMatchAt(s, a, b, c, e);
    var t := before + s + after;
    var d := |before|;
    assert t[d + a..d + b] == s[a..b];
    assert t[d + b + 1..d + c] == s[b + 1..c];
    assert t[d + c + 1..d + e] == s[c + 1..e];
    assert t[d + b] == s[b] && t[d + c] == s[c];
    assert EmailMatchAt(t, d + a, d + b, d + c, d + e);
  }

  /** Every string the pattern accepts has an `@` that is not its first
      character and, after it, a `.` that is not its last. */
  lemma EmailPatternNeedsAtAndDot(s: string)
    requires EmailPatternMatches(s)
    ensures exists b, c :: 0 < b < c < |s| - 1 && s[b] == '@' && s[c] == '.'
  {
    var a, b, c, e :| EmailMatchAt(s, a, b, c, e);
    assert 0 < b < c < |s| - 1 && s[b] == '@' && s[c] == '.';
  }
}
