/**
 * The JavaScript string operations the core relies on, over Dafny strings
 * (sequences of Unicode code points): `includes`, `trim`, `split(' ')`,
 * the regular expression /^[a-zA-Z0-9_]+$/, JavaScript's `length` (UTF-16
 * code units) and the length validator.js' `isLength` counts.
 */
module Text {
  import opened Wrappers

  /** JavaScript truthiness of a possibly-undefined string: present and non-empty. */
  function Truthy(v: Option<string>): (t: bool)
    ensures t ==> v.Some? && |v.value| > 0
  {
    v.Some? && v.value != ""
  }

  // ---------------------------------------------------------------------------
  // String.prototype.includes

  /** `k` occurs in `s` starting at position `i`. */
  predicate OccursAt(s: string, k: string, i: int) {
    0 <= i <= |s| - |k| && s[i..i + |k|] == k
  }

  /** `s.includes(k)`: `k` occurs in `s` as a contiguous piece. */
  function Contains(s: string, k: string): (found: bool)
    ensures found ==> |k| <= |s|
  {
    exists i | 0 <= i <= |s| - |k| :: OccursAt(s, k, i)
  }

  /** An occurrence at a known position is an occurrence. */
  lemma ContainsAt(s: string, k: string, i: int)
    requires OccursAt(s, k, i)
    ensures Contains(s, k)
  {
  }

  /** A keyword that has a character the text lacks does not occur in it. */
  lemma AbsentChar(s: string, k: string, c: char)
    requires c in k && c !in s
    ensures !Contains(s, k)
  {
    var j :| 0 <= j < |k| && k[j] == c;
    forall i | 0 <= i <= |s| - |k| ensures !OccursAt(s, k, i) {
      assert s[i..i + |k|][j] == s[i + j] != c;
    }
  }

  /** Whatever contains `k` contains every prefix of `k`. */
  lemma ContainsPrefix(s: string, k: string, n: nat)
    requires n <= |k| && Contains(s, k)
    ensures Contains(s, k[..n])
  {
    var i :| 0 <= i <= |s| - |k| && OccursAt(s, k, i);
    assert s[i..i + n] == k[..n];
    assert OccursAt(s, k[..n], i);
  }

  /**
   * When `c` occurs exactly once in `a + [c] + b` and is not followed by `d`,
   * the pair `[c, d]` does not occur.
   */
  lemma AbsentPair(a: string, c: char, b: string, d: char)
    requires c !in a && c !in b && (b == [] || b[0] != d)
    ensures !Contains(a + [c] + b, [c, d])
  {
    var s := a + [c] + b;
    forall i | 0 <= i <= |s| - 2 ensures !OccursAt(s, [c, d], i) {
      if i < |a| {
        assert s[i..i + 2][0] == s[i] == a[i] != c;
      } else if i == |a| {
        assert s[i..i + 2][1] == s[i + 1] == b[0] != d;
      } else {
        assert s[i..i + 2][0] == s[i] == b[i - |a| - 1] != c;
      }
    }
  }

  // ---------------------------------------------------------------------------
  // String.prototype.trim

  /** ECMAScript WhiteSpace and LineTerminator code points, which `trim` removes. */
  predicate IsJsWhitespace(c: char) {
    var n := c as int;
    n == 0x09 || n == 0x0A || n == 0x0B || n == 0x0C || n == 0x0D || n == 0x20
    || n == 0xA0 || n == 0x1680 || (0x2000 <= n <= 0x200A) || n == 0x2028 || n == 0x2029
    || n == 0x202F || n == 0x205F || n == 0x3000 || n == 0xFEFF
  }

  /** Every character is whitespace (the empty string included). */
  predicate IsBlank(s: string) {
    forall i :: 0 <= i < |s| ==> IsJsWhitespace(s[i])
  }

  /** `s` without its leading whitespace. */
  function TrimStart(s: string): (r: string)
    ensures |r| <= |s| && r == s[|s| - |r|..]
    ensures IsBlank(s[..|s| - |r|])
    ensures r == [] || !IsJsWhitespace(r[0])
  {
    if s != [] && IsJsWhitespace(s[0]) then
      var r := TrimStart(s[1..]);
      assert s[..|s| - |r|] == [s[0]] + s[1..][..|s[1..]| - |r|];
      r
    else s
  }

  /** `s` without its trailing whitespace. */
  function TrimEnd(s: string): (r: string)
    ensures |r| <= |s| && r == s[..|r|]
    ensures IsBlank(s[|r|..])
    ensures r == [] || !IsJsWhitespace(r[|r| - 1])
  {
    if s != [] && IsJsWhitespace(s[|s| - 1]) then
      var r := TrimEnd(s[..|s| - 1]);
      assert s[|r|..] == s[..|s| - 1][|r|..] + [s[|s| - 1]];
      r
    else s
  }

  /** `s.trim()`. */
  function Trim(s: string): (r: string)
    ensures |r| <= |s|
  {
    TrimEnd(TrimStart(s))
  }

  /** A trimmed string starts and ends with a character that is not whitespace. */
  lemma TrimEnds(s: string)
    ensures Trim(s) == [] || (!IsJsWhitespace(Trim(s)[0]) && !IsJsWhitespace(Trim(s)[|Trim(s)| - 1]))
  {
  }

  /** Only a blank string loses every character to `trimStart`. */
  lemma {:induction false} TrimStartEmptyIffBlank(s: string)
    ensures TrimStart(s) == "" <==> IsBlank(s)
  {
    if s != [] && IsJsWhitespace(s[0]) {
      TrimStartEmptyIffBlank(s[1..]);
      assert IsBlank(s) <==> IsBlank(s[1..]) by {
        if IsBlank(s[1..]) {
          forall i | 0 < i < |s| ensures IsJsWhitespace(s[i]) {
            assert s[i] == s[1..][i - 1];
          }
        }
        if IsBlank(s) {
          forall i | 0 <= i < |s[1..]| ensures IsJsWhitespace(s[1..][i]) {
            assert s[1..][i] == s[i + 1];
          }
        }
      }
    }
  }

  /** Only a blank string loses every character to `trimEnd`. */
  lemma {:induction false} TrimEndEmptyIffBlank(s: string)
    ensures TrimEnd(s) == "" <==> IsBlank(s)
  {
    if s != [] && IsJsWhitespace(s[|s| - 1]) {
      var p := s[..|s| - 1];
      TrimEndEmptyIffBlank(p);
      assert IsBlank(s) <==> IsBlank(p) by {
        if IsBlank(p) {
          forall i | 0 <= i < |s| - 1 ensures IsJsWhitespace(s[i]) {
            assert s[i] == p[i];
          }
        }
      }
    }
  }

  /** `!s.trim()` holds exactly of the strings made only of whitespace. */
  lemma TrimEmptyIffBlank(s: string)
    ensures Trim(s) == "" <==> IsBlank(s)
  {
    var t := TrimStart(s);
    TrimStartEmptyIffBlank(s);
    TrimEndEmptyIffBlank(t);
    assert IsBlank(t) ==> t == [] by {
      assert t == [] || !IsJsWhitespace(t[0]);
    }
  }

  // ---------------------------------------------------------------------------
  // String.prototype.split(' ') and its inverse, Array.prototype.join(' ')

  /** `s.split(' ')`: the pieces between single spaces; `"".split(' ')` is `[""]`. */
  function SplitOnSpace(s: string): (parts: seq<string>)
    ensures |parts| >= 1
    ensures forall i :: 0 <= i < |parts| ==> ' ' !in parts[i]
    ensures JoinWithSpace(parts) == s
  {
    if s == [] then [""]
    else if s[0] == ' ' then
      var rest := SplitOnSpace(s[1..]);
      assert s == "" + " " + JoinWithSpace(rest);
      [""] + rest
    else
      var rest := SplitOnSpace(s[1..]);
      var parts := [[s[0]] + rest[0]] + rest[1..];
      assert parts[1..] == rest[1..];
      assert JoinWithSpace(parts) == s by {
        if |rest| == 1 {
          assert JoinWithSpace(parts) == [s[0]] + rest[0];
        } else {
          assert JoinWithSpace(rest) == rest[0] + " " + JoinWithSpace(rest[1..]);
          assert JoinWithSpace(parts) == [s[0]] + rest[0] + " " + JoinWithSpace(rest[1..]);
        }
      }
      parts
  }

  /** `parts.join(' ')`. */
  function JoinWithSpace(parts: seq<string>): string
    requires |parts| >= 1
  {
    if |parts| == 1 then parts[0] else parts[0] + " " + JoinWithSpace(parts[1..])
  }

  /** Splitting a space-joined list of space-free pieces gives the pieces back. */
  lemma {:induction false} SplitJoin(parts: seq<string>)
    requires |parts| >= 1
    requires forall i :: 0 <= i < |parts| ==> ' ' !in parts[i]
    ensures SplitOnSpace(JoinWithSpace(parts)) == parts
  {
    if |parts| == 1 {
      SplitPiece(parts[0]);
    } else {
      SplitPieceThen(parts[0], JoinWithSpace(parts[1..]));
      SplitJoin(parts[1..]);
    }
  }

  /** A space-free piece splits into itself alone. */
  lemma {:induction false} SplitPiece(p: string)
    requires ' ' !in p
    ensures SplitOnSpace(p) == [p]
    decreases |p|
  {
    if p != [] {
      SplitPiece(p[1..]);
      assert p == [p[0]] + p[1..];
    }
  }

  /** A leading non-space character joins the first piece. */
  lemma SplitCons(c: char, r: string)
    requires c != ' '
    ensures SplitOnSpace([c] + r) == [[c] + SplitOnSpace(r)[0]] + SplitOnSpace(r)[1..]
  {
    assert ([c] + r)[1..] == r;
  }

  /** A space-free piece, a space and a tail split into the piece and the tail's pieces. */
  lemma {:induction false} SplitPieceThen(p: string, t: string)
    requires ' ' !in p
    ensures SplitOnSpace(p + " " + t) == [p] + SplitOnSpace(t)
    decreases |p|
  {
    if p == [] {
      assert p + " " + t == [' '] + t;
      assert ([' '] + t)[1..] == t;
    } else {
      var r := p[1..] + " " + t;
      assert p + " " + t == [p[0]] + r;
      SplitCons(p[0], r);
      SplitPieceThen(p[1..], t);
      assert [p[0]] + p[1..] == p;
    }
  }

  // ---------------------------------------------------------------------------
  // /^[a-zA-Z0-9_]+$/

  predicate IsWordChar(c: char) {
    ('a' <= c <= 'z') || ('A' <= c <= 'Z') || ('0' <= c <= '9') || c == '_'
  }

  /** `/^[a-zA-Z0-9_]+$/.test(s)`. */
  function MatchesWordPattern(s: string): (ok: bool)
    ensures ok ==> s != [] && ' ' !in s
  {
    |s| > 0 && forall i :: 0 <= i < |s| ==> IsWordChar(s[i])
  }

  // ---------------------------------------------------------------------------
  // Lengths

  /** JavaScript's `s.length`: UTF-16 code units, two for a code point above U+FFFF. */
  function Utf16Length(s: string): (n: nat)
    ensures |s| <= n <= 2 * |s|
  {
    if s == [] then 0 else (if s[0] as int > 0xFFFF then 2 else 1) + Utf16Length(s[1..])
  }

  /**
   * The length validator.js' `isLength` compares with its bounds: JavaScript's
   * length minus one per surrogate pair and minus one per variation selector
   * U+FE0E or U+FE0F, that is, the code points other than those two selectors.
   */
  function ValidatorLength(s: string): (n: nat)
    ensures n <= |s|
  {
    if s == [] then 0
    else (if s[0] as int == 0xFE0E || s[0] as int == 0xFE0F then 0 else 1) + ValidatorLength(s[1..])
  }

  /** For strings of word characters all three ways of counting agree. */
  lemma {:induction false} WordLengths(s: string)
    requires forall i :: 0 <= i < |s| ==> IsWordChar(s[i])
    ensures Utf16Length(s) == |s| && ValidatorLength(s) == |s|
  {
    if s != [] {
      WordLengths(s[1..]);
    }
  }

  /** A word character is never whitespace, so a word is never blank. */
  lemma WordNotBlank(s: string)
    requires MatchesWordPattern(s)
    ensures !IsBlank(s)
  {
    assert IsWordChar(s[0]);
  }
}
