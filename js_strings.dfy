/**
 * The JavaScript string operations the component relies on, with their ECMAScript semantics:
 * `String.prototype.split` with a non-empty string separator, `Array.prototype.join`,
 * `String.prototype.trim`, and the decimal rendering of a non-negative integer
 * in a template literal.
 */
module JsStrings {

  /** ECMAScript WhiteSpace and LineTerminator code points: what `trim` removes. */
  predicate IsWhitespace(c: char) {
    || c == '\t' || c == '\n' || c == '\U{000B}' || c == '\U{000C}' || c == '\r' || c == ' '
    || c == '\U{00A0}' || c == '\U{1680}' || ('\U{2000}' <= c <= '\U{200A}')
    || c == '\U{2028}' || c == '\U{2029}' || c == '\U{202F}' || c == '\U{205F}'
    || c == '\U{3000}' || c == '\U{FEFF}'
  }

  /** A string with no leading and no trailing whitespace. */
  predicate Trimmed(s: string) {
    s == [] || (!IsWhitespace(s[0]) && !IsWhitespace(s[|s| - 1]))
  }

  /** Drops the leading whitespace: what is left is a suffix that starts with a non-whitespace character. */
  function TrimStart(s: string): (r: string)
    ensures |r| <= |s| && r == s[|s| - |r|..]
    ensures forall k :: 0 <= k < |s| - |r| ==> IsWhitespace(s[k])
    ensures r == [] || !IsWhitespace(r[0])
  {
    if |s| > 0 && IsWhitespace(s[0]) then TrimStart(s[1..]) else s
  }

  /** Drops the trailing whitespace: what is left is a prefix that ends with a non-whitespace character. */
  function TrimEnd(s: string): (r: string)
    ensures |r| <= |s| && r == s[..|r|]
    ensures forall k :: |r| <= k < |s| ==> IsWhitespace(s[k])
    ensures r == [] || !IsWhitespace(r[|r| - 1])
  {
    if |s| > 0 && IsWhitespace(s[|s| - 1]) then TrimEnd(s[..|s| - 1]) else s
  }

  /** `s.trim()`: what is left neither starts nor ends with whitespace. */
  function Trim(s: string): (r: string)
    ensures Trimmed(r) && |r| <= |s|
  {
    TrimEnd(TrimStart(s))
  }

  /**
   * The trim of `s` is the infix `s[i..i + |Trim(s)|]`, and everything around it is
   * whitespace: it is the longest infix of `s` that is `Trimmed`.
   */
  lemma TrimIsInfix(s: string) returns (i: nat)
    ensures i + |Trim(s)| <= |s| && Trim(s) == s[i..i + |Trim(s)|]
    ensures forall k :: 0 <= k < i ==> IsWhitespace(s[k])
    ensures forall k :: i + |Trim(s)| <= k < |s| ==> IsWhitespace(s[k])
  {
    i := |s| - |TrimStart(s)|;
  }

  /** Trimming a string that is already trimmed leaves it alone. */
  lemma TrimOfTrimmed(s: string)
    requires Trimmed(s)
    ensures Trim(s) == s
  {
  }

  /** Trimming never introduces a character that was not in the input. */
  lemma TrimKeepsOut(s: string, c: char)
    requires c !in s
    ensures c !in Trim(s)
  {
  }

  /** `sep` occurs in `s` starting at index `i`. */
  predicate MatchesAt(s: string, sep: string, i: nat) {
    i + |sep| <= |s| && s[i..i + |sep|] == sep
  }

  /** `sep` occurs nowhere in `s`. */
  predicate Free(s: string, sep: string) {
    forall i: nat :: i < |s| ==> !MatchesAt(s, sep, i)
  }

  /**
   * When `x` is followed by `sep`, the first occurrence of `sep` is the one after `x`:
   * no occurrence starts inside `x`, not even one that runs on into `sep`.
   */
  predicate EndsCleanly(x: string, sep: string) {
    forall i: nat :: i < |x| ==> !MatchesAt(x + sep, sep, i)
  }

  /**
   * `s.split(sep)` for a non-empty string separator: the pieces between the
   * occurrences of `sep`, found left to right without overlap. There is always
   * one more piece than there are occurrences, so `"".split(sep)` is `[""]`.
   */
  function Split(s: string, sep: string): (r: seq<string>)
    requires sep != []
    ensures |r| >= 1
    decreases |s|
  {
    if |s| < |sep| then [s]
    else if MatchesAt(s, sep, 0) then [""] + Split(s[|sep|..], sep)
    else
      var rest := Split(s[1..], sep);
      [[s[0]] + rest[0]] + rest[1..]
  }

  /** Printing the pieces of `s` back with `join(sep)` gives `s` again. */
  lemma {:induction false} JoinSplit(s: string, sep: string)
    requires sep != []
    ensures Join(Split(s, sep), sep) == s
    decreases |s|
  {
    if |s| >= |sep| {
      if MatchesAt(s, sep, 0) {
        var rest := Split(s[|sep|..], sep);
        JoinSplit(s[|sep|..], sep);
        assert ([""] + rest)[1..] == rest;
        assert Join([""] + rest, sep) == "" + sep + Join(rest, sep);
        assert s == sep + s[|sep|..];
      } else {
        var rest := Split(s[1..], sep);
        JoinSplit(s[1..], sep);
        var r := [[s[0]] + rest[0]] + rest[1..];
        if |rest| == 1 {
          assert Join(r, sep) == [s[0]] + Join(rest, sep);
        } else {
          assert r[1..] == rest[1..];
          assert Join(r, sep) == [s[0]] + (rest[0] + sep + Join(rest[1..], sep));
          assert Join(r, sep) == [s[0]] + Join(rest, sep);
        }
        assert s == [s[0]] + s[1..];
      }
    }
  }

  /** `xs.join(sep)`: the pieces with `sep` between each pair of neighbours. */
  function Join(xs: seq<string>, sep: string): (r: string)
    ensures xs == [] ==> r == ""
    ensures |xs| == 1 ==> r == xs[0]
    ensures |xs| > 1 ==> |r| >= |xs[0]| + |sep|
  {
    if |xs| == 0 then ""
    else if |xs| == 1 then xs[0]
    else xs[0] + sep + Join(xs[1..], sep)
  }

  /** A string with no occurrence of the separator splits into itself alone. */
  lemma {:induction false} SplitOfFree(s: string, sep: string)
    requires sep != [] && Free(s, sep)
    ensures Split(s, sep) == [s]
    decreases |s|
  {
    if |s| >= |sep| {
      assert !MatchesAt(s, sep, 0);
      forall i: nat | i < |s[1..]| ensures !MatchesAt(s[1..], sep, i) {
        assert !MatchesAt(s, sep, i + 1);
        if i + |sep| <= |s[1..]| {
          assert s[1..][i..i + |sep|] == s[i + 1..i + 1 + |sep|];
        }
      }
      SplitOfFree(s[1..], sep);
      assert [s[0]] + s[1..] == s;
    }
  }

  /** Splitting a piece that ends cleanly, followed by the separator, peels that piece off. */
  lemma {:induction false} SplitAfterPiece(a: string, b: string, sep: string)
    requires sep != [] && EndsCleanly(a, sep)
    ensures Split(a + sep + b, sep) == [a] + Split(b, sep)
    decreases |a|
  {
    var s := a + sep + b;
    if a == [] {
      assert s[..|sep|] == sep && s[|sep|..] == b;
      assert MatchesAt(s, sep, 0);
    } else {
      assert (a + sep)[..|sep|] == s[..|sep|];
      assert !MatchesAt(a + sep, sep, 0);
      assert !MatchesAt(s, sep, 0);
      var a' := a[1..];
      forall i: nat | i < |a'| ensures !MatchesAt(a' + sep, sep, i) {
        assert !MatchesAt(a + sep, sep, i + 1);
        assert (a' + sep)[i..i + |sep|] == (a + sep)[i + 1..i + 1 + |sep|];
      }
      SplitAfterPiece(a', b, sep);
      assert s[1..] == a' + sep + b;
      assert [a[0]] + a' == a;
    }
  }

  /**
   * Printing then parsing gives the pieces back, provided there is at least one
   * piece, no piece contains the separator and no occurrence of it starts
   * inside a piece and runs on into the following separator.
   */
  lemma {:induction false} SplitJoin(xs: seq<string>, sep: string)
    requires sep != [] && xs != []
    requires forall k :: 0 <= k < |xs| - 1 ==> EndsCleanly(xs[k], sep)
    requires Free(xs[|xs| - 1], sep)
    ensures Split(Join(xs, sep), sep) == xs
    decreases |xs|
  {
    if |xs| == 1 {
      SplitOfFree(xs[0], sep);
    } else {
      SplitAfterPiece(xs[0], Join(xs[1..], sep), sep);
      SplitJoin(xs[1..], sep);
      assert [xs[0]] + xs[1..] == xs;
    }
  }

  /** For a one-character separator, "free of it" means "does not contain that character". */
  lemma FreeOfChar(s: string, c: char)
    ensures Free(s, [c]) <==> c !in s
  {
    if c in s {
      var i :| 0 <= i < |s| && s[i] == c;
      assert MatchesAt(s, [c], i);
    } else {
      forall i: nat | i < |s| ensures !MatchesAt(s, [c], i) {
        assert s[i..i + 1] == [s[i]];
      }
    }
  }

  /** A one-character separator cannot begin inside a piece that does not contain it. */
  lemma CharSeparatorEndsCleanly(x: string, c: char)
    requires c !in x
    ensures EndsCleanly(x, [c])
  {
    forall i: nat | i < |x| ensures !MatchesAt(x + [c], [c], i) {
      assert (x + [c])[i..i + 1] == [x[i]];
    }
  }

  /** `", "` cannot begin inside a piece that does not contain `", "`: its comma is not a space. */
  lemma CommaSpaceEndsCleanly(x: string)
    requires Free(x, ", ")
    ensures EndsCleanly(x, ", ")
  {
    forall i: nat | i < |x| ensures !MatchesAt(x + ", ", ", ", i) {
      if i + 2 <= |x| {
        assert !MatchesAt(x, ", ", i);
        assert (x + ", ")[i..i + 2] == x[i..i + 2];
      } else {
        assert (x + ", ")[i + 1] == ',';
      }
    }
  }

  /** A string without a comma contains no `", "`. */
  lemma NoCommaIsFreeOfCommaSpace(s: string)
    requires ',' !in s
    ensures Free(s, ", ")
  {
    forall i: nat | i < |s| ensures !MatchesAt(s, ", ", i) {
      if i + 2 <= |s| {
        assert s[i..i + 2][0] == s[i];
      }
    }
  }

  /** No piece produced by splitting on one character contains that character. */
  lemma {:induction false} SplitOnCharPieces(s: string, c: char)
    ensures forall p :: p in Split(s, [c]) ==> c !in p
    decreases |s|
  {
    if |s| >= 1 {
      if MatchesAt(s, [c], 0) {
        SplitOnCharPieces(s[1..], c);
      } else {
        assert s[..1] == [s[0]];
        SplitOnCharPieces(s[1..], c);
      }
    }
  }

  function DigitChar(d: nat): (c: char)
    requires d < 10
    ensures '0' <= c <= '9'
  {
    (('0' as int) + d) as char
  }

  predicate AllDigits(s: string) {
    forall k :: 0 <= k < |s| ==> '0' <= s[k] <= '9'
  }

  /** The number a string of decimal digits denotes. */
  function DecimalValue(s: string): nat
    requires AllDigits(s)
  {
    if s == [] then 0 else DecimalValue(s[..|s| - 1]) * 10 + (s[|s| - 1] as int - '0' as int)
  }

  /** `${n}` for a non-negative integer: its decimal digits, with no leading zero. */
  function NatToString(n: nat): (r: string)
    ensures r != [] && AllDigits(r)
    ensures r[0] == '0' ==> r == "0"
  {
    if n < 10 then [DigitChar(n)] else NatToString(n / 10) + [DigitChar(n % 10)]
  }

  /** The rendered digits denote the number rendered. */
  lemma {:induction false} NatToStringValue(n: nat)
    ensures DecimalValue(NatToString(n)) == n
  {
    if n >= 10 {
      NatToStringValue(n / 10);
      var r := NatToString(n);
      assert r[..|r| - 1] == NatToString(n / 10);
    }
  }
}
