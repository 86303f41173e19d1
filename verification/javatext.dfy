/** The handful of `java.lang.String` and `java.lang.Integer` / `Boolean`
    behaviours the server relies on, written out so that their edge cases
    (null text, trailing empty split elements, sign handling, 32-bit range)
    are explicit. Characters are UTF-16 code units; case mapping is ASCII. */
module JavaText {
  import opened Wrappers

  const IntMin: int := -0x8000_0000
  const IntMax: int := 0x7fff_ffff
  const LongMin: int := -0x8000_0000_0000_0000
  const LongMax: int := 0x7fff_ffff_ffff_ffff

  /** A Java `long`. */
  type Long = x: int | -0x8000_0000_0000_0000 <= x <= 0x7fff_ffff_ffff_ffff

  /** `long` addition, which wraps around modulo 2^64. */
  function AddLong(a: Long, b: Long): (r: Long)
    ensures LongMin <= a + b <= LongMax ==> r == a + b
    ensures a + b > LongMax ==> r == a + b - 0x1_0000_0000_0000_0000
    ensures a + b < LongMin ==> r == a + b + 0x1_0000_0000_0000_0000
  {
    if a + b > LongMax then a + b - 0x1_0000_0000_0000_0000
    else if a + b < LongMin then a + b + 0x1_0000_0000_0000_0000
    else a + b
  }

  /** Java's string conversion of a possibly-null string: `"" + null` is "null". */
  function NullText(s: Option<string>): string {
    match s
    case Some(t) => t
    case None => "null"
  }

  // ---------------------------------------------------------------- case

  function LowerChar(c: char): char {
    if 'A' <= c <= 'Z' then (c as int + 32) as char else c
  }

  /** `String.toLowerCase`, restricted to the ASCII letters. */
  function Lower(s: string): (r: string)
    ensures |r| == |s|
    ensures forall i :: 0 <= i < |s| ==> r[i] == LowerChar(s[i])
  {
    if |s| == 0 then "" else [LowerChar(s[0])] + Lower(s[1..])
  }

  predicate HasUpper(s: string) {
    exists i :: 0 <= i < |s| && 'A' <= s[i] <= 'Z'
  }

  /** Lower-casing changes a string exactly when it holds an upper-case letter. */
  lemma LowerFixesExactlyLowerCase(s: string)
    ensures Lower(s) == s <==> !HasUpper(s)
  {
    if Lower(s) == s {
      forall i | 0 <= i < |s| ensures !('A' <= s[i] <= 'Z') {
        assert Lower(s)[i] == LowerChar(s[i]);
      }
    } else {
      var i :| 0 <= i < |s| && Lower(s)[i] != s[i];
      assert 'A' <= s[i] <= 'Z';
    }
  }

  // ------------------------------------------------------- prefix / suffix

  predicate StartsWith(s: string, p: string) {
    |p| <= |s| && s[..|p|] == p
  }

  predicate EndsWith(s: string, p: string) {
    |p| <= |s| && s[|s| - |p|..] == p
  }

  // ---------------------------------------------------------- lastIndexOf

  /** `String.lastIndexOf(char)`: the last position of `c`, or -1. */
  function LastIndexOf(s: string, c: char): (r: int)
    ensures -1 <= r < |s|
    ensures r >= 0 ==> s[r] == c && forall j :: r < j < |s| ==> s[j] != c
    ensures r == -1 <==> c !in s
  {
    if |s| == 0 then -1
    else if s[|s| - 1] == c then |s| - 1
    else
      var r := LastIndexOf(s[..|s| - 1], c);
      assert s == s[..|s| - 1] + [s[|s| - 1]];
      r
  }

  // -------------------------------------------------------------- replace

  /** `String.replace(String, String)` for a one-character target. */
  function ReplaceChar(s: string, c: char, repl: string): (r: string)
    ensures c !in s ==> r == s
  {
    if |s| == 0 then ""
    else (if s[0] == c then repl else [s[0]]) + ReplaceChar(s[1..], c, repl)
  }

  /** Replacing works piece by piece: it distributes over concatenation. */
  lemma {:induction false} ReplaceCharAppend(a: string, b: string, c: char, repl: string)
    ensures ReplaceChar(a + b, c, repl) == ReplaceChar(a, c, repl) + ReplaceChar(b, c, repl)
  {
    if |a| > 0 {
      ReplaceCharAppend(a[1..], b, c, repl);
      assert (a + b)[1..] == a[1..] + b;
    } else {
      assert a + b == b;
    }
  }

  /** The inverse of replacing `c` by `c` followed by `t`: drops the `t`
      after each `c`. Defined independently of `ReplaceChar`. */
  function DropAfter(s: string, c: char, t: char): string {
    if |s| == 0 then ""
    else if s[0] == c && |s| >= 2 && s[1] == t then [c] + DropAfter(s[2..], c, t)
    else [s[0]] + DropAfter(s[1..], c, t)
  }

  lemma {:induction false} DropAfterUndoesReplace(s: string, c: char, t: char)
    requires c != t
    ensures DropAfter(ReplaceChar(s, c, [c, t]), c, t) == s
  {
    if |s| > 0 {
      DropAfterUndoesReplace(s[1..], c, t);
      var rest := ReplaceChar(s[1..], c, [c, t]);
      if s[0] == c {
        assert ReplaceChar(s, c, [c, t]) == [c, t] + rest;
        assert ([c, t] + rest)[2..] == rest;
      } else {
        assert ReplaceChar(s, c, [c, t]) == [s[0]] + rest;
        assert ([s[0]] + rest)[1..] == rest;
      }
    }
  }

  /** Every `c` in `r` is immediately followed by a `t`. */
  predicate FollowedBy(r: string, c: char, t: char) {
    forall i :: 0 <= i < |r| && r[i] == c ==> i + 1 < |r| && r[i + 1] == t
  }

  /** After replacing `c` by `c t`, every `c` is followed by a `t`. */
  lemma {:induction false} ReplaceLeavesNoBareChar(s: string, c: char, t: char)
    requires c != t
    ensures FollowedBy(ReplaceChar(s, c, [c, t]), c, t)
  {
    if |s| > 0 {
      ReplaceLeavesNoBareChar(s[1..], c, t);
      var rest := ReplaceChar(s[1..], c, [c, t]);
      assert FollowedBy(rest, c, t);
      var head := if s[0] == c then [c, t] else [s[0]];
      assert ReplaceChar(s, c, [c, t]) == head + rest;
      var r := head + rest;
      forall i | 0 <= i < |r| && r[i] == c ensures i + 1 < |r| && r[i + 1] == t {
        if i < |head| {
          assert r[i] == head[i];
        } else {
          var k := i - |head|;
          assert rest[k] == c;
          assert r[i + 1] == rest[k + 1];
        }
      }
    }
  }

  // ---------------------------------------------------------------- split

  /** Every piece between occurrences of `d`, empty pieces included. */
  function RawSplit(s: string, d: char): (r: seq<string>)
    ensures |r| >= 1
    ensures forall i :: 0 <= i < |r| ==> d !in r[i]
  {
    if |s| == 0 then [""]
    else if s[0] == d then [""] + RawSplit(s[1..], d)
    else
      var rest := RawSplit(s[1..], d);
      [[s[0]] + rest[0]] + rest[1..]
  }

  function Join(parts: seq<string>, d: char): string
    requires |parts| >= 1
  {
    if |parts| == 1 then parts[0] else parts[0] + [d] + Join(parts[1..], d)
  }

  /** Splitting and joining back with the same delimiter restores the text. */
  lemma {:induction false} JoinRawSplit(s: string, d: char)
    ensures Join(RawSplit(s, d), d) == s
  {
    if |s| > 0 {
      JoinRawSplit(s[1..], d);
      var rest := RawSplit(s[1..], d);
      if s[0] == d {
        assert RawSplit(s, d)[1..] == rest;
        assert s == [d] + s[1..];
      } else {
        var r := RawSplit(s, d);
        assert r[0] == [s[0]] + rest[0];
        if |rest| == 1 {
          assert s == [s[0]] + s[1..];
        } else {
          assert r[1..] == rest[1..];
          assert Join(r, d) == [s[0]] + (rest[0] + [d] + Join(rest[1..], d));
        }
      }
    }
  }

  /** A delimiter-free piece followed by the delimiter splits off as the
      first piece. */
  lemma {:induction false} RawSplitAfterPiece(x: string, y: string, d: char)
    requires d !in x
    ensures RawSplit(x + [d] + y, d) == [x] + RawSplit(y, d)
  {
    if |x| == 0 {
      assert x + [d] + y == [d] + y;
      assert ([d] + y)[1..] == y;
    } else {
      assert d !in x[1..] by {
        forall i | 0 <= i < |x[1..]| ensures x[1..][i] != d {
          assert x[1..][i] == x[i + 1];
        }
      }
      RawSplitAfterPiece(x[1..], y, d);
      assert (x + [d] + y)[1..] == x[1..] + [d] + y;
      assert [x[0]] + x[1..] == x;
    }
  }

  /** Trailing empty pieces are all `String.split` drops: a non-empty piece
      and everything before it survive. */
  lemma KeepsUpToNonEmpty(p: seq<string>, k: nat)
    requires k < |p| && p[k] != ""
    ensures k < |DropTrailingEmpty(p)|
  {
  }

  /** Removes the empty strings at the end, as `String.split` does. */
  function DropTrailingEmpty(p: seq<string>): (r: seq<string>)
    ensures |r| <= |p| && r == p[..|r|]
    ensures forall i :: |r| <= i < |p| ==> p[i] == ""
    ensures |r| > 0 ==> r[|r| - 1] != ""
  {
    if |p| > 0 && p[|p| - 1] == "" then DropTrailingEmpty(p[..|p| - 1]) else p
  }

  /** `String.split` with a one-character, non-special regex: a text without
      the delimiter yields itself; otherwise the pieces, trailing empty ones
      removed (so a leading empty piece survives). */
  function Split(s: string, d: char): (r: seq<string>)
  {
    if d !in s then [s] else DropTrailingEmpty(RawSplit(s, d))
  }

  /** `Split` keeps exactly the pieces of the text up to the last non-empty one. */
  lemma SplitIsTrimmedPieces(s: string, d: char)
    ensures var r := Split(s, d); var raw := RawSplit(s, d);
      |r| <= |raw| && r == raw[..|r|] && forall i :: |r| <= i < |raw| ==> raw[i] == ""
    ensures d in s ==> forall i :: 0 <= i < |Split(s, d)| ==> d !in Split(s, d)[i]
  {
    if d !in s {
      RawSplitNoDelimiter(s, d);
    }
  }

  lemma {:induction false} RawSplitNoDelimiter(s: string, d: char)
    requires d !in s
    ensures RawSplit(s, d) == [s]
  {
    if |s| > 0 {
      assert d !in s[1..] by {
        forall i | 0 <= i < |s[1..]| ensures s[1..][i] != d {
          assert s[1..][i] == s[i + 1];
        }
      }
      RawSplitNoDelimiter(s[1..], d);
      assert s == [s[0]] + s[1..];
    }
  }

  // -------------------------------------------------------------- decimal

  predicate IsDigit(c: char) {
    '0' <= c <= '9'
  }

  function DigitChar(n: nat): char
    requires n < 10
  {
    ('0' as int + n) as char
  }

  function DigitValue(c: char): nat
    requires IsDigit(c)
  {
    c as int - '0' as int
  }

  /** `Integer.toString` of a non-negative number. */
  function Decimal(n: nat): (r: string)
    ensures |r| >= 1
    ensures forall i :: 0 <= i < |r| ==> IsDigit(r[i])
  {
    if n < 10 then [DigitChar(n)] else Decimal(n / 10) + [DigitChar(n % 10)]
  }

  /** The value of a string of decimal digits. */
  function DigitsValue(s: string): nat
    requires forall i :: 0 <= i < |s| ==> IsDigit(s[i])
  {
    if |s| == 0 then 0 else DigitsValue(s[..|s| - 1]) * 10 + DigitValue(s[|s| - 1])
  }

  lemma {:induction false} DigitsValueOfDecimal(n: nat)
    ensures DigitsValue(Decimal(n)) == n
  {
    if n >= 10 {
      DigitsValueOfDecimal(n / 10);
      var d := Decimal(n);
      assert d[..|d| - 1] == Decimal(n / 10);
    }
  }

  /** Different numbers have different decimal texts. */
  lemma DecimalInjective(m: nat, n: nat)
    requires Decimal(m) == Decimal(n)
    ensures m == n
  {
    DigitsValueOfDecimal(m);
    DigitsValueOfDecimal(n);
  }

  /** `String.valueOf(int)`. */
  function IntText(i: int): string {
    if i < 0 then "-" + Decimal(-i) else Decimal(i)
  }

  /** `Integer.parseInt`: an optional sign followed by at least one decimal
      digit, with a value inside the 32-bit range; anything else is a
      `NumberFormatException`, here `None`. */
  function ParseInt(s: string): (r: Option<int>)
    ensures r.Some? ==> IntMin <= r.value <= IntMax
  {
    var neg := |s| > 0 && s[0] == '-';
    var signed := |s| > 0 && (s[0] == '-' || s[0] == '+');
    var digits := if signed then s[1..] else s;
    if |digits| == 0 || exists i :: 0 <= i < |digits| && !IsDigit(digits[i]) then None
    else
      var v: int := if neg then -(DigitsValue(digits) as int) else DigitsValue(digits);
      if IntMin <= v <= IntMax then Some(v) else None
  }

  /** Parsing the text `String.valueOf` writes gives the integer back. */
  lemma IntTextRoundTrip(i: int)
    requires IntMin <= i <= IntMax
    ensures ParseInt(IntText(i)) == Some(i)
  {
    if i < 0 {
      DigitsValueOfDecimal(-i);
      assert IntText(i)[1..] == Decimal(-i);
    } else {
      DigitsValueOfDecimal(i);
    }
  }

  // -------------------------------------------------------------- boolean

  /** `Boolean.parseBoolean`: true exactly for "true" in any letter case. */
  function ParseBoolean(s: string): bool {
    |s| == 4 && Lower(s) == "true"
  }

  function BoolText(b: bool): string {
    if b then "true" else "false"
  }

  /** `String.valueOf(boolean)` parses back to the same boolean. */
  lemma BoolTextRoundTrip(b: bool)
    ensures ParseBoolean(BoolText(b)) == b
  {
    if b {
      assert Lower("true") == "true";
    }
  }
}
