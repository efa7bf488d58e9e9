/**
 * The parts of `java.lang.String`, `Long` and `Integer` that the plugin relies on,
 * stated with Java's own semantics: `split` with a literal delimiter (a string with no
 * match splits into itself, otherwise trailing empty strings are removed), `replace`
 * (leftmost, non-overlapping), `trim` (strips characters up to U+0020), `lastIndexOf`,
 * and `Long.parseLong` / `Integer.parseInt` with their 64- and 32-bit ranges.
 */
module JavaStrings {
  import opened Wrappers

  type String = seq<char>

  const LONG_MIN: int := -0x8000_0000_0000_0000
  const LONG_MAX: int := 0x7FFF_FFFF_FFFF_FFFF
  const INT_MIN: int := -0x8000_0000
  const INT_MAX: int := 0x7FFF_FFFF

  predicate InLong(v: int) { LONG_MIN <= v <= LONG_MAX }

  // ---------------------------------------------------------------------------
  // Case

  /** `Character.toLowerCase` restricted to ASCII letters. */
  function LowerChar(c: char): char {
    if 'A' <= c <= 'Z' then (c as int + 32) as char else c
  }

  function Lower(s: String): (r: String)
    ensures |r| == |s|
    ensures forall i :: 0 <= i < |s| ==> r[i] == LowerChar(s[i])
  {
    seq(|s|, i requires 0 <= i < |s| => LowerChar(s[i]))
  }

  /** Two strings that differ only in the case of ASCII letters. */
  predicate EqualsIgnoreCase(a: String, b: String) {
    |a| == |b| && forall i :: 0 <= i < |a| ==> LowerChar(a[i]) == LowerChar(b[i])
  }

  // ---------------------------------------------------------------------------
  // Prefixes, suffixes, occurrences

  predicate StartsWith(s: String, p: String) {
    |p| <= |s| && s[..|p|] == p
  }

  predicate EndsWith(s: String, p: String) {
    |p| <= |s| && s[|s| - |p|..] == p
  }

  /** `t` occurs in `s` starting at index `i`. */
  predicate OccursAt(s: String, t: String, i: int) {
    0 <= i && i + |t| <= |s| && s[i..i + |t|] == t
  }

  /** `s.contains(t)`. */
  predicate Contains(s: String, t: String) {
    exists i :: 0 <= i <= |s| - |t| && OccursAt(s, t, i)
  }

  /** The smallest `j >= i` at which `t` occurs in `s`, or -1. */
  function IndexOfFrom(s: String, t: String, i: nat): (r: int)
    ensures r == -1 || i <= r <= |s| - |t|
    ensures r >= 0 ==> OccursAt(s, t, r)
    ensures forall j :: i <= j && (r == -1 || j < r) ==> !OccursAt(s, t, j)
    decreases |s| - i
  {
    if i + |t| > |s| then -1
    else if OccursAt(s, t, i) then i
    else IndexOfFrom(s, t, i + 1)
  }

  /** `s.indexOf(t)`: the first index at which `t` occurs, or -1. */
  function IndexOf(s: String, t: String): (r: int)
    ensures r == -1 || 0 <= r <= |s| - |t|
    ensures r >= 0 ==> OccursAt(s, t, r)
    ensures forall j :: 0 <= j && (r == -1 || j < r) ==> !OccursAt(s, t, j)
    ensures r == -1 <==> !Contains(s, t)
  {
    IndexOfFrom(s, t, 0)
  }

  /** `s.indexOf(c)`: the first index holding `c`, or -1. */
  function IndexOfChar(s: String, c: char): (r: int)
    ensures -1 <= r < |s|
    ensures r >= 0 ==> s[r] == c && forall j :: 0 <= j < r ==> s[j] != c
    ensures r == -1 ==> forall j :: 0 <= j < |s| ==> s[j] != c
  {
    if s == [] then -1
    else if s[0] == c then 0
    else
      var k := IndexOfChar(s[1..], c);
      if k == -1 then -1 else k + 1
  }

  /** The largest `j <= i` at which `t` occurs in `s`, or -1. */
  function LastIndexAtOrBelow(s: String, t: String, i: int): (r: int)
    ensures r == -1 || 0 <= r <= i
    ensures r >= 0 ==> OccursAt(s, t, r)
    ensures forall j :: r < j <= i ==> !OccursAt(s, t, j)
    decreases i + 1
  {
    if i < 0 then -1
    else if OccursAt(s, t, i) then i
    else LastIndexAtOrBelow(s, t, i - 1)
  }

  /** `s.lastIndexOf(t)`: the last index at which `t` occurs, or -1. */
  function LastIndexOf(s: String, t: String): (r: int)
    ensures r == -1 || 0 <= r <= |s| - |t|
    ensures r >= 0 ==> OccursAt(s, t, r)
    ensures forall j :: r < j ==> !OccursAt(s, t, j)
  {
    LastIndexAtOrBelow(s, t, |s| - |t|)
  }

  // ---------------------------------------------------------------------------
  // trim

  /** The first index at or after `i` holding a character above U+0020, or |s|. */
  function FirstAbove(s: String, i: nat): (r: nat)
    requires i <= |s|
    ensures i <= r <= |s|
    ensures forall j :: i <= j < r ==> s[j] <= ' '
    ensures r < |s| ==> s[r] > ' '
    decreases |s| - i
  {
    if i == |s| || s[i] > ' ' then i else FirstAbove(s, i + 1)
  }

  /** The end of `s[..i]` without its trailing characters up to U+0020, but not below `lo`. */
  function EndAbove(s: String, lo: nat, i: nat): (r: nat)
    requires lo <= i <= |s|
    ensures lo <= r <= i
    ensures forall j :: r <= j < i ==> s[j] <= ' '
    ensures r > lo ==> s[r - 1] > ' '
    decreases i
  {
    if i == lo || s[i - 1] > ' ' then i else EndAbove(s, lo, i - 1)
  }

  /** `s.trim()`: remove every leading and trailing character up to U+0020. */
  function Trim(s: String): (r: String)
    ensures r == [] || (r[0] > ' ' && r[|r| - 1] > ' ')
    ensures |r| <= |s|
  {
    var lo := FirstAbove(s, 0);
    s[lo..EndAbove(s, lo, |s|)]
  }

  lemma TrimOfTrimmed(s: String)
    requires s == [] || (s[0] > ' ' && s[|s| - 1] > ' ')
    ensures Trim(s) == s
  {
  }

  /** A string made only of characters up to U+0020 trims to nothing. */
  lemma TrimOfBlank(s: String)
    requires forall i :: 0 <= i < |s| ==> s[i] <= ' '
    ensures Trim(s) == []
  {
  }

  // ---------------------------------------------------------------------------
  // Decimal numbers

  predicate IsDigit(c: char) { '0' <= c <= '9' }

  predicate AllDigits(s: String) {
    forall i :: 0 <= i < |s| ==> IsDigit(s[i])
  }

  function DigitChar(d: nat): (c: char)
    requires d < 10
    ensures IsDigit(c)
  {
    ('0' as int + d) as char
  }

  /** The value of a string of decimal digits. */
  function DigitsValue(s: String): nat
    requires AllDigits(s)
  {
    if s == [] then 0
    else DigitsValue(s[..|s| - 1]) * 10 + (s[|s| - 1] as int - '0' as int)
  }

  /** `Integer.toString(n)` / `Long.toString(n)` for a non-negative `n`. */
  function NatToString(n: nat): (r: String)
    ensures |r| >= 1 && AllDigits(r)
    ensures DigitsValue(r) == n
  {
    if n < 10 then [DigitChar(n)]
    else
      var p := NatToString(n / 10);
      var r := p + [DigitChar(n % 10)];
      assert r[..|r| - 1] == p;
      r
  }

  /** `Long.toString(v)`. */
  function LongToString(v: int): String {
    if v < 0 then "-" + NatToString(-v) else NatToString(v)
  }

  /**
   * `Long.parseLong` (lo, hi = the 64-bit range) and `Integer.parseInt` (the 32-bit
   * range): an optional sign, then at least one digit, then nothing else; a value out of
   * range is a NumberFormatException, here None.
   */
  function ParseSigned(s: String, lo: int, hi: int): (r: Option<int>)
    ensures r.Some? ==> lo <= r.value <= hi
  {
    if |s| == 0 then None
    else if s[0] == '-' || s[0] == '+' then
      if |s| == 1 || !AllDigits(s[1..]) then None
      else
        var magnitude: int := DigitsValue(s[1..]);
        var v := if s[0] == '-' then -magnitude else magnitude;
        if lo <= v <= hi then Some(v) else None
    else if AllDigits(s) && lo <= DigitsValue(s) <= hi then Some(DigitsValue(s))
    else None
  }

  function ParseLong(s: String): (r: Option<int>)
    ensures r.Some? ==> InLong(r.value)
  {
    ParseSigned(s, LONG_MIN, LONG_MAX)
  }

  function ParseInt(s: String): (r: Option<int>)
    ensures r.Some? ==> INT_MIN <= r.value <= INT_MAX
  {
    ParseSigned(s, INT_MIN, INT_MAX)
  }

  /** Parsing what `Long.toString` prints gives the number back. */
  lemma {:induction false} ParseLongRoundTrip(v: int)
    requires InLong(v)
    ensures ParseLong(LongToString(v)) == Some(v)
  {
    if v < 0 {
      var s := LongToString(v);
      assert s[1..] == NatToString(-v);
    }
  }

  /** What `Long.toString` prints has nothing to trim and no dash after the sign. */
  lemma NatToStringNoDash(n: nat)
    ensures forall i :: 0 <= i < |NatToString(n)| ==> NatToString(n)[i] != '-'
  {
  }

  lemma NatToStringTrimmed(n: nat)
    ensures Trim(NatToString(n)) == NatToString(n)
  {
    var s := NatToString(n);
    assert IsDigit(s[0]) && IsDigit(s[|s| - 1]);
    TrimOfTrimmed(s);
  }

  lemma LongToStringTrimmed(v: int)
    ensures Trim(LongToString(v)) == LongToString(v)
  {
    var s := LongToString(v);
    var digits := NatToString(if v < 0 then -v else v);
    assert IsDigit(digits[0]) && IsDigit(digits[|digits| - 1]);
    assert s[|s| - 1] == digits[|digits| - 1];
    assert s[0] == '-' || s[0] == digits[0];
    TrimOfTrimmed(s);
  }

  /** A string that starts with neither a sign nor a digit is not a number. */
  lemma {:induction false} ParseLongNeedsDigitOrSign(s: String)
    requires s != [] && !IsDigit(s[0]) && s[0] != '-' && s[0] != '+'
    ensures ParseLong(s) == None
  {
  }

  // ---------------------------------------------------------------------------
  // split, join and replace

  /**
   * The pieces of `s` between the leftmost, non-overlapping occurrences of `d`,
   * empty pieces included.
   */
  function Pieces(s: String, d: String): (r: seq<String>)
    requires |d| > 0
    ensures |r| >= 1
    decreases |s|
  {
    var i := IndexOf(s, d);
    if i < 0 then [s] else [s[..i]] + Pieces(s[i + |d|..], d)
  }

  function Join(parts: seq<String>, sep: String): String {
    if parts == [] then []
    else if |parts| == 1 then parts[0]
    else parts[0] + sep + Join(parts[1..], sep)
  }

  /** Drop the trailing empty strings of a list. */
  function DropTrailingEmpty(p: seq<String>): (r: seq<String>)
    ensures |r| <= |p| && r == p[..|r|]
    ensures r == [] || r[|r| - 1] != []
    ensures forall i :: |r| <= i < |p| ==> p[i] == []
  {
    if p != [] && p[|p| - 1] == [] then DropTrailingEmpty(p[..|p| - 1]) else p
  }

  /** `s.split(d)` for a delimiter without regular-expression metacharacters. */
  function Split(s: String, d: String): seq<String>
    requires |d| > 0
  {
    var p := Pieces(s, d);
    if |p| == 1 then p else DropTrailingEmpty(p)
  }

  /** `s.replace(t, r)`: every leftmost, non-overlapping occurrence of `t` replaced. */
  function Replace(s: String, t: String, r: String): String
    requires |t| > 0
  {
    Join(Pieces(s, t), r)
  }

  lemma JoinCons(head: String, rest: seq<String>, sep: String)
    ensures Join([head] + rest, sep) == if rest == [] then head else head + sep + Join(rest, sep)
  {
    if rest != [] {
      assert ([head] + rest)[1..] == rest;
    }
  }

  /** Appending one more part to a join (what a StringBuilder loop does). */
  lemma {:induction false} JoinSnoc(xs: seq<String>, x: String, sep: String)
    ensures Join(xs + [x], sep) == if xs == [] then x else Join(xs, sep) + sep + x
  {
    if |xs| > 1 {
      assert (xs + [x])[1..] == xs[1..] + [x];
      JoinSnoc(xs[1..], x, sep);
    } else if |xs| == 1 {
      assert (xs + [x])[1..] == [x];
    }
  }

  /** Every occurrence of the character `a` turned into `b`. */
  function MapChar(s: String, a: char, b: char): (r: String)
    ensures |r| == |s|
    ensures forall i :: 0 <= i < |s| ==> r[i] == if s[i] == a then b else s[i]
  {
    seq(|s|, i requires 0 <= i < |s| => if s[i] == a then b else s[i])
  }

  /** Replacing a one-character string is a character-by-character map. */
  lemma {:induction false} ReplaceOneChar(s: String, a: char, b: char)
    ensures Replace(s, [a], [b]) == MapChar(s, a, b)
    decreases |s|
  {
    var i := IndexOf(s, [a]);
    if i < 0 {
      MapCharWithoutMatch(s, a, b);
      ReplaceWithoutMatch(s, [a], [b]);
    } else {
      var rest := s[i + 1..];
      PiecesAtMatch(s, [a]);
      ReplaceOneChar(rest, a, b);
      JoinCons(s[..i], Pieces(rest, [a]), [b]);
      MapCharAtFirstMatch(s, a, b);
    }
  }

  lemma MapCharWithoutMatch(s: String, a: char, b: char)
    requires IndexOf(s, [a]) < 0
    ensures MapChar(s, a, b) == s
  {
    forall j | 0 <= j < |s| ensures s[j] != a {
      OccursAtChar(s, a, j);
    }
  }

  lemma MapCharAtFirstMatch(s: String, a: char, b: char)
    requires IndexOf(s, [a]) >= 0
    ensures var i := IndexOf(s, [a]);
            MapChar(s, a, b) == s[..i] + [b] + MapChar(s[i + 1..], a, b)
  {
    var i := IndexOf(s, [a]);
    OccursAtChar(s, a, i);
    forall j | 0 <= j < i ensures s[j] != a {
      OccursAtChar(s, a, j);
    }
    var m := MapChar(s, a, b);
    assert m[..i] == s[..i];
    assert m[i + 1..] == MapChar(s[i + 1..], a, b);
    assert m == m[..i] + [m[i]] + m[i + 1..];
  }

  /** Unfolding Pieces at its first match. */
  lemma PiecesAtMatch(s: String, d: String)
    requires |d| > 0 && IndexOf(s, d) >= 0
    ensures var i := IndexOf(s, d);
            Pieces(s, d) == [s[..i]] + Pieces(s[i + |d|..], d) &&
            s == s[..i] + d + s[i + |d|..]
  {
  }

  /** Joining the pieces with the delimiter gives the string back. */
  lemma {:induction false} JoinPieces(s: String, d: String)
    requires |d| > 0
    ensures Join(Pieces(s, d), d) == s
    decreases |s|
  {
    if IndexOf(s, d) >= 0 {
      var i := IndexOf(s, d);
      var rest := s[i + |d|..];
      PiecesAtMatch(s, d);
      JoinPieces(rest, d);
      JoinCons(s[..i], Pieces(rest, d), d);
    }
  }

  /** Replacing a string by itself changes nothing. */
  lemma ReplaceBySelf(s: String, t: String)
    requires |t| > 0
    ensures Replace(s, t, t) == s
  {
    JoinPieces(s, t);
  }

  /** A string without an occurrence of the delimiter is a single piece. */
  lemma PiecesWithoutMatch(s: String, d: String)
    requires |d| > 0
    requires !Contains(s, d)
    ensures Pieces(s, d) == [s]
  {
  }

  /** A string is a single piece exactly when the delimiter does not occur in it. */
  lemma SinglePieceIffNoMatch(s: String, d: String)
    requires |d| > 0
    ensures |Pieces(s, d)| == 1 <==> !Contains(s, d)
  {
  }

  /** Replacing a target that does not occur changes nothing. */
  lemma ReplaceWithoutMatch(s: String, t: String, r: String)
    requires |t| > 0
    requires !Contains(s, t)
    ensures Replace(s, t, r) == s
  {
  }

  /** `split` of a string with no occurrence of the delimiter is the string alone. */
  lemma SplitWithoutMatch(s: String, d: String)
    requires |d| > 0
    requires !Contains(s, d)
    ensures Split(s, d) == [s]
  {
  }

  /**
   * When the first character of `t` does not occur in `a`, the first occurrence of `t`
   * in `a + t + b` is the one right after `a`.
   */
  lemma PiecesAfterPrefix(a: String, t: String, b: String)
    requires |t| > 0
    requires forall i :: 0 <= i < |a| ==> a[i] != t[0]
    ensures Pieces(a + t + b, t) == [a] + Pieces(b, t)
  {
    var s := a + t + b;
    assert OccursAt(s, t, |a|);
    forall j | 0 <= j < |a| ensures !OccursAt(s, t, j) {
      assert s[j] == a[j];
    }
    assert IndexOf(s, t) == |a|;
    assert s[..|a|] == a;
    assert s[|a| + |t|..] == b;
  }

  /** Replacing the one occurrence of `t` that follows a prefix free of `t[0]`. */
  lemma ReplaceAfterPrefix(a: String, t: String, b: String, r: String)
    requires |t| > 0
    requires forall i :: 0 <= i < |a| ==> a[i] != t[0]
    ensures Replace(a + t + b, t, r) == a + r + Replace(b, t, r)
  {
    PiecesAfterPrefix(a, t, b);
    JoinCons(a, Pieces(b, t), r);
  }

  /** None of the strings contains the character `c`. */
  predicate NoneContains(xs: seq<String>, c: char) {
    forall i, j :: 0 <= i < |xs| && 0 <= j < |xs[i]| ==> xs[i][j] != c
  }

  /** Splitting a join of delimiter-free parts gives the parts back, empty ones included. */
  lemma {:induction false} PiecesOfJoin(xs: seq<String>, d: String)
    requires |d| > 0 && |xs| >= 1
    requires NoneContains(xs, d[0])
    ensures Pieces(Join(xs, d), d) == xs
  {
    if |xs| == 1 {
      assert !Contains(xs[0], d) by {
        forall i | 0 <= i <= |xs[0]| - |d| ensures !OccursAt(xs[0], d, i) {
          assert xs[0][i] != d[0];
        }
      }
    } else {
      assert NoneContains(xs[1..], d[0]) by {
        forall i, j | 0 <= i < |xs| - 1 && 0 <= j < |xs[1..][i]| ensures xs[1..][i][j] != d[0] {
          assert xs[1..][i] == xs[i + 1];
        }
      }
      PiecesOfJoin(xs[1..], d);
      assert forall j :: 0 <= j < |xs[0]| ==> xs[0][j] != d[0];
      PiecesAfterPrefix(xs[0], d, Join(xs[1..], d));
      assert [xs[0]] + xs[1..] == xs;
    }
  }

  /**
   * `split` undoes a join of delimiter-free parts when there are at least two parts and
   * the last is not empty (Java drops trailing empty strings).
   */
  lemma SplitOfJoin(xs: seq<String>, d: String)
    requires |d| > 0 && |xs| >= 1
    requires NoneContains(xs, d[0])
    requires xs[|xs| - 1] != []
    ensures Split(Join(xs, d), d) == xs
  {
    PiecesOfJoin(xs, d);
  }

  /** A one-character string occurs exactly where that character is. */
  lemma OccursAtChar(s: String, c: char, j: int)
    ensures OccursAt(s, [c], j) <==> 0 <= j < |s| && s[j] == c
  {
    if 0 <= j < |s| {
      assert s[j..j + 1] == [s[j]];
    }
  }

  /** The first occurrence of a one-character delimiter in `a + [c] + b` when `a` has one. */
  lemma FirstCharInPrefix(a: String, c: char, b: String)
    requires IndexOf(a, [c]) >= 0
    ensures IndexOf(a + [c] + b, [c]) == IndexOf(a, [c])
  {
    var s, j := a + [c] + b, IndexOf(a, [c]);
    OccursAtChar(a, c, j);
    OccursAtChar(s, c, j);
    forall k | 0 <= k < j ensures !OccursAt(s, [c], k) {
      OccursAtChar(a, c, k);
      OccursAtChar(s, c, k);
    }
  }

  /** ... and when it has none. */
  lemma FirstCharAfterPrefix(a: String, c: char, b: String)
    requires IndexOf(a, [c]) < 0
    ensures IndexOf(a + [c] + b, [c]) == |a|
  {
    var s := a + [c] + b;
    OccursAtChar(s, c, |a|);
    forall k | 0 <= k < |a| ensures !OccursAt(s, [c], k) {
      OccursAtChar(a, c, k);
      OccursAtChar(s, c, k);
    }
  }

  /** Appending `c + b`, with `b` free of `c`, adds `b` as the last piece. */
  lemma {:induction false} PiecesSnoc(a: String, c: char, b: String)
    requires forall k :: 0 <= k < |b| ==> b[k] != c
    ensures Pieces(a + [c] + b, [c]) == Pieces(a, [c]) + [b]
    decreases |a|
  {
    var s := a + [c] + b;
    if IndexOf(a, [c]) >= 0 {
      var j := IndexOf(a, [c]);
      FirstCharInPrefix(a, c, b);
      PiecesAtMatch(s, [c]);
      PiecesAtMatch(a, [c]);
      assert s[..j] == a[..j];
      assert s[j + 1..] == a[j + 1..] + [c] + b;
      PiecesSnoc(a[j + 1..], c, b);
    } else {
      FirstCharAfterPrefix(a, c, b);
      PiecesAtMatch(s, [c]);
      assert s[..|a|] == a;
      assert s[|a| + 1..] == b;
      assert !Contains(b, [c]) by {
        forall k | 0 <= k <= |b| - 1 ensures !OccursAt(b, [c], k) { OccursAtChar(b, c, k); }
      }
    }
  }

  /** The last part of `split` on a one-character delimiter, when it is not empty. */
  lemma SplitLastPart(a: String, c: char, b: String)
    requires b != [] && forall k :: 0 <= k < |b| ==> b[k] != c
    ensures var parts := Split(a + [c] + b, [c]); |parts| >= 2 && parts[|parts| - 1] == b
  {
    PiecesSnoc(a, c, b);
  }

  /** Joining strings free of `c` with a separator free of `c` gives a string free of `c`. */
  lemma {:induction false} JoinAvoids(xs: seq<String>, sep: String, c: char)
    requires NoneContains(xs, c)
    requires forall k :: 0 <= k < |sep| ==> sep[k] != c
    ensures forall k :: 0 <= k < |Join(xs, sep)| ==> Join(xs, sep)[k] != c
  {
    if |xs| > 1 {
      assert NoneContains(xs[1..], c) by {
        forall i, j | 0 <= i < |xs| - 1 && 0 <= j < |xs[1..][i]| ensures xs[1..][i][j] != c {
          assert xs[1..][i] == xs[i + 1];
        }
      }
      JoinAvoids(xs[1..], sep, c);
      var rest := Join(xs[1..], sep);
      forall k | 0 <= k < |xs[0] + sep + rest| ensures (xs[0] + sep + rest)[k] != c {
        if k < |xs[0]| {
        } else if k < |xs[0]| + |sep| {
        } else {
          assert (xs[0] + sep + rest)[k] == rest[k - |xs[0]| - |sep|];
        }
      }
    } else if |xs| == 1 {
      assert forall k :: 0 <= k < |xs[0]| ==> xs[0][k] != c;
    }
  }

  /** Java: `"".split("_")` is `[""]`. */
  lemma SplitEmpty(d: String)
    requires |d| > 0
    ensures Split([], d) == [[]]
  {
  }

  /** Java: a string made only of one delimiter splits into nothing (`"_".split("_")`). */
  lemma SplitDelimiterOnly(d: String)
    requires |d| > 0
    ensures Split(d, d) == []
  {
    assert d[..|d|] == d;
    assert d[|d|..] == [];
    assert Pieces(d, d) == [[], []];
  }

  /** The pieces of a string made only of `c` are `|s| + 1` empty strings. */
  lemma {:induction false} PiecesOfRepeated(s: String, c: char)
    requires forall k :: 0 <= k < |s| ==> s[k] == c
    ensures |Pieces(s, [c])| == |s| + 1
    ensures forall i :: 0 <= i < |Pieces(s, [c])| ==> Pieces(s, [c])[i] == []
    decreases |s|
  {
    if s != [] {
      OccursAtChar(s, c, 0);
      PiecesAtMatch(s, [c]);
      PiecesOfRepeated(s[1..], c);
    }
  }

  /** Java: a non-empty string made only of the delimiter splits into nothing (`"__".split("_")`). */
  lemma SplitOfRepeated(s: String, c: char)
    requires s != [] && forall k :: 0 <= k < |s| ==> s[k] == c
    ensures Split(s, [c]) == []
  {
    PiecesOfRepeated(s, c);
  }

  /** A suffix is found last where it ends the string. */
  lemma LastIndexOfSuffix(c: String, k: String)
    ensures LastIndexOf(c + k, k) == |c|
  {
    assert (c + k)[|c|..|c| + |k|] == k;
  }
}
