/**
 * The `range` placeholder: configuration keys `A-B`, `-B` and `A-` name inclusive
 * intervals of 64-bit numbers; the first argument of a request is a number, and the
 * value of the interval containing it (after positional substitution) is the answer.
 */
module RangePlaceholders {
  import opened Wrappers
  import opened JavaStrings
  import opened Substitution

  /** An inclusive interval of 64-bit numbers. */
  datatype Range = Range(start: int, end: int)

  /** A parsed configuration entry: its interval, its value and the key it came from. */
  datatype Entry = Entry(start: int, end: int, value: String, originalKey: String)

  /**
   * The configuration section: the `default` string, if any, and the `values`
   * subsection, if any, as its keys in iteration order with their raw values (None for a
   * key whose value is null; other values already in their `String.valueOf` form).
   */
  datatype RangeSection = RangeSection(default: Option<String>, values: Option<seq<(String, Option<String>)>>)

  // ---------------------------------------------------------------------------
  // Keys

  /**
   * `parseLongSafe`: the trimmed text as a 64-bit number, with `Long.MIN_VALUE` standing
   * for "not a number".
   */
  function ParseLongSafe(s: String): (r: int)
    ensures InLong(r)
    ensures ParseLong(Trim(s)).None? ==> r == LONG_MIN
    ensures r != LONG_MIN ==> ParseLong(Trim(s)) == Some(r)
  {
    match ParseLong(Trim(s))
    case Some(v) => v
    case None => LONG_MIN
  }

  /** `parseLongSafe` reads back what `Long.toString` prints, except the sentinel itself. */
  lemma ParseLongSafeRoundTrip(v: int)
    requires InLong(v)
    ensures ParseLongSafe(LongToString(v)) == v
  {
    LongToStringTrimmed(v);
    ParseLongRoundTrip(v);
  }

  /** The sentinel is ambiguous: the smallest long, written out, reads as "not a number". */
  lemma SentinelIsAmbiguous()
    ensures ParseLongSafe(LongToString(LONG_MIN)) == ParseLongSafe("x") == LONG_MIN
  {
    ParseLongSafeRoundTrip(LONG_MIN);
    assert Trim("x") == "x";
    ParseLongNeedsDigitOrSign("x");
  }

  /** `parseRangeKey`: the interval a configuration key names, or None when it names none. */
  function ParseRangeKey(keyRaw: String): (r: Option<Range>)
    ensures Trim(keyRaw) == [] ==> r == None
    ensures r.Some? ==> InLong(r.value.start) && InLong(r.value.end) && r.value.end != LONG_MIN
    ensures r.Some? && r.value.start == LONG_MIN ==> Trim(keyRaw)[0] == '-'
  {
    var key := Trim(keyRaw);
    if key == [] then None
    else if key[0] == '-' && |key| > 1 then OpenStartKey(key)
    else if key[|key| - 1] == '-' && |key| > 1 then OpenEndKey(key)
    else ClosedKey(key)
  }

  /** The `-B` form. */
  function OpenStartKey(key: String): (r: Option<Range>)
    requires |key| > 1
    ensures r.Some? ==> r.value.start == LONG_MIN && InLong(r.value.end) && r.value.end != LONG_MIN
  {
    var end := ParseLongSafe(key[1..]);
    if end == LONG_MIN then None else Some(Range(LONG_MIN, end))
  }

  /** The `A-` form. */
  function OpenEndKey(key: String): (r: Option<Range>)
    requires |key| > 1
    ensures r.Some? ==> r.value.end == LONG_MAX && InLong(r.value.start) && r.value.start != LONG_MIN
  {
    var start := ParseLongSafe(key[..|key| - 1]);
    if start == LONG_MIN then None else Some(Range(start, LONG_MAX))
  }

  /** The `A-B` form, split at the first dash, which must have text on both sides. */
  function ClosedKey(key: String): (r: Option<Range>)
    ensures r.Some? ==> InLong(r.value.start) && InLong(r.value.end)
    ensures r.Some? ==> r.value.start != LONG_MIN && r.value.end != LONG_MIN
  {
    var dash := IndexOfChar(key, '-');
    if dash <= 0 || dash >= |key| - 1 then None
    else
      var start := ParseLongSafe(key[..dash]);
      var end := ParseLongSafe(key[dash + 1..]);
      if start == LONG_MIN || end == LONG_MIN then None else Some(Range(start, end))
  }

  /** Which of the three forms a key that needs no trimming takes. */
  lemma OpenStartForm(key: String)
    requires |key| > 1 && Trim(key) == key && key[0] == '-'
    ensures ParseRangeKey(key) == OpenStartKey(key)
  {
  }

  lemma OpenEndForm(key: String)
    requires |key| > 1 && Trim(key) == key && key[0] != '-' && key[|key| - 1] == '-'
    ensures ParseRangeKey(key) == OpenEndKey(key)
  {
  }

  lemma ClosedForm(key: String)
    requires |key| > 1 && Trim(key) == key && key[0] != '-' && key[|key| - 1] != '-'
    ensures ParseRangeKey(key) == ClosedKey(key)
  {
  }

  /** A concatenation that starts and ends outside the blank range needs no trimming. */
  lemma TrimmedConcat(x: String, y: String)
    requires x != [] && y != [] && x[0] > ' ' && y[|y| - 1] > ' '
    ensures Trim(x + y) == x + y
  {
    var s := x + y;
    assert s[0] == x[0] && s[|s| - 1] == y[|y| - 1];
    TrimOfTrimmed(s);
  }

  lemma DecimalEnds(v: int)
    ensures var s := LongToString(v); s != [] && s[0] > ' ' && s[|s| - 1] > ' '
    ensures v >= 0 ==> IsDigit(LongToString(v)[0])
  {
    var d := NatToString(if v < 0 then -v else v);
    assert IsDigit(d[0]) && IsDigit(d[|d| - 1]);
  }

  /** The first dash of `x-y` is the one after `x` when `x` has none. */
  lemma FirstDash(x: String, y: String)
    requires forall j :: 0 <= j < |x| ==> x[j] != '-'
    ensures var key := x + "-" + y;
            IndexOfChar(key, '-') == |x| && key[..|x|] == x && key[|x| + 1..] == y
  {
    var key := x + "-" + y;
    assert key[|x|] == '-';
    forall j | 0 <= j < |x| ensures key[j] != '-' { assert key[j] == x[j]; }
    assert key[..|x|] == x;
    assert key[|x| + 1..] == y;
  }

  /** An `A-B` key assembled from two texts that each read as a number. */
  lemma ClosedKeyOfParts(sa: String, sb: String, a: int, b: int)
    requires sa != [] && sa[0] > ' ' && sb != [] && sb[|sb| - 1] > ' ' && sb[|sb| - 1] != '-'
    requires forall j :: 0 <= j < |sa| ==> sa[j] != '-'
    requires ParseLongSafe(sa) == a != LONG_MIN && ParseLongSafe(sb) == b != LONG_MIN
    ensures ParseRangeKey(sa + "-" + sb) == Some(Range(a, b))
  {
    var key := sa + "-" + sb;
    TrimmedConcat(sa + "-", sb);
    DashedShape(sa, sb);
    ClosedForm(key);
    FirstDash(sa, sb);
  }

  /** An `A-B` key with a non-negative start names exactly [A, B]. */
  lemma ClosedKeyRoundTrip(a: nat, b: int)
    requires a <= LONG_MAX && InLong(b) && b != LONG_MIN
    ensures ParseRangeKey(NatToString(a) + "-" + LongToString(b)) == Some(Range(a, b))
  {
    DecimalEnds(a);
    DecimalEnds(b);
    NatToStringNoDash(a);
    ParseLongSafeRoundTrip(a);
    ParseLongSafeRoundTrip(b);
    ClosedKeyOfParts(LongToString(a), LongToString(b), a, b);
  }

  /** An `A-` key names [A, Long.MAX_VALUE]. */
  lemma OpenEndKeyRoundTrip(a: nat)
    requires a <= LONG_MAX
    ensures ParseRangeKey(NatToString(a) + "-") == Some(Range(a, LONG_MAX))
  {
    var sa := LongToString(a);
    var key := sa + "-";
    DecimalEnds(a);
    TrimmedConcat(sa, "-");
    OpenEndForm(key);
    assert key[..|key| - 1] == sa;
    ParseLongSafeRoundTrip(a);
  }

  /** A `-B` key names [Long.MIN_VALUE, B]. */
  lemma OpenStartKeyRoundTrip(b: int)
    requires InLong(b) && b != LONG_MIN
    ensures ParseRangeKey("-" + LongToString(b)) == Some(Range(LONG_MIN, b))
  {
    var sb := LongToString(b);
    var key := "-" + sb;
    DecimalEnds(b);
    TrimmedConcat("-", sb);
    OpenStartForm(key);
    assert key[1..] == sb;
    ParseLongSafeRoundTrip(b);
  }

  /** A `-B` key whose B is a digit, a dash and more is not a number. */
  lemma DashInsideRejected(rest: String, k: nat)
    requires 0 < k < |rest| && IsDigit(rest[0]) && rest[k] == '-' && rest[|rest| - 1] > ' '
    ensures ParseRangeKey("-" + rest) == None
  {
    var key := "-" + rest;
    TrimmedConcat("-", rest);
    OpenStartForm(key);
    assert key[1..] == rest;
    TrimOfTrimmed(rest);
    assert !AllDigits(rest);
  }

  /**
   * A key such as `-5-3` cannot name an interval with a negative start: it is read as
   * `-B` with B = `5-3`, which is not a number.
   */
  lemma NegativeStartRejected(a: nat, b: nat)
    ensures ParseRangeKey("-" + NatToString(a) + "-" + NatToString(b)) == None
  {
    DecimalEnds(a);
    DecimalEnds(b);
    DashedShape(LongToString(a), LongToString(b));
    DashInsideRejected(LongToString(a) + "-" + LongToString(b), |LongToString(a)|);
  }

  lemma DashedShape(x: String, y: String)
    requires x != [] && y != []
    ensures var s := x + "-" + y; s[0] == x[0] && s[|x|] == '-' && s[|s| - 1] == y[|y| - 1]
    ensures "-" + x + "-" + y == "-" + (x + "-" + y)
  {
  }

  /** A key that is only a dash, or blank, names nothing. */
  lemma MalformedKeys(blank: String)
    requires forall i :: 0 <= i < |blank| ==> blank[i] <= ' '
    ensures ParseRangeKey(blank) == None
    ensures ParseRangeKey("-") == None
  {
    assert Trim("-") == "-";
    TrimOfBlank(blank);
  }

  // ---------------------------------------------------------------------------
  // Building the table

  /** The entry one configuration pair contributes, if its key is valid and start <= end. */
  function EntryOf(item: (String, Option<String>)): (r: Option<Entry>)
    ensures r.Some? ==> r.value.start <= r.value.end && r.value.originalKey == item.0
  {
    match ParseRangeKey(item.0)
    case None => None
    case Some(range) =>
      if range.start > range.end then None
      else Some(Entry(range.start, range.end, item.1.GetOr(""), item.0))
  }

  /** The entries the parsing loop collects, in configuration order. */
  function ParsedEntries(cfg: seq<(String, Option<String>)>): seq<Entry>
    decreases |cfg|
  {
    if cfg == [] then []
    else
      var rest := ParsedEntries(cfg[..|cfg| - 1]);
      match EntryOf(cfg[|cfg| - 1])
      case None => rest
      case Some(e) => rest + [e]
  }

  /** Every valid configuration pair contributes its entry. */
  lemma {:induction false} ParsedEntriesHas(cfg: seq<(String, Option<String>)>, j: nat, e: Entry)
    requires j < |cfg| && EntryOf(cfg[j]) == Some(e)
    ensures e in ParsedEntries(cfg)
    decreases |cfg|
  {
    if j < |cfg| - 1 {
      var init := cfg[..|cfg| - 1];
      assert init[j] == cfg[j];
      ParsedEntriesHas(init, j, e);
    }
  }

  /** Nothing else is collected. */
  lemma {:induction false} ParsedEntriesFrom(cfg: seq<(String, Option<String>)>, e: Entry)
    requires e in ParsedEntries(cfg)
    ensures exists i :: 0 <= i < |cfg| && EntryOf(cfg[i]) == Some(e)
    decreases |cfg|
  {
    var init := cfg[..|cfg| - 1];
    if e in ParsedEntries(init) {
      ParsedEntriesFrom(init, e);
      var i :| 0 <= i < |init| && EntryOf(init[i]) == Some(e);
      assert cfg[i] == init[i];
    } else {
      assert EntryOf(cfg[|cfg| - 1]) == Some(e);
    }
  }

  /** Every collected entry is well formed. */
  predicate WellFormed(s: seq<Entry>) {
    forall i :: 0 <= i < |s| ==> s[i].start <= s[i].end
  }

  lemma {:induction false} ParsedEntriesWellFormed(cfg: seq<(String, Option<String>)>)
    ensures WellFormed(ParsedEntries(cfg))
    decreases |cfg|
  {
    if cfg != [] {
      ParsedEntriesWellFormed(cfg[..|cfg| - 1]);
    }
  }

  /** The collecting loop of the constructor. */
  method CollectEntries(cfg: seq<(String, Option<String>)>) returns (entries: seq<Entry>)
    ensures entries == ParsedEntries(cfg)
  {
    entries := [];
    for i := 0 to |cfg|
      invariant entries == ParsedEntries(cfg[..i])
    {
      assert cfg[..i + 1][..i] == cfg[..i];
      var (key, raw) := cfg[i];
      var value := raw.GetOr("");
      var r := ParseRangeKey(key);
      if r.None? {
        continue;
      }
      if r.value.start > r.value.end {
        continue;
      }
      entries := entries + [Entry(r.value.start, r.value.end, value, key)];
    }
    assert cfg[..|cfg|] == cfg;
  }

  // ---------------------------------------------------------------------------
  // Sorting by (start, end)

  /** The comparator: by start, then by end. */
  predicate KeyLe(a: Entry, b: Entry) {
    a.start < b.start || (a.start == b.start && a.end <= b.end)
  }

  predicate SortedByKey(s: seq<Entry>) {
    forall i, j :: 0 <= i < j < |s| ==> KeyLe(s[i], s[j])
  }

  /** Insert `x` after every entry that is not greater than it. */
  function Insert(s: seq<Entry>, x: Entry): (r: seq<Entry>)
    ensures |r| == |s| + 1
    decreases |s|
  {
    if s == [] || KeyLe(s[|s| - 1], x) then s + [x]
    else Insert(s[..|s| - 1], x) + [s[|s| - 1]]
  }

  /**
   * `List.sort` with the (start, end) comparator. The library sort is stable, and a
   * stable sort has only one possible result, which this insertion sort computes.
   */
  function SortByKey(s: seq<Entry>): (r: seq<Entry>)
    ensures |r| == |s|
    decreases |s|
  {
    if s == [] then [] else Insert(SortByKey(s[..|s| - 1]), s[|s| - 1])
  }

  lemma {:induction false} InsertPermutes(s: seq<Entry>, x: Entry)
    ensures multiset(Insert(s, x)) == multiset(s) + multiset{x}
    decreases |s|
  {
    if s != [] && !KeyLe(s[|s| - 1], x) {
      var init := s[..|s| - 1];
      InsertPermutes(init, x);
      assert s == init + [s[|s| - 1]];
    }
  }

  /** The sort only reorders: the result is a permutation of the input. */
  lemma {:induction false} SortByKeyPermutes(s: seq<Entry>)
    ensures multiset(SortByKey(s)) == multiset(s)
    decreases |s|
  {
    if s != [] {
      var init := s[..|s| - 1];
      SortByKeyPermutes(init);
      InsertPermutes(SortByKey(init), s[|s| - 1]);
      assert s == init + [s[|s| - 1]];
      assert multiset(s) == multiset(init) + multiset{s[|s| - 1]};
    }
  }

  lemma {:induction false} InsertSorted(s: seq<Entry>, x: Entry)
    requires SortedByKey(s)
    ensures SortedByKey(Insert(s, x))
    decreases |s|
  {
    if s != [] && !KeyLe(s[|s| - 1], x) {
      var init := s[..|s| - 1];
      var last := s[|s| - 1];
      InsertSorted(init, x);
      InsertPermutes(init, x);
      var r := Insert(init, x);
      forall k | 0 <= k < |r| ensures KeyLe(r[k], last) {
        assert r[k] in multiset(r);
        if r[k] != x {
          assert r[k] in multiset(init);
          var j :| 0 <= j < |init| && init[j] == r[k];
        }
      }
    }
  }

  lemma {:induction false} SortByKeySorted(s: seq<Entry>)
    ensures SortedByKey(SortByKey(s))
    decreases |s|
  {
    if s != [] {
      SortByKeySorted(s[..|s| - 1]);
      InsertSorted(SortByKey(s[..|s| - 1]), s[|s| - 1]);
    }
  }

  /** The entries whose interval is exactly `k`, in order. */
  function WithRange(s: seq<Entry>, k: Range): (r: seq<Entry>)
    ensures |r| <= |s|
  {
    if s == [] then []
    else
      var rest := WithRange(s[..|s| - 1], k);
      var x := s[|s| - 1];
      if x.start == k.start && x.end == k.end then rest + [x] else rest
  }

  lemma {:induction false} WithRangeAppend(s: seq<Entry>, t: seq<Entry>, k: Range)
    ensures WithRange(s + t, k) == WithRange(s, k) + WithRange(t, k)
    decreases |t|
  {
    if t == [] {
      assert s + t == s;
    } else {
      assert (s + t)[..|s + t| - 1] == s + t[..|t| - 1];
      WithRangeAppend(s, t[..|t| - 1], k);
    }
  }

  /** Inserting keeps the order among entries with the same interval. */
  lemma {:induction false} InsertStable(s: seq<Entry>, x: Entry, k: Range)
    ensures WithRange(Insert(s, x), k) == WithRange(s + [x], k)
    decreases |s|
  {
    if s != [] && !KeyLe(s[|s| - 1], x) {
      var init := s[..|s| - 1];
      var last := s[|s| - 1];
      InsertStable(init, x, k);
      WithRangeAppend(Insert(init, x), [last], k);
      WithRangeAppend(init + [x], [last], k);
      WithRangeAppend(init, [x], k);
      WithRangeAppend(init, [last], k);
      WithRangeAppend(s, [x], k);
      assert s == init + [last];
      // `x` and `last` do not have the same interval, so their order does not matter
      assert WithRange([x], k) == [] || WithRange([last], k) == [];
    }
  }

  /** The sort is stable: entries with equal intervals keep their configuration order. */
  lemma {:induction false} SortByKeyStable(s: seq<Entry>, k: Range)
    ensures WithRange(SortByKey(s), k) == WithRange(s, k)
    decreases |s|
  {
    if s != [] {
      var init := s[..|s| - 1];
      SortByKeyStable(init, k);
      StableStep(SortByKey(init), init, s[|s| - 1], k);
      assert s == init + [s[|s| - 1]];
    }
  }

  lemma StableStep(sorted: seq<Entry>, init: seq<Entry>, x: Entry, k: Range)
    requires WithRange(sorted, k) == WithRange(init, k)
    ensures WithRange(Insert(sorted, x), k) == WithRange(init + [x], k)
  {
    InsertStable(sorted, x, k);
    WithRangeAppend(sorted, [x], k);
    WithRangeAppend(init, [x], k);
  }

  // ---------------------------------------------------------------------------
  // Dropping overlaps

  /**
   * The overlap sweep: an entry is kept unless it starts at or before the end of the
   * last kept entry.
   */
  function Sweep(s: seq<Entry>): (r: seq<Entry>)
    ensures |r| <= |s|
    ensures forall e :: e in r ==> e in s
    decreases |s|
  {
    if s == [] then []
    else
      var kept := Sweep(s[..|s| - 1]);
      var cur := s[|s| - 1];
      if kept != [] && cur.start <= kept[|kept| - 1].end then kept else kept + [cur]
  }

  /** The kept intervals are disjoint and in increasing order, each one well formed. */
  predicate Disjoint(r: seq<Entry>) {
    WellFormed(r) && forall i, j :: 0 <= i < j < |r| ==> r[i].end < r[j].start
  }

  lemma {:induction false} SweepDisjoint(s: seq<Entry>)
    requires WellFormed(s)
    ensures Disjoint(Sweep(s))
    decreases |s|
  {
    if s != [] {
      var init := s[..|s| - 1];
      assert WellFormed(init) by {
        forall i | 0 <= i < |init| ensures init[i].start <= init[i].end { assert init[i] == s[i]; }
      }
      SweepDisjoint(init);
    }
  }

  /** The first entry is always kept. */
  lemma {:induction false} SweepKeepsFirst(s: seq<Entry>)
    requires s != []
    ensures Sweep(s) != [] && Sweep(s)[0] == s[0]
    decreases |s|
  {
    if |s| > 1 {
      SweepKeepsFirst(s[..|s| - 1]);
    }
  }

  /** Sweeping a longer list only appends to what was kept from a prefix. */
  lemma {:induction false} SweepPrefix(s: seq<Entry>, n: nat)
    requires n <= |s|
    ensures Sweep(s[..n]) <= Sweep(s)
    decreases |s| - n
  {
    if n < |s| {
      SweepPrefix(s, n + 1);
      assert s[..n + 1][..n] == s[..n];
    } else {
      assert s[..n] == s;
    }
  }

  /**
   * First wins: in a sorted list, every entry's start lies in some kept interval that
   * starts no later; for a skipped entry that is the earlier one it overlaps.
   */
  lemma {:induction false} SweepCovers(s: seq<Entry>, j: nat)
    requires WellFormed(s) && SortedByKey(s) && j < |s|
    ensures exists i :: 0 <= i < |Sweep(s)| && Sweep(s)[i].start <= s[j].start <= Sweep(s)[i].end
    decreases |s|
  {
    var init := s[..|s| - 1];
    InitSorted(s);
    SweepPrefix(s, |s| - 1);
    var kept := Sweep(init);
    if j < |s| - 1 {
      assert init[j] == s[j];
      SweepCovers(init, j);
      var i :| 0 <= i < |kept| && kept[i].start <= init[j].start <= kept[i].end;
      assert Sweep(s)[i] == kept[i];
    } else if Sweep(s) == kept {
      SkippedIsCovered(s);
    } else {
      assert Sweep(s)[|Sweep(s)| - 1] == s[j];
    }
  }

  lemma InitSorted(s: seq<Entry>)
    requires WellFormed(s) && SortedByKey(s) && s != []
    ensures WellFormed(s[..|s| - 1]) && SortedByKey(s[..|s| - 1])
  {
    var init := s[..|s| - 1];
    forall i | 0 <= i < |init| ensures init[i] == s[i] { }
  }

  /** A skipped last entry starts inside the last kept interval. */
  lemma SkippedIsCovered(s: seq<Entry>)
    requires SortedByKey(s) && s != [] && |Sweep(s)| > 0 && Sweep(s) == Sweep(s[..|s| - 1])
    ensures Sweep(s)[|Sweep(s)| - 1].start <= s[|s| - 1].start <= Sweep(s)[|Sweep(s)| - 1].end
  {
    var init := s[..|s| - 1];
    var kept := Sweep(init);
    var last := kept[|kept| - 1];
    assert last in init;
    var m :| 0 <= m < |init| && init[m] == last;
    assert KeyLe(s[m], s[|s| - 1]);
  }

  /** The sweeping loop of the constructor, with `prev` the last kept entry. */
  method DropOverlaps(sorted: seq<Entry>) returns (filtered: seq<Entry>)
    ensures filtered == Sweep(sorted)
  {
    filtered := [];
    var prev: Option<Entry> := None;
    for i := 0 to |sorted|
      invariant filtered == Sweep(sorted[..i])
      invariant prev == if filtered == [] then None else Some(filtered[|filtered| - 1])
    {
      assert sorted[..i + 1][..i] == sorted[..i];
      var cur := sorted[i];
      if prev.Some? && cur.start <= prev.value.end {
        continue;
      }
      filtered := filtered + [cur];
      prev := Some(cur);
    }
    assert sorted[..|sorted|] == sorted;
  }

  /** The table the constructor builds from the `values` subsection. */
  function Build(cfg: seq<(String, Option<String>)>): seq<Entry> {
    Sweep(SortByKey(ParsedEntries(cfg)))
  }

  lemma SortByKeyMembers(s: seq<Entry>, e: Entry)
    ensures e in SortByKey(s) <==> e in s
  {
    SortByKeyPermutes(s);
    assert e in SortByKey(s) <==> e in multiset(SortByKey(s));
  }

  lemma SortByKeyWellFormed(s: seq<Entry>)
    requires WellFormed(s)
    ensures WellFormed(SortByKey(s))
  {
    var q := SortByKey(s);
    forall i | 0 <= i < |q| ensures q[i].start <= q[i].end {
      SortByKeyMembers(s, q[i]);
    }
  }

  /** The entries the constructor sorts, well formed and in order. */
  lemma SortedParsed(cfg: seq<(String, Option<String>)>)
    ensures WellFormed(SortByKey(ParsedEntries(cfg))) && SortedByKey(SortByKey(ParsedEntries(cfg)))
  {
    ParsedEntriesWellFormed(cfg);
    SortByKeyWellFormed(ParsedEntries(cfg));
    SortByKeySorted(ParsedEntries(cfg));
  }

  /** The table is disjoint and sorted, as the binary search needs. */
  lemma BuildDisjoint(cfg: seq<(String, Option<String>)>)
    ensures Disjoint(Build(cfg))
  {
    SortedParsed(cfg);
    SweepDisjoint(SortByKey(ParsedEntries(cfg)));
  }

  /** Every kept entry comes from a valid configuration pair. */
  lemma BuildFromConfig(cfg: seq<(String, Option<String>)>, e: Entry)
    requires e in Build(cfg)
    ensures exists i :: 0 <= i < |cfg| && EntryOf(cfg[i]) == Some(e)
  {
    SortByKeyMembers(ParsedEntries(cfg), e);
    ParsedEntriesFrom(cfg, e);
  }

  /**
   * Every valid configuration pair is covered: its start lies in a kept interval, which
   * is its own unless an interval overlapping it was kept instead.
   */
  lemma BuildCovers(cfg: seq<(String, Option<String>)>, j: nat, e: Entry)
    requires j < |cfg| && EntryOf(cfg[j]) == Some(e)
    ensures exists i :: 0 <= i < |Build(cfg)| && Build(cfg)[i].start <= e.start <= Build(cfg)[i].end
  {
    var p := ParsedEntries(cfg);
    assert Build(cfg) == Sweep(SortByKey(p));
    ParsedEntriesHas(cfg, j, e);
    ParsedEntriesWellFormed(cfg);
    SortedSweepCovers(p, e);
  }

  lemma SortedSweepCovers(p: seq<Entry>, e: Entry)
    requires WellFormed(p) && e in p
    ensures exists i :: 0 <= i < |Sweep(SortByKey(p))| &&
                        Sweep(SortByKey(p))[i].start <= e.start <= Sweep(SortByKey(p))[i].end
  {
    SortByKeyMembers(p, e);
    SortByKeyWellFormed(p);
    SortByKeySorted(p);
    SweepCoversMember(SortByKey(p), e);
  }

  lemma SweepCoversMember(q: seq<Entry>, e: Entry)
    requires WellFormed(q) && SortedByKey(q) && e in q
    ensures exists i :: 0 <= i < |Sweep(q)| && Sweep(q)[i].start <= e.start <= Sweep(q)[i].end
  {
    var m :| 0 <= m < |q| && q[m] == e;
    SweepCovers(q, m);
  }

  // ---------------------------------------------------------------------------
  // The placeholder

  /** The three parallel arrays the placeholder keeps its entries in. */
  method ToArrays(es: seq<Entry>) returns (s: array<int>, e: array<int>, v: array<String>)
    ensures fresh(s) && fresh(e) && fresh(v)
    ensures s.Length == e.Length == v.Length == |es|
    ensures forall k :: 0 <= k < |es| ==> s[k] == es[k].start && e[k] == es[k].end && v[k] == es[k].value
  {
    s := new int[|es|];
    e := new int[|es|];
    v := new String[|es|];
    for i := 0 to |es|
      invariant forall k :: 0 <= k < i ==> s[k] == es[k].start && e[k] == es[k].end && v[k] == es[k].value
    {
      s[i] := es[i].start;
      e[i] := es[i].end;
      v[i] := es[i].value;
    }
  }

  class RangePlaceholder {
    const defaultValue: String
    const starts: array<int>
    const ends: array<int>
    const values: array<String>
    /** The kept entries the three arrays hold. */
    ghost const entries: seq<Entry>

    ghost predicate Valid()
      reads starts, ends, values
    {
      starts.Length == ends.Length == values.Length == |entries| &&
      (forall i :: 0 <= i < |entries| ==>
         starts[i] == entries[i].start && ends[i] == entries[i].end && values[i] == entries[i].value) &&
      (forall i :: 0 <= i < starts.Length ==> starts[i] <= ends[i]) &&
      (forall i, j :: 0 <= i < j < starts.Length ==> ends[i] < starts[j])
    }

    constructor (section: RangeSection)
      ensures Valid()
      ensures defaultValue == section.default.GetOr("")
      ensures entries == if section.values.None? then [] else Build(section.values.value)
      ensures fresh(starts) && fresh(ends) && fresh(values)
    {
      defaultValue := section.default.GetOr("");
      if section.values.None? {
        starts := new int[0];
        ends := new int[0];
        values := new String[0];
        entries := [];
      } else {
        var cfg := section.values.value;
        var parsed := CollectEntries(cfg);
        var sorted := SortByKey(parsed);
        var filtered := DropOverlaps(sorted);
        BuildDisjoint(cfg);
        var s, e, v := ToArrays(filtered);
        starts := s;
        ends := e;
        values := v;
        entries := filtered;
      }
    }

    /**
     * `findRangeIndex`: the binary search for the rightmost start not above `x`, then
     * the containment check; -1 exactly when no kept interval contains `x`.
     */
    method FindRangeIndex(x: int) returns (idx: int)
      requires Valid()
      ensures -1 <= idx < starts.Length
      ensures idx >= 0 ==> starts[idx] <= x <= ends[idx]
      ensures idx == -1 <==> forall i :: 0 <= i < starts.Length ==> !(starts[i] <= x <= ends[i])
    {
      if starts.Length == 0 {
        return -1;
      }
      var lo, hi := 0, starts.Length - 1;
      var best := -1;
      while lo <= hi
        invariant 0 <= lo <= hi + 1 <= starts.Length
        invariant best == lo - 1
        invariant forall i :: 0 <= i < lo ==> starts[i] <= x
        invariant forall i :: hi < i < starts.Length ==> x < starts[i]
        decreases hi - lo
      {
        var mid := (lo + hi) / 2;
        if starts[mid] <= x {
          best := mid;
          lo := mid + 1;
        } else {
          hi := mid - 1;
        }
      }
      if best == -1 {
        return -1;
      }
      idx := if x <= ends[best] then best else -1;
    }

    /** `getResult`: the value of the interval containing the first argument. */
    method GetResult(args: seq<String>) returns (r: String)
      requires Valid()
      ensures |args| == 0 ==> r == defaultValue
      ensures |args| > 0 && ParseLong(args[0]).None? ==> r == defaultValue
      ensures |args| > 0 && ParseLong(args[0]).Some? &&
              (forall i :: 0 <= i < starts.Length ==> !(starts[i] <= ParseLong(args[0]).value <= ends[i]))
              ==> r == defaultValue
      ensures forall i :: 0 <= i < starts.Length && |args| > 0 && ParseLong(args[0]).Some? &&
                          starts[i] <= ParseLong(args[0]).value <= ends[i] ==>
                r == if values[i] == [] then defaultValue else Substituted(values[i], args)
    {
      if |args| == 0 {
        return defaultValue;
      }
      var parsed := ParseLong(args[0]);
      if parsed.None? {
        return defaultValue;
      }
      var idx := FindRangeIndex(parsed.value);
      if idx < 0 {
        return defaultValue;
      }
      var template := values[idx];
      if template == [] {
        return defaultValue;
      }
      if |args| == 1 {
        return template;
      }
      r := ApplyArgs(template, args);
    }
  }
}
