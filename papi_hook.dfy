/**
 * The `%imc_…%` placeholder-expansion protocol of `PAPIHook`: the request string
 * (after PlaceholderAPI has expanded nested placeholders) is split on `_`, the first
 * token chooses `parse`, `font` or a registered placeholder, and the remaining tokens
 * are re-joined with a type-dependent separator and re-split into arguments.
 *
 * What the external renderers make of a request (tag processing, MiniMessage,
 * serializers, `integerToRoman`, the small-caps font, `Placeholder.asString`) is not
 * modelled: a `Reply` names the call the hook makes and its arguments.
 */
module PapiHook {
  import opened Wrappers
  import opened JavaStrings

  const ILLEGAL_NUMBER_FORMAT_MSG: String := "Illegal Number Format"
  const ILLEGAL_ARGUMENT_MSG: String := "Illegal Argument"
  const PLACEHOLDER_NOT_FOUND_MSG: String := "Placeholder not found"
  const UNKNOWN_FONT_MSG: String := "ERROR"

  /** The placeholder types the hook distinguishes; every other type is `Other`. */
  datatype PlaceholderType = Color | ColoredText | Math | ProgressBar | Other

  /** The two serializers of `parse`: the legacy one (also used for the console) and MiniMessage. */
  datatype Format = Legacy | Mini

  /** What the hook answers, or which external renderer it hands what to. */
  datatype Reply =
    | Message(text: String)                    // a literal string
    | Roman(number: int)                       // Strings.integerToRoman(number)
    | SmallCaps(text: String)                  // MappedFont.SMALL_CAPS.apply(text)
    | Parsed(content: String, format: Format)  // tags processed, translated, serialized
    | Resolved(key: String, args: seq<String>) // placeholder.asString(player, args)

  /** The output-format words of `parse`; `COLOR`/`COLORED_TEXT` use the same words for `::`. */
  const FORMAT_WORDS: set<String> := {"legacy", "mini", "console", "l", "m", "c"}

  /** The `MATH` keywords (besides a `…dp` suffix) that take their argument after `::`. */
  const MATH_WORDS: set<String> := {"commas", "fixed", "formatted"}

  predicate NoChar(s: String, c: char) {
    forall k :: 0 <= k < |s| ==> s[k] != c
  }

  /** The serializer a format word selects; anything else is MiniMessage. */
  function FormatOf(word: String): (f: Format)
    ensures f == Legacy <==> word in {"legacy", "l", "console", "c"}
  {
    if word in {"legacy", "l", "console", "c"} then Legacy else Mini
  }

  // ---------------------------------------------------------------------------
  // the output-format suffix of `parse`

  /**
   * The format suffix of `parse` content as evidently intended: when the text after
   * the last `_` is, ignoring case, a format word, the content is cut before that `_`
   * and the word selects the serializer; otherwise the content is kept and the format
   * is MiniMessage.
   */
  function FormatSuffix(content: String): (r: (String, Format))
    ensures r == (content, Mini) ||
            (|r.0| < |content| && content[..|r.0|] == r.0 && content[|r.0|] == '_' &&
             NoChar(content[|r.0| + 1..], '_') &&
             Lower(content[|r.0| + 1..]) in FORMAT_WORDS &&
             r.1 == FormatOf(Lower(content[|r.0| + 1..])))
  {
    var at := LastIndexOf(content, "_");
    if at >= 0 && Lower(content[at + 1..]) in FORMAT_WORDS then
      AfterLastUnderscore(content, at);
      (content[..at], FormatOf(Lower(content[at + 1..])))
    else
      (content, Mini)
  }

  /** No `_` follows the last one. */
  lemma AfterLastUnderscore(s: String, at: int)
    requires at == LastIndexOf(s, "_") && at >= 0
    ensures NoChar(s[at + 1..], '_')
  {
    var tail := s[at + 1..];
    forall k | 0 <= k < |tail| ensures tail[k] != '_' {
      assert tail[k] == s[at + 1 + k];
      OccursAtChar(s, '_', at + 1 + k);
    }
  }

  /** The last `_` of `c + "_" + t` is the one before `t` when `t` has none. */
  lemma LastUnderscore(c: String, t: String)
    requires NoChar(t, '_')
    ensures LastIndexOf(c + "_" + t, "_") == |c|
  {
    var s := c + "_" + t;
    OccursAtChar(s, '_', |c|);
    var r := LastIndexOf(s, "_");
    if r > |c| {
      OccursAtChar(s, '_', r);
    }
  }

  /** A trailing `_` + format word, in any casing, is cut off and selects the serializer. */
  lemma FormatSuffixCuts(c: String, t: String)
    requires NoChar(t, '_') && Lower(t) in FORMAT_WORDS
    ensures FormatSuffix(c + "_" + t) == (c, FormatOf(Lower(t)))
  {
    LastUnderscore(c, t);
    var s := c + "_" + t;
    assert s[|c| + 1..] == t;
    assert s[..|c|] == c;
  }

  /** Any other trailing word leaves the content alone and selects MiniMessage. */
  lemma FormatSuffixKeeps(c: String, t: String)
    requires NoChar(t, '_') && Lower(t) !in FORMAT_WORDS
    ensures FormatSuffix(c + "_" + t) == (c + "_" + t, Mini)
  {
    LastUnderscore(c, t);
    assert (c + "_" + t)[|c| + 1..] == t;
  }

  /** Content without `_` has no format suffix, even when it is itself a format word. */
  lemma FormatSuffixWithoutUnderscore(s: String)
    requires NoChar(s, '_')
    ensures FormatSuffix(s) == (s, Mini)
  {
    var r := LastIndexOf(s, "_");
    if r >= 0 {
      OccursAtChar(s, '_', r);
    }
  }

  /**
   * The suffix logic as written: the last `split("_")` part is lower-cased and the
   * content cut at `lastIndexOf("_" + lowered)`, which is `-1` (and `substring(0, -1)`
   * throws, outside the `try`) when the content has no `_` or the word was not written
   * in lower case.
   */
  datatype Cut = Cut(content: String, format: Format) | OutOfBounds

  function FormatSuffixAsWritten(content: String): (r: Cut)
    ensures r.Cut? ==> |r.content| <= |content| && r.content == content[..|r.content|]
    ensures r.Cut? && |r.content| < |content| ==> content[|r.content|] == '_'
    ensures r.Cut? && r.format == Legacy ==> |r.content| < |content|
    ensures NoChar(content, '_') ==> r.OutOfBounds? || r == Cut(content, Mini)
  {
    var parts := Split(content, "_");
    if |parts| > 0 then
      var last := Lower(parts[|parts| - 1]);
      if last in FORMAT_WORDS then
        var at := LastIndexOf(content, "_" + last);
        if at < 0 then OutOfBounds
        else
          assert content[at..at + |"_" + last|] == "_" + last;
          assert content[at] == content[at..at + |"_" + last|][0] == ("_" + last)[0] == '_';
          Cut(content[..at], FormatOf(last))
      else
        Cut(content, Mini)
    else
      Cut(content, Mini)
  }

  /** The as-written cut, given the last `split("_")` part of the content. */
  lemma AsWrittenByLastPart(s: String, w: String)
    requires |Split(s, "_")| > 0 && Split(s, "_")[|Split(s, "_")| - 1] == w
    ensures Lower(w) !in FORMAT_WORDS ==> FormatSuffixAsWritten(s) == Cut(s, Mini)
    ensures Lower(w) in FORMAT_WORDS && LastIndexOf(s, "_" + Lower(w)) < 0 ==> FormatSuffixAsWritten(s) == OutOfBounds
    ensures Lower(w) in FORMAT_WORDS && LastIndexOf(s, "_" + Lower(w)) >= 0 ==>
              FormatSuffixAsWritten(s) == Cut(s[..LastIndexOf(s, "_" + Lower(w))], FormatOf(Lower(w)))
  {
  }

  /** Where the trailing format word is written in lower case both agree. */
  lemma AsWrittenAgreesOnLowerCase(c: String, t: String)
    requires t != [] && NoChar(t, '_') && Lower(t) == t && t in FORMAT_WORDS
    ensures FormatSuffixAsWritten(c + "_" + t) == Cut(c, FormatOf(t))
  {
    var s := c + "_" + t;
    var k := "_" + t;
    assert s == c + k;
    LastIndexOfSuffix(c, k);
    assert s[..|c|] == c;
    SplitLastPart(c, '_', t);
    assert Split(s, "_")[|Split(s, "_")| - 1] == t;
    AsWrittenByLastPart(s, t);
  }

  /** ... and where the trailing word is no format word in any casing. */
  lemma AsWrittenAgreesWithoutFormatWord(c: String, t: String)
    requires t != [] && NoChar(t, '_') && Lower(t) !in FORMAT_WORDS
    ensures FormatSuffixAsWritten(c + "_" + t) == Cut(c + "_" + t, Mini)
    ensures FormatSuffix(c + "_" + t) == (c + "_" + t, Mini)
  {
    SplitLastPart(c, '_', t);
    FormatSuffixKeeps(c, t);
  }

  /** `parse_mini`: content that is a bare format word makes the as-written code throw. */
  lemma AsWrittenFailsOnBareWord(k: String)
    requires NoChar(k, '_') && Lower(k) in FORMAT_WORDS
    ensures FormatSuffixAsWritten(k) == OutOfBounds
    ensures FormatSuffix(k) == (k, Mini)
  {
    assert !Contains(k, "_") by {
      forall i | 0 <= i <= |k| - 1 ensures !OccursAt(k, "_", i) { OccursAtChar(k, '_', i); }
    }
    SplitWithoutMatch(k, "_");
    FormatSuffixWithoutUnderscore(k);
  }

  /**
   * A format word not written in lower case makes the as-written code throw when its
   * lower-case spelling, preceded by `_`, occurs nowhere in the content.
   */
  lemma AsWrittenFailsWithoutLowerSpelling(c: String, t: String)
    requires t != [] && NoChar(t, '_') && Lower(t) in FORMAT_WORDS
    requires !Contains(c + "_" + t, "_" + Lower(t))
    ensures FormatSuffixAsWritten(c + "_" + t) == OutOfBounds
    ensures FormatSuffix(c + "_" + t) == (c, FormatOf(Lower(t)))
  {
    SplitLastPart(c, '_', t);
    AsWrittenByLastPart(c + "_" + t, t);
    assert LastIndexOf(c + "_" + t, "_" + Lower(t)) < 0;
    FormatSuffixCuts(c, t);
  }

  /** When the lower-case spelling does occur, the as-written code cuts at its last occurrence. */
  lemma AsWrittenCutsAtLowerSpelling(c: String, t: String, at: int)
    requires t != [] && NoChar(t, '_') && Lower(t) in FORMAT_WORDS
    requires at == LastIndexOf(c + "_" + t, "_" + Lower(t)) && at >= 0
    ensures FormatSuffixAsWritten(c + "_" + t) == Cut((c + "_" + t)[..at], FormatOf(Lower(t)))
  {
    SplitLastPart(c, '_', t);
    AsWrittenByLastPart(c + "_" + t, t);
  }

  /** `parse_Hi_MINI`: the upper-case `MINI` makes the as-written code throw. */
  lemma AsWrittenFailsOnUpperCase()
    ensures FormatSuffixAsWritten("Hi_MINI") == OutOfBounds
    ensures FormatSuffix("Hi_MINI") == ("Hi", Mini)
  {
    var s, c, t := "Hi_MINI", "Hi", "MINI";
    assert s == c + "_" + t;
    LowerMini(t);
    NoLowerMini(s);
    AsWrittenFailsWithoutLowerSpelling(c, t);
  }

  lemma LowerMini(t: String)
    requires t == "MINI"
    ensures NoChar(t, '_') && Lower(t) == "mini" && Lower(t) in FORMAT_WORDS && "_" + Lower(t) == "_mini"
  {
    assert Lower(t)[0] == 'm' && Lower(t)[1] == 'i' && Lower(t)[2] == 'n' && Lower(t)[3] == 'i';
  }

  lemma NoLowerMini(s: String)
    requires s == "Hi_MINI"
    ensures !Contains(s, "_mini")
  {
    forall i | 0 <= i <= |s| - 5 ensures !OccursAt(s, "_mini", i) {
      assert s[i..i + 5][0] == s[i] && s[i..i + 5][1] == s[i + 1];
    }
  }

  /** `parse_a_lx_L`: an earlier lower-case `_l` makes the as-written code cut too much ... */
  lemma AsWrittenCutsTooMuch()
    ensures FormatSuffixAsWritten("a_lx_L") == Cut("a", Legacy)
  {
    var s, c, t := "a_lx_L", "a_lx", "L";
    assert s == c + "_" + t;
    LowerL(t);
    LastLowerL(s);
    AsWrittenCutsAtLowerSpelling(c, t, 1);
    assert s[..1] == "a";
  }

  /** ... where only the trailing `_L` goes. */
  lemma CorrectedCutsLastWord()
    ensures FormatSuffix("a_lx_L") == ("a_lx", Legacy)
  {
    var s, c, t := "a_lx_L", "a_lx", "L";
    assert s == c + "_" + t;
    LowerL(t);
    FormatSuffixCuts(c, t);
  }

  lemma LowerL(t: String)
    requires t == "L"
    ensures NoChar(t, '_') && Lower(t) == "l" && Lower(t) in FORMAT_WORDS && "_" + Lower(t) == "_l"
    ensures FormatOf(Lower(t)) == Legacy
  {
    assert Lower(t)[0] == 'l';
  }

  lemma LastLowerL(s: String)
    requires s == "a_lx_L"
    ensures LastIndexOf(s, "_l") == 1
  {
    assert OccursAt(s, "_l", 1) by { assert s[1..3] == "_l"; }
    assert s[2..4][0] == s[2] && s[3..5][0] == s[3] && s[4..6][1] == s[5];
  }

  // ---------------------------------------------------------------------------
  // parse and font

  /** `handleParse`: the content is the tokens after `parse`, `_`-joined, then stripped of its format suffix. */
  function ParseReply(tokens: seq<String>): (r: Reply)
    ensures r == Message(ILLEGAL_ARGUMENT_MSG) <==> |tokens| < 2
    ensures r.Parsed? <==> |tokens| >= 2
  {
    if |tokens| < 2 then Message(ILLEGAL_ARGUMENT_MSG)
    else
      var cut := FormatSuffix(Join(tokens[1..], "_"));
      Parsed(cut.0, cut.1)
  }

  /** `handleParse`, with its `StringBuilder` join loop. */
  method HandleParse(tokens: seq<String>) returns (r: Reply)
    ensures r == ParseReply(tokens)
  {
    if |tokens| < 2 {
      return Message(ILLEGAL_ARGUMENT_MSG);
    }
    var content: String := [];
    var i := 1;
    while i < |tokens|
      invariant 1 <= i <= |tokens|
      invariant content == Join(tokens[1..i], "_")
    {
      JoinSnoc(tokens[1..i], tokens[i], "_");
      assert tokens[1..i + 1] == tokens[1..i] + [tokens[i]];
      if i > 1 {
        content := content + "_";
      }
      content := content + tokens[i];
      i := i + 1;
    }
    assert tokens[1..i] == tokens[1..];
    var cut := FormatSuffix(content);
    r := Parsed(cut.0, cut.1);
  }

  /** `handleFont`: `latin` renders an `int` in Roman numerals, `smallcaps` maps the lower-cased text. */
  function FontReply(tokens: seq<String>): (r: Reply)
    requires |tokens| >= 3
    ensures r == Message(ILLEGAL_NUMBER_FORMAT_MSG) <==> Lower(tokens[1]) == "latin" && ParseInt(tokens[2]).None?
    ensures r.Roman? <==> Lower(tokens[1]) == "latin" && ParseInt(tokens[2]).Some?
    ensures r.Roman? ==> ParseInt(tokens[2]) == Some(r.number)
    ensures r.SmallCaps? <==> Lower(tokens[1]) == "smallcaps"
    ensures r.SmallCaps? ==> r.text == Lower(tokens[2])
    ensures r == Message(UNKNOWN_FONT_MSG) <==> Lower(tokens[1]) != "latin" && Lower(tokens[1]) != "smallcaps"
  {
    var font := Lower(tokens[1]);
    if font == "latin" then
      match ParseInt(tokens[2])
      case Some(n) => Roman(n)
      case None => Message(ILLEGAL_NUMBER_FORMAT_MSG)
    else if font == "smallcaps" then SmallCaps(Lower(tokens[2]))
    else Message(UNKNOWN_FONT_MSG)
  }

  // ---------------------------------------------------------------------------
  // registered placeholders

  /** The separator `handlePlaceholder` puts after the first parameter, for three or more tokens. */
  function Separator(t: PlaceholderType, first: String): (r: String)
    ensures r == "::" || r == "_"
    ensures r == "::" <==>
      ((t == Color || t == ColoredText) && Lower(first) in FORMAT_WORDS) ||
      (t == Math && (EndsWith(Lower(first), "dp") || Lower(first) in MATH_WORDS))
  {
    var lower := Lower(first);
    match t
    case Color => if lower in FORMAT_WORDS then "::" else "_"
    case ColoredText => if lower in FORMAT_WORDS then "::" else "_"
    case Math => if EndsWith(lower, "dp") || lower in MATH_WORDS then "::" else "_"
    case _ => "_"
  }

  /** The delimiter the rebuilt parameter string is finally split on. */
  function ArgDelimiter(t: PlaceholderType): String {
    if t == ProgressBar then "_" else "::"
  }

  /** `handlePlaceholder`: the registry is looked up by the first token in its original case. */
  function PlaceholderReply(tokens: seq<String>, registry: map<String, PlaceholderType>): (r: Reply)
    requires |tokens| >= 1
    ensures r == Message(PLACEHOLDER_NOT_FOUND_MSG) <==> tokens[0] !in registry
    ensures r.Resolved? <==> tokens[0] in registry
    ensures r.Resolved? ==> r.key == tokens[0]
    ensures |tokens| == 1 && r.Resolved? ==> r.args == []
  {
    if tokens[0] !in registry then Message(PLACEHOLDER_NOT_FOUND_MSG)
    else if |tokens| == 1 then Resolved(tokens[0], [])
    else if |tokens| == 2 then Resolved(tokens[0], Split(tokens[1], "::"))
    else
      var t := registry[tokens[0]];
      Resolved(tokens[0], Split(tokens[1] + Separator(t, tokens[1]) + Join(tokens[2..], "_"), ArgDelimiter(t)))
  }

  /** The `StringBuilder` loop: each part appended, with `_` after every part but the last. */
  method AppendJoined(prefix: String, parts: seq<String>) returns (builder: String)
    ensures builder == prefix + Join(parts, "_")
  {
    builder := prefix;
    for i := 0 to |parts|
      invariant builder == prefix + Join(parts[..i], "_") + (if 0 < i < |parts| then "_" else "")
    {
      JoinSnoc(parts[..i], parts[i], "_");
      assert parts[..i + 1] == parts[..i] + [parts[i]];
      if i == 0 {
        assert builder == prefix;
      } else {
        assert builder == prefix + (Join(parts[..i], "_") + "_");
      }
      assert builder + parts[i] == prefix + Join(parts[..i + 1], "_");
      builder := builder + parts[i];
      if i < |parts| - 1 {
        builder := builder + "_";
      }
    }
    assert parts[..|parts|] == parts;
  }

  /** `handlePlaceholder`, with its `StringBuilder` loop over the tokens after the first parameter. */
  method HandlePlaceholder(tokens: seq<String>, registry: map<String, PlaceholderType>) returns (r: Reply)
    requires |tokens| >= 1
    ensures r == PlaceholderReply(tokens, registry)
  {
    if tokens[0] !in registry {
      return Message(PLACEHOLDER_NOT_FOUND_MSG);
    }
    if |tokens| == 1 {
      return Resolved(tokens[0], []);
    }
    var first := tokens[1];
    if |tokens| == 2 {
      return Resolved(tokens[0], Split(first, "::"));
    }
    var t := registry[tokens[0]];
    var prefix := first + Separator(t, first);
    var builder := AppendJoined(prefix, tokens[2..]);
    r := Resolved(tokens[0], Split(builder, ArgDelimiter(t)));
  }

  /** A request split on `_` has delimiter-free tokens, the last one non-empty when there are several. */
  predicate RequestTokens(tokens: seq<String>) {
    |tokens| >= 1 && NoneContains(tokens, '_') && tokens[|tokens| - 1] != []
  }

  lemma JoinEndsWithLast(xs: seq<String>, sep: String)
    requires |xs| >= 1
    ensures |Join(xs, sep)| >= |xs[|xs| - 1]|
  {
    JoinSnoc(xs[..|xs| - 1], xs[|xs| - 1], sep);
    assert xs[..|xs| - 1] + [xs[|xs| - 1]] == xs;
  }

  lemma TailTokens(tokens: seq<String>, from: nat, c: char)
    requires from < |tokens| && NoneContains(tokens, c)
    ensures NoneContains(tokens[from..], c)
  {
    forall i, j | 0 <= i < |tokens| - from && 0 <= j < |tokens[from..][i]| ensures tokens[from..][i][j] != c {
      assert tokens[from..][i] == tokens[from + i];
    }
  }

  lemma NoColonNoDoubleColon(s: String)
    requires NoChar(s, ':')
    ensures !Contains(s, "::")
  {
    forall i | 0 <= i <= |s| - 2 ensures !OccursAt(s, "::", i) {
      assert s[i..i + 2][0] == s[i];
    }
  }

  /** A progress bar receives exactly the tokens after its name as arguments. */
  lemma ProgressBarArguments(tokens: seq<String>, registry: map<String, PlaceholderType>)
    requires |tokens| >= 3 && RequestTokens(tokens)
    requires tokens[0] in registry && registry[tokens[0]] == ProgressBar
    ensures PlaceholderReply(tokens, registry) == Resolved(tokens[0], tokens[1..])
  {
    var rest := tokens[1..];
    TailTokens(tokens, 1, '_');
    assert rest == [tokens[1]] + tokens[2..];
    assert rest[|rest| - 1] == tokens[|tokens| - 1];
    JoinCons(tokens[1], tokens[2..], "_");
    assert Join(rest, "_") == tokens[1] + "_" + Join(tokens[2..], "_");
    SplitOfJoin(rest, "_");
    assert Separator(ProgressBar, tokens[1]) == "_";
  }

  /** With two tokens the parameter is split on `::`, whatever the placeholder's type. */
  lemma TwoTokenArguments(tokens: seq<String>, registry: map<String, PlaceholderType>)
    requires |tokens| == 2 && tokens[0] in registry
    ensures PlaceholderReply(tokens, registry) == Resolved(tokens[0], Split(tokens[1], "::"))
  {
  }

  /** `name_A::B`, with A and B free of `:`: the two arguments A and B. */
  lemma TwoTokenDoubleColon(name: String, a: String, b: String, registry: map<String, PlaceholderType>)
    requires name in registry && NoChar(a, ':') && NoChar(b, ':') && b != []
    ensures PlaceholderReply([name, a + "::" + b], registry) == Resolved(name, [a, b])
  {
    var xs := [a, b];
    assert NoneContains(xs, ':') by {
      forall i, j | 0 <= i < 2 && 0 <= j < |xs[i]| ensures xs[i][j] != ':' {
        if i == 0 { assert xs[i] == a; } else { assert xs[i] == b; }
      }
    }
    JoinCons(a, [b], "::");
    assert Join(xs, "::") == a + "::" + b;
    SplitOfJoin(xs, "::");
    TwoTokenArguments([name, a + "::" + b], registry);
  }

  /**
   * A placeholder that is not a progress bar, given two tokens or a first parameter that
   * takes `_`, receives the tokens after its name re-joined with `_` and then split on
   * `::`; when no token holds `:` that is a single argument.
   */
  lemma UnderscoreJoinedArgument(tokens: seq<String>, registry: map<String, PlaceholderType>)
    requires |tokens| >= 2 && tokens[0] in registry
    requires |tokens| == 2 || (registry[tokens[0]] != ProgressBar && Separator(registry[tokens[0]], tokens[1]) == "_")
    ensures PlaceholderReply(tokens, registry) == Resolved(tokens[0], Split(Join(tokens[1..], "_"), "::"))
    ensures NoneContains(tokens, ':') ==> PlaceholderReply(tokens, registry) == Resolved(tokens[0], [Join(tokens[1..], "_")])
  {
    var rest := tokens[1..];
    assert rest == [tokens[1]] + tokens[2..];
    JoinCons(tokens[1], tokens[2..], "_");
    assert Join(rest, "_") == if |tokens| == 2 then tokens[1] else tokens[1] + "_" + Join(tokens[2..], "_");
    if NoneContains(tokens, ':') {
      TailTokens(tokens, 1, ':');
      JoinAvoids(rest, "_", ':');
      NoColonNoDoubleColon(Join(rest, "_"));
      SplitWithoutMatch(Join(rest, "_"), "::");
    }
  }

  /**
   * A format flavour of a colour placeholder, or a `MATH` keyword, is followed by `::`
   * and the `_`-joined remaining tokens, and the whole is split on `::`; when no token
   * holds `:` that gives the first parameter and the joined rest as two arguments.
   */
  lemma DoubleColonArguments(tokens: seq<String>, registry: map<String, PlaceholderType>)
    requires |tokens| >= 3 && tokens[0] in registry && Separator(registry[tokens[0]], tokens[1]) == "::"
    ensures PlaceholderReply(tokens, registry) ==
            Resolved(tokens[0], Split(tokens[1] + "::" + Join(tokens[2..], "_"), "::"))
    ensures RequestTokens(tokens) && NoneContains(tokens, ':') ==>
              PlaceholderReply(tokens, registry) == Resolved(tokens[0], [tokens[1], Join(tokens[2..], "_")])
  {
    if RequestTokens(tokens) && NoneContains(tokens, ':') {
      var tail := Join(tokens[2..], "_");
      TailTokens(tokens, 2, ':');
      JoinAvoids(tokens[2..], "_", ':');
      JoinEndsWithLast(tokens[2..], "_");
      var xs := [tokens[1], tail];
      assert NoneContains(xs, ':');
      assert Join(xs, "::") == tokens[1] + "::" + tail;
      SplitOfJoin(xs, "::");
    }
  }

  // ---------------------------------------------------------------------------
  // the request dispatch

  /** `onPlaceholderRequest` after the PlaceholderAPI expansion, on the `_`-split tokens. */
  function Dispatch(tokens: seq<String>, registry: map<String, PlaceholderType>): (r: Reply)
    ensures tokens == [] ==> r == Message(ILLEGAL_ARGUMENT_MSG)
    ensures tokens != [] && Lower(tokens[0]) == "parse" ==> r == ParseReply(tokens)
    ensures tokens != [] && Lower(tokens[0]) in {"font", "f"} && |tokens| >= 3 ==> r == FontReply(tokens)
    ensures tokens != [] && Lower(tokens[0]) != "parse" && !(Lower(tokens[0]) in {"font", "f"} && |tokens| >= 3) ==>
              r == PlaceholderReply(tokens, registry)
  {
    if |tokens| == 0 then Message(ILLEGAL_ARGUMENT_MSG)
    else
      var first := Lower(tokens[0]);
      if first == "parse" then ParseReply(tokens)
      else if (first == "font" || first == "f") && |tokens| >= 3 then FontReply(tokens)
      else PlaceholderReply(tokens, registry)
  }

  /** `onPlaceholderRequest`, taking the parameter string as PlaceholderAPI returns it. */
  method OnPlaceholderRequest(params: String, registry: map<String, PlaceholderType>) returns (r: Reply)
    ensures r == Dispatch(Split(params, "_"), registry)
  {
    var tokens := Split(params, "_");
    if |tokens| == 0 {
      return Message(ILLEGAL_ARGUMENT_MSG);
    }
    var first := Lower(tokens[0]);
    if first == "parse" {
      r := HandleParse(tokens);
    } else if (first == "font" || first == "f") && |tokens| >= 3 {
      r := FontReply(tokens);
    } else {
      r := HandlePlaceholder(tokens, registry);
    }
  }

  /** A request made only of underscores has no tokens and is an illegal argument. */
  lemma OnlyUnderscoresIllegal(params: String, registry: map<String, PlaceholderType>)
    requires params != [] && forall k :: 0 <= k < |params| ==> params[k] == '_'
    ensures Dispatch(Split(params, "_"), registry) == Message(ILLEGAL_ARGUMENT_MSG)
  {
    SplitOfRepeated(params, '_');
  }

  lemma ParseHasNoUnderscore(head: String)
    requires Lower(head) == "parse"
    ensures NoChar(head, '_')
  {
    forall k | 0 <= k < |head| ensures head[k] != '_' {
      assert Lower(head)[k] == LowerChar(head[k]);
    }
  }

  lemma ConsTokens(head: String, xs: seq<String>, c: char)
    requires NoChar(head, c) && NoneContains(xs, c)
    ensures NoneContains([head] + xs, c)
  {
    var tokens := [head] + xs;
    forall i, j | 0 <= i < |tokens| && 0 <= j < |tokens[i]| ensures tokens[i][j] != c {
      if i > 0 { assert tokens[i] == xs[i - 1]; }
    }
  }

  lemma ParseTokens(head: String, xs: seq<String>)
    requires NoChar(head, '_')
    requires |xs| >= 1 && NoneContains(xs, '_') && xs[|xs| - 1] != []
    ensures Split(head + "_" + Join(xs, "_"), "_") == [head] + xs
  {
    var tokens := [head] + xs;
    ConsTokens(head, xs, '_');
    assert tokens[|tokens| - 1] == xs[|xs| - 1];
    JoinCons(head, xs, "_");
    assert Join(tokens, "_") == head + "_" + Join(xs, "_");
    SplitOfJoin(tokens, "_");
  }

  lemma DispatchToParse(head: String, xs: seq<String>, registry: map<String, PlaceholderType>)
    requires Lower(head) == "parse" && |xs| >= 1
    ensures Dispatch([head] + xs, registry) == ParseReply([head] + xs)
  {
    assert ([head] + xs)[0] == head;
  }

  lemma ParseReplyOfCons(head: String, xs: seq<String>)
    requires |xs| >= 1
    ensures ParseReply([head] + xs) == Parsed(FormatSuffix(Join(xs, "_")).0, FormatSuffix(Join(xs, "_")).1)
  {
    assert ([head] + xs)[1..] == xs;
  }

  /** `parse_<content>`: the content is rebuilt exactly, then stripped of its format suffix. */
  lemma ParseRequest(head: String, xs: seq<String>, registry: map<String, PlaceholderType>)
    requires Lower(head) == "parse"
    requires |xs| >= 1 && NoneContains(xs, '_') && xs[|xs| - 1] != []
    ensures Dispatch(Split(head + "_" + Join(xs, "_"), "_"), registry) ==
            Parsed(FormatSuffix(Join(xs, "_")).0, FormatSuffix(Join(xs, "_")).1)
  {
    ParseHasNoUnderscore(head);
    ParseTokens(head, xs);
    DispatchToParse(head, xs, registry);
    ParseReplyOfCons(head, xs);
  }
}
