/**
 * Colour placeholders (`ColorPlaceholderData`): a configured colour value, classified
 * as a named colour, a hex colour or invalid, plus the enabled text decorations, and
 * the strings the placeholder answers for each output flavour (`closestname`,
 * `legacy`, `console`, `mini`).
 *
 * The colour libraries (`NamedTextColor`, `TextColor.fromHexString`, the hex pattern,
 * `ChatColor`) are a `Palette` of functions passed to the constructor.
 */
module ColorPlaceholders {
  import opened Wrappers
  import opened JavaStrings

  /** The section sign that starts a legacy formatting code. */
  const SECTION: char := '\U{00A7}'

  // ---------------------------------------------------------------------------
  // decorations

  datatype Decoration = Bold | Italic | Obfuscated | Underlined | Strikethrough {

    /** The configuration key, which is also the MiniMessage tag name. */
    function Name(): String {
      match this
      case Bold => "bold"
      case Italic => "italic"
      case Obfuscated => "obfuscated"
      case Underlined => "underlined"
      case Strikethrough => "strikethrough"
    }

    /** The legacy code character after `&`. */
    function Code(): char {
      match this
      case Bold => 'l'
      case Italic => 'o'
      case Obfuscated => 'k'
      case Underlined => 'n'
      case Strikethrough => 'm'
    }
  }

  function FromCode(c: char): (r: Option<Decoration>)
    ensures r.Some? ==> r.value.Code() == c
  {
    match c
    case 'l' => Some(Bold)
    case 'o' => Some(Italic)
    case 'k' => Some(Obfuscated)
    case 'n' => Some(Underlined)
    case 'm' => Some(Strikethrough)
    case _ => None
  }

  lemma FromCodeOfCode(d: Decoration)
    ensures FromCode(d.Code()) == Some(d)
  {
  }

  function CodeText(d: Decoration): String { ['&', d.Code()] }
  function OpenTag(d: Decoration): String { "<" + d.Name() + ">" }
  function CloseTag(d: Decoration): String { "</" + d.Name() + ">" }

  /** The decorations of `order` that are enabled, in that order. */
  function Kept(order: seq<Decoration>, enabled: set<Decoration>): (r: seq<Decoration>)
    ensures forall d :: d in r <==> d in order && d in enabled
    ensures |r| <= |order|
  {
    if order == [] then []
    else (if order[0] in enabled then [order[0]] else []) + Kept(order[1..], enabled)
  }

  /** One piece per decoration, concatenated in order. */
  function Render(ds: seq<Decoration>, piece: Decoration -> String): String {
    if ds == [] then [] else piece(ds[0]) + Render(ds[1..], piece)
  }

  lemma {:induction false} RenderSnoc(ds: seq<Decoration>, d: Decoration, piece: Decoration -> String)
    ensures Render(ds + [d], piece) == Render(ds, piece) + piece(d)
  {
    if ds != [] {
      assert (ds + [d])[1..] == ds[1..] + [d];
      RenderSnoc(ds[1..], d, piece);
    }
  }

  lemma {:induction false} KeptSnoc(order: seq<Decoration>, d: Decoration, enabled: set<Decoration>)
    ensures Kept(order + [d], enabled) == Kept(order, enabled) + (if d in enabled then [d] else [])
  {
    if order != [] {
      assert (order + [d])[1..] == order[1..] + [d];
      KeptSnoc(order[1..], d, enabled);
    }
  }

  /** Reads legacy `&`-codes back into decorations, stopping at the first thing that is not one. */
  function DecodeCodes(s: String): seq<Decoration>
    decreases |s|
  {
    if |s| < 2 || s[0] != '&' || FromCode(s[1]).None? then []
    else [FromCode(s[1]).value] + DecodeCodes(s[2..])
  }

  /** The legacy property string names exactly the decorations it was built from, in order. */
  lemma {:induction false} CodesRoundTrip(ds: seq<Decoration>)
    ensures DecodeCodes(Render(ds, CodeText)) == ds
  {
    if ds != [] {
      var s := Render(ds, CodeText);
      assert s == CodeText(ds[0]) + Render(ds[1..], CodeText);
      assert s[2..] == Render(ds[1..], CodeText);
      FromCodeOfCode(ds[0]);
      CodesRoundTrip(ds[1..]);
    }
  }

  /** The three decoration strings, all built from one list of enabled decorations. */
  datatype StyleStrings = StyleStrings(properties: String, miniPrefix: String, miniSuffix: String)

  function StylesOf(kept: seq<Decoration>): StyleStrings {
    StyleStrings(Render(kept, CodeText), Render(kept, OpenTag), Render(kept, CloseTag))
  }

  /** One more kept decoration extends each of the three strings by that decoration's piece. */
  lemma StylesAppend(kept: seq<Decoration>, d: Decoration)
    ensures StylesOf(kept + [d]) ==
      StyleStrings(StylesOf(kept).properties + CodeText(d), StylesOf(kept).miniPrefix + OpenTag(d),
                   StylesOf(kept).miniSuffix + CloseTag(d))
  {
    RenderSnoc(kept, d, CodeText);
    RenderSnoc(kept, d, OpenTag);
    RenderSnoc(kept, d, CloseTag);
  }

  /**
   * `initializeStyle`'s loop over the decoration keys (in the map's iteration order
   * `order`): each enabled decoration appends its code, its opening tag and its closing tag.
   */
  method InitializeStyle(order: seq<Decoration>, enabled: set<Decoration>) returns (r: StyleStrings, decorations: set<Decoration>)
    ensures r == StylesOf(Kept(order, enabled))
    ensures forall d :: d in decorations <==> d in order && d in enabled
  {
    r := StyleStrings([], [], []);
    decorations := {};
    ghost var kept: seq<Decoration> := [];
    for i := 0 to |order|
      invariant kept == Kept(order[..i], enabled)
      invariant r == StylesOf(kept)
      invariant forall d :: d in decorations <==> d in kept
    {
      var d := order[i];
      assert order[..i + 1] == order[..i] + [d];
      KeptSnoc(order[..i], d, enabled);
      if d in enabled {
        StylesAppend(kept, d);
        r := StyleStrings(r.properties + CodeText(d), r.miniPrefix + OpenTag(d), r.miniSuffix + CloseTag(d));
        decorations := decorations + {d};
        kept := kept + [d];
      } else {
        assert kept + [] == kept;
      }
    }
    assert order[..|order|] == order;
  }

  /** Without enabled decorations all three strings are empty. */
  lemma {:induction false} NothingEnabled(order: seq<Decoration>)
    ensures StylesOf(Kept(order, {})) == StyleStrings([], [], [])
  {
    if order != [] {
      NothingEnabled(order[1..]);
    }
  }

  /** A decoration's code is in the property string exactly when it is enabled and listed. */
  lemma PropertiesNameEnabled(order: seq<Decoration>, enabled: set<Decoration>, d: Decoration)
    ensures d in DecodeCodes(StylesOf(Kept(order, enabled)).properties) <==> d in order && d in enabled
  {
    CodesRoundTrip(Kept(order, enabled));
  }

  // ---------------------------------------------------------------------------
  // classification of the colour value

  predicate HexLike(s: String) { |s| >= 1 && s[0] == '#' }

  /**
   * The colour libraries: the named colours with their hex strings, the hex pattern,
   * whether `TextColor` parses a hex string, the nearest named colour of a hex colour,
   * and the text of `ChatColor.valueOf(name.toUpperCase())`.
   */
  datatype Palette = Palette(
    named: String -> Option<String>,
    matchesHex: String -> bool,
    parsesHex: String -> bool,
    nearest: String -> String,
    legacyText: String -> String)
  {
    /** Hex strings, named or matched by the pattern, start with `#`. */
    ghost predicate WellFormed() {
      (forall s :: named(s).Some? ==> HexLike(named(s).value)) &&
      (forall s :: matchesHex(s) ==> HexLike(s))
    }
  }

  datatype Colour = Colour(legacy: bool, invalid: bool, nameValue: String, hexValue: String)

  /** The constructor's classification of the (lower-cased) configured value. */
  function Classify(value: String, palette: Palette): (c: Colour)
    requires palette.WellFormed()
    ensures c.legacy <==> palette.named(value).Some?
    ensures c.invalid <==> palette.named(value).None? && !palette.matchesHex(value)
    ensures c.invalid ==> c.nameValue == "white" && c.hexValue == "#ff0000"
    ensures c.legacy ==> c.nameValue == value && c.hexValue == palette.named(value).value
    ensures !c.legacy && !c.invalid && palette.parsesHex(value) ==> c.hexValue == value
    ensures HexLike(c.hexValue)
  {
    match palette.named(value)
    case Some(hex) => Colour(true, false, value, hex)
    case None =>
      if palette.matchesHex(value) then
        if palette.parsesHex(value) then Colour(false, false, palette.nearest(value), value)
        else Colour(false, false, value, "#ff0000")
      else Colour(false, true, "white", "#ff0000")
  }

  datatype ColorSection = ColorSection(value: Option<String>, enabled: set<Decoration>)

  /** The Adventure style: the colour (when the hex string parses) and the decorations. */
  datatype Style = Style(color: Option<String>, decorations: set<Decoration>)

  // ---------------------------------------------------------------------------
  // the console hex expansion

  /** Each character preceded by a section sign. */
  function SectionDigits(s: String): (r: String)
    ensures |r| == 2 * |s|
    ensures forall i :: 0 <= i < |s| ==> r[2 * i] == SECTION && r[2 * i + 1] == s[i]
    decreases |s|
  {
    if s == [] then []
    else
      var init := SectionDigits(s[..|s| - 1]);
      assert forall i :: 0 <= i < |s| - 1 ==> s[..|s| - 1][i] == s[i];
      init + [SECTION, s[|s| - 1]]
  }

  /** `§x` followed by `§` and a digit for every hex digit after the `#`. */
  method ConsoleHex(hexValue: String) returns (r: String)
    requires |hexValue| >= 1
    ensures r == [SECTION, 'x'] + SectionDigits(hexValue[1..])
  {
    var hexColor := hexValue[1..];
    r := [SECTION, 'x'];
    var i := 0;
    while i < |hexColor|
      invariant 0 <= i <= |hexColor|
      invariant r == [SECTION, 'x'] + SectionDigits(hexColor[..i])
    {
      assert hexColor[..i + 1][..i] == hexColor[..i];
      r := r + [SECTION] + [hexColor[i]];
      i := i + 1;
    }
    assert hexColor[..i] == hexColor;
  }

  /** `params[2..]` joined by single spaces, as the `mini` loop appends them. */
  method JoinFromThird(params: seq<String>) returns (r: String)
    requires |params| >= 2
    ensures r == Join(params[2..], " ")
  {
    r := [];
    var i := 2;
    while i < |params|
      invariant 2 <= i <= |params|
      invariant r == Join(params[2..i], " ") + (if 2 < i < |params| then " " else "")
    {
      JoinSnoc(params[2..i], params[i], " ");
      assert params[2..i + 1] == params[2..i] + [params[i]];
      if i == 2 {
        assert r == [];
      } else {
        assert r == Join(params[2..i], " ") + " ";
      }
      assert r + params[i] == Join(params[2..i + 1], " ");
      r := r + params[i];
      if i != |params| - 1 {
        r := r + " ";
      }
      i := i + 1;
    }
    assert params[2..i] == params[2..];
  }

  // ---------------------------------------------------------------------------
  // the placeholder

  class ColorPlaceholder {
    const value: String
    const legacy: bool
    const invalid: bool
    const nameValue: String
    const hexValue: String
    const legacyColor: String
    const properties: String
    const miniPrefix: String
    const miniSuffix: String
    const style: Style

    predicate Valid() {
      HexLike(hexValue)
    }

    /**
     * `order` is the iteration order of the decoration keys. The source's `keySet()` lists
     * each of the five decorations exactly once; the contract holds for any order, so the
     * model deliberately does not require that.
     */
    constructor(section: ColorSection, palette: Palette, order: seq<Decoration>)
      requires palette.WellFormed()
      ensures value == Lower(section.value.GetOr(""))
      ensures Colour(legacy, invalid, nameValue, hexValue) == Classify(value, palette)
      ensures legacyColor == palette.legacyText(nameValue)
      ensures StyleStrings(properties, miniPrefix, miniSuffix) == StylesOf(Kept(order, section.enabled))
      ensures style.color == (if palette.parsesHex(hexValue) then Some(hexValue) else None)
      ensures forall d :: d in style.decorations <==> d in order && d in section.enabled
      ensures Valid()
    {
      var v := Lower(section.value.GetOr(""));
      var c := Classify(v, palette);
      value := v;
      legacy := c.legacy;
      invalid := c.invalid;
      nameValue := c.nameValue;
      hexValue := c.hexValue;
      legacyColor := palette.legacyText(c.nameValue);
      var strings, decorations := InitializeStyle(order, section.enabled);
      properties := strings.properties;
      miniPrefix := strings.miniPrefix;
      miniSuffix := strings.miniSuffix;
      style := Style(if palette.parsesHex(c.hexValue) then Some(c.hexValue) else None, decorations);
    }

    /** The `mini` flavour: the opening tags, then (with more parameters) `params[2..]` and the closing tags. */
    function Mini(params: seq<String>): String
      requires |params| >= 1
    {
      var prefix := "<" + value + ">" + miniPrefix;
      if |params| > 1 then prefix + Join(params[2..], " ") + "</" + value + ">" + miniSuffix
      else prefix
    }

    /** What `getResult` answers. */
    function Result(params: seq<String>): String
      requires Valid()
    {
      if invalid then []
      else if |params| == 0 then value + properties
      else
        var keyword := Lower(params[0]);
        if keyword == "closestname" then nameValue
        else if keyword == "legacy" then
          Replace(if legacy then legacyColor + properties else "&" + hexValue + properties, [SECTION], "&")
        else if keyword == "console" then
          if legacy then legacyColor + Replace(properties, "&", [SECTION])
          else [SECTION, 'x'] + SectionDigits(hexValue[1..]) + Replace(properties, "&", [SECTION])
        else if keyword == "mini" then Mini(params)
        else value
    }

    /** `getResult`. */
    method GetResult(params: seq<String>) returns (r: String)
      requires Valid()
      ensures r == Result(params)
    {
      if invalid {
        return [];
      }
      if |params| == 0 {
        return value + properties;
      }
      var keyword := Lower(params[0]);
      if keyword == "closestname" {
        r := nameValue;
      } else if keyword == "legacy" {
        r := Replace(if legacy then legacyColor + properties else "&" + hexValue + properties, [SECTION], "&");
      } else if keyword == "console" {
        if legacy {
          r := legacyColor + Replace(properties, "&", [SECTION]);
        } else {
          var head := ConsoleHex(hexValue);
          r := head + Replace(properties, "&", [SECTION]);
        }
      } else if keyword == "mini" {
        var prefix := "<" + value + ">" + miniPrefix;
        if |params| > 1 {
          var middle := JoinFromThird(params);
          r := prefix + middle + "</" + value + ">" + miniSuffix;
        } else {
          r := prefix;
        }
      } else {
        r := value;
      }
    }

    /** An invalid colour answers the empty string whatever it is asked. */
    lemma InvalidIsEmpty(params: seq<String>)
      requires Valid() && invalid
      ensures Result(params) == []
    {
    }

    /** Flavour keywords are matched ignoring case. */
    lemma KeywordIgnoresCase(a: String, b: String, rest: seq<String>)
      requires Valid() && Lower(a) == Lower(b)
      ensures Result([a] + rest) == Result([b] + rest)
    {
      if |rest| >= 1 {
        assert ([a] + rest)[2..] == rest[1..] == ([b] + rest)[2..];
      }
    }

    /** An unrecognised keyword answers the bare value. */
    lemma UnknownKeywordIsValue(params: seq<String>)
      requires Valid() && !invalid && |params| >= 1
      requires Lower(params[0]) !in {"closestname", "legacy", "console", "mini"}
      ensures Result(params) == value
    {
    }

    /** The legacy flavour never contains a section sign: every one becomes `&`. */
    lemma LegacyHasNoSectionSign(params: seq<String>)
      requires Valid() && !invalid && |params| >= 1 && Lower(params[0]) == "legacy"
      ensures forall i :: 0 <= i < |Result(params)| ==> Result(params)[i] != SECTION
    {
      ReplaceOneChar(if legacy then legacyColor + properties else "&" + hexValue + properties, SECTION, '&');
    }

    /** For a hex colour, the legacy flavour is `&`, the hex string, then the property codes. */
    lemma LegacyHex(params: seq<String>)
      requires Valid() && !invalid && !legacy && |params| >= 1 && Lower(params[0]) == "legacy"
      requires forall i :: 0 <= i < |hexValue + properties| ==> (hexValue + properties)[i] != SECTION
      ensures Result(params) == "&" + hexValue + properties
    {
      var s := "&" + hexValue + properties;
      ReplaceOneChar(s, SECTION, '&');
      assert MapChar(s, SECTION, '&') == s by {
        forall i | 0 <= i < |s| ensures s[i] != SECTION {
          if i > 0 { assert s[i] == (hexValue + properties)[i - 1]; }
        }
      }
    }

    /**
     * For a hex colour, the console flavour is `§x`, then `§` and each hex digit, then
     * the property codes with their `&` turned into `§`.
     */
    lemma ConsoleHexShape(params: seq<String>)
      requires Valid() && !invalid && !legacy && |params| >= 1 && Lower(params[0]) == "console"
      ensures |Result(params)| == 2 * |hexValue| + |properties|
      ensures forall i :: 1 <= i < |hexValue| ==>
                Result(params)[2 * i] == SECTION && Result(params)[2 * i + 1] == hexValue[i]
      ensures Result(params)[..2] == [SECTION, 'x']
      ensures Result(params)[2 * |hexValue|..] == MapChar(properties, '&', SECTION)
    {
      ReplaceOneChar(properties, '&', SECTION);
      var digits := SectionDigits(hexValue[1..]);
      forall i | 1 <= i < |hexValue|
        ensures ([SECTION, 'x'] + digits)[2 * i] == SECTION && ([SECTION, 'x'] + digits)[2 * i + 1] == hexValue[i]
      {
        assert ([SECTION, 'x'] + digits)[2 * i] == digits[2 * (i - 1)];
        assert ([SECTION, 'x'] + digits)[2 * i + 1] == digits[2 * (i - 1) + 1];
        assert hexValue[1..][i - 1] == hexValue[i];
      }
    }

    /** The `mini` flavour never emits `params[1]`. */
    lemma MiniIgnoresSecondParameter(params: seq<String>, other: String)
      requires Valid() && !invalid && |params| >= 2 && Lower(params[0]) == "mini"
      ensures Result(params[1 := other]) == Result(params)
    {
      assert params[1 := other][2..] == params[2..];
    }

    /** `mini` with one more parameter wraps the rest, space-joined, in opening and closing tags. */
    lemma MiniWraps(params: seq<String>)
      requires Valid() && !invalid && |params| >= 2 && Lower(params[0]) == "mini"
      ensures Result(params) == "<" + value + ">" + miniPrefix + Join(params[2..], " ") + "</" + value + ">" + miniSuffix
    {
    }
  }
}
