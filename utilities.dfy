/**
 * The MiniMessage tag rules of `Utilities`: the click-event repair and the legacy
 * colour pass over a translated component tree, the `p`, `title`, `subtitle`,
 * `actionbar` and `sound` tags, and the title time defaults.
 *
 * MiniMessage parsing is not modelled: a `Markup` records the text handed to it and
 * whether the player's tags were offered. What a tag makes the player see or hear is
 * appended to an `Audience`'s effect log.
 */
module Tags {
  import opened Wrappers
  import opened JavaStrings
  import ColorPlaceholders

  // ---------------------------------------------------------------------------
  // component trees

  datatype ClickEvent = ClickEvent(action: String, value: String)

  /** A component: text or another kind, with its content, click event and children. */
  datatype Component = Component(isText: bool, content: String, click: Option<ClickEvent>, children: seq<Component>)

  /** Two trees with the same kinds of nodes, the same child counts and the same order. */
  predicate SameShape(a: Component, b: Component)
    decreases a
  {
    a.isText == b.isText && |a.children| == |b.children| &&
    forall i :: 0 <= i < |a.children| ==> SameShape(a.children[i], b.children[i])
  }

  /** The stale `&f` that a serialise/deserialise round trip leaves in front of a click value, removed once. */
  function FixValue(v: String): (r: String)
    ensures StartsWith(v, "&f") ==> v == "&f" + r
    ensures !StartsWith(v, "&f") ==> r == v
  {
    if StartsWith(v, "&f") then v[2..] else v
  }

  function FixEvent(e: Option<ClickEvent>): Option<ClickEvent> {
    match e
    case None => None
    case Some(ev) => Some(ClickEvent(ev.action, FixValue(ev.value)))
  }

  /** `fixClickEvent`: every node's click event repaired, children rebuilt in order. */
  function FixClickEvent(c: Component): (r: Component)
    ensures r.isText == c.isText && r.content == c.content
    ensures |r.children| == |c.children|
    ensures r.click.Some? <==> c.click.Some?
    ensures c.click.Some? ==> r.click.value.action == c.click.value.action
    ensures c.click.Some? && !StartsWith(c.click.value.value, "&f") ==> r.click == c.click
    ensures c.click.Some? && StartsWith(c.click.value.value, "&f") ==> c.click.value.value == "&f" + r.click.value.value
    decreases c
  {
    Component(c.isText, c.content, FixEvent(c.click),
              seq(|c.children|, i requires 0 <= i < |c.children| => FixClickEvent(c.children[i])))
  }

  /** The repair keeps the tree's shape: every child, in order, at every depth. */
  lemma {:induction false} FixKeepsShape(c: Component)
    ensures SameShape(c, FixClickEvent(c))
    decreases c
  {
    var r := FixClickEvent(c);
    forall i | 0 <= i < |c.children| ensures SameShape(c.children[i], r.children[i]) {
      FixKeepsShape(c.children[i]);
    }
  }

  /** No click value anywhere in the tree starts with `&f`. */
  predicate Clean(c: Component)
    decreases c
  {
    (c.click.None? || !StartsWith(c.click.value.value, "&f")) &&
    forall i :: 0 <= i < |c.children| ==> Clean(c.children[i])
  }

  /** A tree without stale click values is left exactly as it is. */
  lemma {:induction false} FixOfCleanIsIdentity(c: Component)
    requires Clean(c)
    ensures FixClickEvent(c) == c
    decreases c
  {
    var r := FixClickEvent(c);
    forall i | 0 <= i < |c.children| ensures r.children[i] == c.children[i] {
      FixOfCleanIsIdentity(c.children[i]);
    }
    assert r.children == c.children;
  }

  /** Only a node's first `&f` goes: `&f&fX` becomes `&fX`. */
  lemma FixRemovesOnce(action: String)
    ensures FixClickEvent(Component(true, "", Some(ClickEvent(action, "&f&fX")), [])).click ==
            Some(ClickEvent(action, "&fX"))
  {
    assert StartsWith("&f&fX", "&f");
    assert "&f&fX"[2..] == "&fX";
  }

  /**
   * `applyChatColors`: a text node's content goes through the legacy colour translation
   * and its children are visited; a node of any other kind is left alone, children included.
   */
  function ApplyChatColors(c: Component, translate: String -> String): (r: Component)
    ensures !c.isText ==> r == c
    ensures c.isText ==> r.content == translate(c.content) && r.click == c.click
    ensures |r.children| == |c.children| && r.isText == c.isText
    decreases c
  {
    if !c.isText then c
    else Component(true, translate(c.content), c.click,
                   seq(|c.children|, i requires 0 <= i < |c.children| => ApplyChatColors(c.children[i], translate)))
  }

  lemma {:induction false} ApplyKeepsShape(c: Component, translate: String -> String)
    ensures SameShape(c, ApplyChatColors(c, translate))
    decreases c
  {
    var r := ApplyChatColors(c, translate);
    if c.isText {
      forall i | 0 <= i < |c.children| ensures SameShape(c.children[i], r.children[i]) {
        ApplyKeepsShape(c.children[i], translate);
      }
    } else {
      SameShapeReflexive(c);
    }
  }

  lemma {:induction false} SameShapeReflexive(c: Component)
    ensures SameShape(c, c)
    decreases c
  {
    forall i | 0 <= i < |c.children| ensures SameShape(c.children[i], c.children[i]) {
      SameShapeReflexive(c.children[i]);
    }
  }

  /** A text node below a non-text node is never translated. */
  lemma TextUnderOtherNodeUntouched(c: Component, i: nat, translate: String -> String)
    requires !c.isText && i < |c.children| && c.children[i].isText
    ensures ApplyChatColors(c, translate).children[i].content == c.children[i].content
  {
  }

  // ---------------------------------------------------------------------------
  // tag arguments and effects

  /** What `popOr(message)` gives: the next argument, or the `ParsingException` it throws with `message`. */
  datatype Popped = Argument(text: String) | ParsingError(message: String)

  /** A MiniMessage argument queue. */
  class ArgumentQueue {
    var remaining: seq<String>

    constructor(args: seq<String>)
      ensures remaining == args
    {
      remaining := args;
    }

    function HasNext(): bool
      reads this
    {
      remaining != []
    }

    method Pop() returns (v: String)
      requires HasNext()
      modifies this
      ensures v == old(remaining)[0] && remaining == old(remaining)[1..]
    {
      v := remaining[0];
      remaining := remaining[1..];
    }

    /** `popOr(errorMessage)`: the next argument, or a parsing error with the message when there is none. */
    method PopOr(errorMessage: String) returns (v: Popped)
      modifies this
      ensures old(remaining) == [] ==> v == ParsingError(errorMessage) && remaining == []
      ensures old(remaining) != [] ==> v == Argument(old(remaining)[0]) && remaining == old(remaining)[1..]
    {
      if remaining == [] {
        v := ParsingError(errorMessage);
      } else {
        var next := Pop();
        v := Argument(next);
      }
    }

    /** The resolvers' `while (queue.hasNext()) args.add(queue.pop())`. */
    method DrainAll() returns (args: seq<String>)
      modifies this
      ensures args == old(remaining) && remaining == []
    {
      args := [];
      while HasNext()
        invariant args + remaining == old(remaining)
        decreases |remaining|
      {
        var v := Pop();
        args := args + [v];
      }
    }
  }

  /** Title times in ticks. */
  datatype Times = Times(fadeIn: int, stay: int, fadeOut: int)

  /** `createTimes`: a missing fade-in, stay or fade-out is 10, 70 or 20 ticks. */
  function CreateTimes(fadeIn: Option<int>, stay: Option<int>, fadeOut: Option<int>): (t: Times)
    ensures fadeIn.None? ==> t.fadeIn == 10
    ensures stay.None? ==> t.stay == 70
    ensures fadeOut.None? ==> t.fadeOut == 20
    ensures fadeIn.Some? ==> t.fadeIn == fadeIn.value
    ensures stay.Some? ==> t.stay == stay.value
    ensures fadeOut.Some? ==> t.fadeOut == fadeOut.value
  {
    Times(fadeIn.GetOr(10), stay.GetOr(70), fadeOut.GetOr(20))
  }

  /** The first three arguments as `asInt()` reads them. */
  function TimesOf(args: seq<String>): Times
    requires |args| >= 3
  {
    CreateTimes(ParseInt(args[0]), ParseInt(args[1]), ParseInt(args[2]))
  }

  /** Text handed to MiniMessage, with or without the player's tags; or the empty component. */
  datatype Markup = EmptyMarkup | Markup(text: String, playerTags: bool)

  datatype Effect =
    | ShowTitle(title: Markup, subtitle: Markup, times: Option<Times>)  // None: Adventure's default times
    | ActionBar(bar: Markup)
    | PlaySound(sound: String, volume: Option<String>, pitch: Option<String>)  // None: 1.0

  /** What a tag resolves to; `Failed` is a `ParsingException` thrown out of the resolver. */
  datatype TagResult =
    | PreProcessed(text: String)
    | Styling(style: ColorPlaceholders.Style)
    | InsertEmpty
    | Failed(message: String)

  const INVALID_TITLE: String := "Invalid title tag arguments"
  const INVALID_SUBTITLE: String := "Invalid subtitle tag arguments"
  const INVALID_SOUND: String := "Invalid sound tag arguments"
  const INVALID_ACTIONBAR: String := "Invalid actionbar value"
  const UNKNOWN_PLACEHOLDER: String := "Unknown Placeholder"

  /** The title a `title` tag shows for its arguments, if any. */
  function TitleEffect(args: seq<String>): (r: Option<Effect>)
    ensures r.Some? <==> |args| == 1 || |args| == 2 || |args| == 4 || |args| == 5
    ensures r.Some? ==> r.value.ShowTitle? && r.value.title.Markup?
    ensures r.Some? && |args| <= 2 ==> r.value.title.text == args[0] && r.value.times == None
    ensures r.Some? && |args| >= 4 ==> r.value.title == Markup(args[3], true) && r.value.times == Some(TimesOf(args))
    ensures r.Some? ==> (r.value.subtitle == EmptyMarkup <==> |args| == 1 || |args| == 4)
    ensures r.Some? && |args| == 1 ==> r.value.title == Markup(args[0], true)
    ensures r.Some? && |args| == 2 ==> r.value.title == Markup(args[0], false) && r.value.subtitle == Markup(args[1], true)
    ensures r.Some? && |args| == 5 ==> r.value.subtitle == Markup(args[4], true)
  {
    if |args| == 1 then Some(ShowTitle(Markup(args[0], true), EmptyMarkup, None))
    else if |args| == 2 then Some(ShowTitle(Markup(args[0], false), Markup(args[1], true), None))
    else if |args| == 4 then Some(ShowTitle(Markup(args[3], true), EmptyMarkup, Some(TimesOf(args))))
    else if |args| == 5 then Some(ShowTitle(Markup(args[3], true), Markup(args[4], true), Some(TimesOf(args))))
    else None
  }

  /** The title a `subtitle` tag shows: always an empty title line. */
  function SubtitleEffect(args: seq<String>): (r: Option<Effect>)
    ensures r.Some? <==> |args| == 1 || |args| == 4
    ensures r.Some? ==> r.value.ShowTitle? && r.value.title == EmptyMarkup
    ensures r.Some? ==> r.value.subtitle == Markup(args[|args| - 1], true)
    ensures r.Some? ==> (r.value.times.Some? <==> |args| == 4)
    ensures r.Some? && |args| == 4 ==> r.value.times == Some(TimesOf(args))
  {
    if |args| == 1 then Some(ShowTitle(EmptyMarkup, Markup(args[0], true), None))
    else if |args| == 4 then Some(ShowTitle(EmptyMarkup, Markup(args[3], true), Some(TimesOf(args))))
    else None
  }

  /** The sound a `sound` tag plays: the name, and volume and pitch when three arguments are given. */
  function SoundEffect(args: seq<String>): (r: Option<Effect>)
    ensures r.Some? <==> |args| == 1 || |args| == 3
    ensures r.Some? ==> r.value.PlaySound? && r.value.sound == args[0]
    ensures r.Some? ==> (r.value.volume.Some? <==> |args| == 3)
    ensures r.Some? && |args| == 1 ==> r.value.volume == None && r.value.pitch == None
    ensures r.Some? && |args| == 3 ==> r.value.volume == Some(args[1]) && r.value.pitch == Some(args[2])
  {
    if |args| == 1 then Some(PlaySound(args[0], None, None))
    else if |args| == 3 then Some(PlaySound(args[0], Some(args[1]), Some(args[2])))
    else None
  }

  /** An accepted effect resolves to nothing; a rejected arity to the tag's diagnostic. */
  function Verdict(effect: Option<Effect>, invalid: String): (r: TagResult)
    ensures effect.Some? ==> r == PreProcessed([])
    ensures effect.None? ==> r == PreProcessed(invalid)
  {
    if effect.Some? then PreProcessed([]) else PreProcessed(invalid)
  }

  /** The placeholders a `p` tag can name: colour placeholders style, the others answer text. */
  datatype Entry = ColourEntry(style: ColorPlaceholders.Style) | TextEntry

  /** `itsMyConfigTag`: the `p` tag, given `asString` of the named placeholder. */
  function PlaceholderTag(args: seq<String>, registry: map<String, Entry>,
                          asString: (String, seq<String>) -> Option<String>): (r: TagResult)
    ensures args == [] || args[0] !in registry ==> r == PreProcessed(UNKNOWN_PLACEHOLDER)
    ensures args != [] && args[0] in registry && registry[args[0]].ColourEntry? ==>
              r == Styling(registry[args[0]].style)
    ensures args != [] && args[0] in registry && registry[args[0]].TextEntry? ==>
              r == PreProcessed(asString(args[0], args[1..]).GetOr([]))
  {
    if args == [] || args[0] !in registry then PreProcessed(UNKNOWN_PLACEHOLDER)
    else
      match registry[args[0]]
      case ColourEntry(style) => Styling(style)
      case TextEntry => PreProcessed(asString(args[0], args[1..]).GetOr([]))
  }

  /** A player's view: the effects the tags have produced, in order. */
  class Audience {
    var log: seq<Effect>

    constructor()
      ensures log == []
    {
      log := [];
    }

    method Record(e: Option<Effect>)
      modifies this
      ensures log == old(log) + (if e.Some? then [e.value] else [])
    {
      if e.Some? {
        log := log + [e.value];
      }
    }

    /** The `title` tag. */
    method TitleTag(q: ArgumentQueue) returns (r: TagResult)
      modifies this, q
      ensures q.remaining == []
      ensures log == old(log) + (if TitleEffect(old(q.remaining)).Some? then [TitleEffect(old(q.remaining)).value] else [])
      ensures r == Verdict(TitleEffect(old(q.remaining)), INVALID_TITLE)
    {
      var args := q.DrainAll();
      var e := TitleEffect(args);
      Record(e);
      r := Verdict(e, INVALID_TITLE);
    }

    /** The `subtitle` tag. */
    method SubtitleTag(q: ArgumentQueue) returns (r: TagResult)
      modifies this, q
      ensures q.remaining == []
      ensures log == old(log) + (if SubtitleEffect(old(q.remaining)).Some? then [SubtitleEffect(old(q.remaining)).value] else [])
      ensures r == Verdict(SubtitleEffect(old(q.remaining)), INVALID_SUBTITLE)
    {
      var args := q.DrainAll();
      var e := SubtitleEffect(args);
      Record(e);
      r := Verdict(e, INVALID_SUBTITLE);
    }

    /** The `sound` tag. */
    method SoundTag(q: ArgumentQueue) returns (r: TagResult)
      modifies this, q
      ensures q.remaining == []
      ensures log == old(log) + (if SoundEffect(old(q.remaining)).Some? then [SoundEffect(old(q.remaining)).value] else [])
      ensures r == Verdict(SoundEffect(old(q.remaining)), INVALID_SOUND)
    {
      var args := q.DrainAll();
      var e := SoundEffect(args);
      Record(e);
      r := Verdict(e, INVALID_SOUND);
    }

    /**
     * The `actionbar` tag: sends the first argument as a bar and inserts nothing; with no
     * argument the pop throws before anything is sent.
     */
    method ActionbarTag(q: ArgumentQueue) returns (r: TagResult)
      modifies this, q
      ensures old(q.remaining) == [] ==> r == Failed(INVALID_ACTIONBAR) && log == old(log) && q.remaining == []
      ensures old(q.remaining) != [] ==> r == InsertEmpty &&
                                         log == old(log) + [ActionBar(Markup(old(q.remaining)[0], true))] &&
                                         q.remaining == old(q.remaining)[1..]
    {
      var bar := q.PopOr(INVALID_ACTIONBAR);
      match bar
      case ParsingError(message) =>
        r := Failed(message);
      case Argument(text) =>
        log := log + [ActionBar(Markup(text, true))];
        r := InsertEmpty;
    }

    /** The `p` tag: the name, then every remaining argument for a text placeholder. */
    method ItsMyConfigTag(q: ArgumentQueue, registry: map<String, Entry>,
                          asString: (String, seq<String>) -> Option<String>) returns (r: TagResult)
      modifies q
      ensures r == PlaceholderTag(old(q.remaining), registry, asString)
      ensures old(q.remaining) == [] ==> q.remaining == []
      ensures old(q.remaining) != [] && (old(q.remaining)[0] !in registry || registry[old(q.remaining)[0]].ColourEntry?) ==>
                q.remaining == old(q.remaining)[1..]
      ensures old(q.remaining) != [] && old(q.remaining)[0] in registry && registry[old(q.remaining)[0]].TextEntry? ==>
                q.remaining == []
    {
      if !q.HasNext() {
        return PreProcessed(UNKNOWN_PLACEHOLDER);
      }
      var popped := q.PopOr([]);
      var name := popped.text;
      if name !in registry {
        return PreProcessed(UNKNOWN_PLACEHOLDER);
      }
      match registry[name]
      case ColourEntry(style) =>
        r := Styling(style);
      case TextEntry =>
        var args := q.DrainAll();
        r := PreProcessed(asString(name, args).GetOr([]));
    }
  }

  /** A title tag with an arity it does not accept shows nothing. */
  lemma RejectedTitleShowsNothing(args: seq<String>)
    requires |args| == 0 || |args| == 3 || |args| > 5
    ensures Verdict(TitleEffect(args), INVALID_TITLE) == PreProcessed(INVALID_TITLE)
  {
  }

  /** Four-argument titles with unreadable times fall back to the defaults. */
  lemma DefaultTimes(a: String, b: String, c: String, text: String)
    requires ParseInt(a).None? && ParseInt(b).None? && ParseInt(c).None?
    ensures TitleEffect([a, b, c, text]) == Some(ShowTitle(Markup(text, true), EmptyMarkup, Some(Times(10, 70, 20))))
  {
  }

  /** Only the second line of a two-argument title sees the player's tags. */
  lemma TwoLineTitle(first: String, second: String)
    ensures TitleEffect([first, second]) == Some(ShowTitle(Markup(first, false), Markup(second, true), None))
  {
  }
}
