# ItsMyConfig placeholder and chat core, in Dafny

This project models the text-processing core of ItsMyConfig, a Minecraft server plugin. Server owners use it to configure the messages players see. The model has eight parts:

- **`range` placeholder** (`RangePlaceholders`). Configuration keys `A-B`, `-B` and `A-` name inclusive intervals of 64-bit numbers. They are parsed with `Long.MIN_VALUE` as the "not a number" sentinel. The intervals are then sorted by (start, end) and swept so that the first of any overlapping entries wins, and stored in three parallel arrays. A binary search finds the interval that contains the request's number.
- **`map` placeholder** (`MapPlaceholders`). A table from keys to values that can ignore case. A later key overwrites an earlier one that normalises the same way.
- **Positional substitution** (`Substitution`), shared by both placeholders. `{0}` is replaced by the second argument, `{1}` by the third, and so on. Each replacement works on the text the previous one produced.
- **Chat-resend detection** (`ChatResend`). Each player has a burst tracker: a fixed 100 ms window, with a burst once six packets arrive in it. Invisible Unicode characters in a message also mark a chat-clear packet.
- **PlaceholderAPI expansion** (`PapiHook`).
  - The `_`-split dispatch to `parse`, `font` and registered placeholders.
  - The format suffix of `parse` content.
  - The type-dependent separator (`::` or `_`) that rebuilds a placeholder's arguments.
- **Colour placeholders** (`ColorPlaceholders`). The configured value is classified as named, hex or invalid. The decoration strings are built, and each output flavour (`closestname`, `legacy`, `console`, `mini`) is answered.
- **ProtocolLib listener** (`PLib`). A per-packet-type cache sits in front of the ordered processor list. It then decides whether to leave a chat packet alone, cancel it, or rewrite it.
- **Placeholder requirements** (`Requirements`) and the **MiniMessage tags and component utilities** of `Utilities` (`Tags`):
  - the `p`, `title`, `subtitle`, `actionbar` and `sound` tags;
  - the title time defaults;
  - the click-event repair;
  - the legacy colour pass over the component tree.

Java's string semantics are in `JavaStrings`:

- `split`, which drops trailing empty strings;
- `replace`, `lastIndexOf` and `trim`;
- `Long.parseLong` and `Integer.parseInt`;
- `toLowerCase`, on ASCII letters only and independent of the locale;
- digits in parsing, ASCII `0`-`9` only.

Outside calls become function parameters. These are the colour libraries, the placeholder registry, packet unpacking, MiniMessage translation, the requirement implementations and PlaceholderAPI itself. The clock is an explicit `now` argument in milliseconds.

The detector's unit-test scenarios (`core/src/test/java/to/itsme/itsmyconfig/util/ChatResendDetectorTest.java:35-87`) are replayed on the objects, as assertions, in `ChatResend.BurstOnManyRapidPackets`, `BurstResetAfterDelay`, `IndependentPlayerTracking` and `InvisibleMessageClears`.

## Model

| member | source | states |
|---|---|---|
| Substitution.ApplyArgs | core/src/main/java/to/itsme/itsmyconfig/placeholder/type/RangePlaceholder.java:215-222 | The loop replaces `{i-1}` by `args[i]` for i = 1, 2, … in order, each step on the previous result. `args[0]` is never substituted. |
| Substitution.SubstitutedOneArgument | core/src/main/java/to/itsme/itsmyconfig/placeholder/type/MapPlaceholder.java:93-100 | With a key and one more argument, only `{0}` is replaced, by that argument. |
| Substitution.SubstitutedWithoutBraces | core/src/main/java/to/itsme/itsmyconfig/placeholder/type/MapPlaceholder.java:93-100 | A template without `{` comes back unchanged, whatever the arguments. |
| Substitution.SubstitutedFirstMarker | core/src/main/java/to/itsme/itsmyconfig/placeholder/type/RangePlaceholder.java:215-222 | In `before{0}after`, with no braces in `before` or `after`, the marker becomes the argument and nothing else changes. |
| Substitution.DocumentedExample | core/src/main/java/to/itsme/itsmyconfig/placeholder/type/RangePlaceholder.java:34-36 | The documented example template, with its argument, gives the documented result. |
| Substitution.Cascade | core/src/main/java/to/itsme/itsmyconfig/placeholder/type/RangePlaceholder.java:215-222 | Replacements cascade: an argument that itself holds `{1}` is replaced again by the next argument. |
| RangePlaceholders.ParseLongSafe | core/src/main/java/to/itsme/itsmyconfig/placeholder/type/RangePlaceholder.java:207-213 | The result is a 64-bit value. Unparsable trimmed text gives `Long.MIN_VALUE`, and any other result is the parsed trimmed text. |
| RangePlaceholders.ParseLongSafeRoundTrip | core/src/main/java/to/itsme/itsmyconfig/placeholder/type/RangePlaceholder.java:207-213 | Every 64-bit value printed by `Long.toString` reads back as itself. |
| RangePlaceholders.SentinelIsAmbiguous | core/src/main/java/to/itsme/itsmyconfig/placeholder/type/RangePlaceholder.java:207-213 | `Long.MIN_VALUE` written out reads the same as non-numeric text. |
| RangePlaceholders.ParseRangeKey | core/src/main/java/to/itsme/itsmyconfig/placeholder/type/RangePlaceholder.java:177-205 | A blank key names nothing. A named interval has 64-bit bounds, an end that is never the sentinel, and a start that is the sentinel only for a key starting with `-`. |
| RangePlaceholders.OpenStartForm | core/src/main/java/to/itsme/itsmyconfig/placeholder/type/RangePlaceholder.java:182-187 | A trimmed key longer than one character that starts with `-` is read as `-B`. |
| RangePlaceholders.OpenEndForm | core/src/main/java/to/itsme/itsmyconfig/placeholder/type/RangePlaceholder.java:189-194 | A trimmed key that does not start with `-` but ends with it is read as `A-`. |
| RangePlaceholders.ClosedForm | core/src/main/java/to/itsme/itsmyconfig/placeholder/type/RangePlaceholder.java:196-204 | Any other trimmed key is read as `A-B`, split at its first dash. |
| RangePlaceholders.ClosedKeyRoundTrip | core/src/main/java/to/itsme/itsmyconfig/placeholder/type/RangePlaceholder.java:177-205 | The key `A-B`, with A non-negative and B any non-sentinel long, names exactly [A, B]. |
| RangePlaceholders.OpenEndKeyRoundTrip | core/src/main/java/to/itsme/itsmyconfig/placeholder/type/RangePlaceholder.java:189-194 | The key `A-` names [A, `Long.MAX_VALUE`]. |
| RangePlaceholders.OpenStartKeyRoundTrip | core/src/main/java/to/itsme/itsmyconfig/placeholder/type/RangePlaceholder.java:182-187 | The key `-B` names [`Long.MIN_VALUE`, B]. |
| RangePlaceholders.DashInsideRejected | core/src/main/java/to/itsme/itsmyconfig/placeholder/type/RangePlaceholder.java:182-187 | A `-` key whose remainder is a digit, then a dash, then more text, names nothing. |
| RangePlaceholders.NegativeStartRejected | core/src/main/java/to/itsme/itsmyconfig/placeholder/type/RangePlaceholder.java:182-187 | `-A-B` can never name an interval with a negative start. |
| RangePlaceholders.MalformedKeys | core/src/main/java/to/itsme/itsmyconfig/placeholder/type/RangePlaceholder.java:177-205 | A blank key and the key `-` name nothing. |
| RangePlaceholders.EntryOf | core/src/main/java/to/itsme/itsmyconfig/placeholder/type/RangePlaceholder.java:64-80 | A configuration pair yields an entry only for a valid key with start ≤ end, and the entry keeps that key. |
| RangePlaceholders.ParsedEntriesHas | core/src/main/java/to/itsme/itsmyconfig/placeholder/type/RangePlaceholder.java:64-80 | Every valid configuration pair contributes its entry. |
| RangePlaceholders.ParsedEntriesFrom | core/src/main/java/to/itsme/itsmyconfig/placeholder/type/RangePlaceholder.java:64-80 | Every collected entry comes from one configuration pair. |
| RangePlaceholders.ParsedEntriesWellFormed | core/src/main/java/to/itsme/itsmyconfig/placeholder/type/RangePlaceholder.java:64-80 | Every collected entry has start ≤ end. |
| RangePlaceholders.CollectEntries | core/src/main/java/to/itsme/itsmyconfig/placeholder/type/RangePlaceholder.java:64-80 | The parsing loop collects exactly the entries of the valid pairs, in configuration order. |
| RangePlaceholders.InsertPermutes | core/src/main/java/to/itsme/itsmyconfig/placeholder/type/RangePlaceholder.java:83-85 | One insertion step adds exactly the inserted entry. |
| RangePlaceholders.SortByKeyPermutes | core/src/main/java/to/itsme/itsmyconfig/placeholder/type/RangePlaceholder.java:83-85 | The sort is a permutation of its input. |
| RangePlaceholders.InsertSorted | core/src/main/java/to/itsme/itsmyconfig/placeholder/type/RangePlaceholder.java:83-85 | Inserting into a list sorted by (start, end) keeps it sorted. |
| RangePlaceholders.SortByKeySorted | core/src/main/java/to/itsme/itsmyconfig/placeholder/type/RangePlaceholder.java:83-85 | The sort's result is ordered by start, then by end. |
| RangePlaceholders.WithRangeAppend | core/src/main/java/to/itsme/itsmyconfig/placeholder/type/RangePlaceholder.java:83-85 | The entries with a given interval, taken from a concatenation, are those of each part in turn. |
| RangePlaceholders.InsertStable | core/src/main/java/to/itsme/itsmyconfig/placeholder/type/RangePlaceholder.java:83-85 | Insertion keeps the order of entries with equal intervals. |
| RangePlaceholders.SortByKeyStable | core/src/main/java/to/itsme/itsmyconfig/placeholder/type/RangePlaceholder.java:83-85 | The sort is stable, as `List.sort` is: entries with equal intervals keep their configuration order. |
| RangePlaceholders.SweepDisjoint | core/src/main/java/to/itsme/itsmyconfig/placeholder/type/RangePlaceholder.java:88-100 | The kept intervals are well formed, disjoint and increasing. |
| RangePlaceholders.SweepKeepsFirst | core/src/main/java/to/itsme/itsmyconfig/placeholder/type/RangePlaceholder.java:88-100 | The first sorted entry is always kept. |
| RangePlaceholders.SweepPrefix | core/src/main/java/to/itsme/itsmyconfig/placeholder/type/RangePlaceholder.java:88-100 | Later entries only append: what is kept from a prefix is a prefix of what is kept. |
| RangePlaceholders.SweepCovers | core/src/main/java/to/itsme/itsmyconfig/placeholder/type/RangePlaceholder.java:88-100 | In a sorted list, every entry's start lies in some kept interval. A skipped entry's start lies in the earlier interval it overlaps ("first wins"). |
| RangePlaceholders.DropOverlaps | core/src/main/java/to/itsme/itsmyconfig/placeholder/type/RangePlaceholder.java:88-100 | The sweep loop, tracking `prev`, keeps exactly the entries that start after the last kept end. |
| RangePlaceholders.BuildDisjoint | core/src/main/java/to/itsme/itsmyconfig/placeholder/type/RangePlaceholder.java:64-100 | The built table is disjoint and sorted, as the binary search needs. |
| RangePlaceholders.BuildFromConfig | core/src/main/java/to/itsme/itsmyconfig/placeholder/type/RangePlaceholder.java:64-100 | Every kept entry comes from a valid configuration pair. |
| RangePlaceholders.BuildCovers | core/src/main/java/to/itsme/itsmyconfig/placeholder/type/RangePlaceholder.java:64-100 | The start of every valid configured interval lies in a kept interval. |
| RangePlaceholders.ToArrays | core/src/main/java/to/itsme/itsmyconfig/placeholder/type/RangePlaceholder.java:103-117 | Three fresh arrays of the entries' length hold, index by index, each entry's start, end and value. |
| RangePlaceholders.RangePlaceholder.constructor | core/src/main/java/to/itsme/itsmyconfig/placeholder/type/RangePlaceholder.java:47-118 | The default is `default` or "". Without `values` the table is empty. Otherwise the arrays hold the sorted, swept table of the configuration, and the invariant holds: parallel arrays, well formed, disjoint and increasing. |
| RangePlaceholders.RangePlaceholder.FindRangeIndex | core/src/main/java/to/itsme/itsmyconfig/placeholder/type/RangePlaceholder.java:156-175 | The result is -1 exactly when no stored interval contains x. Otherwise it is an index whose interval contains x. |
| RangePlaceholders.RangePlaceholder.GetResult | core/src/main/java/to/itsme/itsmyconfig/placeholder/type/RangePlaceholder.java:121-151 | The default is returned when there is no argument, when the number does not parse, when no interval contains it, or when the value is empty. Otherwise the result is the interval's value with the remaining arguments substituted. |
| MapPlaceholders.NormalizeKey | core/src/main/java/to/itsme/itsmyconfig/placeholder/type/MapPlaceholder.java:88-91 | The length is kept. The key is unchanged unless case is ignored, in which case no upper-case ASCII letter remains. |
| MapPlaceholders.NormalizeIdempotent | core/src/main/java/to/itsme/itsmyconfig/placeholder/type/MapPlaceholder.java:88-91 | Normalising twice is normalising once. |
| MapPlaceholders.NormalizeMatchesIgnoringCase | core/src/main/java/to/itsme/itsmyconfig/placeholder/type/MapPlaceholder.java:88-91 | With `ignorecase`, two keys normalise alike exactly when they are equal ignoring case. |
| MapPlaceholders.TableHasEveryKey | core/src/main/java/to/itsme/itsmyconfig/placeholder/type/MapPlaceholder.java:56-60 | Every configured key, normalised, is in the table. |
| MapPlaceholders.TableKeysFromConfig | core/src/main/java/to/itsme/itsmyconfig/placeholder/type/MapPlaceholder.java:56-60 | Every table key is the normalised form of some configured key. |
| MapPlaceholders.TableLastWins | core/src/main/java/to/itsme/itsmyconfig/placeholder/type/MapPlaceholder.java:56-60 | The last pair whose key normalises to k decides k's value. A null value becomes "". |
| MapPlaceholders.AnyCasingFindsKey | core/src/main/java/to/itsme/itsmyconfig/placeholder/type/MapPlaceholder.java:66-91 | With `ignorecase`, a request in any casing of a configured key finds an entry. |
| MapPlaceholders.ExactKeyRequired | core/src/main/java/to/itsme/itsmyconfig/placeholder/type/MapPlaceholder.java:66-91 | Without `ignorecase`, a request finds an entry only under a key spelled exactly the same. |
| MapPlaceholders.FillTable | core/src/main/java/to/itsme/itsmyconfig/placeholder/type/MapPlaceholder.java:56-60 | The filling loop builds exactly the table of the configuration, later pairs overwriting. |
| MapPlaceholders.MapPlaceholder.constructor | core/src/main/java/to/itsme/itsmyconfig/placeholder/type/MapPlaceholder.java:36-63 | `ignorecase` defaults to false and `default` to "". Without `values` the table is empty; otherwise it is the table of `values`. |
| MapPlaceholders.MapPlaceholder.GetResult | core/src/main/java/to/itsme/itsmyconfig/placeholder/type/MapPlaceholder.java:66-86 | The default is returned for no argument, a missing key or an empty value. Otherwise the result is the value with the arguments after the key substituted. |
| ChatResend.AfterPacket | core/src/main/java/to/itsme/itsmyconfig/util/ChatResendDetector.java:95-111 | An expired window restarts at `now` with one packet and no burst. Otherwise the count grows by one in the same window, and the burst flag is set once the count reaches six and stays set. |
| ChatResend.AfterQuery | core/src/main/java/to/itsme/itsmyconfig/util/ChatResendDetector.java:113-120 | An expired window clears the count and the burst flag. Otherwise nothing changes. |
| ChatResend.FreshConsistent | core/src/main/java/to/itsme/itsmyconfig/util/ChatResendDetector.java:90-93 | A new tracker satisfies the invariant: count ≥ 0, and in a burst exactly when the count is at least the threshold. |
| ChatResend.AfterPacketConsistent | core/src/main/java/to/itsme/itsmyconfig/util/ChatResendDetector.java:95-111 | A packet keeps the tracker invariant. |
| ChatResend.AfterQueryConsistent | core/src/main/java/to/itsme/itsmyconfig/util/ChatResendDetector.java:113-120 | A query keeps the tracker invariant. |
| ChatResend.RapidPackets | core/src/main/java/to/itsme/itsmyconfig/util/ChatResendDetector.java:17-18 | Packets arriving within 100 ms of the first are all counted in one window, and the burst starts with the sixth. |
| ChatResend.ExpiredWindowRestarts | core/src/main/java/to/itsme/itsmyconfig/util/ChatResendDetector.java:95-120 | After more than 100 ms, a packet starts a fresh one-packet window, and a query reports no burst. |
| ChatResend.QueryNeverStartsBurst | core/src/main/java/to/itsme/itsmyconfig/util/ChatResendDetector.java:113-120 | A query never sets the burst flag and never moves the window. |
| ChatResend.BurstTracker.constructor | core/src/main/java/to/itsme/itsmyconfig/util/ChatResendDetector.java:90-93 | A new tracker has count 0, window start 0 and no burst, which satisfies the tracker invariant. |
| ChatResend.BurstTracker.AddPacket | core/src/main/java/to/itsme/itsmyconfig/util/ChatResendDetector.java:95-111 | The tracker's fields become `AfterPacket` of their old values, and the invariant is kept. |
| ChatResend.BurstTracker.IsInBurst | core/src/main/java/to/itsme/itsmyconfig/util/ChatResendDetector.java:113-120 | The fields become `AfterQuery` of their old values, the invariant is kept, and the answer is the new burst flag. |
| ChatResend.ChatResendDetector.constructor | core/src/main/java/to/itsme/itsmyconfig/util/ChatResendDetector.java:20 | The detector starts with no trackers. |
| ChatResend.ChatResendDetector.RecordPacket | core/src/main/java/to/itsme/itsmyconfig/util/ChatResendDetector.java:34-38 | The identifier's tracker (created when absent) takes the packet. Every other tracker is unchanged, trackers stay unshared, and the tracker invariant is kept. |
| ChatResend.ChatResendDetector.IsInBurst | core/src/main/java/to/itsme/itsmyconfig/util/ChatResendDetector.java:46-52 | An unknown identifier gives false and creates nothing. A known one is queried. |
| ChatResend.ChatResendDetector.EndBurst | core/src/main/java/to/itsme/itsmyconfig/util/ChatResendDetector.java:57-59 | The identifier's tracker is removed and nothing else changes. |
| ChatResend.ChatResendDetector.IsChatClearPacket | core/src/main/java/to/itsme/itsmyconfig/util/ChatResendDetector.java:82-84 | The tracker is queried first, then the message is checked. The result is in-burst or invisible characters. |
| ChatResend.HasInvisible | core/src/main/java/to/itsme/itsmyconfig/util/ChatResendDetector.java:25-27 | True exactly when some character is one of the pattern's invisible characters. |
| ChatResend.ContainsInvisibleUnicode | core/src/main/java/to/itsme/itsmyconfig/util/ChatResendDetector.java:68-73 | True exactly when the message is present and holds an invisible character. Null and "" give false. |
| PapiHook.FormatOf | core/src/main/java/to/itsme/itsmyconfig/hook/PAPIHook.java:190-195 | The legacy serializer serves exactly `legacy`, `l`, `console` and `c`. Everything else is MiniMessage. |
| PapiHook.FormatSuffixAsWritten | core/src/main/java/to/itsme/itsmyconfig/hook/PAPIHook.java:170-180 | The suffix logic as written. A cut keeps a prefix of the content, and a shorter one ends right before a `_`. A legacy cut always removes something. Content without `_` is either kept with MiniMessage or makes `substring` throw. |
| PapiHook.FormatSuffix | core/src/main/java/to/itsme/itsmyconfig/hook/PAPIHook.java:168-180 | Corrected suffix logic. Either the content is kept with MiniMessage, or it is cut before its last `_`, where the rest has no `_`, is a format word ignoring case, and selects the format. |
| PapiHook.FormatSuffixCuts | core/src/main/java/to/itsme/itsmyconfig/hook/PAPIHook.java:168-180 | `c_t`, with t a format word in any casing and without `_`, is cut to c with t's format. |
| PapiHook.FormatSuffixKeeps | core/src/main/java/to/itsme/itsmyconfig/hook/PAPIHook.java:168-180 | Any other trailing word leaves the content whole, with MiniMessage. |
| PapiHook.FormatSuffixWithoutUnderscore | core/src/main/java/to/itsme/itsmyconfig/hook/PAPIHook.java:168-180 | Content without `_` is kept whole with MiniMessage, even when it is a format word. |
| PapiHook.AsWrittenAgreesOnLowerCase | core/src/main/java/to/itsme/itsmyconfig/hook/PAPIHook.java:170-180 | For a trailing lower-case format word, the code as written cuts like the corrected version. |
| PapiHook.AsWrittenAgreesWithoutFormatWord | core/src/main/java/to/itsme/itsmyconfig/hook/PAPIHook.java:170-180 | For a trailing non-format word, both versions keep the content whole. |
| PapiHook.AsWrittenFailsOnBareWord | core/src/main/java/to/itsme/itsmyconfig/hook/PAPIHook.java:178 | Content that is a bare format word makes the code as written throw. The corrected version keeps it. |
| PapiHook.AsWrittenFailsWithoutLowerSpelling | core/src/main/java/to/itsme/itsmyconfig/hook/PAPIHook.java:178 | A format word not written in lower case, whose lower-case form after `_` occurs nowhere, makes the code as written throw. The corrected version cuts it. |
| PapiHook.AsWrittenCutsAtLowerSpelling | core/src/main/java/to/itsme/itsmyconfig/hook/PAPIHook.java:178 | Otherwise the code as written cuts at the last occurrence of the lower-case spelling. |
| PapiHook.AsWrittenFailsOnUpperCase | core/src/main/java/to/itsme/itsmyconfig/hook/PAPIHook.java:178 | `Hi_MINI`: the code as written throws; the corrected version gives `Hi` with MiniMessage. |
| PapiHook.AsWrittenCutsTooMuch | core/src/main/java/to/itsme/itsmyconfig/hook/PAPIHook.java:178 | `a_lx_L`: the code as written cuts to `a`. |
| PapiHook.CorrectedCutsLastWord | core/src/main/java/to/itsme/itsmyconfig/hook/PAPIHook.java:168-180 | `a_lx_L`: the corrected version cuts only the trailing `_L`, giving `a_lx` with the legacy format. |
| PapiHook.ParseReply | core/src/main/java/to/itsme/itsmyconfig/hook/PAPIHook.java:153-199 | "Illegal Argument" exactly for fewer than two tokens. Otherwise the tokens are handed to the parser, which uses the corrected format suffix. |
| PapiHook.HandleParse | core/src/main/java/to/itsme/itsmyconfig/hook/PAPIHook.java:153-180 | The join loop rebuilds the content as the `_`-join of the tokens after `parse`, then applies the corrected format suffix. |
| PapiHook.FontReply | core/src/main/java/to/itsme/itsmyconfig/hook/PAPIHook.java:130-144 | `latin` (any case) gives a Roman numeral of an `int`, or "Illegal Number Format". `smallcaps` maps the lower-cased text. Any other font gives "ERROR"; each case holds in both directions. |
| PapiHook.Separator | core/src/main/java/to/itsme/itsmyconfig/hook/PAPIHook.java:229-268 | The separator is `::` exactly for a colour type with a format word, or for `MATH` with a `…dp` or keyword first parameter. Otherwise it is `_`. |
| PapiHook.PlaceholderReply | core/src/main/java/to/itsme/itsmyconfig/hook/PAPIHook.java:208-278 | A name not in the registry gives "Placeholder not found", compared case-sensitively. A found name resolves under that name, and with no arguments when no tokens follow. |
| PapiHook.AppendJoined | core/src/main/java/to/itsme/itsmyconfig/hook/PAPIHook.java:270-275 | The `StringBuilder` loop appends the parts `_`-joined after the prefix. |
| PapiHook.HandlePlaceholder | core/src/main/java/to/itsme/itsmyconfig/hook/PAPIHook.java:208-278 | The lookup, the one- and two-token cases, and the rebuild and split loop compute `PlaceholderReply`. |
| PapiHook.ProgressBarArguments | core/src/main/java/to/itsme/itsmyconfig/hook/PAPIHook.java:270-277 | A progress bar receives exactly the tokens after its name. |
| PapiHook.TwoTokenArguments | core/src/main/java/to/itsme/itsmyconfig/hook/PAPIHook.java:221-224 | With exactly two tokens, the arguments are the second token split on `::`, whatever the type. |
| PapiHook.TwoTokenDoubleColon | core/src/main/java/to/itsme/itsmyconfig/hook/PAPIHook.java:221-224 | A two-token request `name_A::B` (as in `range_95::PlayerName`), with A and B free of `:` and B non-empty, gives the two arguments A and B. |
| PapiHook.UnderscoreJoinedArgument | core/src/main/java/to/itsme/itsmyconfig/hook/PAPIHook.java:217-277 | With two tokens, or when a non-progress-bar placeholder's separator is `_`, the arguments are the tokens after the name, `_`-joined, then split on `::`. When no token holds `:` that is one argument. |
| PapiHook.DoubleColonArguments | core/src/main/java/to/itsme/itsmyconfig/hook/PAPIHook.java:226-277 | With three or more tokens and separator `::`, the arguments are the first parameter, `::`, and the `_`-joined rest, split on `::`. When no token holds `:`, those are exactly the first parameter and the joined rest. |
| PapiHook.Dispatch | core/src/main/java/to/itsme/itsmyconfig/hook/PAPIHook.java:109-121 | No tokens give "Illegal Argument". Otherwise `parse` (any case) goes to the parser, `font`/`f` with three or more tokens to the font renderer, and anything else to the registry. |
| PapiHook.OnPlaceholderRequest | core/src/main/java/to/itsme/itsmyconfig/hook/PAPIHook.java:105-122 | The request is split on `_` and dispatched. |
| PapiHook.OnlyUnderscoresIllegal | core/src/main/java/to/itsme/itsmyconfig/hook/PAPIHook.java:109-112 | A request of underscores only has no tokens and is an illegal argument. |
| PapiHook.ParseRequest | core/src/main/java/to/itsme/itsmyconfig/hook/PAPIHook.java:105-180 | For `parse_<tokens>` the content is rebuilt exactly, then stripped of its format suffix by the corrected logic. |
| ColorPlaceholders.FromCodeOfCode | src/main/java/to/itsme/itsmyconfig/placeholder/type/ColorPlaceholderData.java:57-65 | Every decoration's legacy code reads back as that decoration. |
| ColorPlaceholders.Kept | src/main/java/to/itsme/itsmyconfig/placeholder/type/ColorPlaceholderData.java:108-128 | The kept decorations are exactly the listed ones that are enabled. |
| ColorPlaceholders.CodesRoundTrip | src/main/java/to/itsme/itsmyconfig/placeholder/type/ColorPlaceholderData.java:108-128 | The property string decodes back to the kept decorations, in order. |
| ColorPlaceholders.InitializeStyle | src/main/java/to/itsme/itsmyconfig/placeholder/type/ColorPlaceholderData.java:108-128 | The loop builds the code string, the opening tags and the closing tags from the enabled decorations in iteration order. The style holds exactly those decorations. |
| ColorPlaceholders.NothingEnabled | src/main/java/to/itsme/itsmyconfig/placeholder/type/ColorPlaceholderData.java:108-128 | With nothing enabled all three strings are empty. |
| ColorPlaceholders.PropertiesNameEnabled | src/main/java/to/itsme/itsmyconfig/placeholder/type/ColorPlaceholderData.java:108-128 | A decoration is in the property string exactly when it is listed and enabled. |
| ColorPlaceholders.Classify | src/main/java/to/itsme/itsmyconfig/placeholder/type/ColorPlaceholderData.java:74-98 | Named colour iff legacy, and invalid iff neither named nor hex-shaped. Invalid gives white with `#ff0000`; named keeps its hex; a parsing hex keeps itself. Every hex value starts with `#`. |
| ColorPlaceholders.SectionDigits | src/main/java/to/itsme/itsmyconfig/placeholder/type/ColorPlaceholderData.java:152-161 | Twice as long as its input: each character is preceded by `§`. |
| ColorPlaceholders.ConsoleHex | src/main/java/to/itsme/itsmyconfig/placeholder/type/ColorPlaceholderData.java:152-161 | The console loop builds `§x` followed by `§`+digit for each hex digit after the `#`. |
| ColorPlaceholders.JoinFromThird | src/main/java/to/itsme/itsmyconfig/placeholder/type/ColorPlaceholderData.java:162-175 | The `mini` loop appends `params[2..]` separated by single spaces. |
| ColorPlaceholders.ColorPlaceholder.constructor | src/main/java/to/itsme/itsmyconfig/placeholder/type/ColorPlaceholderData.java:70-100 | The value is lower-cased (default ""), then classified. The legacy colour is looked up, the style strings are built from the enabled decorations, and the style's colour is the hex value when it parses. |
| ColorPlaceholders.ColorPlaceholder.GetResult | src/main/java/to/itsme/itsmyconfig/placeholder/type/ColorPlaceholderData.java:137-178 | Each branch computes one flavour of the answer: invalid, no parameters, `closestname`, `legacy`, `console`, `mini`, or the default. |
| ColorPlaceholders.ColorPlaceholder.InvalidIsEmpty | src/main/java/to/itsme/itsmyconfig/placeholder/type/ColorPlaceholderData.java:138-140 | An invalid colour answers "" to every request. |
| ColorPlaceholders.ColorPlaceholder.KeywordIgnoresCase | src/main/java/to/itsme/itsmyconfig/placeholder/type/ColorPlaceholderData.java:146-177 | Keywords that differ only in case get the same answer. |
| ColorPlaceholders.ColorPlaceholder.UnknownKeywordIsValue | src/main/java/to/itsme/itsmyconfig/placeholder/type/ColorPlaceholderData.java:177 | An unknown keyword answers the bare value. |
| ColorPlaceholders.ColorPlaceholder.LegacyHasNoSectionSign | src/main/java/to/itsme/itsmyconfig/placeholder/type/ColorPlaceholderData.java:150-151 | The `legacy` flavour contains no `§`. |
| ColorPlaceholders.ColorPlaceholder.LegacyHex | src/main/java/to/itsme/itsmyconfig/placeholder/type/ColorPlaceholderData.java:150-151 | For a hex colour, `legacy` is `&`, then the hex value, then the property codes. |
| ColorPlaceholders.ColorPlaceholder.ConsoleHexShape | src/main/java/to/itsme/itsmyconfig/placeholder/type/ColorPlaceholderData.java:152-161 | For a hex colour, `console` is `§x`, then `§`+digit per hex digit, then the property codes with `&` turned into `§`. |
| ColorPlaceholders.ColorPlaceholder.MiniIgnoresSecondParameter | src/main/java/to/itsme/itsmyconfig/placeholder/type/ColorPlaceholderData.java:162-175 | `mini` never emits `params[1]`. |
| ColorPlaceholders.ColorPlaceholder.MiniWraps | src/main/java/to/itsme/itsmyconfig/placeholder/type/ColorPlaceholderData.java:162-175 | `mini` with more parameters wraps `params[2..]`, space-joined, in the opening and closing tags. |
| PLib.FirstMatch | core/src/main/java/to/itsme/itsmyconfig/processor/protocollib/PLibListener.java:109-120 | The first processor in order that unpacks the packet: none before it do. None means no processor did. |
| PLib.CacheHitIsFinal | core/src/main/java/to/itsme/itsmyconfig/processor/protocollib/PLibListener.java:102-106 | A cached processor's answer is returned even when it unpacks nothing, and the cache is unchanged. |
| PLib.FirstProcessorWins | core/src/main/java/to/itsme/itsmyconfig/processor/protocollib/PLibListener.java:109-120 | On a miss, the first processor that unpacks the packet supplies the answer. |
| PLib.NoProcessorMatches | core/src/main/java/to/itsme/itsmyconfig/processor/protocollib/PLibListener.java:109-122 | When no processor unpacks the packet, the answer is null and the cache is unchanged. |
| PLib.CacheOnlyGrows | core/src/main/java/to/itsme/itsmyconfig/processor/protocollib/PLibListener.java:100-123 | The cache keeps every entry, and gains at most the packet's type, only when caching is on. |
| PLib.WinnerIsReused | core/src/main/java/to/itsme/itsmyconfig/processor/protocollib/PLibListener.java:100-123 | With caching on, the first winner for a type answers every later packet of that type. |
| PLib.Decide | core/src/main/java/to/itsme/itsmyconfig/processor/protocollib/PLibListener.java:54-98 | Null or empty content, or content neither prefixed nor holding `<p:`, is left alone. Otherwise an empty translation cancels and any other is saved. |
| PLib.PLibListener.ProcessPacket | core/src/main/java/to/itsme/itsmyconfig/processor/protocollib/PLibListener.java:100-123 | The answer is the cached or first-matching processor's, and the cache becomes `CacheAfter`. |
| PLib.PLibListener.OnPacketSending | core/src/main/java/to/itsme/itsmyconfig/processor/protocollib/PLibListener.java:54-98 | The event is cancelled or rewritten exactly as `Decide` says for the unpacked content, and the cache is updated. |
| Requirements.RequirementFrom | src/main/java/to/itsme/itsmyconfig/requirement/RequirementManager.java:32-39 | A found requirement is registered and accepts the type. None means no registered one from that point on accepts it. |
| Requirements.RequirementByType | src/main/java/to/itsme/itsmyconfig/requirement/RequirementManager.java:32-39 | None exactly when no registered requirement accepts the type. |
| Requirements.Parameters | src/main/java/to/itsme/itsmyconfig/requirement/RequirementManager.java:103-115 | Arguments are substituted, and placeholders are then resolved only when there is a player. |
| Requirements.RuleDeny | src/main/java/to/itsme/itsmyconfig/requirement/RequirementManager.java:72-92 | An unknown type never denies. Otherwise the rule denies, with its own message, exactly when it has one and validation of the resolved input and output fails. |
| Requirements.DenyMessage | src/main/java/to/itsme/itsmyconfig/requirement/RequirementManager.java:49-61 | A deny message, when there is one, is the deny message of some rule. A first rule that denies decides the answer. |
| Requirements.DenyIsFirstFailing | src/main/java/to/itsme/itsmyconfig/requirement/RequirementManager.java:49-61 | The answer is the deny message of the first rule that has one. |
| Requirements.NoDenyIffAllPass | src/main/java/to/itsme/itsmyconfig/requirement/RequirementManager.java:49-61 | There is no deny message exactly when every rule passes. |
| Requirements.LaterRulesIrrelevant | src/main/java/to/itsme/itsmyconfig/requirement/RequirementManager.java:49-61 | Rules after the first deny are never consulted. |
| Requirements.UnknownTypePasses | src/main/java/to/itsme/itsmyconfig/requirement/RequirementManager.java:32-61 | Inserting a rule of an unknown type anywhere changes nothing. |
| Tags.FixValue | src/main/java/to/itsme/itsmyconfig/util/Utilities.java:130-132 | A click value starting with `&f` loses exactly that prefix. Any other value is kept. |
| Tags.FixClickEvent | src/main/java/to/itsme/itsmyconfig/util/Utilities.java:125-136 | The node's kind, content, child count and click action are kept, and a click event stays present or absent. The value loses one leading `&f` when it has one and is unchanged otherwise. |
| Tags.FixKeepsShape | src/main/java/to/itsme/itsmyconfig/util/Utilities.java:125-136 | The repair keeps the tree's shape at every depth. |
| Tags.FixOfCleanIsIdentity | src/main/java/to/itsme/itsmyconfig/util/Utilities.java:125-136 | A tree with no `&f` click value anywhere is left exactly as it is. |
| Tags.FixRemovesOnce | src/main/java/to/itsme/itsmyconfig/util/Utilities.java:130-132 | Only one `&f` goes: `&f&fX` becomes `&fX`. |
| Tags.ApplyChatColors | src/main/java/to/itsme/itsmyconfig/util/Utilities.java:344-353 | A non-text node is untouched, subtree included. A text node's content is translated and its click and child count are kept. |
| Tags.ApplyKeepsShape | src/main/java/to/itsme/itsmyconfig/util/Utilities.java:344-353 | The colour pass keeps the tree's shape. |
| Tags.TextUnderOtherNodeUntouched | src/main/java/to/itsme/itsmyconfig/util/Utilities.java:344-353 | A text child of a non-text node is never translated. |
| Tags.ArgumentQueue.PopOr | src/main/java/to/itsme/itsmyconfig/util/Utilities.java:175 | Adventure's `popOr(errorMessage)`: the next argument is removed and returned. With none left, the result is the parsing error carrying the message, and the queue stays empty. |
| Tags.ArgumentQueue.DrainAll | src/main/java/to/itsme/itsmyconfig/util/Utilities.java:217-220 | Returns every remaining argument, in order, and leaves the queue empty. |
| Tags.CreateTimes | src/main/java/to/itsme/itsmyconfig/util/Utilities.java:374-384 | A missing fade-in, stay or fade-out is 10, 70 or 20 ticks. A given one is kept. |
| Tags.TitleEffect | src/main/java/to/itsme/itsmyconfig/util/Utilities.java:215-258 | A title is shown exactly for 1, 2, 4 or 5 arguments. With 4 or 5 the times are read from the first three. One line is shown for 1 or 4 arguments: the first argument, or the fourth, with the player's tags. With 2 arguments the title is the first without the player's tags and the subtitle the second with them. With 5 the title is the fourth argument and the subtitle the fifth, both with the player's tags. |
| Tags.SubtitleEffect | src/main/java/to/itsme/itsmyconfig/util/Utilities.java:266-294 | Shown exactly for 1 or 4 arguments. The title line is empty and the subtitle is the last argument, with the player's tags. Times are given only for 4 arguments, and then they are the first three read with the 10/70/20 defaults. |
| Tags.SoundEffect | src/main/java/to/itsme/itsmyconfig/util/Utilities.java:316-337 | Played exactly for 1 or 3 arguments, with the first as the sound. With 1, volume and pitch are the 1.0 default. With 3, they are the second and third arguments. |
| Tags.Verdict | src/main/java/to/itsme/itsmyconfig/util/Utilities.java:215-337 | An accepted arity inserts "". A rejected one inserts the tag's diagnostic. |
| Tags.PlaceholderTag | src/main/java/to/itsme/itsmyconfig/util/Utilities.java:169-193 | A missing or unknown name gives "Unknown Placeholder". A colour placeholder styles. Any other placeholder gives its text for the remaining arguments, or "" for null. |
| Tags.Audience.TitleTag | src/main/java/to/itsme/itsmyconfig/util/Utilities.java:215-258 | Drains the arguments, logs the title when the arity is accepted, and returns its verdict. |
| Tags.Audience.SubtitleTag | src/main/java/to/itsme/itsmyconfig/util/Utilities.java:266-294 | Drains the arguments, logs the subtitle when the arity is accepted, and returns its verdict. |
| Tags.Audience.SoundTag | src/main/java/to/itsme/itsmyconfig/util/Utilities.java:316-337 | Drains the arguments, logs the sound when the arity is accepted, and returns its verdict. |
| Tags.Audience.ActionbarTag | src/main/java/to/itsme/itsmyconfig/util/Utilities.java:302-308 | With an argument, one action bar of the first argument (with the player's tags) is sent, the argument is consumed, and the empty component is inserted. With none, the pop throws "Invalid actionbar value" before anything is sent: nothing is logged and the tag fails with that message. |
| Tags.Audience.ItsMyConfigTag | src/main/java/to/itsme/itsmyconfig/util/Utilities.java:169-193 | The `p` tag's pops compute `PlaceholderTag` of the queued arguments. The queue is left empty for a text placeholder (or when it was empty), and loses only the name for an unknown name or a colour placeholder. |
| Tags.RejectedTitleShowsNothing | src/main/java/to/itsme/itsmyconfig/util/Utilities.java:253-255 | 0, 3 or more than 5 arguments give "Invalid title tag arguments". |
| Tags.DefaultTimes | src/main/java/to/itsme/itsmyconfig/util/Utilities.java:374-384 | A four-argument title with unreadable times uses 10/70/20. |
| Tags.TwoLineTitle | src/main/java/to/itsme/itsmyconfig/util/Utilities.java:215-258 | A two-line title gives the first line without and the second with the player's tags. |

## Left out

- PlaceholderAPI expansion of the request (`PAPIHook.java:106-107`): it is an outside call. The model starts from the string it returns.
- The renderers `PAPIHook` hands work to are named by a `Reply` but not run: tag processing, MiniMessage, the legacy and MiniMessage serializers, `Strings.integerToRoman` and the small-caps font. The "Parse Error" path these can trigger is therefore not modelled either.
- MiniMessage parsing and component rendering: a `Markup` records the text and whether the player's tags were offered.
- `translate` (`Utilities.java:98-118`) and the `papi` tag: they call PlaceholderAPI and MiniMessage. `translate` enters the model only through the component-tree functions.
- `ChatResendDetector.checkMessage` (`PLibListener.java:72`) is not modelled. The call is made for the burst state it updates, and its result `isInBurst` only feeds the debug line at line 74. The method is not defined in `ChatResendDetector.java` as it appears here, so any state it changes is not modelled either. The `parsePrefixed` parameter stands for a different call, `Strings.parsePrefixedMessage` (line 76).
- Concurrency. The detector's `ConcurrentHashMap` and the tracker's atomics are modelled as plain sequential state.
- `System.currentTimeMillis()` is an explicit `now` argument.
- What MiniMessage does with a tag that fails (`Tags.Failed`, the `ParsingException` of `popOr`) is not modelled. The model stops at the failure and its message.
- Sound names and volume/pitch floats: `Sound.valueOf` and its exception are not modelled. Volume and pitch stay strings, with None standing for the 1.0 default.
- `HashMap` iteration order, for the decoration keys and the configuration sections, is a parameter (`order`, or the order of the configuration sequence).
- The colour libraries (`NamedTextColor`, `TextColor`, the hex pattern, `ChatColor`) are a `Palette` of functions whose well-formedness (hex strings start with `#`) the constructor requires.
- `ChatColor.valueOf` on the upper-cased colour name, and the exception it throws for a name it does not know: the palette's `legacyText` is a total function.
- `toLowerCase` is modelled on ASCII letters only and independent of the locale. That covers `toLowerCase(Locale.ROOT)` only for ASCII text. The default-locale calls (`PAPIHook.java:114,131,140,173,233,248`, `ColorPlaceholderData.java:72`) also differ under a Turkish locale, where `LATIN` lower-cases to a dotless `ı`.
- `Long.parseLong` and `Integer.parseInt` (`JavaStrings.ParseSigned`) accept only the ASCII digits `0`-`9`. Java's `Character.digit` also accepts other Unicode decimal digits (`"١"` parses as 1), where the model gives None.
- PapiHook.ParseReply, PapiHook.HandleParse, PapiHook.ParseRequest: these compute the corrected format suffix (`PapiHook.FormatSuffix`) of the Findings, not the code as written at `PAPIHook.java:178`. They differ from the source on exactly the Findings' shapes: `parse_mini` and `parse_Hi_MINI`, where the source throws, and `parse_a_lx_L`, where the source cuts to `a`. The as-written cut is `PapiHook.FormatSuffixAsWritten`.
- Debug logging and configuration warnings, including `RangePlaceholder`'s use of `Entry.originalKey`, which only feeds warnings.
- `applyChatColors` changes the text components in place by reflection (`modifyTextComponent`); the model returns a new tree instead, so aliasing between components is not captured.
- The requirement implementations (number, regex, string) are the `Env.validate` and `Env.matchIdentifier` parameters.

## Findings

| source | as written | input that shows it | evidently intended | confidence | as-written member | corrected member |
|---|---|---|---|---|---|---|
| core/src/main/java/to/itsme/itsmyconfig/hook/PAPIHook.java:178 | The content is cut at `lastIndexOf("_" + lastPart)` with the lower-cased word. For a word not written in lower case that index is -1, and `substring(0, -1)` throws outside the `try`. | `parse_Hi_MINI` | The content is cut before its last `_`: `Hi`, with MiniMessage | medium, not executed | PapiHook.AsWrittenFailsOnUpperCase | PapiHook.FormatSuffixCuts |
| core/src/main/java/to/itsme/itsmyconfig/hook/PAPIHook.java:178 | The last lower-case occurrence can come before the trailing word, so too much is cut. | `parse_a_lx_L` gives `a` | `a_lx`, with the legacy format | medium, not executed | PapiHook.AsWrittenCutsTooMuch | PapiHook.CorrectedCutsLastWord |
| core/src/main/java/to/itsme/itsmyconfig/hook/PAPIHook.java:178 | Content that is a bare format word has no `_`, so the index is -1 and `substring` throws. | `parse_mini` | The content `mini` is kept, with MiniMessage | medium, not executed | PapiHook.AsWrittenFailsOnBareWord | PapiHook.FormatSuffixWithoutUnderscore |
