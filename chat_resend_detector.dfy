/**
 * Detection of chat "resends": plugins that delete chat messages flood blank lines and
 * then send the history again, and effects such as action bars and sounds must not fire
 * for those packets. A player is in a burst once six packets arrive within 100 ms of the
 * start of the current window. The clock is an explicit `now` argument (milliseconds).
 */
module ChatResend {
  import opened Wrappers
  import opened JavaStrings

  const BURST_WINDOW_MS: int := 100
  const BURST_THRESHOLD: int := 6

  // ---------------------------------------------------------------------------
  // One player's tracker, as a value

  datatype TrackerState = TrackerState(count: int, windowStart: int, inBurst: bool)

  /** A tracker as created: no packets, window start 0, not in a burst. */
  const FRESH := TrackerState(0, 0, false)

  predicate WindowExpired(t: TrackerState, now: int) {
    now - t.windowStart > BURST_WINDOW_MS
  }

  /** The tracker after one more packet at time `now`. */
  function AfterPacket(t: TrackerState, now: int): (r: TrackerState)
    ensures WindowExpired(t, now) ==> r == TrackerState(1, now, false)
    ensures !WindowExpired(t, now) ==> r.windowStart == t.windowStart && r.count == t.count + 1
    ensures !WindowExpired(t, now) ==> (r.inBurst <==> t.inBurst || t.count + 1 >= BURST_THRESHOLD)
  {
    if WindowExpired(t, now) then TrackerState(1, now, false)
    else TrackerState(t.count + 1, t.windowStart, t.inBurst || t.count + 1 >= BURST_THRESHOLD)
  }

  /** The tracker after a burst query at time `now`: an expired window is cleared. */
  function AfterQuery(t: TrackerState, now: int): (r: TrackerState)
    ensures WindowExpired(t, now) ==> r == TrackerState(0, t.windowStart, false)
    ensures !WindowExpired(t, now) ==> r == t
  {
    if WindowExpired(t, now) then TrackerState(0, t.windowStart, false) else t
  }

  /**
   * The invariant every tracker keeps (each tracker method preserves it): a count that is never negative, and a burst
   * flag that is set exactly when the count has reached the threshold.
   */
  predicate Consistent(t: TrackerState) {
    t.count >= 0 && (t.inBurst <==> t.count >= BURST_THRESHOLD)
  }

  lemma FreshConsistent()
    ensures Consistent(FRESH)
  {
  }

  lemma AfterPacketConsistent(t: TrackerState, now: int)
    requires Consistent(t)
    ensures Consistent(AfterPacket(t, now))
  {
  }

  lemma AfterQueryConsistent(t: TrackerState, now: int)
    requires Consistent(t)
    ensures Consistent(AfterQuery(t, now))
  {
  }

  /** The tracker after packets at the given times, in order. */
  function Replay(t: TrackerState, times: seq<int>): TrackerState
    decreases |times|
  {
    if times == [] then t else AfterPacket(Replay(t, times[..|times| - 1]), times[|times| - 1])
  }

  /**
   * On a fresh tracker, packets that all arrive within the window opened by the first
   * one are counted one by one, and the burst starts with the sixth.
   */
  lemma {:induction false} RapidPackets(times: seq<int>)
    requires |times| >= 1 && times[0] > BURST_WINDOW_MS
    requires forall k :: 0 <= k < |times| ==> times[k] - times[0] <= BURST_WINDOW_MS
    ensures Replay(FRESH, times) == TrackerState(|times|, times[0], |times| >= BURST_THRESHOLD)
    decreases |times|
  {
    if |times| > 1 {
      var init := times[..|times| - 1];
      assert init[0] == times[0];
      RapidPackets(init);
    }
  }

  /** A packet after the window has expired starts a new window of one packet. */
  lemma ExpiredWindowRestarts(t: TrackerState, now: int)
    requires now - t.windowStart > BURST_WINDOW_MS
    ensures AfterPacket(t, now) == TrackerState(1, now, false)
    ensures !AfterQuery(t, now).inBurst
  {
  }

  /** A burst query never starts a burst and never changes the window. */
  lemma QueryNeverStartsBurst(t: TrackerState, now: int)
    ensures AfterQuery(t, now).inBurst ==> t.inBurst
    ensures AfterQuery(t, now).windowStart == t.windowStart
  {
  }

  // ---------------------------------------------------------------------------
  // The objects

  class BurstTracker {
    var count: int
    var windowStart: int
    var inBurst: bool

    function State(): TrackerState
      reads this
    {
      TrackerState(count, windowStart, inBurst)
    }

    constructor ()
      ensures State() == FRESH && Consistent(State())
    {
      count, windowStart, inBurst := 0, 0, false;
    }

    /** `addPacket`. */
    method AddPacket(now: int)
      modifies this
      ensures State() == AfterPacket(old(State()), now)
      ensures Consistent(old(State())) ==> Consistent(State())
    {
      if now - windowStart > BURST_WINDOW_MS {
        windowStart := now;
        count := 1;
        inBurst := false;
        return;
      }
      count := count + 1;
      var newCount := count;
      if newCount >= BURST_THRESHOLD {
        inBurst := true;
      }
    }

    /** `isInBurst`: clears an expired window, then reports the burst flag. */
    method IsInBurst(now: int) returns (b: bool)
      modifies this
      ensures State() == AfterQuery(old(State()), now)
      ensures b == State().inBurst
      ensures Consistent(old(State())) ==> Consistent(State())
    {
      if now - windowStart > BURST_WINDOW_MS {
        inBurst := false;
        count := 0;
      }
      b := inBurst;
    }
  }

  /** The state of the tracker for `id`, or of a fresh one when there is none. */
  function StateOf(states: map<String, TrackerState>, id: String): TrackerState {
    if id in states then states[id] else FRESH
  }

  /** Every tracker of the detector keeps the invariant. */
  predicate AllConsistent(states: map<String, TrackerState>) {
    forall id :: id in states ==> Consistent(states[id])
  }

  /** The detector: one tracker per player identifier. */
  class ChatResendDetector {
    var trackers: map<String, BurstTracker>

    /** No two identifiers share a tracker. */
    ghost predicate Valid()
      reads this
    {
      forall a, b :: a in trackers && b in trackers && a != b ==> trackers[a] != trackers[b]
    }

    ghost function States(): map<String, TrackerState>
      reads this, trackers.Values
    {
      map id | id in trackers :: trackers[id].State()
    }

    constructor ()
      ensures Valid() && States() == map[] && trackers == map[] && AllConsistent(States())
    {
      trackers := map[];
    }

    /** `recordPacket`: creates the tracker on first use, then counts the packet. */
    method RecordPacket(id: String, now: int)
      requires Valid()
      modifies this, trackers.Values
      ensures Valid()
      ensures States() == old(States())[id := AfterPacket(StateOf(old(States()), id), now)]
      ensures AllConsistent(old(States())) ==> AllConsistent(States())
      ensures forall t :: t in trackers.Values ==> t in old(trackers.Values) || fresh(t)
    {
      var tracker: BurstTracker;
      if id in trackers {
        tracker := trackers[id];
      } else {
        tracker := new BurstTracker();
        trackers := trackers[id := tracker];
      }
      tracker.AddPacket(now);
    }

    /** `isInBurst`: false for an identifier without a tracker, which stays without one. */
    method IsInBurst(id: String, now: int) returns (b: bool)
      requires Valid()
      modifies trackers.Values
      ensures Valid()
      ensures id !in old(States()) ==> !b && States() == old(States())
      ensures id in old(States()) ==>
                States() == old(States())[id := AfterQuery(old(States())[id], now)] &&
                b == AfterQuery(old(States())[id], now).inBurst
      ensures AllConsistent(old(States())) ==> AllConsistent(States())
    {
      if id !in trackers {
        return false;
      }
      b := trackers[id].IsInBurst(now);
    }

    /** `endBurst`: forgets the identifier's tracker. */
    method EndBurst(id: String)
      requires Valid()
      modifies this
      ensures Valid()
      ensures trackers == old(trackers) - {id}
      ensures States() == old(States()) - {id}
      ensures AllConsistent(old(States())) ==> AllConsistent(States())
    {
      trackers := trackers - {id};
    }

    /** `isChatClearPacket`: in a burst (queried first), or invisible characters. */
    method IsChatClearPacket(id: String, message: Option<String>, now: int) returns (b: bool)
      requires Valid()
      modifies trackers.Values
      ensures Valid()
      ensures id !in old(States()) ==> States() == old(States()) && b == ContainsInvisibleUnicode(message)
      ensures id in old(States()) ==>
                States() == old(States())[id := AfterQuery(old(States())[id], now)] &&
                b == (AfterQuery(old(States())[id], now).inBurst || ContainsInvisibleUnicode(message))
      ensures AllConsistent(old(States())) ==> AllConsistent(States())
    {
      b := IsInBurst(id, now);
      b := b || ContainsInvisibleUnicode(message);
    }
  }

  // ---------------------------------------------------------------------------
  // Invisible characters

  /**
   * The characters chat-clearing plugins use to keep blank lines from being condensed:
   * zero-width space, non-joiner and joiner, word joiner, the byte-order mark, the
   * Mongolian vowel separator, soft hyphen, combining grapheme joiner, Arabic letter
   * mark, the Hangul fillers, the Khmer inherent vowels, U+2061 to U+2064 and U+206A to
   * U+206F.
   */
  predicate IsInvisible(c: char) {
    c == '\U{200B}' || c == '\U{200C}' || c == '\U{200D}' || c == '\U{2060}' ||
    c == '\U{FEFF}' || c == '\U{180E}' || c == '\U{00AD}' || c == '\U{034F}' ||
    c == '\U{061C}' || c == '\U{115F}' || c == '\U{1160}' || c == '\U{17B4}' ||
    c == '\U{17B5}' || ('\U{2061}' <= c <= '\U{2064}') || ('\U{206A}' <= c <= '\U{206F}')
  }

  /** Whether some character of `s` is invisible (the pattern's `find`). */
  function HasInvisible(s: String): (r: bool)
    ensures r <==> exists i :: 0 <= i < |s| && IsInvisible(s[i])
  {
    if s == [] then false
    else if IsInvisible(s[0]) then true
    else
      var rest := HasInvisible(s[1..]);
      assert forall i :: 1 <= i < |s| ==> s[i] == s[1..][i - 1];
      rest
  }

  /** `containsInvisibleUnicode`: false for null and for the empty message. */
  function ContainsInvisibleUnicode(message: Option<String>): (r: bool)
    ensures r <==> message.Some? && exists i :: 0 <= i < |message.value| && IsInvisible(message.value[i])
  {
    message.Some? && message.value != [] && HasInvisible(message.value)
  }

  // ---------------------------------------------------------------------------
  // The scenarios of the unit tests, on the objects

  /** Six packets in the same millisecond: no burst for the first five, then a burst. */
  method BurstOnManyRapidPackets() {
    var d := new ChatResendDetector();
    var id := "test-player-burst";
    d.EndBurst(id);
    var i := 0;
    while i < 5
      invariant d.Valid() && d.States() == if i == 0 then map[] else map[id := TrackerState(i, 1000, false)]
      invariant forall t :: t in d.trackers.Values ==> fresh(t)
      invariant 0 <= i <= 5
    {
      d.RecordPacket(id, 1000);
      var b := d.IsInBurst(id, 1000);
      assert !b;
      i := i + 1;
    }
    d.RecordPacket(id, 1000);
    var b := d.IsInBurst(id, 1000);
    assert b;
  }

  /** A burst ends once the window has expired (120 ms later). */
  method BurstResetAfterDelay() {
    var d := new ChatResendDetector();
    var id := "test-player-reset";
    var i := 0;
    while i < 6
      invariant d.Valid() && d.States() == if i == 0 then map[] else map[id := TrackerState(i, 1000, i >= 6)]
      invariant forall t :: t in d.trackers.Values ==> fresh(t)
      invariant 0 <= i <= 6
    {
      d.RecordPacket(id, 1000);
      i := i + 1;
    }
    var b := d.IsInBurst(id, 1000);
    assert b;
    b := d.IsInBurst(id, 1120);
    assert !b;
  }

  /** One player's burst is not another's. */
  method IndependentPlayerTracking() {
    var d := new ChatResendDetector();
    var p1, p2 := "test-player-1", "test-player-2";
    var i := 0;
    while i < 6
      invariant d.Valid() && d.States() == if i == 0 then map[] else map[p1 := TrackerState(i, 1000, i >= 6)]
      invariant forall t :: t in d.trackers.Values ==> fresh(t)
      invariant 0 <= i <= 6
    {
      d.RecordPacket(p1, 1000);
      i := i + 1;
    }
    var b1 := d.IsInBurst(p1, 1000);
    var b2 := d.IsInBurst(p2, 1000);
    assert b1 && !b2;
  }

  /** A message of invisible characters is a chat-clear packet even outside a burst. */
  method InvisibleMessageClears() {
    var d := new ChatResendDetector();
    var b := d.IsChatClearPacket("p", Some("\U{200B}"), 0);
    assert b by {
      assert IsInvisible("\U{200B}"[0]);
    }
    var c := d.IsChatClearPacket("p", Some("hello"), 0);
    assert !c by {
      forall i | 0 <= i < 5 ensures !IsInvisible("hello"[i]) { }
    }
  }
}
