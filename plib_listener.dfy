/**
 * The ProtocolLib chat listener (`PLibListener`): a per-packet-type cache in front of
 * an ordered list of packet processors, and the decision to leave, cancel or rewrite an
 * outgoing chat packet.
 *
 * Processors are their positions `0 .. processorCount - 1` in declaration order, and
 * unpacking, prefix parsing and translation are function parameters.
 */
module PLib {
  import opened Wrappers
  import opened JavaStrings

  /** The packet types the listener is registered for. */
  datatype PacketType = Chat | SystemChat | KickDisconnect

  datatype Packet = Packet(kind: PacketType, raw: String)

  /** The unpacked text of a packet; it counts as empty when the message is. */
  datatype Content = Content(message: String) {
    predicate IsEmpty() { message == [] }
  }

  type Unpacker = (nat, Packet) -> Option<Content>

  // ---------------------------------------------------------------------------
  // the processor chain

  /** The first processor at or after `i` (and before `n`) that unpacks the packet. */
  function FirstMatch(unpack: Unpacker, packet: Packet, i: nat, n: nat): (r: Option<nat>)
    ensures r.Some? ==> i <= r.value < n && unpack(r.value, packet).Some?
    ensures r.Some? ==> forall j :: i <= j < r.value ==> unpack(j, packet).None?
    ensures r.None? ==> forall j :: i <= j < n ==> unpack(j, packet).None?
    decreases n - i
  {
    if i >= n then None
    else if unpack(i, packet).Some? then Some(i)
    else FirstMatch(unpack, packet, i + 1, n)
  }

  /** What `processPacket` returns for a cache. */
  function Unpacked(cache: map<PacketType, nat>, packet: Packet, unpack: Unpacker, n: nat): Option<Content> {
    if packet.kind in cache then unpack(cache[packet.kind], packet)
    else
      match FirstMatch(unpack, packet, 0, n)
      case Some(i) => unpack(i, packet)
      case None => None
  }

  /** The cache after `processPacket`. */
  function CacheAfter(cache: map<PacketType, nat>, packet: Packet, unpack: Unpacker, n: nat, caching: bool): map<PacketType, nat> {
    if packet.kind in cache || !caching then cache
    else
      match FirstMatch(unpack, packet, 0, n)
      case Some(i) => cache[packet.kind := i]
      case None => cache
  }

  /** A cached processor's answer is final, even when it unpacks nothing. */
  lemma CacheHitIsFinal(cache: map<PacketType, nat>, packet: Packet, unpack: Unpacker, n: nat, caching: bool)
    requires packet.kind in cache
    ensures Unpacked(cache, packet, unpack, n) == unpack(cache[packet.kind], packet)
    ensures CacheAfter(cache, packet, unpack, n, caching) == cache
  {
  }

  /** On a miss the first processor in order that unpacks the packet wins. */
  lemma FirstProcessorWins(cache: map<PacketType, nat>, packet: Packet, unpack: Unpacker, n: nat, i: nat)
    requires packet.kind !in cache && i < n && unpack(i, packet).Some?
    requires forall j :: 0 <= j < i ==> unpack(j, packet).None?
    ensures Unpacked(cache, packet, unpack, n) == unpack(i, packet)
  {
  }

  /** When no processor unpacks the packet the result is null and the cache stays as it was. */
  lemma NoProcessorMatches(cache: map<PacketType, nat>, packet: Packet, unpack: Unpacker, n: nat, caching: bool)
    requires packet.kind !in cache
    requires forall j :: 0 <= j < n ==> unpack(j, packet).None?
    ensures Unpacked(cache, packet, unpack, n) == None
    ensures CacheAfter(cache, packet, unpack, n, caching) == cache
  {
  }

  /** The cache only ever gains entries, and only when caching is on. */
  lemma CacheOnlyGrows(cache: map<PacketType, nat>, packet: Packet, unpack: Unpacker, n: nat, caching: bool)
    ensures var after := CacheAfter(cache, packet, unpack, n, caching);
      (forall k :: k in cache ==> k in after && after[k] == cache[k]) &&
      (forall k :: k in after && k !in cache ==> caching && k == packet.kind)
  {
  }

  /**
   * With caching on, the processor that first unpacked a type answers every later packet
   * of that type, whatever the other processors would have said.
   */
  lemma WinnerIsReused(cache: map<PacketType, nat>, first: Packet, later: Packet, unpack: Unpacker, n: nat)
    requires first.kind !in cache && later.kind == first.kind
    requires FirstMatch(unpack, first, 0, n).Some?
    ensures Unpacked(CacheAfter(cache, first, unpack, n, true), later, unpack, n) ==
            unpack(FirstMatch(unpack, first, 0, n).value, later)
  {
  }

  // ---------------------------------------------------------------------------
  // the outgoing-packet decision

  /** A translated component; `EmptyComponent` is `Component.empty()`. */
  datatype Component = EmptyComponent | Rendered(text: String)

  datatype Outcome = Untouched | Cancelled | Saved(component: Component)

  /** `onPacketSending` once the packet has been unpacked. */
  function Decide(content: Option<Content>, parsePrefixed: String -> Option<String>, translate: String -> Component): (r: Outcome)
    ensures content.None? || content.value.IsEmpty() ==> r == Untouched
    ensures (content.Some? && !content.value.IsEmpty() && parsePrefixed(content.value.message).None? &&
             !Contains(content.value.message, "<p:")) ==> r == Untouched
    ensures r.Saved? ==> r.component != EmptyComponent
    ensures r != Untouched ==> (content.Some? &&
      var m := content.value.message;
      var c := translate(if parsePrefixed(m).Some? then parsePrefixed(m).value else m);
      if c == EmptyComponent then r == Cancelled else r == Saved(c))
  {
    if content.None? || content.value.IsEmpty() then Untouched
    else
      var message := content.value.message;
      var parsed := parsePrefixed(message);
      if parsed.None? && !Contains(message, "<p:") then Untouched
      else
        var translated := translate(if parsed.Some? then parsed.value else message);
        if translated == EmptyComponent then Cancelled else Saved(translated)
  }

  /** A packet event: whether it is cancelled and what the packet was rewritten to. */
  class PacketEvent {
    const packet: Packet
    var cancelled: bool
    var saved: Option<Component>

    constructor(packet: Packet)
      ensures this.packet == packet && !cancelled && saved == None
    {
      this.packet := packet;
      cancelled := false;
      saved := None;
    }
  }

  class PLibListener {
    var packetTypeMap: map<PacketType, nat>
    const cacheProcessors: bool
    /** The number of `PLibProcessor` values. */
    const processorCount: nat

    constructor(cacheProcessors: bool, processorCount: nat)
      ensures packetTypeMap == map[] && this.cacheProcessors == cacheProcessors
      ensures this.processorCount == processorCount
    {
      packetTypeMap := map[];
      this.cacheProcessors := cacheProcessors;
      this.processorCount := processorCount;
    }

    /** `processPacket`: the cached processor, or the first in order that unpacks the packet. */
    method ProcessPacket(packet: Packet, unpack: Unpacker) returns (r: Option<Content>)
      modifies this
      ensures r == Unpacked(old(packetTypeMap), packet, unpack, processorCount)
      ensures packetTypeMap == CacheAfter(old(packetTypeMap), packet, unpack, processorCount, cacheProcessors)
    {
      if packet.kind in packetTypeMap {
        return unpack(packetTypeMap[packet.kind], packet);
      }
      var i := 0;
      while i < processorCount
        invariant 0 <= i <= processorCount
        invariant packetTypeMap == old(packetTypeMap)
        invariant FirstMatch(unpack, packet, 0, processorCount) == FirstMatch(unpack, packet, i, processorCount)
      {
        var unpacked := unpack(i, packet);
        if unpacked.Some? {
          if cacheProcessors {
            packetTypeMap := packetTypeMap[packet.kind := i];
          }
          return unpacked;
        }
        i := i + 1;
      }
      return None;
    }

    /** `onPacketSending`: leave the packet, cancel the event, or save the translation into the packet. */
    method OnPacketSending(event: PacketEvent, unpack: Unpacker, parsePrefixed: String -> Option<String>,
                           translate: String -> Component)
      modifies this, event
      ensures packetTypeMap == CacheAfter(old(packetTypeMap), event.packet, unpack, processorCount, cacheProcessors)
      ensures var outcome := Decide(Unpacked(old(packetTypeMap), event.packet, unpack, processorCount), parsePrefixed, translate);
        event.cancelled == (old(event.cancelled) || outcome == Cancelled) &&
        event.saved == (if outcome.Saved? then Some(outcome.component) else old(event.saved))
    {
      var content := ProcessPacket(event.packet, unpack);
      if content.None? || content.value.IsEmpty() {
        return;
      }
      var message := content.value.message;
      var parsed := parsePrefixed(message);
      var hasPlaceholders := Contains(message, "<p:");
      if parsed.None? && !hasPlaceholders {
        return;
      }
      var translated := translate(if parsed.Some? then parsed.value else message);
      if translated == EmptyComponent {
        event.cancelled := true;
        return;
      }
      event.saved := Some(translated);
    }
  }
}
