/** `YamlNode`, the base of the nodes of a YAML document: tag and anchor,
    equality and hash through the tag only, loading from a node event, saving
    through the emitter with anchors written once, and the dispatch that picks
    the node kind for the next parsing event. The node subclasses, the event
    reader and the document loading state live in files that are not part of
    this model: the reader is a sequence of events with a position, the
    loading state a table from anchor to node, and the subclasses' own `Emit`
    is recorded as one event. Strings that may be null are `Option<string>`. */
module YamlNodes {
  import opened Wrappers
  import opened Numerics

  /** A position in the input stream. */
  datatype Mark = Mark(index: int, line: int, column: int)

  /** A `NodeEvent`: the anchor, tag and marks of a scalar, sequence or
      mapping event. */
  datatype NodeEvent = NodeEvent(anchor: Option<string>, tag: Option<string>, start: Mark, end: Mark)

  /** The parsing events `ParseNode` tells apart. */
  datatype ParsingEvent =
    | ScalarEvent(node: NodeEvent)
    | SequenceStartEvent(node: NodeEvent)
    | MappingStartEvent(node: NodeEvent)
    | AliasEvent(value: string, start: Mark, end: Mark)
    | OtherEvent(start: Mark, end: Mark)

  /** An event of an unsupported kind (`ArgumentException`), or no event
      left to look at. */
  datatype ParseError = UnsupportedEvent | EndOfStream

  /** `SafeEquals` on tags: two nulls are equal, a null equals no string, and
      two strings are equal when their characters are. */
  function SafeEquals(first: Option<string>, second: Option<string>): (r: bool)
    ensures r <==> first == second
  {
    if first.Some? then second.Some? && first.value == second.value
    else if second.Some? then false
    else true
  }

  /** `GetHashCode(object)`: zero for null, the string's hash otherwise;
      `String.GetHashCode` is the parameter `stringHash`, wrapped to 32 bits. */
  function HashOf(value: Option<string>, stringHash: string -> int): (h: int)
    ensures InRange(h, W32)
    ensures value.None? ==> h == 0
    ensures value.Some? && InRange(stringHash(value.value), W32) ==> h == stringHash(value.value)
  {
    if value.None? then 0 else Wrap(stringHash(value.value), W32)
  }

  /** `CombineHashCodes`: `((h1 << 5) + h1) ^ h2` in unchecked 32-bit
      arithmetic. */
  function CombineHashCodes(h1: int, h2: int): (h: int)
    ensures InRange(h, W32)
  {
    Xor32(Wrap(Wrap(h1 * 32, W32) + h1, W32), h2)
  }

  /** The combination is `33 * h1`, wrapped to 32 bits, exclusive-or `h2`. */
  lemma CombineHashCodesIsTimes33(h1: int, h2: int)
    ensures CombineHashCodes(h1, h2) == Xor32(Wrap(33 * h1, W32), h2)
  {
    var shifted := Wrap(h1 * 32, W32);
    assert (shifted - h1 * 32) % TWO_32 == 0;
    assert ((shifted + h1) - 33 * h1) % TWO_32 == 0 by {
      assert (shifted + h1) - 33 * h1 == shifted - h1 * 32;
    }
    WrapCongruent(shifted + h1, 33 * h1, W32);
  }

  /** What the emitter receives when a node is saved: an alias to an anchor
      written before, or the node's own events. */
  datatype EmitterEvent = AliasEmitted(anchor: string) | NodeEmitted(node: YamlNode)

  /** The emitter: the events it has received, in order. */
  class Emitter {
    var events: seq<EmitterEvent>

    constructor ()
      ensures events == []
    {
      events := [];
    }
  }

  /** `EmitterState`: the anchors written so far. */
  class EmitterState {
    var emittedAnchors: set<string>

    constructor ()
      ensures emittedAnchors == {}
    {
      emittedAnchors := {};
    }
  }

  /** The document loading state: the nodes registered under their anchors. */
  class DocumentLoadingState {
    var anchors: map<string, YamlNode>

    constructor ()
      ensures anchors == map[]
    {
      anchors := map[];
    }
  }

  /** The event reader: the events and the position of the current one. */
  class EventReader {
    const events: seq<ParsingEvent>
    var position: nat

    constructor (events: seq<ParsingEvent>)
      ensures this.events == events && position == 0
    {
      this.events := events;
      position := 0;
    }
  }

  /** `!string.IsNullOrEmpty(anchor)`. */
  predicate HasAnchor(anchor: Option<string>) {
    anchor.Some? && anchor.value != ""
  }

  /** Saving a node whose anchor is `anchor` when `emitted` anchors are
      already written: whether an alias is written instead of the node, and
      the anchors written afterwards. */
  function SaveStep(anchor: Option<string>, emitted: set<string>): (bool, set<string>) {
    if HasAnchor(anchor) then (anchor.value in emitted, emitted + {anchor.value})
    else (false, emitted)
  }

  /** A node without an anchor is always written in full; a node with an
      anchor is written in full the first time and as an alias every time
      after. */
  lemma SaveWritesEachAnchorOnce(anchor: Option<string>, emitted: set<string>)
    ensures !HasAnchor(anchor) ==> SaveStep(anchor, emitted) == (false, emitted)
    ensures HasAnchor(anchor) ==>
              && (SaveStep(anchor, emitted).0 <==> anchor.value in emitted)
              && SaveStep(anchor, SaveStep(anchor, emitted).1).0
              && anchor.value in SaveStep(anchor, emitted).1
  {
  }

  class YamlNode {
    var anchor: Option<string>
    var tag: Option<string>
    var start: Mark
    var end: Mark

    constructor (anchor: Option<string>, tag: Option<string>)
      ensures this.anchor == anchor && this.tag == tag
    {
      this.anchor := anchor;
      this.tag := tag;
      start := Mark(0, 0, 0);
      end := Mark(0, 0, 0);
    }

    /** `GetHashCode`: the hash of the tag alone. */
    function GetHashCode(stringHash: string -> int): (h: int)
      reads this
      ensures h == HashOf(tag, stringHash)
    {
      if tag.None? then 0 else Wrap(stringHash(tag.value), W32)
    }

    /** `Equals(YamlNode)`: the tags are equal; anchors and marks play no
        part. */
    predicate Equals(other: YamlNode)
      reads this, other
      ensures Equals(other) <==> tag == other.tag
    {
      SafeEquals(tag, other.tag)
    }

    /** `Load`: takes the tag and marks of the event, and its anchor when it
        has one, registering the node under that anchor. */
    method Load(yamlEvent: NodeEvent, state: DocumentLoadingState)
      modifies this, state
      ensures tag == yamlEvent.tag && start == yamlEvent.start && end == yamlEvent.end
      ensures yamlEvent.anchor.None? ==> anchor == old(anchor) && state.anchors == old(state.anchors)
      ensures yamlEvent.anchor.Some? ==>
                anchor == yamlEvent.anchor && state.anchors == old(state.anchors)[yamlEvent.anchor.value := this]
    {
      tag := yamlEvent.tag;
      if yamlEvent.anchor.Some? {
        anchor := yamlEvent.anchor;
        state.anchors := state.anchors[yamlEvent.anchor.value := this];
      }
      start := yamlEvent.start;
      end := yamlEvent.end;
    }

    /** `Save`: a node whose non-empty anchor was already written becomes an
        alias; otherwise its anchor is recorded and the node is written. */
    method Save(emitter: Emitter, state: EmitterState)
      modifies emitter, state
      ensures var (alias, emitted) := SaveStep(anchor, old(state.emittedAnchors));
              && state.emittedAnchors == emitted
              && emitter.events == old(emitter.events) + [if alias then AliasEmitted(anchor.value) else NodeEmitted(this)]
    {
      if anchor.Some? && anchor.value != "" && anchor.value in state.emittedAnchors {
        emitter.events := emitter.events + [AliasEmitted(anchor.value)];
      } else {
        if anchor.Some? && anchor.value != "" {
          state.emittedAnchors := state.emittedAnchors + {anchor.value};
        }
        emitter.events := emitter.events + [NodeEmitted(this)];
      }
    }
  }

  /** Equal nodes have equal hashes, and neither depends on the anchor. */
  lemma EqualNodesHashEqually(a: YamlNode, b: YamlNode, stringHash: string -> int)
    ensures a.Equals(b) ==> a.GetHashCode(stringHash) == b.GetHashCode(stringHash)
    ensures a.tag == b.tag ==> a.Equals(b)
  {
  }

  /** Which node `ParseNode` builds: the node classes whose constructors take
      over the reader, a node already registered under an alias's anchor, or
      an unresolved alias node. */
  datatype ParsedNode =
    | ScalarNode
    | SequenceNode
    | MappingNode
    | Resolved(node: YamlNode)
    | UnresolvedAlias(anchor: string)

  /** `ParseNode`: picks the node kind by the current event. An alias event is
      consumed and resolved through the loading state; any other event is
      refused, and so is the end of the events. */
  method ParseNode(events: EventReader, state: DocumentLoadingState) returns (r: Result<ParsedNode, ParseError>)
    requires events.position <= |events.events|
    modifies events
    ensures events.position <= |events.events|
    ensures old(events.position) == |events.events| ==> r == Err(EndOfStream) && events.position == old(events.position)
    ensures old(events.position) < |events.events| ==>
              match events.events[old(events.position)]
              case ScalarEvent(_) => r == Ok(ScalarNode) && events.position == old(events.position)
              case SequenceStartEvent(_) => r == Ok(SequenceNode) && events.position == old(events.position)
              case MappingStartEvent(_) => r == Ok(MappingNode) && events.position == old(events.position)
              case AliasEvent(value, _, _) =>
                && events.position == old(events.position) + 1
                && r == Ok(if value in state.anchors then Resolved(state.anchors[value]) else UnresolvedAlias(value))
              case OtherEvent(_, _) => r == Err(UnsupportedEvent) && events.position == old(events.position)
  {
    if events.position == |events.events| {
      return Err(EndOfStream);
    }
    var current := events.events[events.position];
    if current.ScalarEvent? {
      return Ok(ScalarNode);
    }
    if current.SequenceStartEvent? {
      return Ok(SequenceNode);
    }
    if current.MappingStartEvent? {
      return Ok(MappingNode);
    }
    if current.AliasEvent? {
      events.position := events.position + 1;
      if current.value in state.anchors {
        return Ok(Resolved(state.anchors[current.value]));
      }
      return Ok(UnresolvedAlias(current.value));
    }
    return Err(UnsupportedEvent);
  }
}
