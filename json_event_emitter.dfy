/** `JsonEventEmitter`: a link of the chain of YAML event emitters that
    adjusts events so the output is JSON. It marks every scalar plain-implicit,
    quotes strings and characters, writes a null source value as `null`,
    makes mappings and sequences compact, and refuses aliases; each adjusted
    event then goes to the next emitter, modelled as the record of what it
    receives. */
module JsonEventEmitters {
  import opened Wrappers

  /** `System.TypeCode`. */
  datatype TypeCode =
    | Empty | Object | DBNull | Boolean | Char | SByte | Byte | Int16 | UInt16
    | Int32 | UInt32 | Int64 | UInt64 | Single | Double | Decimal | DateTime | String

  datatype ScalarStyle = AnyScalar | Plain | SingleQuoted | DoubleQuoted | Literal | Folded

  datatype DataStyle = AnyData | Normal | Compact

  datatype EmitError = NotSupported   // NotSupportedException

  /** `ScalarEventInfo`: the source value (only whether it is null matters
      here), the type code of its source type, and the fields emitters
      adjust. */
  class ScalarEventInfo {
    const hasSourceValue: bool
    const sourceTypeCode: TypeCode
    var isPlainImplicit: bool
    var style: ScalarStyle
    var renderedValue: Option<string>

    constructor (hasSourceValue: bool, sourceTypeCode: TypeCode, renderedValue: Option<string>)
      ensures this.hasSourceValue == hasSourceValue && this.sourceTypeCode == sourceTypeCode
      ensures this.renderedValue == renderedValue && !isPlainImplicit && style == AnyScalar
    {
      this.hasSourceValue := hasSourceValue;
      this.sourceTypeCode := sourceTypeCode;
      this.renderedValue := renderedValue;
      isPlainImplicit := false;
      style := AnyScalar;
    }
  }

  /** `MappingStartEventInfo` and `SequenceStartEventInfo`: the collection
      style. */
  class CollectionStartEventInfo {
    var style: DataStyle

    constructor (style: DataStyle)
      ensures this.style == style
    {
      this.style := style;
    }
  }

  /** What the next emitter receives, as the event looked when it was
      passed on. */
  datatype ForwardedEvent =
    | ScalarForwarded(isPlainImplicit: bool, style: ScalarStyle, renderedValue: Option<string>)
    | MappingStartForwarded(mappingStyle: DataStyle)
    | SequenceStartForwarded(sequenceStyle: DataStyle)

  /** The next emitter of the chain. */
  class NextEmitter {
    var received: seq<ForwardedEvent>

    constructor ()
      ensures received == []
    {
      received := [];
    }
  }

  /** The type code the switch looks at: `Empty` for a null source value. */
  function EffectiveTypeCode(hasSourceValue: bool, sourceTypeCode: TypeCode): TypeCode {
    if hasSourceValue then sourceTypeCode else Empty
  }

  /** The style and rendered value a scalar leaves with: double quotes for a
      string or a character, the text `null` for a null source value, and
      plain style with the rendered value untouched otherwise. */
  function JsonScalar(hasSourceValue: bool, sourceTypeCode: TypeCode, renderedValue: Option<string>): (r: (ScalarStyle, Option<string>))
    ensures r.0 == DoubleQuoted <==> hasSourceValue && (sourceTypeCode == String || sourceTypeCode == Char)
    ensures r.0 != DoubleQuoted ==> r.0 == Plain
    ensures !hasSourceValue ==> r.1 == Some("null")
    ensures hasSourceValue && sourceTypeCode != Empty ==> r.1 == renderedValue
  {
    match EffectiveTypeCode(hasSourceValue, sourceTypeCode)
    case String => (DoubleQuoted, renderedValue)
    case Char => (DoubleQuoted, renderedValue)
    case Empty => (Plain, Some("null"))
    case _ => (Plain, renderedValue)
  }

  class JsonEventEmitter {
    const nextEmitter: NextEmitter

    constructor (nextEmitter: NextEmitter)
      ensures this.nextEmitter == nextEmitter
    {
      this.nextEmitter := nextEmitter;
    }

    /** `Emit(AliasEventInfo)`: aliases have no JSON form. */
    method EmitAlias() returns (r: Outcome<EmitError>)
      ensures r == Fail(NotSupported)
    {
      r := Fail(NotSupported);
    }

    /** `Emit(ScalarEventInfo)`. */
    method EmitScalar(eventInfo: ScalarEventInfo)
      modifies eventInfo, nextEmitter
      ensures eventInfo.isPlainImplicit
      ensures (eventInfo.style, eventInfo.renderedValue) ==
                JsonScalar(eventInfo.hasSourceValue, eventInfo.sourceTypeCode, old(eventInfo.renderedValue))
      ensures nextEmitter.received ==
                old(nextEmitter.received) + [ScalarForwarded(true, eventInfo.style, eventInfo.renderedValue)]
    {
      eventInfo.isPlainImplicit := true;
      eventInfo.style := Plain;
      var typeCode := if eventInfo.hasSourceValue then eventInfo.sourceTypeCode else Empty;
      match typeCode {
        case String =>
          eventInfo.style := DoubleQuoted;
        case Char =>
          eventInfo.style := DoubleQuoted;
        case Empty =>
          eventInfo.renderedValue := Some("null");
        case _ =>
      }
      nextEmitter.received := nextEmitter.received +
        [ScalarForwarded(eventInfo.isPlainImplicit, eventInfo.style, eventInfo.renderedValue)];
    }

    /** `Emit(MappingStartEventInfo)`: compact style, then passed on. */
    method EmitMappingStart(eventInfo: CollectionStartEventInfo)
      modifies eventInfo, nextEmitter
      ensures eventInfo.style == Compact
      ensures nextEmitter.received == old(nextEmitter.received) + [MappingStartForwarded(Compact)]
    {
      eventInfo.style := Compact;
      nextEmitter.received := nextEmitter.received + [MappingStartForwarded(eventInfo.style)];
    }

    /** `Emit(SequenceStartEventInfo)`: compact style, then passed on. */
    method EmitSequenceStart(eventInfo: CollectionStartEventInfo)
      modifies eventInfo, nextEmitter
      ensures eventInfo.style == Compact
      ensures nextEmitter.received == old(nextEmitter.received) + [SequenceStartForwarded(Compact)]
    {
      eventInfo.style := Compact;
      nextEmitter.received := nextEmitter.received + [SequenceStartForwarded(eventInfo.style)];
    }
  }

  /** Adjusting a scalar twice gives what adjusting it once gives: the
      style and rendered value are a fixed point of the rule. */
  lemma JsonScalarIsIdempotent(hasSourceValue: bool, sourceTypeCode: TypeCode, renderedValue: Option<string>)
    ensures var once := JsonScalar(hasSourceValue, sourceTypeCode, renderedValue);
            JsonScalar(hasSourceValue, sourceTypeCode, once.1) == once
  {
  }
}
