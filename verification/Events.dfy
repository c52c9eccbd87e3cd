// The parser's events (src/parser/event.rs) and what the decoder makes of a single one:
// tags, scalars and the errors it can report (src/decode/mod.rs).
module Events {
  import opened Wrappers
  import opened Values
  import Merge
  import Resolver
  import Timestamps

  datatype Event =
    | StreamStart
    | StreamEnd
    | DocumentStart
    | DocumentEnd
    | MappingStart(flow: bool)
    | MappingEnd
    | SequenceStart(flow: bool)
    | SequenceEnd
    | BlockEnd
    | Key(explicit: bool)
    | ValueMark
    | SequenceEntry
    | FlowEntry
    | Scalar(text: string, style: Resolver.ScalarStyle)
    | Anchor(name: string)
    | Alias(name: string)
    | Tag(tag: string)
    | Directive(text: string)

  datatype Error =
    | TooDeep
    | TooManyNodes
    | TwoAnchors
    | AliasWithProperties
    | UnknownAlias(name: string)
    | UndefinedHandle
    | MissingColon
    | BlockCollectionKey
    | ComplexKey
    | DuplicateKey
    | TrailingContent
    | BadDirective

  const MAX_DEPTH: nat := 1000
  const MAX_NODES: nat := 10_000_000

  // The options of a decode. `signature` identifies keys that are equal as Python keys.
  datatype Config = Config(
    schema: Resolver.Schema,
    floats: Resolver.Floats,
    duplicateKeysError: bool,
    rejectComplexKeys: bool,
    resolveTimestamps: bool,
    signature: Value -> string)

  // The options, and the tag handles that the current document declares.
  datatype Scope = Scope(config: Config, handles: map<string, string>)

  // An anchor's value and its size.
  datatype Bound = Bound(value: Value, size: nat)

  // What the decoder carries from node to node.
  datatype Memory = Memory(anchors: map<string, Bound>, nodes: nat, sawMerge: bool)

  // ----- Tags -----

  // Where the closing mark of a named handle stands, or the length.
  function FindMark(s: string): (n: nat)
    ensures n <= |s| && (n < |s| ==> s[n] == '!')
  {
    if s == "" || s[0] == '!' then 0 else 1 + FindMark(s[1..])
  }

  // `named_tag_handle`.
  function NamedHandle(tag: string): Option<string> {
    if tag == "" || tag[0] != '!' then None
    else
      var rest := tag[1..];
      if rest != "" && rest[0] in {'!', '<'} then None
      else if FindMark(rest) == |rest| then None
      else Some(tag[..FindMark(rest) + 2])
  }

  predicate HandleUndefined(handles: map<string, string>, tag: string) {
    NamedHandle(tag).Some? && NamedHandle(tag).value !in handles
  }

  const CORE_PREFIX := "tag:yaml.org,2002:"

  // `expand_tag`.
  function ExpandTag(handles: map<string, string>, tag: string): string {
    if "!<" <= tag then tag
    else if "!!" <= tag then (if "!!" in handles then handles["!!"] else CORE_PREFIX) + tag[2..]
    else if NamedHandle(tag).Some? && NamedHandle(tag).value in handles then
      handles[NamedHandle(tag).value] + tag[|NamedHandle(tag).value|..]
    else if "!" <= tag && "!" in handles then handles["!"] + tag[1..]
    else tag
  }

  // `is_custom_tag`.
  predicate IsCustom(tag: string) { !("!!" <= tag || CORE_PREFIX <= tag) }

  function WithTag(tag: Option<string>, v: Value): Value {
    if tag.Some? && IsCustom(tag.value) then Tagged(tag.value, v) else v
  }

  // ----- Scalars -----

  // A scalar's value, and whether it is a merge key.
  datatype Resolved = Resolved(value: Value, merges: bool)

  function ScalarValue(c: Config, text: string, style: Resolver.ScalarStyle, tag: Option<string>): Resolved {
    match Resolver.Classify(c.schema, c.floats, text, style, tag)
    case NullKind => Resolved(Null, false)
    case BoolKind(b) => Resolved(Bool(b), false)
    case IntKind(i) => Resolved(Int(i), false)
    case BigIntKind => Resolved(BigInt(Resolver.BigPayload(text)), false)
    case FloatKind(bits) => Resolved(Float(bits), false)
    case StrKind =>
      var stamp := Timestamps.Parsed(text);
      if c.resolveTimestamps && style == Resolver.Plain && tag.None? && stamp.Some? then
        Resolved(Stamp(stamp.value), false)
      else Resolved(Str(text), false)
    case MergeKind => Resolved(Merge.MARKER, true)
  }

  // A tag on a node that turns out empty.
  function EmptyValue(c: Config, tag: string): Resolved {
    match Resolver.Classify(c.schema, c.floats, "", Resolver.Plain, Some(tag))
    case NullKind => Resolved(Null, false)
    case BoolKind(b) => Resolved(Bool(b), false)
    case IntKind(i) => Resolved(Int(i), false)
    case FloatKind(bits) => Resolved(Float(bits), false)
    case BigIntKind => Resolved(Str(""), false)
    case StrKind => Resolved(Str(""), false)
    case MergeKind => Resolved(Merge.MARKER, true)
  }

  // A value fit for what comes after: well formed, and free of merge markers unless the
  // decoder has noted one.
  predicate Fit(v: Value, sawMerge: bool) { WellFormed(v) && (sawMerge || Merge.Clean(v)) }

  lemma MarkerIsWellFormed()
    ensures WellFormed(Merge.MARKER) && CountNodes(Merge.MARKER) == 2
  {
    assert CountNodes(Merge.LITERAL) == 1;
  }

  lemma ScalarIsFit(c: Config, text: string, style: Resolver.ScalarStyle, tag: Option<string>)
    ensures var r := ScalarValue(c, text, style, tag); Fit(r.value, r.merges) && CountNodes(r.value) <= 2
  {
    MarkerIsWellFormed();
    if Resolver.Classify(c.schema, c.floats, text, style, tag).BigIntKind? {
      Resolver.BigIntHasNoMark(c.schema, c.floats, text, style, tag);
    }
  }

  lemma EmptyIsFit(c: Config, tag: string)
    ensures var r := EmptyValue(c, tag); Fit(r.value, r.merges) && CountNodes(r.value) <= 2
  {
    MarkerIsWellFormed();
  }

  // A tag keeps a value fit, and weighs one node.
  lemma TaggedIsFit(tag: Option<string>, v: Value, sawMerge: bool)
    requires Fit(v, sawMerge)
    ensures Fit(WithTag(tag, v), sawMerge)
    ensures CountNodes(WithTag(tag, v)) <= CountNodes(v) + if tag.Some? then 1 else 0
  {
    assert !IsCustom(Merge.MERGE_TAG);
  }
}
