// The event grammar: how a document tree may be laid out, and the events each layout gives.
// A layout is rendered in front of the events that follow it.
module Grammar {
  import opened Wrappers
  import opened Events
  import opened Decode
  import opened Syntax
  import Resolver

  // A node's tag and anchor, in either order.
  datatype Props = Props(tag: Option<string>, anchor: Option<string>, tagFirst: bool)

  datatype Tree =
    | Leaf(props: Props, text: string, style: Resolver.ScalarStyle)
    | AliasTo(name: string)
    | Empty(props: Props)                                        // no node at all
    | BlockSeq(props: Props, items: seq<Tree>)
    | Indentless(props: Props, items: seq<Tree>)                 // `- a` at the key's own indent
    | FlowSeq(props: Props, elements: seq<Element>, trailing: bool)
    | Map(props: Props, flow: bool, entries: seq<Entry>, trailing: bool)

  datatype Entry =
    | Keyed(explicit: bool, key: Tree, val: Tree)                // `k: v` or `? k` and `: v`
    | KeyOnly(explicit: bool, key: Tree)                         // `? k`
    | Bare(key: Tree, val: Tree)                                 // `k: v` or `: v` without a marker
    | BareKey(key: Tree)                                         // `k` in `{k, l: v}`

  // An element of a flow sequence; `[a: b]` holds a pair.
  datatype Element = Single(node: Tree) | OfPair(entry: Entry)

  function Push(e: Event, rest: seq<Event>): (r: seq<Event>)
    ensures |r| == |rest| + 1 && r[0] == e && r[1..] == rest
  {
    [e] + rest
  }

  function RenderTag(tag: Option<string>, rest: seq<Event>): (r: seq<Event>)
    ensures |r| >= |rest|
  {
    if tag.Some? then Push(Tag(tag.value), rest) else rest
  }

  function RenderAnchor(anchor: Option<string>, rest: seq<Event>): (r: seq<Event>)
    ensures |r| >= |rest|
  {
    if anchor.Some? then Push(Anchor(anchor.value), rest) else rest
  }

  function RenderProps(p: Props, rest: seq<Event>): (r: seq<Event>)
    ensures |r| >= |rest|
  {
    if p.tagFirst then RenderTag(p.tag, RenderAnchor(p.anchor, rest))
    else RenderAnchor(p.anchor, RenderTag(p.tag, rest))
  }

  function RenderTree(t: Tree, rest: seq<Event>): (r: seq<Event>)
    ensures |r| >= |rest| && (!IsBareEmpty(t) ==> |r| > |rest| || (t.Indentless? && t.items == []))
    decreases t, 1
  {
    match t
    case Leaf(p, text, style) => RenderProps(p, Push(Scalar(text, style), rest))
    case AliasTo(name) => Push(Alias(name), rest)
    case Empty(p) => RenderProps(p, rest)
    case BlockSeq(p, items) => RenderProps(p, Push(SequenceStart(false), RenderItems(items, Push(BlockEnd, rest))))
    case Indentless(p, items) => RenderProps(p, RenderItems(items, rest))
    case FlowSeq(p, elements, trailing) =>
      RenderProps(p, Push(SequenceStart(true), RenderElements(elements, trailing, Push(SequenceEnd, rest))))
    case Map(p, flow, entries, trailing) =>
      RenderProps(p, Push(MappingStart(flow), RenderEntries(entries, flow, trailing, Push(CloseMap(flow), rest))))
  }

  function CloseMap(flow: bool): Event { if flow then MappingEnd else BlockEnd }

  predicate IsBareEmpty(t: Tree) { t.Empty? && t.props.tag.None? && t.props.anchor.None? }

  function RenderItems(items: seq<Tree>, rest: seq<Event>): (r: seq<Event>)
    ensures |r| >= |rest| + |items|
    ensures items != [] ==> r[0] == SequenceEntry
    decreases items, 0
  {
    if items == [] then rest else Push(SequenceEntry, RenderTree(items[0], RenderItems(items[1..], rest)))
  }

  // A comma comes between two entries, and after the last one if it trails.
  function Comma(more: bool, rest: seq<Event>): (r: seq<Event>)
    ensures |r| >= |rest|
  {
    if more then Push(FlowEntry, rest) else rest
  }

  function RenderEntries(entries: seq<Entry>, flow: bool, trailing: bool, rest: seq<Event>): (r: seq<Event>)
    ensures |r| >= |rest|
    decreases entries, 0
  {
    if entries == [] then rest
    else
      RenderEntry(entries[0], Comma(flow && (|entries| > 1 || trailing),
                                    RenderEntries(entries[1..], flow, trailing, rest)))
  }

  function RenderEntry(e: Entry, rest: seq<Event>): (r: seq<Event>)
    ensures |r| >= |rest| && (!e.BareKey? ==> |r| > |rest|)
    decreases e, 2
  {
    match e
    case Keyed(explicit, key, val) => Push(Key(explicit), RenderTree(key, Push(ValueMark, RenderTree(val, rest))))
    case KeyOnly(explicit, key) => Push(Key(explicit), RenderTree(key, rest))
    case Bare(key, val) => RenderTree(key, Push(ValueMark, RenderTree(val, rest)))
    case BareKey(key) => RenderTree(key, rest)
  }

  function RenderElements(elements: seq<Element>, trailing: bool, rest: seq<Event>): (r: seq<Event>)
    ensures |r| >= |rest|
    decreases elements, 0
  {
    if elements == [] then rest
    else
      RenderElement(elements[0], Comma(|elements| > 1 || trailing, RenderElements(elements[1..], trailing, rest)))
  }

  function RenderElement(e: Element, rest: seq<Event>): (r: seq<Event>)
    ensures |r| >= |rest|
    decreases e, 3
  {
    match e
    case Single(node) => RenderTree(node, rest)
    case OfPair(entry) => RenderEntry(entry, rest)
  }

  // ----- Readable layouts -----

  // A layout that can be read in front of `rest`. An empty node needs an event that ends
  // it, and an indentless sequence stands only where the value of a mapping does, or a key
  // after a `?`.
  predicate Readable(t: Tree, rest: seq<Event>, allow: bool)
    requires rest != []
    decreases t, 1
  {
    match t
    case Leaf(_, _, _) => true
    case AliasTo(_) => true
    case Empty(_) => EndsNode(rest[0], allow)
    case BlockSeq(_, items) => ReadableItems(items, Push(BlockEnd, rest))
    case Indentless(_, items) =>
      allow && items != [] && !(rest[0] in {SequenceEntry, MappingEnd}) && ReadableItems(items, rest)
    case FlowSeq(_, elements, trailing) => ReadableElements(elements, trailing, Push(SequenceEnd, rest))
    case Map(_, flow, entries, trailing) => ReadableEntries(entries, flow, trailing, Push(CloseMap(flow), rest))
  }

  predicate EndsNode(e: Event, allow: bool) { IsTerminator(e) && !(allow && e.SequenceEntry?) }

  predicate ReadableItems(items: seq<Tree>, rest: seq<Event>)
    requires rest != []
    decreases items, 0
  {
    items == [] ||
    (Readable(items[0], RenderItems(items[1..], rest), false)
     && (IsBareEmpty(items[0]) ==> EndsIndentlessItem(RenderItems(items[1..], rest)[0]))
     && ReadableItems(items[1..], rest))
  }

  predicate ReadableEntries(entries: seq<Entry>, flow: bool, trailing: bool, rest: seq<Event>)
    requires rest != []
    decreases entries, 0
  {
    entries == [] ||
    var more := Comma(flow && (|entries| > 1 || trailing), RenderEntries(entries[1..], flow, trailing, rest));
    ReadableEntry(entries[0], more, !flow) && StandsBare(entries[0], flow, RenderEntry(entries[0], more))
    && ReadableEntries(entries[1..], flow, trailing, rest)
  }

  // Where an entry may go without a `Key` marker: anywhere in a flow mapping. In a block
  // mapping, as in `: v`, it may begin with no block collection, and with a scalar only if
  // a `:` comes after its key.
  predicate StandsBare(e: Entry, flow: bool, ev: seq<Event>) {
    e.Bare? || e.BareKey? ==>
      flow || (ev != [] && !IsBlockCollection(ev) && (e.BareKey? ==> !ev[0].Scalar?))
  }

  // `dashes`: in a block mapping, the key after a `?` may be an indentless sequence.
  predicate ReadableEntry(e: Entry, rest: seq<Event>, dashes: bool)
    requires rest != []
    decreases e, 2
  {
    match e
    case Keyed(explicit, key, val) =>
      Readable(key, Push(ValueMark, RenderTree(val, rest)), dashes && explicit) && Readable(val, rest, true)
    case KeyOnly(explicit, key) =>
      Readable(key, rest, dashes && explicit) && EndsNode(rest[0], true) && !rest[0].ValueMark?
    case Bare(key, val) =>
      Readable(key, Push(ValueMark, RenderTree(val, rest)), false) && Readable(val, rest, true)
    case BareKey(key) => !IsBareEmpty(key) && Readable(key, rest, false) && !rest[0].ValueMark?
  }

  predicate ReadableElements(elements: seq<Element>, trailing: bool, rest: seq<Event>)
    requires rest != []
    decreases elements, 0
  {
    elements == [] ||
    (ReadableElement(elements[0], Comma(|elements| > 1 || trailing, RenderElements(elements[1..], trailing, rest)))
     && ReadableElements(elements[1..], trailing, rest))
  }

  predicate ReadableElement(e: Element, rest: seq<Event>)
    requires rest != []
    decreases e, 3
  {
    match e
    case Single(node) => !IsBareEmpty(node) && Readable(node, rest, false) && !rest[0].ValueMark?
    case OfPair(entry) =>
      && !entry.BareKey? && ReadableEntry(entry, rest, false)
      && (entry.Keyed? || entry.Bare? ==> Readable(entry.val, rest, false))
  }

  // ----- What a layout lays out -----

  function Ast(t: Tree): YNode
    decreases t, 1
  {
    match t
    case Leaf(p, text, style) => YNode(YScalar(text, style), p.tag, p.anchor)
    case AliasTo(name) => YNode(YAlias(name), None, None)
    case Empty(p) => YNode(YNull, p.tag, p.anchor)
    case BlockSeq(p, items) => YNode(YSequence(AstItems(items)), p.tag, p.anchor)
    case Indentless(p, items) => YNode(YSequence(AstItems(items)), p.tag, p.anchor)
    case FlowSeq(p, elements, _) => YNode(YSequence(AstElements(elements)), p.tag, p.anchor)
    case Map(p, _, entries, _) => YNode(YMapping(AstEntries(entries)), p.tag, p.anchor)
  }

  function AstItems(items: seq<Tree>): seq<YNode>
    decreases items, 0
  {
    if items == [] then [] else [Ast(items[0])] + AstItems(items[1..])
  }

  function AstEntries(entries: seq<Entry>): seq<YPair>
    decreases entries, 0
  {
    if entries == [] then [] else [AstEntry(entries[0])] + AstEntries(entries[1..])
  }

  function AstEntry(e: Entry): YPair
    decreases e, 2
  {
    YPair(Ast(e.key), if e.Keyed? || e.Bare? then Ast(e.val) else NULL_NODE)
  }

  function AstElements(elements: seq<Element>): seq<YNode>
    decreases elements, 0
  {
    if elements == [] then [] else [AstElement(elements[0])] + AstElements(elements[1..])
  }

  function AstElement(e: Element): YNode
    decreases e, 3
  {
    match e
    case Single(node) => Ast(node)
    case OfPair(entry) => YNode(YMapping([AstEntry(entry)]), None, None)
  }

  // ----- What the parsers make of a layout -----

  predicate HasIndentlessKey(e: Entry) { (e.Keyed? || e.KeyOnly?) && e.key.Indentless? }

  // The tree laid out, but for a key that is an indentless sequence. There they take the key
  // for empty and the sequence for its value, and the `:` begins another pair.
  function Parsed(t: Tree): YNode
    decreases t, 1
  {
    match t
    case Leaf(p, text, style) => YNode(YScalar(text, style), p.tag, p.anchor)
    case AliasTo(name) => YNode(YAlias(name), None, None)
    case Empty(p) => YNode(YNull, p.tag, p.anchor)
    case BlockSeq(p, items) => YNode(YSequence(ParsedItems(items)), p.tag, p.anchor)
    case Indentless(p, items) => YNode(YSequence(ParsedItems(items)), p.tag, p.anchor)
    case FlowSeq(p, elements, _) => YNode(YSequence(ParsedElements(elements)), p.tag, p.anchor)
    case Map(p, _, entries, _) => YNode(YMapping(ParsedEntries(entries)), p.tag, p.anchor)
  }

  function ParsedItems(items: seq<Tree>): seq<YNode>
    decreases items, 0
  {
    if items == [] then [] else [Parsed(items[0])] + ParsedItems(items[1..])
  }

  function ParsedEntries(entries: seq<Entry>): seq<YPair>
    decreases entries, 0
  {
    if entries == [] then [] else ParsedEntry(entries[0]) + ParsedEntries(entries[1..])
  }

  function ParsedEntry(e: Entry): seq<YPair>
    decreases e, 3
  {
    if HasIndentlessKey(e) then [MisreadPair(e)] + (if e.Keyed? then [YPair(NULL_NODE, Parsed(e.val))] else [])
    else [PlainPair(e)]
  }

  // An empty key with the properties, and the bare sequence.
  function MisreadPair(e: Entry): YPair
    requires HasIndentlessKey(e)
    decreases e, 2
  {
    YPair(YNode(YNull, e.key.props.tag, e.key.props.anchor), YNode(YSequence(ParsedItems(e.key.items)), None, None))
  }

  function PlainPair(e: Entry): YPair
    decreases e, 2
  {
    YPair(Parsed(e.key), if e.Keyed? || e.Bare? then Parsed(e.val) else NULL_NODE)
  }

  function ParsedElements(elements: seq<Element>): seq<YNode>
    decreases elements, 0
  {
    if elements == [] then [] else [ParsedElement(elements[0])] + ParsedElements(elements[1..])
  }

  function ParsedElement(e: Element): YNode
    decreases e, 3
  {
    match e
    case Single(node) => Parsed(node)
    case OfPair(entry) => YNode(YMapping([PlainPair(entry)]), None, None)
  }

  // No key of the layout is an indentless sequence.
  predicate PlainKeys(t: Tree)
    decreases t, 1
  {
    match t
    case BlockSeq(_, items) => ItemsHavePlainKeys(items)
    case Indentless(_, items) => ItemsHavePlainKeys(items)
    case FlowSeq(_, elements, _) => ElementsHavePlainKeys(elements)
    case Map(_, _, entries, _) => EntriesHavePlainKeys(entries)
    case _ => true
  }

  predicate ItemsHavePlainKeys(items: seq<Tree>)
    decreases items, 0
  {
    items == [] || (PlainKeys(items[0]) && ItemsHavePlainKeys(items[1..]))
  }

  predicate EntriesHavePlainKeys(entries: seq<Entry>)
    decreases entries, 0
  {
    entries == [] || (!HasIndentlessKey(entries[0]) && PairHasPlainKeys(entries[0]) && EntriesHavePlainKeys(entries[1..]))
  }

  predicate PairHasPlainKeys(e: Entry)
    decreases e, 2
  {
    PlainKeys(e.key) && (e.Keyed? || e.Bare? ==> PlainKeys(e.val))
  }

  predicate ElementsHavePlainKeys(elements: seq<Element>)
    decreases elements, 0
  {
    elements == [] || (ElementHasPlainKeys(elements[0]) && ElementsHavePlainKeys(elements[1..]))
  }

  predicate ElementHasPlainKeys(e: Element)
    decreases e, 3
  {
    match e
    case Single(node) => PlainKeys(node)
    case OfPair(entry) => PairHasPlainKeys(entry)
  }

  // How deep the layout nests. An empty item takes no level.
  function Height(t: Tree): (h: nat)
    ensures h >= 1
    decreases t, 1
  {
    1 + match t
        case BlockSeq(_, items) => HeightOfItems(items)
        case Indentless(_, items) => HeightOfItems(items)
        case FlowSeq(_, elements, _) => HeightOfElements(elements)
        case Map(_, _, entries, _) => HeightOfEntries(entries)
        case _ => 0
  }

  function Max(a: nat, b: nat): nat { if a > b then a else b }

  function HeightOfItems(items: seq<Tree>): nat
    decreases items, 0
  {
    if items == [] then 0 else Max(HeightOfItem(items[0]), HeightOfItems(items[1..]))
  }

  function HeightOfItem(t: Tree): nat
    decreases t, 2
  {
    if IsBareEmpty(t) then 0 else Height(t)
  }

  function HeightOfEntries(entries: seq<Entry>): nat
    decreases entries, 0
  {
    if entries == [] then 0 else Max(HeightOfEntry(entries[0]), HeightOfEntries(entries[1..]))
  }

  function HeightOfEntry(e: Entry): (h: nat)
    ensures h >= 1
    decreases e, 2
  {
    Max(Height(e.key), if e.Keyed? || e.Bare? then Height(e.val) else 1)
  }

  function HeightOfElements(elements: seq<Element>): nat
    decreases elements, 0
  {
    if elements == [] then 0
    else Max(HeightOfElement(elements[0]), HeightOfElements(elements[1..]))
  }

  function HeightOfElement(e: Element): (h: nat)
    ensures h >= 1
    decreases e, 3
  {
    match e
    case Single(node) => Height(node)
    case OfPair(entry) => HeightOfEntry(entry)
  }
}
