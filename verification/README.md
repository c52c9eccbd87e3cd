# YAMLRocks data core: a verified model

YAMLRocks reads and writes YAML. This project models the part of it where branching, shared
state and arithmetic meet, and proves what the library's own comments promise of it: object
graphs become trees of anchors and aliases without changing their meaning, two parsers of one
event stream agree, aliases mean the same whether they are copied at once or expanded later,
merge keys have a simple list-based meaning that the indexed rebuild computes, what is printed
reads back, and what is left unquoted stays a string.

Code that changes state in the library changes state here: the lowering, the anchor naming, the
decoder, the composer, the copier, the merge rebuild, the timestamp cursor and the emitter are
classes, the loops over buffers and digit vectors are methods with loops. Each method is tied to
a function on values, and the theorems are about those functions. Code that only computes is
functions.

| file | models |
|---|---|
| `Lowering.dfy` | object graphs lowered to named trees |
| `Events.dfy`, `Directives.dfy`, `Decode.dfy`, `Decoder.dfy` | events and directives, what the decoder computes, the decoder itself |
| `Tags.dfy`, `MappingKeys.dfy`, `Refusals.dfy`, `Spelling.dfy` | what tags stand for, which keys may stand together, what is refused, a spelling of every value |
| `DecodeBounds.dfy`, `DecodeCap.dfy`, `ComposeCap.dfy` | what decoded documents may weigh, how deep they may nest |
| `Syntax.dfy`, `Grammar.dfy`, `DecodeGrammar.dfy`, `StreamGrammar.dfy` | trees and their values, the event grammar, the decoder as its inverse, whole streams |
| `Compose.dfy`, `Composer.dfy`, `ComposeGrammar.dfy` | the round-trip composer, the same three ways, and the agreement of the two parsers |
| `IndentlessKeys.dfy` | exactly when the two make the tree that is laid out |
| `Anchors.dfy`, `EagerLazy.dfy` | later expansion under caps, and its agreement with the decoder |
| `Values.dfy`, `KeySig.dfy`, `Merge.dfy`, `MergedMappings.dfy`, `Pipeline.dfy` | decoded values, key signatures, merge keys, what one mapping becomes, a whole decode |
| `Quotes.dfy`, `Folding.dfy`, `BlockScalars.dfy`, `PlainScalars.dfy`, `Emitter.dfy` | scalar printing and readers for it |
| `Timestamps.dfy`, `TimestampGrammar.dfy`, `Resolver.dfy`, `Schemas.dfy` | scalar resolution: timestamps part by part, the schemas word by word |
| `Quoting.dfy`, `QuotingExactly.dfy` | quoting against it |
| `Text.dfy`, `Strings.dfy`, `Seqs.dfy`, `Wrappers.dfy` | characters, numerals, sequences, results |

How the pieces are stated:

- An object graph maps ids to nodes that own themselves, delegate to another object, or wrap one
  in a tag. The calls into the host that decide which are replaced by the graph.
- Events are data. The decoder's specification runs on the events not yet read, with the anchors,
  the charged nodes and the merge flag as a value. A layout is rendered in front of the events
  that follow it, so every theorem about the grammar holds in any context. `Ast` is the tree a
  layout lays out, `Parsed` the one the parsers make of it.
- Reading floats is a parameter (`Floats`): what text is a float, and which bits it has. All
  theorems hold for any such reader. Floats themselves are bit patterns.
- The signature that finds duplicate keys while decoding is a parameter of `Config`.
- The readers of quoted, plain and block scalars are written from YAML 1.2.2, sections 5.7, 6.5,
  7.3.1 and 7.3.2, 7.3.3, and 8.1.1.1, 8.1.1.2 and 8.1.2.

Where the code falls short of what is said about it, the model keeps the code, gives the exact
condition, and an input at which it fails:

- The decoder drops a custom tag in front of an indentless sequence, which the composer keeps
  (`DecodeGrammar.IndentlessAgreesExactly`, `DecodeGrammar.CustomTagIsLost`).
- Both parsers lose an empty item at the end of an indentless sequence in front of a `:`, as in
  `k:`, `-`, `: v` (`DecodeGrammar.EmptyItemKeptExactly`, `ComposeGrammar.EmptyEntryKeptExactly`,
  `DecodeGrammar.ItemIsLost`).
- Both parsers misread an explicit key that is an indentless sequence, as in `?`, `- a`, `: v`:
  they make two pairs without a key, the sequence and `v`, although YAML 1.2.2 (section 8.2.2)
  allows such a key and the comments in `decode_mapping` promise block collections there
  (`IndentlessKeys.DecodesExactly`, `IndentlessKeys.ComposesExactly`,
  `IndentlessKeys.KeyReadExactly`, `DecodeGrammar.DecodesMisread`,
  `IndentlessKeys.SequenceKeyIsLost`).
- The text kept for a big integer is meant to be decimal, but keeps the underscores and the plus
  sign of a decimal literal (`Resolver.PayloadIsDecimalExactly`, its 1.2 twin,
  `Resolver.SomePayloadsKeepMarks`).
- Strings written for 1.2 can read as something else under 1.1 (`Quoting.DefaultUnder11`,
  `Quoting.DefaultUnderPyYaml`, `Quoting.SomeDefaultsFlip`, `Quoting.ColonFlips`).
- The timestamp recognizer that guards plain strings misses a lowercase `z` and blanks after a
  zone, so that some of them stay plain (`Timestamps.RecognizedExactly`,
  `Timestamps.RecognizerMisses`, `Quoting.TimestampsStayPlainExactly`,
  `Quoting.TimestampStaysPlain`).
- Values that cannot be merged are lost where the literal `<<` key is written out anywhere in the
  mapping, or is pulled in before the first of them (`Merge.LeftoversAreKeptExactly`,
  `Merge.DeferredIsLost`, `Merge.DeferredIsLostToSource`).
- A string with a byte order mark behind its start is left plain, and one of several lines is
  written as a literal block wherever the mark is, where YAML 1.2.2 (production `nb-char`,
  section 5.4) has neither (`PlainScalars.PlainReadsBack`, `PlainScalars.MarkStaysPlain`,
  `BlockScalars.BlockReadsBack`, `BlockScalars.MarkStaysLiteral`).

## Model

| member | source | states |
|---|---|---|
| Lowering.Represent | src/ffi/represent.rs:396-456 | On any closed object graph, cyclic or shared: if it succeeds, the named output tree, unfolded through its aliases to any depth, equals the graph unfolded to that depth (delegates transparent, tags kept); the tree is well anchored (names pairwise distinct, each alias after the start of the one node that bears its name, each anchor used); and sharing is kept: each object that can be shared has exactly one node, every other occurrence is an alias of it, and only objects that cannot be aliased are written again. Down the document the anchors are `id001`, `id002` and so on, and nodes nest at most a thousand deep. Every error is explained by what the root reaches: a chain of a thousand references, a reachable delegate that reaches itself, a reachable wrapper without a meaning, or a reachable wrapper of a reference that lies on a cycle or is reached from an earlier child too. Where every object owns its node only the depth can fail, and not on graphs of fewer than a thousand objects. |
| Lowering.OneNodeEach | src/ffi/represent.rs:497-513 | A tree in scope order bears each mark it defines on exactly one node. |
| Lowering.NamedTreeShares | src/ffi/represent.rs:497-556 | Naming keeps the sharing: the tree is a renaming of one in which every object that can be shared has one node and is an alias wherever else it occurs. |
| Lowering.Lower.LowerObject | src/ffi/represent.rs:486-557 | One object lowered with the tracking sets: what was added to `seen` and `aliased`, that the node shows the object and is the node of the object its delegations lead to, that its anchors are exactly the objects newly tracked and its aliases were all recorded, that the delegation flag is consumed, and what an error means. |
| Lowering.Lower.Render | src/ffi/represent.rs:570-743 | The node before its own identity is stamped on it: the flag reports a delegation exactly when the object delegates, every alias inside a delegated node reaches its target through the delegate, and a node that is no delegate carries no anchor. |
| Lowering.Lower.LowerKids | src/ffi/represent.rs:879-920 | Children in order, each tracked after the ones before it: a later child may alias into an earlier one and never the other way round. |
| Lowering.Lower.TaggedNode | src/ffi/represent.rs:922-968 | A tagged wrapper takes the node over: the wrapped object is untracked unless an alias already needs it, which is an error that the graph explains, as is a tag on a tag. |
| Lowering.ShownUnfolds | src/ffi/represent.rs:486-557 | A finite tree that shows an object node by node, with every alias resolved in it, unfolds like the object to every depth, although the graph may be cyclic. |
| Lowering.ScopedIsInOrder | src/ffi/represent.rs:497-513 | The recursive scoping that lowering keeps is the flat property a reader relies on: in preorder, marks are defined once and aliases come after their definition. |
| Lowering.NamedTreeIsFaithful | src/ffi/represent.rs:1244-1297 | Renaming by an injective map that covers just the used anchors keeps the unfolding at every depth and makes the tree well anchored. |
| Lowering.Naming.NameAnchors | src/ffi/represent.rs:1244-1297 | One pass renames the tree by a map that it extends as it meets anchors: afterwards exactly the anchors that some alias uses have names, distinct ones, an alias met before its name exists never occurs, and the names are handed out by number in document order. |
| Lowering.Naming.NameMarker | src/ffi/represent.rs:1262-1273 | A used anchor gets the next free `idNNN` name, an unused one is stripped, no name is handed out twice. |
| Lowering.NamesAreNumerals | src/ffi/represent.rs:1262-1273 | A name is `id` and the number with at least three digits. |
| Lowering.FirstName | src/ffi/represent.rs:1262-1273 | The first anchor is `id001`. |
| Lowering.ShownBy | src/ffi/represent.rs:570-743 | What each kind of object shows: its own tag and content, those of the object it delegates to, or its tag around content that has none; a tag around a tag shows nothing. |
| Lowering.NestedTagHasNoMeaning | src/ffi/represent.rs:939-946 | A tag that lands on an already tagged node would need an object that no unfolding gives a meaning to, so the error there loses nothing. |
| Decode.Documents | src/decode/mod.rs:468-603 | Total on every event sequence, well formed or not, and never reads past the end. |
| Decode.Node | src/decode/mod.rs:634-664 | Total for every depth and memory; never leaves more events than it was given. |
| Decode.Content | src/decode/mod.rs:716-944 | Total; leaves no more events than it was given, whatever node, alias, empty node or stray event comes first. |
| Decode.Pairs | src/decode/mod.rs:996-1079 | Total for every mapping, unterminated ones included. |
| Decode.Items | src/decode/mod.rs:1081-1129 | Total for every sequence, unterminated ones included. |
| Decode.BlockItems | src/decode/mod.rs:1195-1253 | Total for every indentless sequence. |
| Decoder.Decoder.TakeScalar | src/decode/mod.rs:111-119 | The text is moved out of its event, and no event still unread changes by that. |
| Decoder.Decoder.ChargeNodes | src/decode/mod.rs:456-466 | The budget is charged and refused exactly past the limit. |
| Decoder.Decoder.BindAnchor | src/decode/mod.rs:938-941 | The value is bound together with its node count. |
| Decoder.Decoder.DecodeNode | src/decode/mod.rs:634-664 | The cursor equals its specification `Decode.Node` on the unread events: same result, same events left, same anchors, node count and merge flag, on every success and error exit; depth is restored and the position never moves back or past the end. |
| Decoder.Decoder.DecodeNodeInner | src/decode/mod.rs:666-718 | The cursor equals its specification `Decode.Inner` on the unread events: same result, same events left, same anchors, node count and merge flag, on every success and error exit; depth is restored and the position never moves back or past the end. |
| Tags.SecondaryExpands | src/decode/mod.rs:946-964 | `!!suffix` stands for the prefix declared for `!!`, or for `tag:yaml.org,2002:`, followed by the suffix. |
| Tags.NamedExpands | src/decode/mod.rs:965-970 | `!name!suffix` stands for the prefix declared for its handle followed by the suffix, and is refused if and only if there is none. |
| Tags.PrimaryExpands | src/decode/mod.rs:971-976 | `!suffix` changes if and only if `!` itself is declared, and then to its prefix and the suffix. |
| Tags.OthersStay | src/decode/mod.rs:952-956 | Verbatim tags and those without a `!` stay as they are. |
| Tags.UndefinedExactly | src/decode/mod.rs:257-270 | A tag is refused if and only if it has the form `!name!suffix` with a handle that no directive declared. |
| Tags.UndeclaredIsRefused | src/decode/mod.rs:678-700 | The decoder reports such a tag, whatever comes behind it. |
| Tags.CustomTagIsKept | src/decode/mod.rs:812-825 | A scalar whose tag expands to none of the core schema decodes to its text in that expanded tag. |
| Tags.NamedTagIsKept | src/decode/mod.rs:952-977 | So a `%TAG` handle shows in the value: the declared prefix and the suffix around the text. |
| Tags.StrTagIsText | src/decode/mod.rs:761-825 | `!!str` makes text of any scalar in any style. |
| Tags.IntTagIsNumber | src/decode/mod.rs:761-825 | `!!int` makes the number of a decimal numeral of up to 64 bits in any style, under every schema. |
| Tags.BoolTagIsBool | src/decode/mod.rs:761-825 | `!!bool` makes true and false of the words of the schema. |
| Decoder.Decoder.DecodeContent | src/decode/mod.rs:761-944 | The cursor equals its specification `Decode.Content` on the unread events: same result, same events left, same anchors, node count and merge flag, on every success and error exit; depth is restored and the position never moves back or past the end. |
| Decoder.Decoder.DecodeAlias | src/decode/mod.rs:857-883 | An alias is charged its size before its value is copied, and refused past the budget or without an anchor. |
| Decoder.Decoder.DecodeNothing | src/decode/mod.rs:919-930 | An empty node leaves its terminator unread, and is a null only if an anchor marks it. |
| Decoder.Decoder.DecodeEmpty | src/decode/mod.rs:723-759 | A tagged empty node has the value its tag gives to the empty text, keeps a custom tag, binds its anchor, and leaves the terminator unread. |
| Decoder.Decoder.DecodeScalar | src/decode/mod.rs:763-825 | A scalar has the value its schema, style and tag give it, keeps a custom tag, and notes a merge key. |
| Schemas.PlainValues | src/decode/mod.rs:787-811 | A plain scalar decodes to null, true, false or a merge key if and only if it is one of the listed words of its schema. |
| Schemas.QuotedValues | src/decode/mod.rs:787-811 | A quoted or block scalar without a tag decodes to its text. |
| Schemas.TextValues | src/decode/mod.rs:787-811 | Plain text is a timestamp where those are resolved and it parses as one, and text otherwise. |
| Schemas.IntegerValues12 | src/decode/mod.rs:787-811 | An integer form of 1.2 decodes to its number, or past 64 bits to its digits. |
| Schemas.EmptyValues | src/decode/mod.rs:723-759 | What each core tag makes of a node that is not there: null, the empty string, or a merge key under 1.1. |
| Decoder.Decoder.DecodeMappingNode | src/decode/mod.rs:827-840 | The mapping arm agrees with `Decode.Content`, bound only after its pairs are read. |
| Decoder.Decoder.DecodeSequenceNode | src/decode/mod.rs:842-855 | The sequence arm agrees with `Decode.Content`, bound only after its items are read. |
| Decoder.Decoder.DecodeIndentless | src/decode/mod.rs:885-892 | The indentless arm agrees with `Decode.Content`: the anchor is bound, the tag dropped. |
| Decoder.Decoder.DecodeMapping | src/decode/mod.rs:996-1079 | The loop equals its specification `Decode.Pairs` on the unread events: same result, same events left, same anchors, node count and merge flag, on every success and error exit; depth is restored and the position never moves back or past the end. |
| MappingKeys.DecodedMappingKeys | src/decode/mod.rs:393-455 | Whatever the events, a decoded mapping has no two keys with one signature, merge keys aside, where keys must differ, and no collection for a key where those are refused. |
| MappingKeys.MappingExactly | src/decode/mod.rs:393-455 | And a mapping in a tree has a value if and only if its pairs have theirs and the keys satisfy just that. |
| MappingKeys.PairsExactly | src/decode/mod.rs:393-455 | The same for any pairs behind others; the error is then that of a refused or a repeated key. |
| Decoder.Decoder.DecodeEntry | src/decode/mod.rs:1019-1074 | One entry equals its specification `Decode.Entry` on the unread events: same result, same events left, same anchors, node count and merge flag, on every success and error exit; depth is restored and the position never moves back or past the end. |
| Decoder.Decoder.DecodeKeyedPair | src/decode/mod.rs:1019-1034 | One marked pair equals its specification `Decode.KeyedPair` on the unread events: same result, same events left, same anchors, node count and merge flag, on every success and error exit; depth is restored and the position never moves back or past the end. |
| Decoder.Decoder.DecodePairValue | src/decode/mod.rs:1026-1030 | A value behind an optional colon equals its specification `Decode.PairValue` on the unread events: same result, same events left, same anchors, node count and merge flag, on every success and error exit; depth is restored and the position never moves back or past the end. |
| Decoder.Decoder.DecodeBarePair | src/decode/mod.rs:1038-1074 | A pair without a marker, missing colons and block-collection keys included, equals its specification `Decode.BarePair` on the unread events: same result, same events left, same anchors, node count and merge flag, on every success and error exit; depth is restored and the position never moves back or past the end. |
| Decoder.Decoder.AtBlockCollection | src/parser/mod.rs:33-49 | Looking past tags and anchors finds a block collection exactly when the next node is one. |
| Decoder.Decoder.DecodeSequence | src/decode/mod.rs:1081-1129 | The loop equals its specification `Decode.Items` on the unread events: same result, same events left, same anchors, node count and merge flag, on every success and error exit; depth is restored and the position never moves back or past the end. |
| Decoder.Decoder.DecodeSequenceItem | src/decode/mod.rs:1134-1193 | One item, flow pairs included, equals its specification `Decode.Item` on the unread events: same result, same events left, same anchors, node count and merge flag, on every success and error exit; depth is restored and the position never moves back or past the end. |
| Decoder.Decoder.DecodeBlockSequence | src/decode/mod.rs:1195-1253 | The loop equals its specification `Decode.BlockItems` on the unread events: same result, same events left, same anchors, node count and merge flag, on every success and error exit; depth is restored and the position never moves back or past the end. |
| Decoder.Decoder.ReadDirectives | src/decode/mod.rs:518-565 | A run of directives, from their text, yields the handles of the next document, or fails on a bad version or a repeat. |
| Directives.VersionReads | src/decode/mod.rs:213-239 | `%YAML` with a `major.minor` version, and a comment or none, is a good version. |
| Directives.TagReads | src/decode/mod.rs:243-257 | `%TAG` with a handle and a prefix declares just that pair. |
| Directives.KindExactly | src/decode/mod.rs:213-255 | Any directive of any words: `%YAML` is good with one version and at most a comment behind it and bad otherwise, `%TAG` declares a handle and a prefix if it has both, and all else is ignored. |
| Directives.VersionExactly | src/decode/mod.rs:220-228 | A version is digits, one point and digits. |
| Decoder.Decoder.AtBoundary | src/decode/mod.rs:608-623 | True exactly where a document may end. |
| Decoder.Decoder.EndDocument | src/decode/mod.rs:503-509 | Handles and anchors go out of scope; what was charged stays charged. |
| Decoder.Decoder.CloseDocument | src/decode/mod.rs:505-516 | That, and a `...` is consumed if it comes next, which lets directives in again. |
| Decoder.Decoder.ExplicitDocument | src/decode/mod.rs:492-517 | One explicit document advances the stream by its specification, an empty one included. |
| Decoder.Decoder.ImplicitDocument | src/decode/mod.rs:578-598 | One implicit document advances the stream by its specification and always reads at least one event. |
| Decoder.Decoder.DecodeStream | src/decode/mod.rs:468-603 | The whole run equals its specification `Decode.Documents` on the unread events: same result, same events left, same anchors, node count and merge flag, on every success and error exit; depth is restored and the position never moves back or past the end. |
| Events.ScalarIsFit | src/decode/mod.rs:787-824 | The value of a scalar weighs at most two nodes, and is a merge marker only where the flag is raised. |
| Values.CountIsNodes | src/decode/mod.rs:122-134 | The node count of a value is the number of values in it: itself, its items, keys, values and tagged contents. |
| DecodeBounds.NodeIsPaid | src/decode/mod.rs:634-664 | The nodes of a decoded node are paid for by the events it took and by what its aliases charged. |
| DecodeBounds.InnerIsPaid | src/decode/mod.rs:666-718 | The same when tags and anchors come first. |
| DecodeBounds.ContentIsPaid | src/decode/mod.rs:716-944 | The same for every arm; each anchor is kept with the exact node count of its value. |
| DecodeBounds.PairsArePaid | src/decode/mod.rs:996-1079 | The same for a mapping, null values that no event stands for included. |
| DecodeBounds.BarePairIsPaid | src/decode/mod.rs:1038-1074 | A pair that took no event costs two nulls, and then the loop ends. |
| DecodeBounds.ItemsArePaid | src/decode/mod.rs:1081-1129 | The same for a sequence. |
| DecodeBounds.ItemIsPaid | src/decode/mod.rs:1134-1193 | An item costs at most what it took, or one node where it is empty. |
| DecodeBounds.BlockItemsArePaid | src/decode/mod.rs:1195-1253 | The same for an indentless sequence. |
| DecodeBounds.DocumentsArePaid | src/decode/mod.rs:468-603 | The same for the documents of a stream, errors and stray events included. |
| DecodeBounds.StreamIsBounded | src/decode/mod.rs:122-134 | On success all documents together hold at most four nodes an event plus ten million, every cached anchor size is the node count of its value, and a merge marker occurs only if the flag says so. |
| DecodeGrammar.ReadsProps | src/decode/mod.rs:678-714 | A tag and an anchor are read in either order, and an undefined handle is reported. |
| DecodeGrammar.DecodesTree | src/decode/mod.rs:634-944 | For every readable layout (block, flow, indentless values and keys, empty nodes, entries without a key marker such as `: v` in block mappings too) within the depth limit and in front of any suffix, the decoder yields the value or the error that the tree `Parsed` of it means, and leaves exactly the suffix. That is the tree laid out, except at a key laid out as an indentless sequence. |
| DecodeCap.DecodesWithinCap | src/decode/mod.rs:634-664 | Past the depth limit there is no value: whatever value the decoder yields of a readable layout, the layout nests at most a thousand deep and exactly its events were read. |
| DecodeCap.YieldsExactly | src/decode/mod.rs:634-944 | So it yields a value if and only if the layout nests at most a thousand deep and its parsed tree has a value. |
| DecodeGrammar.DecodesItems | src/decode/mod.rs:1081-1129 | The same for a block sequence and the items before it. |
| DecodeGrammar.DecodesIndentless | src/decode/mod.rs:1195-1253 | The same for a sequence at its key's indent, whose end is not consumed. |
| DecodeGrammar.DecodesElements | src/decode/mod.rs:1134-1193 | The same for a flow sequence with its commas, trailing ones and single pairs. |
| DecodeGrammar.DecodesFirstEntry | src/decode/mod.rs:1019-1074 | One entry of a block or flow mapping, in each of its layouts, adds the pairs it is parsed as, each with its key checked, and the loop goes on behind it: one pair, or two where an explicit key is an indentless sequence. |
| DecodeGrammar.DecodesMisreadPair | src/decode/mod.rs:1019-1034 | What is made of an explicit key that is an indentless sequence: an empty node with the properties for the key, the bare sequence for the value, and the `:` is left unread. |
| DecodeGrammar.DecodesMisread | src/decode/mod.rs:1019-1074 | And of the whole entry: that pair, and a pair without a key for what comes after the `:`. |
| DecodeGrammar.DecodesEntries | src/decode/mod.rs:996-1079 | A whole mapping yields the pairs that its entries are parsed as, in order. |
| IndentlessKeys.ParsedExactly | src/decode/mod.rs:1019-1034 | What the parsers make of a layout is the tree it lays out if and only if none of its keys, at any depth, is an indentless sequence. |
| IndentlessKeys.KeyReadExactly | src/decode/mod.rs:1019-1034 | An entry with a key marker whose meaning is no error is read as that meaning if and only if its key is no indentless sequence. |
| IndentlessKeys.DecodesExactly | src/decode/mod.rs:634-944 | The decoder gives a readable layout whose laid-out tree has a value that value, in front of any suffix, if and only if none of its keys is an indentless sequence. |
| IndentlessKeys.SequenceKeyIsLost | src/decode/mod.rs:1019-1034 | An input where it does not: of `?`, a dash and `a`, and `: v` both parsers make two pairs without a key, the sequence and `v`. |
| StreamGrammar.ReadsDirectives | src/decode/mod.rs:518-552 | A run of directives declares the handles its texts say, or fails, in front of anything. |
| StreamGrammar.DecodesDocument | src/decode/mod.rs:492-598 | A document with directives, a `---` or none, and a `...` or none adds the value of its parsed root, or stops the stream with its error, and the stream goes on behind it. |
| StreamGrammar.DecodesStream | src/decode/mod.rs:468-603 | A stream of such documents, implicit ones and a `...` without a document included, decodes to the values of their parsed roots; handles and anchors do not pass from one to the next. |
| StreamGrammar.PlainStream | src/decode/mod.rs:468-603 | Where no key of any document is an indentless sequence those are the values of the roots as laid out. |
| Refusals.PropertiesRead | src/decode/mod.rs:666-718 | Any run of tags and anchors in front of a node: with at most one anchor the node has it and the last tag, and two anchors are refused. |
| Refusals.PropertiesMade | src/roundtrip/composer.rs:921-960 | The same of the composer. |
| Refusals.AliasBearsNothing | src/decode/mod.rs:857-883 | Both parsers refuse an alias if and only if it has a property or its name is unknown, the copying budget aside. |
| Refusals.ColonIsNeeded | src/decode/mod.rs:1038-1074 | A scalar that no colon follows is refused in a block mapping, and the key of a null in a flow mapping. |
| Refusals.ColonIsNeededToo | src/roundtrip/composer.rs:1153-1213 | The same of the composer. |
| Refusals.BlockKeyRefused | src/parser/mod.rs:33-49 | Behind any properties a block collection is refused as a key without its `?`, by both. |
| Refusals.NothingTrails | src/decode/mod.rs:608-623 | Content behind the root of a document is refused. |
| Refusals.DirectivesHaveTheirPlace | src/decode/mod.rs:518-577 | A directive is refused if and only if directives may not stand there, it is a bad version or a handle already declared, or no `---` follows; otherwise it declares its handle. |
| Refusals.OneOfAKind | src/decode/mod.rs:518-577 | A second version, or a second prefix for a handle, is refused. |
| Refusals.NoDirectiveBehindADocument | src/decode/mod.rs:503-577 | The start of a stream is passed over, and behind a document without a `...` a directive is refused. |
| Spelling.SpelledIsDecoded | src/decode/mod.rs:634-944 | Every value has a spelling that decodes to it: nulls, booleans, integers of any size, infinities, strings, timestamps, sequences, mappings and tagged ones, nested in any way up to the depth limit, in front of any events. The spelling is written out: words and numerals plain, strings in double quotes, collections in block style. |
| Spelling.SharedIsDecoded | src/decode/mod.rs:857-883 | A list of an anchored value and an alias of it is that value twice if and only if the copies of the stream so far and this one have at most ten million nodes together, and an error otherwise. |
| Spelling.FlowPairIsDecoded | src/decode/mod.rs:1134-1193 | `[k: v]` is a sequence of a mapping of that pair, unless its key is a collection and those are refused. |
| Spelling.FlowMappingIsDecoded | src/decode/mod.rs:1038-1074 | In `{k: v, l}` the second key has a null for its value. |
| Spelling.HalfPairsAreDecoded | src/decode/mod.rs:1019-1074 | In a block mapping `: v` has a null for its key and `? k` one for its value. |
| Spelling.AnchorsEndWithDocuments | src/decode/mod.rs:503-516 | An alias does not know the anchors of an earlier document. |
| DecodeGrammar.IndentlessDropsTag | src/decode/mod.rs:885-892 | In front of an indentless sequence a tag is read and dropped. |
| DecodeGrammar.IndentlessAgreesExactly | src/decode/mod.rs:885-892 | So such a node decodes to the meaning of its parsed tree if and only if its tag is not a custom one. |
| DecodeGrammar.CustomTagIsLost | src/decode/mod.rs:885-892 | An input where it does not: of `k: !t` and then a dash and a quoted string the decoder makes a bare sequence. |
| DecodeGrammar.EmptyItemKeptExactly | src/decode/mod.rs:1217-1230 | A bare empty item of an indentless sequence is kept as a null if and only if a dash, a key or the end of a collection comes next; otherwise the sequence ends without it. |
| DecodeGrammar.LastEmptyKeptExactly | src/decode/mod.rs:1217-1230 | So a sequence that ends in an empty item decodes to the meaning of its parsed items if and only if one of those comes next, and to its other items if and only if none does. |
| DecodeGrammar.NothingReadExactly | src/decode/mod.rs:893-937 | There is no node if and only if one of the listed events comes next; an event that is no node and ends none is passed over. |
| DecodeGrammar.ItemIsLost | src/decode/mod.rs:1217-1230 | An input where it is lost: of `k:`, a dash and `: v` the decoder makes an empty sequence, and a pair without a key. |
| Composer.Composer.ComposeNode | src/roundtrip/composer.rs:899-919 | The cursor agrees with its specification `Compose.CNode`: same nodes or error, same events left, same anchors seen. |
| Composer.Composer.ComposeNodeInner | src/roundtrip/composer.rs:921-1111 | The cursor agrees with its specification `Compose.CInner`: same nodes or error, same events left, same anchors seen. |
| Composer.Composer.FinishNode | src/roundtrip/composer.rs:1064-1071 | A node is complete before its anchor is seen, so it cannot name itself. |
| Composer.Composer.ComposeContent | src/roundtrip/composer.rs:960-1111 | The cursor agrees with its specification `Compose.CContent`: same nodes or error, same events left, same anchors seen. |
| Composer.Composer.ComposeCollection | src/roundtrip/composer.rs:981-1025 | The collection arms agree with `Compose.CContent`. |
| Composer.Composer.ComposeMapping | src/roundtrip/composer.rs:1113-1218 | The loop agrees with its specification `Compose.CPairs`: same nodes or error, same events left, same anchors seen. |
| Composer.Composer.ComposeEntry | src/roundtrip/composer.rs:1132-1213 | One entry agrees with its specification `Compose.CEntry`: same nodes or error, same events left, same anchors seen. |
| Composer.Composer.ComposeKeyedPair | src/roundtrip/composer.rs:1132-1149 | A marked pair agrees with its specification `Compose.CKeyedPair`: same nodes or error, same events left, same anchors seen. |
| Composer.Composer.ComposePairValue | src/roundtrip/composer.rs:1141-1147 | A value behind an optional colon agrees with its specification `Compose.CPairValue`: same nodes or error, same events left, same anchors seen. |
| Composer.Composer.ComposeBarePair | src/roundtrip/composer.rs:1153-1213 | A pair without a marker agrees with its specification `Compose.CBarePair`: same nodes or error, same events left, same anchors seen. |
| Composer.Composer.ComposeSequence | src/roundtrip/composer.rs:1220-1278 | The loop agrees with its specification `Compose.CItems`: same nodes or error, same events left, same anchors seen. |
| Composer.Composer.ComposeMarkedItem | src/roundtrip/composer.rs:1236-1255 | Only a dash opens a block entry; a comma goes the way of flow pairs. |
| Composer.Composer.ComposeSequenceItem | src/roundtrip/composer.rs:1285-1351 | One item, flow pairs included, agrees with its specification `Compose.CItem`: same nodes or error, same events left, same anchors seen. |
| Composer.Composer.ComposeBlockEntry | src/roundtrip/composer.rs:1364-1382 | An entry behind a dash agrees with its specification `Compose.CBlockEntry`: same nodes or error, same events left, same anchors seen. |
| Composer.Composer.ComposeBlockSequence | src/roundtrip/composer.rs:1384-1421 | The loop agrees with its specification `Compose.CBlockItems`: same nodes or error, same events left, same anchors seen. |
| ComposeGrammar.ComposesTree | src/roundtrip/composer.rs:899-1111 | From the events of any readable layout within the depth limit the composer makes exactly the same parsed tree, knows exactly the anchors bound in it, and leaves exactly the suffix. |
| ComposeCap.ComposesWithinCap | src/roundtrip/composer.rs:899-921 | Whatever tree the composer makes of a readable layout, the layout nests at most a thousand deep and exactly its events were read. |
| ComposeCap.MakesExactly | src/roundtrip/composer.rs:899-1111 | So it makes one if and only if the layout nests at most a thousand deep and every alias is known where it stands. |
| ComposeGrammar.ComposesItems | src/roundtrip/composer.rs:1220-1278 | The same for a block sequence. |
| ComposeGrammar.ComposesIndentless | src/roundtrip/composer.rs:1384-1421 | The same for an indentless sequence. |
| ComposeGrammar.ComposesElements | src/roundtrip/composer.rs:1285-1351 | The same for a flow sequence. |
| ComposeGrammar.ComposesEntries | src/roundtrip/composer.rs:1113-1218 | The same for a mapping. |
| ComposeGrammar.ComposesMisread | src/roundtrip/composer.rs:1132-1149 | The composer makes the same two pairs of an entry whose explicit key is an indentless sequence. |
| IndentlessKeys.KeyMadeExactly | src/roundtrip/composer.rs:1132-1149 | It makes the pair laid out of an entry with a key marker and known aliases if and only if its key is no indentless sequence. |
| IndentlessKeys.ComposesExactly | src/roundtrip/composer.rs:899-1111 | It makes the tree laid out, of a readable layout with known aliases, if and only if none of its keys is an indentless sequence. |
| ComposeGrammar.ValuedIsKnown | src/roundtrip/composer.rs:1003-1020 | A tree with a value names only known anchors, and ends up knowing just those bound. |
| ComposeGrammar.EmptyEntryKeptExactly | src/roundtrip/composer.rs:1369-1381 | In the composer, too, an empty entry is kept if and only if a dash, a key or the end of a collection comes next. |
| ComposeGrammar.TwinsAgree | src/roundtrip/composer.rs:1003-1020 | The two parsers agree on every readable layout, keys they both misread included: where the decoder makes a value, the composer accepts, consumes to the same place, binds the same anchors, and makes a tree with that value. |
| ComposeGrammar.ComposedIsDecoded | src/roundtrip/composer.rs:1003-1020 | And where the composer makes a tree, the decoder makes a value or fails on the value alone: an undefined tag handle, too many nodes, a refused key or a repeated one. |
| Anchors.Copier.CopyNode | src/roundtrip/anchors.rs:178-336 | Expansion and detaching under a hop cap and a shared budget agree with one specification, on any anchor map, cyclic ones included. |
| Anchors.CopyIsBounded | src/roundtrip/anchors.rs:229-336 | Whatever the map, a copy holds no alias (a detached one no anchor either) and no more nodes than it took from the budget, which never underflows. |
| Anchors.CopyExpands | src/roundtrip/anchors.rs:178-336 | A copy that was not cut, an expansion or a detached clone, is the tree node by node with its aliases followed, and took exactly the nodes visited from the budget. |
| Anchors.UncutExactly | src/roundtrip/anchors.rs:178-336 | A copy is not cut if and only if every chain of aliases ends within the hops left and no more nodes are visited than the budget allows. |
| Anchors.DetachedClone | src/roundtrip/anchors.rs:173-228 | The detached clone is free of aliases and anchors and has at most a million nodes; and where every chain of aliases ends within a hundred hops and at most a million nodes are visited it is the tree with its aliases followed: scalars keep text and style, collections their children, all of them their tags. |
| Anchors.CollectAnchorRefs | src/roundtrip/anchors.rs:262-283 | The first node of each name, a node before its children. |
| Anchors.CollectsFirst | src/roundtrip/anchors.rs:262-283 | A name leads to the first node in document order that bears it. |
| Anchors.BuildAnchorMap | src/roundtrip/anchors.rs:249-260 | Every anchor of the documents is expanded once, in some order, under one budget; no entry holds an alias. |
| Anchors.NamedAreBounded | src/roundtrip/anchors.rs:249-260 | Together the entries hold no more nodes than the one budget. |
| Anchors.NamedAreAliasFree | src/roundtrip/anchors.rs:249-260 | No entry holds an alias, whatever the order. |
| EagerLazy.CollectMatches | src/roundtrip/anchors.rs:262-283 | Where names are distinct the map leads every name to its own node. |
| EagerLazy.EagerIsLazy | src/decode/mod.rs:857-883 | Copying the bound value at an alias gives the value that following the map gives, within as many hops as anchors are bound. |
| EagerLazy.CopyHasValue | src/roundtrip/anchors.rs:178-336 | An expansion or a detached clone that was not cut has the value of the tree. |
| EagerLazy.NothingIsCut | src/roundtrip/anchors.rs:178-243 | Within those hops only an exhausted budget can cut either of them. |
| EagerLazy.AnchorsAgree | src/roundtrip/anchors.rs:249-260 | A copy of the node of a name, under any budget, has the value the decoder binds to that name unless a cap cuts it; with at most a hundred anchors and budget to spare none does. |
| EagerLazy.MapAgrees | src/roundtrip/anchors.rs:249-260 | What `build_anchor_map` makes of a document that decodes, in whatever order it takes the names under its one budget: the decoder's names, each with the decoder's value, unless a copy is cut; with at most a hundred anchors and budget left none is. |
| EagerLazy.DecodedIsExpanded | src/roundtrip/anchors.rs:285-336 | Eager equals lazy: the decoder's value of a laid-out document with distinct names is the value of the tree that the composer makes of it, with the aliases expanded, unless a cap cuts it, and when none does. |
| KeySig.SignatureIsPrefixFree | src/decode/merge.rs:39-84 | If two signatures, each followed by any text, give the same text, the keys and the texts after them are equal: floats by bits, big integers and timestamps included. |
| KeySig.SignatureIsInjective | src/decode/merge.rs:39-84 | Two keys share a signature if and only if they are the same key. |
| KeySig.WriteKeySig | src/decode/merge.rs:45-84 | The buffer gains exactly the signature. |
| Merge.KeysInOrder | src/decode/merge.rs:120-223 | Keys come out once each, in the order of first appearance. |
| Merge.LastExplicitWins | src/decode/merge.rs:120-223 | A key written out has the value of its last explicit pair, whatever is merged. |
| Merge.EarliestSourceWins | src/decode/merge.rs:276-314 | A key only pulled in has the value of the earliest source that holds it. |
| Merge.LeftoversAreKeptExactly | src/decode/merge.rs:159-194 | Exactly when values that cannot be merged are kept: where the literal `<<` key is never written out and the first to contribute to it is one of them, it holds them all in order; otherwise it holds its last explicit value, or that of the source that held it first, and they are lost. |
| Merge.DeferredIsLost | src/decode/merge.rs:171-180 | An input where one is lost: behind a literal `<<` key a deferred `<<` leaves nothing. |
| Merge.DeferredIsLostToSource | src/decode/merge.rs:171-180 | Another: behind a merge source that holds the literal key it leaves nothing either. |
| MergedMappings.MergedMapping | src/decode/merge.rs:89-314 | A mapping with a merge key, told from its pairs and the mappings that its `<<` values name: its keys are those written out and those of the sources, in document order, each once; a key written out has its last value, any other that of the first source that holds it, and a literal `<<` the collected values that could not be merged, if one of them comes before every source that holds it. |
| MergedMappings.LeftoversStayWhole | src/decode/merge.rs:248-270 | Two or more values that could not be merged, none of them a sequence, are kept as a sequence of exactly those values in order. |
| MergedMappings.LeftoverSequenceStays | src/decode/merge.rs:248-270 | A sequence among them gives its own elements at its place. |
| Merge.TwoDeferredAreKept | src/decode/merge.rs:248-270 | The mapping of two deferred includes under `<<` becomes a literal `<<` with both, in order. |
| Merge.RestExactly | src/decode/merge.rs:276-314 | Of a `<<` value mappings and nulls are used up and anything else is left; of a list those elements. |
| Merge.ExplicitStep | src/decode/merge.rs:184-202 | An explicit pair changes the meaning only at its own key: replaced in place or appended. |
| Merge.PulledStep | src/decode/merge.rs:276-314 | A pulled pair only fills a gap. |
| Merge.LeftStep | src/decode/merge.rs:159-181 | A leftover joins the earlier ones, or claims the literal key if it is free, or is lost. |
| Merge.Rebuild.InsertExplicit | src/decode/merge.rs:184-202 | The index, the slots and the preserved slot keep representing the meaning after an explicit pair. |
| Merge.Rebuild.InsertPulled | src/decode/merge.rs:276-314 | They do after a pulled pair. |
| Merge.Rebuild.Preserve | src/decode/merge.rs:159-181 | They do after a leftover. |
| Merge.Rebuild.MergeInto | src/decode/merge.rs:276-314 | A `<<` value adds what it can contribute, sequences element by element, and hands back the rest. |
| Merge.DedupLastWins | src/decode/merge.rs:235-251 | A source as data: the last value of each key, at its first position. |
| Merge.CollectPreserved | src/decode/merge.rs:257-270 | Two leftovers become one sequence: a sequence gives its elements, any other value itself. |
| Merge.StripMergeMarkers | src/decode/merge.rs:100-115 | Every marker below becomes the plain string. |
| Merge.StrippedIsUnmarked | src/decode/merge.rs:100-115 | What is stripped is the value with each marker turned into the plain string and nothing else changed. |
| Merge.RebuildPairs | src/decode/merge.rs:120-223 | The indexed rebuild of a mapping equals its list-based meaning. |
| Merge.ApplyMergeKeys | src/decode/merge.rs:89-223 | The pass over a tree equals the meaning of every mapping in it, inside out. |
| Merge.MergedIsClean | src/decode/merge.rs:89-223 | No merge marker is left anywhere. |
| Merge.CleanIsMerged | src/decode/merge.rs:89-223 | A tree without a marker is left as it is. |
| Merge.MergingIsIdempotent | src/decode/merge.rs:89-223 | Applying the pass again changes nothing. |
| Merge.MergedIsNoBigger | src/decode/merge.rs:89-223 | The node count never grows. |
| Pipeline.MergedAllAreClean | src/decode/mod.rs:50-82 | The merged documents hold no marker and no more nodes than before. |
| Pipeline.NothingToMerge | src/decode/mod.rs:50-82 | Where the flag was not raised the pass would change nothing, so it may be skipped. |
| Pipeline.DecodeCollecting | src/decode/mod.rs:50-82 | From any events: the merged documents of the stream, free of markers, and at most four nodes an event plus ten million. |
| Pipeline.StreamsDecode | src/decode/mod.rs:468-603 | A whole rendered stream decodes to the values of its parsed roots, which are those laid out where no key is an indentless sequence. |
| Quotes.DoubleQuotedBody | src/emit_util.rs:130-156 | The loop appends the escape of each character in turn. |
| Quotes.SingleQuotedBody | src/emit_util.rs:60-62 | The body is the value with each apostrophe doubled. |
| Quotes.EscapesExactly | src/emit_util.rs:130-156 | A character stays as it is between double quotes if and only if it is printable and no quote, backslash or break, and between single quotes unless it is an apostrophe; the short escapes are listed. |
| Quotes.BodyIsText | src/emit_util.rs:130-156 | Text of such characters is written unchanged. |
| Quotes.CharacterReadsBack | src/emit_util.rs:130-156 | The escape of a character reads as that character, and ends the gap before it. |
| Quotes.BrokenReadsBack | src/emit_util.rs:239-268 | Whichever isolated spaces of the body are broken, reading from any character on gives the rest of the value. |
| Quotes.QuotedReadsBack | src/emit_util.rs:239-268 | Quoting undone, by the reader of YAML 1.2.2 sections 5.7, 6.5, 7.3.1 and 7.3.2: a quoted body folded at any of its isolated spaces with an indent of at least one gives the value back, and the scalar ends where it was closed. |
| Folding.CurrentColumn | src/emit_util.rs:232-236 | The column is the number of bytes after the last line break. |
| Folding.ColumnIsBytes | src/emit_util.rs:232-236 | A column is the bytes in UTF-8 after the last line break, or those of the whole text behind where it began. |
| Folding.FoldOne | src/emit_util.rs:239-268 | One round of the loop writes a piece and then one space or one break, never inside a piece, so never after an unfinished escape. |
| Folding.TrackOne | src/emit_util.rs:239-268 | The tracked column is the real column after every round. |
| Folding.FoldingFits | src/emit_util.rs:239-268 | Any line that holds more than one unbreakable piece ends within the width. |
| Folding.FoldsAreNeeded | src/emit_util.rs:239-268 | Of the written text: at every break the real column before it, one more, and the next piece together pass the width. |
| Folding.NothingToFold | src/emit_util.rs:239-268 | Content that fits from its start column is not folded. |
| Folding.PushFolded | src/emit_util.rs:239-268 | What is appended is the content with some isolated spaces broken: every line of several pieces ends within the width, a break stands only where the column before it, one, and the next piece would pass the width, and content that fits is appended unchanged. |
| BlockScalars.PushHeader | src/emit_util.rs:180-191 | The header carries the marker and the chomping the value needs. |
| BlockScalars.PushBody | src/emit_util.rs:195-214 | The body is the lines of the value, indented where they are not empty. |
| BlockScalars.PushBlockScalar | src/emit_util.rs:171-174 | Header and body. |
| BlockScalars.UseLiteralExactly | src/emit_util.rs:117-126 | A literal block is used if and only if the text has a break, no carriage return, only printable characters, and its first character behind any leading breaks is no blank. |
| BlockScalars.BodySpellsValue | src/emit_util.rs:195-214 | The lines of the body spell the value, with one break at the end if it has none. |
| BlockScalars.ChompingUndone | src/emit_util.rs:180-191 | Undoing the chosen chomping restores the value exactly. |
| BlockScalars.DetectsIndent | src/emit_util.rs:117-126 | Auto-detection finds the indent that was written. |
| BlockScalars.BlockReadsBack | src/emit_util.rs:117-214 | Block scalars undone, by the reader of YAML 1.2.2 sections 8.1.1.1, 8.1.1.2 and 8.1.2: what `use_literal_block` accepts, all-newline values included, reads back from what was written at any indent of at least one, in front of any shallower text, if and only if it holds no byte order mark, which is no `nb-char` (section 5.4). |
| BlockScalars.MarkStaysLiteral | src/emit_util.rs:117-126 | An input where it does not: a byte order mark behind a letter, in a text of two lines, is written as a literal block. |
| Emitter.Emitter.WouldWrap | src/encode/mod.rs:583-588 | True exactly when a plain value would pass the width and has an isolated space to fold at, outside keys. |
| Emitter.Emitter.EmitQuotedString | src/encode/mod.rs:458-495 | What is appended reads back as the value, in single quotes exactly where those are preferred, it has no apostrophe and is printable on one line, else in double ones; a key, or text without a width, stays on one line; folded text keeps within the width wherever a fold could, and is broken only where it must. |
| Emitter.Emitter.EmitStringInline | src/encode/mod.rs:427-456 | A string is written as it is if and only if nothing asks for quotes: it is not empty, may stand plain under the schema, holds no flow indicator in flow, and does not pass the width with a space to fold at. However it is written it reads as that string: quoted and readable back with the mark stated, or plain, read back whole by a plain-scalar reader in block or flow unless it holds a byte order mark, and a string under its schema and under 1.2. |
| PlainScalars.PlainReadsBack | src/encode/mod.rs:675-862 | What `needs_quoting` leaves plain is read whole, in block or flow and in front of anything that may follow a plain scalar, by the reader of YAML 1.2.2 section 7.3.3, if and only if it holds no byte order mark. |
| PlainScalars.MarkStaysPlain | src/encode/mod.rs:675-682 | An input where it is not: a byte order mark behind a letter stays plain. |
| Emitter.Emitter.EmitLiteralBlock | src/encode/mod.rs:304-306 | Appends the block scalar. |
| Timestamps.IsoReadsBack | src/resolver/timestamp.rs:45-76 | Parsing the ISO text of any valid timestamp gives it back, so `to_iso` is injective. |
| Timestamps.AcceptedReadsBack | src/resolver/timestamp.rs:80-181 | Whatever `parse` accepts is a valid calendar value and survives being written and parsed again. |
| TimestampGrammar.ParsedExactly | src/resolver/timestamp.rs:80-181 | A text is a timestamp if and only if it is in range and spelled in the listed parts: year, month and day, one-digit ones only with a time, `T`, `t` or blanks, hour, minute, second, a fraction of any length, blanks, `Z`, `z` or an offset with or without minutes, blanks. The value is that of the parts. |
| TimestampGrammar.PartsAreRead | src/resolver/timestamp.rs:80-181 | Every text of such parts has their shape, with the numbers they spell. |
| TimestampGrammar.MicrosAreMillionths | src/resolver/timestamp.rs:113-130 | A fraction counts its first six digits as millionths, the missing ones as zeros. |
| TimestampGrammar.MonthsAreLong | src/resolver/timestamp.rs:183-202 | The lengths of the months, and of February in leap years, by number. |
| TimestampGrammar.IsoIsSpelled | src/resolver/timestamp.rs:45-76 | The ISO text has the year, month and day in its columns, and nothing more for a date. |
| TimestampGrammar.IsoTimeIsSpelled | src/resolver/timestamp.rs:45-76 | Then a `T`, and hour, minute and second in theirs. |
| TimestampGrammar.IsoTailIsSpelled | src/resolver/timestamp.rs:45-76 | Then six digits of fraction unless it is zero, and the offset with its sign, hours and minutes if there is one. |
| Timestamps.RecognizedExactly | src/encode/mod.rs:867-959 | The recognizer accepts exactly the texts with a timestamp's shape, except a lowercase `z` and blanks after a zone. |
| Timestamps.RecognizerMisses | src/encode/mod.rs:867-959 | Inputs for both exceptions, which `parse` accepts: `2001-01-01T00:00:00z`, and the same with `Z` and a blank. |
| Timestamps.Parse | src/resolver/timestamp.rs:80-181 | The cursor program accepts exactly the specified shapes whose fields are in range, with those fields. |
| Timestamps.Cursor.Digits | src/resolver/timestamp.rs:230-242 | Consumes the longest run of digits up to the maximum; fewer than the minimum are an error. |
| Timestamps.Cursor.TimeSeparator | src/resolver/timestamp.rs:252-264 | One `T`, or a run of blanks. |
| Timestamps.IsYaml11Timestamp | src/encode/mod.rs:867-959 | The index loop decides the recognizer's grammar. |
| Resolver.IntegersAreExact12 | src/resolver/yaml12.rs:36-130 | A plain scalar is an integer under 1.2 if and only if it is an integer form; then it is Int of its exact value up to 2^63-1 in magnitude, and BigInt otherwise. |
| Schemas.WordsExactly | src/resolver/yaml12.rs:36-130 | Under each schema the plain scalars that are null, true, false or a merge key are exactly the listed words. |
| Schemas.TaggedWords | src/resolver/yaml12.rs:146-185 | The core tags for null, booleans, merge keys and strings: the listed words under the tag, and text elsewhere. |
| Schemas.TaggedInts12 | src/resolver/yaml12.rs:146-185 | Under the integer tag of 1.2 exactly the integer forms are integers. |
| Schemas.TaggedInts11 | src/resolver/yaml11.rs:316-355 | Under that of 1.1 too, base-60 ones that fit included. |
| Schemas.TaggedFloats | src/resolver/yaml11.rs:316-380 | Under the float tag the special floats by their bits, and what the float reader takes. |
| Schemas.OtherTagsMakeText | src/resolver/yaml12.rs:146-185 | Any other tag makes text. |
| Schemas.FloatsExactly12 | src/resolver/yaml12.rs:132-144 | Which plain scalars are floats under 1.2, and with which bits: the three special ones, and what the float reader takes of text with a point or an exponent that begins like a number and is no integer. |
| Schemas.FloatsExactly11 | src/resolver/yaml11.rs:238-315 | The same for 1.1 and its PyYAML variant, base-60 floats included. |
| Schemas.NumeralsCount | src/resolver/yaml12.rs:36-130 | A decimal numeral with either sign or none is its number under every schema, and past 64 bits a big integer. |
| Schemas.MarkedNumeralsCount | src/resolver/yaml12.rs:87-130 | Digits behind a radix mark of the schema are an integer in that radix, with either sign. |
| Schemas.HexDigits | src/resolver/mod.rs:201-210 | The value of each hexadecimal digit. |
| Schemas.ClockCounts | src/resolver/yaml11.rs:204-236 | Under 1.1 `h:mm` is sixty times h and mm where mm is below sixty and the number fits, and text otherwise. |
| Resolver.IntegersAreExact11 | src/resolver/yaml11.rs:58-202 | An integer form of 1.1 other than base-60 is Int of its exact value when it fits and BigInt otherwise, and text under the PyYAML variant if it begins with an underscore. |
| Resolver.IntegersAreForms11 | src/resolver/yaml11.rs:58-202 | A plain scalar is an integer under 1.1 if and only if it is an integer form, base-60 ones that fit included, and has no leading underscore under the PyYAML variant. |
| Resolver.Base60IsExactOrText | src/resolver/yaml11.rs:204-236 | A base-60 integer that fits is exact, one that does not is a string. |
| Resolver.ParseSexagesimalInt | src/resolver/yaml11.rs:204-236 | The checked accumulation gives up exactly when the value does not fit. |
| Resolver.RadixToDecimal | src/resolver/mod.rs:264-279 | The decimal numeral, without leading zeros, of the same number. |
| Resolver.Accumulate | src/resolver/mod.rs:264-279 | One digit more: the vector holds the old value times the radix plus the digit, without leading zeros. |
| Resolver.MultiplySlots | src/resolver/mod.rs:264-279 | The carry stays below the radix, so nothing overflows. |
| Resolver.PushCarry | src/resolver/mod.rs:264-279 | The last carry becomes the leading digits. |
| Resolver.MulAddValue | src/resolver/mod.rs:264-279 | Multiplying and adding digit by digit is multiplying and adding, and leaves decimal digits. |
| Resolver.WriteDigits | src/resolver/mod.rs:264-279 | The digits, read from the top, are the numeral of the value. |
| Resolver.WrittenIsDecimal | src/resolver/mod.rs:264-279 | The same as a statement on the digits. |
| Resolver.BigIntToDecimal | src/resolver/mod.rs:229-257 | The sign, the radix prefix and the digits are taken apart as specified; decimal text is left alone. |
| Resolver.DecimalFormIsExact12 | src/resolver/mod.rs:229-257 | On a radix form of 1.2 it is the exact number in decimal. |
| Resolver.DecimalFormIsExact11 | src/resolver/mod.rs:229-257 | And on one of 1.1. |
| Resolver.PayloadIsDecimalExactly | src/decode/mod.rs:794-797 | The payload of a big integer is the number's own decimal numeral if and only if the literal is in another radix or has neither an underscore nor a plus sign. |
| Resolver.PayloadIsDecimalExactly12 | src/decode/mod.rs:794-797 | The same for every literal of 1.2: if and only if it is in another radix or has no plus sign. |
| Resolver.SomePayloadsKeepMarks | src/decode/mod.rs:794-797 | Inputs where it is not: 2^63 with a plus sign, and with an underscore. |
| Resolver.BigIntHasNoMark | src/resolver/yaml11.rs:132-165 | No big-integer text holds a semicolon, which ends it in a key signature. |
| Quoting.PlainStringsStayStrings | src/encode/mod.rs:675-862 | If `needs_quoting` is false the plain scalar is a string under the target schema and under 1.2, for any way of reading floats. |
| QuotingExactly.StandsPlainExactly | src/encode/mod.rs:675-862 | Which text may stand plain whatever it resolves to: its first and last character, its printable ones, its colons and hashes. |
| QuotingExactly.QuotedExactly11 | src/encode/mod.rs:675-862 | For a 1.1 target a string is quoted if and only if it may not stand plain, would be no string under that schema or under 1.2, looks like a timestamp, or is a document end. |
| QuotingExactly.QuotedExactly12 | src/encode/mod.rs:675-862 | By default if and only if it may not stand plain, would be no string under 1.2, is a word for a boolean under PyYAML, is a number under 1.1 without a colon or a leading underscore, or is a document end. |
| Quoting.TimestampsStayPlainExactly | src/encode/mod.rs:675-862 | For a 1.1 target a text with a timestamp's shape is left plain if and only if it ends in a lowercase `z`, holds no tab and, where it has a point, is no float to either reader of floats. |
| Quoting.TimestampStaysPlain | src/encode/mod.rs:675-862 | An input: `2001-01-01T00:00:00z` is left plain under both 1.1 schemas however floats are read, and `parse` accepts it. |
| Quoting.DefaultUnder11 | src/encode/mod.rs:675-862 | What the 1.2 target leaves plain is a string under 1.1 if and only if it is neither a bare `y`/`n`, nor a base-60 integer that fits, nor an integer or float text behind an underscore, nor a float text with a colon: conditions on the text and on the reading of floats alone. |
| Quoting.DefaultUnderPyYaml | src/encode/mod.rs:675-862 | Under the PyYAML variant it is one if and only if it begins with an underscore, or is neither a base-60 integer that fits nor a float text with a colon. |
| Quoting.SomeDefaultsFlip | src/encode/mod.rs:964-969 | The exceptions are real: `y` and `_5`. |
| Quoting.ColonFlips | src/encode/mod.rs:964-969 | And `1:30`, which is ninety under 1.1 and its variant. |
| Quoting.QuotedForAReason | src/encode/mod.rs:675-862 | Quotes are never written without a reason. |

## Left out

- Lowering.Lower.LowerObject: the keys and values of a mapping are one list of children in document order, so sorted keys, flow style, comments and key styles are not modelled; the host's callbacks, which may change from call to call, are a fixed graph.
- Lowering.Naming.NameAnchors: trees are returned as new values, not rewritten in place; the same holds of the merge pass.
- Decoder.Decoder.DecodeMapping: the duplicate-key signature of the Python path, warnings and source positions are not modelled.
- DecodeGrammar.DecodesTree: an empty item at the end of an indentless sequence, be it a value or a key, is a readable layout only where the code keeps it; `DecodeGrammar.LastEmptyKeptExactly` covers the others. An indentless sequence at the end of a flow mapping is none, because no text scans to it.
- Decode.Node: what is left is bounded in length; that it is what remains of the events is the cursor's contract.
- Composer.Composer.ComposeNode: comments, spans, styles, raw block text and `compose_stream` are not modelled.
- EagerLazy.DecodedIsExpanded: needs distinct anchor names, because of a redefined anchor the decoder takes the latest definition and the anchor map the first.
- Anchors.BuildAnchorMap: the order in which a hash map yields its names is arbitrary; what the budget leaves for which name depends on it.
- Merge.ApplyMergeKeys: values are well formed, as the decoder makes them: big-integer text without a semicolon and timestamps in range.
- Folding.FoldingFits: counts the text between the quotes, as the code does; the closing quote may be one byte past the width.
- Spelling.SpelledIsDecoded: other floats than the three with words of their own are left to the float parameter, and timestamps must not be numbers to it.
- Quotes.QuotedReadsBack: the reader does not ask how deep a continuation line is indented, only that it is indented.
- BlockScalars.BlockReadsBack: explicit indentation indicators and comments in the header are never written, and are not read.
- Emitter.Emitter.EmitStringInline: only strings; the block layout of collections, sorting and key emission are not modelled, and a plain scalar is read on one line, as it is written.
- Resolver.Base60IsExactOrText: base-60 floats and float arithmetic are part of the float parameter.
- The scanner, from text to events.
- Conversion from and to Python objects, exception types, growing the native stack, and memory.
- `compare_keys` and `SortKey`: mixed numeric keys compare through floats, so they give no total order.
- The composer's `key_signature`, which can collide.
- Representer descriptors and their loss checks, tag validation.
- Includes, secrets, file writes, JSON output, schema validation.
