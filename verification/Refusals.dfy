// What the two parsers refuse (src/decode/mod.rs, src/roundtrip/composer.rs): two anchors on a
// node, properties on an alias, a key without its colon or laid out as a block, content behind a
// document, and directives out of place.
module Refusals {
  import opened Wrappers
  import opened Values
  import opened Events
  import opened Decode
  import opened Compose
  import DG = DecodeGrammar
  import CG = ComposeGrammar
  import Resolver
  import Schemas
  import T = Directives

  // ----- Properties -----

  predicate AreProperties(props: seq<Event>) { forall i | 0 <= i < |props| :: props[i].Tag? || props[i].Anchor? }

  // The names of the anchors, in order.
  function AnchorNames(props: seq<Event>): seq<string> {
    if props == [] then []
    else (if props[0].Anchor? then [props[0].name] else []) + AnchorNames(props[1..])
  }

  // The last tag.
  function LastTag(props: seq<Event>): Option<string> {
    if props == [] then None
    else if LastTag(props[1..]).Some? then LastTag(props[1..])
    else if props[0].Tag? then Some(props[0].tag)
    else None
  }

  predicate AreDeclared(handles: map<string, string>, props: seq<Event>) {
    forall i | 0 <= i < |props| && props[i].Tag? :: !HandleUndefined(handles, props[i].tag)
  }

  function First(names: seq<string>): Option<string> { if names == [] then None else Some(names[0]) }

  // Any run of properties: with at most one anchor the node goes on with that anchor and the last
  // tag, and two anchors are refused.
  lemma {:induction false} PropertiesRead(sc: Scope, props: seq<Event>, rest: seq<Event>, m: Memory, d: nat, allow: bool,
                                          tag: Option<string>, anchor: Option<string>)
    requires AreProperties(props) && AreDeclared(sc.handles, props) && rest != [] && !DG.IsProperty(rest[0])
    ensures var o, names := Inner(sc, props + rest, m, d, allow, tag, anchor), AnchorNames(props);
            if |names| + (if anchor.Some? then 1 else 0) <= 1 then
              o == Content(sc, rest, m, d, allow,
                           if LastTag(props).Some? then Some(ExpandTag(sc.handles, LastTag(props).value)) else tag,
                           if anchor.Some? then anchor else First(names))
            else o.r == Err(TwoAnchors)
    decreases |props|
  {
    hide Content, ExpandTag, HandleUndefined;
    if props == [] {
      assert props + rest == rest;
      DG.ReadsContent(sc, rest, m, d, allow, tag, anchor);
    } else {
      var ev := props + rest;
      assert ev[0] == props[0] && ev[1..] == props[1..] + rest;
      assert AreProperties(props[1..]) && AreDeclared(sc.handles, props[1..]);
      if props[0].Tag? {
        var full := ExpandTag(sc.handles, props[0].tag);
        assert Inner(sc, ev, m, d, allow, tag, anchor) == Inner(sc, ev[1..], m, d, allow, Some(full), anchor);
        PropertiesRead(sc, props[1..], rest, m, d, allow, Some(full), anchor);
      } else if anchor.None? {
        assert Inner(sc, ev, m, d, allow, tag, anchor) == Inner(sc, ev[1..], m, d, allow, tag, Some(props[0].name));
        PropertiesRead(sc, props[1..], rest, m, d, allow, tag, Some(props[0].name));
      }
    }
  }

  // The same of the composer, which keeps the tag as it is.
  lemma {:induction false} PropertiesMade(props: seq<Event>, rest: seq<Event>, seen: set<string>, d: nat, allow: bool,
                                          tag: Option<string>, anchor: Option<string>)
    requires AreProperties(props) && rest != [] && !DG.IsProperty(rest[0])
    ensures var o, names := CInner(props + rest, seen, d, allow, tag, anchor), AnchorNames(props);
            if |names| + (if anchor.Some? then 1 else 0) <= 1 then
              o == CContent(rest, seen, d, allow, if LastTag(props).Some? then LastTag(props) else tag,
                            if anchor.Some? then anchor else First(names))
            else o.r == Err(TwoAnchors)
    decreases |props|
  {
    hide CContent;
    if props == [] {
      assert props + rest == rest;
    } else {
      var ev := props + rest;
      assert ev[0] == props[0] && ev[1..] == props[1..] + rest;
      assert AreProperties(props[1..]);
      if props[0].Tag? {
        PropertiesMade(props[1..], rest, seen, d, allow, Some(props[0].tag), anchor);
      } else if anchor.None? {
        PropertiesMade(props[1..], rest, seen, d, allow, tag, Some(props[0].name));
      }
    }
  }

  // An alias is refused exactly when it has a property, or its name is unknown.
  lemma AliasBearsNothing(sc: Scope, name: string, rest: seq<Event>, m: Memory, d: nat, allow: bool,
                          tag: Option<string>, anchor: Option<string>, seen: set<string>)
    ensures var o := Content(sc, [Alias(name)] + rest, m, d, allow, tag, anchor);
            if tag.Some? || anchor.Some? then o.r == Err(AliasWithProperties)
            else if name !in m.anchors then o.r == Err(UnknownAlias(name))
            else o.r.Ok? || o.r == Err(TooManyNodes)
    ensures var o := CContent([Alias(name)] + rest, seen, d, allow, tag, anchor);
            if tag.Some? || anchor.Some? then o.r == Err(AliasWithProperties)
            else if name !in seen then o.r == Err(UnknownAlias(name))
            else o.r.Ok?
  {
  }

  // ----- Keys -----

  // In a block mapping a scalar that no colon follows is refused; in a flow mapping it is a key
  // of null.
  lemma ColonIsNeeded(sc: Scope, text: string, rest: seq<Event>, m: Memory, d: nat, flow: bool)
    requires d < 1000 && (rest == [] || !rest[0].ValueMark?)
    ensures var o := BarePair(sc, [Scalar(text, Resolver.DoubleQuoted)] + rest, m, d, flow);
            if flow then o == Out(rest, m, Ok(Pair(Str(text), Null))) else o.r == Err(MissingColon)
  {
    hide Node;
    QuotedRead(sc, text, rest, m, d, false);
    assert !IsBlockCollection([Scalar(text, Resolver.DoubleQuoted)] + rest);
  }

  lemma QuotedRead(sc: Scope, text: string, rest: seq<Event>, m: Memory, d: nat, allow: bool)
    requires d < 1000
    ensures Node(sc, [Scalar(text, Resolver.DoubleQuoted)] + rest, m, d, allow) == Out(rest, m, Ok(Some(Str(text))))
  {
    var ev := [Scalar(text, Resolver.DoubleQuoted)] + rest;
    assert ev[1..] == rest;
    DG.ReadsContent(sc, ev, m, d + 1, allow, None, None);
    Schemas.QuotedValues(sc.config, text, Resolver.DoubleQuoted);
    hide ScalarValue;
  }

  lemma ColonIsNeededToo(text: string, style: Resolver.ScalarStyle, rest: seq<Event>, seen: set<string>, d: nat, flow: bool)
    requires d < 1000 && (rest == [] || !rest[0].ValueMark?)
    ensures var o := CBarePair([Scalar(text, style)] + rest, seen, d, flow);
            if flow then o.rest == rest && o.r.Ok? && o.r.value.val.kind.YNull? else o.r == Err(MissingColon)
  {
    var ev := [Scalar(text, style)] + rest;
    assert ev[1..] == rest && !IsBlockCollection(ev);
    assert CNode(ev, seen, d, false) == CInner(ev, seen, d + 1, false, None, None);
    assert CInner(ev, seen, d + 1, false, None, None) == CContent(ev, seen, d + 1, false, None, None);
  }

  // Behind any properties, a block collection is no key without its `?`.
  lemma {:induction false} BlockKeyExactly(props: seq<Event>, rest: seq<Event>)
    requires AreProperties(props) && rest != [] && !DG.IsProperty(rest[0])
    ensures IsBlockCollection(props + rest) <==> rest[0] in {MappingStart(false), SequenceStart(false), SequenceEntry}
    decreases |props|
  {
    if props == [] {
      assert props + rest == rest;
    } else {
      assert (props + rest)[0] == props[0] && (props + rest)[1..] == props[1..] + rest && AreProperties(props[1..]);
      BlockKeyExactly(props[1..], rest);
    }
  }

  lemma BlockKeyRefused(sc: Scope, props: seq<Event>, rest: seq<Event>, m: Memory, d: nat, seen: set<string>)
    requires AreProperties(props) && rest != [] && rest[0] in {MappingStart(false), SequenceStart(false), SequenceEntry}
    ensures BarePair(sc, props + rest, m, d, false).r == Err(BlockCollectionKey)
    ensures CBarePair(props + rest, seen, d, false).r == Err(BlockCollectionKey)
  {
    BlockKeyExactly(props, rest);
    hide Node, CNode;
  }

  // ----- Documents -----

  // A stream's first document, with a `---` or without, may be followed only by an end, another
  // document or a directive.
  lemma NothingTrails(c: Config, text: string, rest: seq<Event>, explicit: bool)
    requires rest != [] && !(rest[0] in {StreamEnd, DocumentStart, DocumentEnd} || rest[0].Directive?)
    ensures var root := [Scalar(text, Resolver.DoubleQuoted)] + rest;
            Documents(c, map[], if explicit then [DocumentStart] + root else root, FRESH, true, []).r == Err(TrailingContent)
  {
    hide Node, Documents;
    var root := [Scalar(text, Resolver.DoubleQuoted)] + rest;
    QuotedRead(Scope(c, map[]), text, rest, FRESH, 0, false);
    if explicit {
      var ev := [DocumentStart] + root;
      assert ev[1..] == root;
      ExplicitRead(c, map[], ev, FRESH, true, []);
    } else {
      ImplicitRead(c, map[], root, FRESH, true, []);
    }
  }

  // Directives stand at the start of a stream or behind a `...`, in front of a `---`, with one
  // version and one prefix a handle.
  lemma DirectivesHaveTheirPlace(c: Config, handles: map<string, string>, text: string, rest: seq<Event>, m: Memory,
                                 directives: bool, acc: seq<Value>)
    requires rest == [] || !rest[0].Directive?
    ensures var o := Documents(c, handles, [Directive(text)] + rest, m, directives, acc);
            var kind := T.KindOf(text);
            if !directives || (kind.YamlVersion? && !kind.valid) || (kind.TagPrefix? && kind.handle in handles)
               || rest == [] || !rest[0].DocumentStart? then
              o.r == Err(BadDirective)
            else
              o == Documents(c, if kind.TagPrefix? then handles[kind.handle := kind.prefix] else handles, rest, m, true, acc)
  {
    hide Node;
    var ev := [Directive(text)] + rest;
    assert ev[1..] == rest;
    DirectiveRead(ev, handles, false);
    var kind := T.KindOf(text);
    NoDirectives(rest, if kind.TagPrefix? then handles[kind.handle := kind.prefix] else handles, kind.YamlVersion?);
  }

  lemma OneOfAKind(c: Config, handles: map<string, string>, first: string, second: string, rest: seq<Event>,
                   m: Memory, acc: seq<Value>)
    requires var a, b := T.KindOf(first), T.KindOf(second);
             (a.YamlVersion? && b.YamlVersion?) || (a.TagPrefix? && b.TagPrefix? && a.handle == b.handle)
    ensures Documents(c, handles, [Directive(first), Directive(second)] + rest, m, true, acc).r == Err(BadDirective)
  {
    hide Node;
    var ev := [Directive(first), Directive(second)] + rest;
    assert ev[1..] == [Directive(second)] + rest;
    DirectiveRead(ev, handles, false);
    var a := T.KindOf(first);
    DirectiveRead(ev[1..], if a.TagPrefix? then handles[a.handle := a.prefix] else handles, a.YamlVersion?);
  }

  // The start of the stream is passed over; behind a document without a `...` no directive may come.
  lemma NoDirectiveBehindADocument(c: Config, text: string, directive: string, rest: seq<Event>)
    ensures var ev := [StreamStart, DocumentStart, Scalar(text, Resolver.DoubleQuoted), Directive(directive)] + rest;
            Documents(c, map[], ev, FRESH, true, []).r == Err(BadDirective)
  {
    var sc := Scope(c, map[]);
    var last := [Directive(directive)] + rest;
    var root := [Scalar(text, Resolver.DoubleQuoted)] + last;
    var document := [DocumentStart] + root;
    var ev := [StreamStart, DocumentStart, Scalar(text, Resolver.DoubleQuoted), Directive(directive)] + rest;
    assert ev[1..] == document && document[1..] == root;
    QuotedRead(sc, text, last, FRESH, 0, false);
    ExplicitRead(c, map[], document, FRESH, true, []);
    hide Node, Directives;
    assert Documents(c, map[], ev, FRESH, true, []) == Documents(c, map[], document, FRESH, true, []);
    assert Documents(c, map[], last, Forget(FRESH), false, [] + [Str(text)]).r == Err(BadDirective);
  }
}
