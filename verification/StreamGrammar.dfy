// Whole streams (src/decode/mod.rs, `decode_stream`): how documents may follow one another,
// and the decoder as the inverse of that.
module StreamGrammar {
  import opened Wrappers
  import opened Values
  import opened Events
  import opened Decode
  import opened Syntax
  import opened Grammar
  import opened DecodeGrammar
  import IndentlessKeys
  import T = Directives

  // Directives, a `---` or none, the root and a `...` or none.
  datatype Document = Document(directives: seq<string>, explicit: bool, root: Tree, ended: bool)

  // A stream also may have a `...` where no document is open.
  datatype Part = Whole(document: Document) | StrayEnd

  function RenderDirectives(ds: seq<string>, rest: seq<Event>): (r: seq<Event>)
    ensures |r| >= |rest|
  {
    if ds == [] then rest else Push(Directive(ds[0]), RenderDirectives(ds[1..], rest))
  }

  // What follows the root.
  function AfterRoot(d: Document, rest: seq<Event>): (r: seq<Event>)
    ensures |r| >= |rest|
  {
    if d.ended then Push(DocumentEnd, rest) else rest
  }

  function RenderBody(d: Document, rest: seq<Event>): (r: seq<Event>)
    ensures |r| >= |rest|
  {
    var root := RenderTree(d.root, AfterRoot(d, rest));
    if d.explicit then Push(DocumentStart, root) else root
  }

  function RenderStream(parts: seq<Part>): (r: seq<Event>)
    ensures r != []
  {
    if parts == [] then [StreamEnd]
    else
      match parts[0]
      case StrayEnd => Push(DocumentEnd, RenderStream(parts[1..]))
      case Whole(d) => RenderDirectives(d.directives, RenderBody(d, RenderStream(parts[1..])))
  }

  // The tag handles that a run of directives declares.
  function Declared(ds: seq<string>, handles: map<string, string>, seenYaml: bool)
    : (r: Result<map<string, string>, Error>)
    ensures r.Err? ==> r.error == BadDirective
  {
    if ds == [] then Ok(handles)
    else
      match T.KindOf(ds[0])
      case YamlVersion(valid) => if !valid || seenYaml then Err(BadDirective) else Declared(ds[1..], handles, true)
      case TagPrefix(handle, prefix) =>
        if handle in handles then Err(BadDirective) else Declared(ds[1..], handles[handle := prefix], seenYaml)
      case OtherDirective => Declared(ds[1..], handles, seenYaml)
  }

  // `open`: at the start of the stream, or after a `...`. Elsewhere a document needs its
  // `---`, and may have no directives; directives always need the `---`.
  predicate ReadableStream(c: Config, parts: seq<Part>, open: bool) {
    parts == [] ||
    match parts[0]
    case StrayEnd => open && ReadableStream(c, parts[1..], true)
    case Whole(d) => ReadableDocument(c, d, RenderStream(parts[1..]), open) && ReadableStream(c, parts[1..], d.ended)
  }

  predicate ReadableDocument(c: Config, d: Document, rest: seq<Event>, open: bool)
    requires rest != []
  {
    && (d.directives != [] ==> open && d.explicit)
    && (!d.explicit ==> open && !IsBareEmpty(d.root))
    && Readable(d.root, AfterRoot(d, rest), false) && Height(d.root) <= MAX_DEPTH
    && (Declared(d.directives, map[], false).Ok? ==>
          KeepsTags(Scope(c, Declared(d.directives, map[], false).value), d.root))
  }

  // A root as it is laid out, or as the parsers make it.
  datatype Reading = LaidOut | AsParsed

  function RootOf(t: Tree, reading: Reading): YNode { if reading.LaidOut? then Ast(t) else Parsed(t) }

  // Handles and anchors end with their document; the budget does not.
  function EvalStream(c: Config, parts: seq<Part>, reading: Reading, m: Memory, acc: seq<Value>): Meaning<seq<Value>> {
    if parts == [] then Meaning(m, Ok(acc))
    else
      match parts[0]
      case StrayEnd => EvalStream(c, parts[1..], reading, m, acc)
      case Whole(d) =>
        var o := EvalDocument(c, d, reading, m);
        match o.r
        case Err(e) => Meaning(o.mem, Err(e))
        case Ok(v) => EvalStream(c, parts[1..], reading, Forget(o.mem), acc + [v])
  }

  function EvalDocument(c: Config, d: Document, reading: Reading, m: Memory): Meaning<Value> {
    match Declared(d.directives, map[], false)
    case Err(e) => Meaning(m, Err(e))
    case Ok(handles) => EvalNode(Scope(c, handles), RootOf(d.root, reading), m)
  }

  predicate StreamHasPlainKeys(parts: seq<Part>) { forall p <- parts :: p.Whole? ==> PlainKeys(p.document.root) }

  // Where no key is an indentless sequence the two are the same.
  lemma {:induction false} PlainStream(c: Config, parts: seq<Part>, m: Memory, acc: seq<Value>)
    requires StreamHasPlainKeys(parts)
    ensures EvalStream(c, parts, AsParsed, m, acc) == EvalStream(c, parts, LaidOut, m, acc)
  {
    hide EvalNode, PlainKeys;
    if parts != [] {
      assert parts[0] in parts;
      match parts[0]
      case StrayEnd => PlainStream(c, parts[1..], m, acc);
      case Whole(d) =>
        IndentlessKeys.ParsedExactly(d.root);
        var o := EvalDocument(c, d, LaidOut, m);
        if o.r.Ok? {
          PlainStream(c, parts[1..], Forget(o.mem), acc + [o.r.value]);
        }
    }
  }

  // The decoder goes on after a document with its value, or stops at its error.
  predicate GoesOn(c: Config, o: Out<seq<Value>>, e: Meaning<Value>, rest: seq<Event>, ended: bool, acc: seq<Value>) {
    if e.r.Ok? then o == Documents(c, map[], rest, Forget(e.mem), ended, acc + [e.r.value]) else o.r == Err(e.r.error)
  }

  lemma {:induction false} ReadsDirectives(ds: seq<string>, rest: seq<Event>, handles: map<string, string>, seenYaml: bool)
    requires rest != [] && !rest[0].Directive?
    ensures var run, declared := Directives(RenderDirectives(ds, rest), handles, seenYaml), Declared(ds, handles, seenYaml);
            if declared.Ok? then run == Run(rest, declared.value, Ok(())) else run.r == Err(BadDirective)
  {
    if ds != [] {
      match T.KindOf(ds[0])
      case YamlVersion(valid) =>
        if valid && !seenYaml {
          ReadsDirectives(ds[1..], rest, handles, true);
        }
      case TagPrefix(handle, prefix) =>
        if handle !in handles {
          ReadsDirectives(ds[1..], rest, handles[handle := prefix], seenYaml);
        }
      case OtherDirective => ReadsDirectives(ds[1..], rest, handles, seenYaml);
    }
  }

  lemma SkipsEnd(c: Config, rest: seq<Event>, m: Memory, directives: bool, acc: seq<Value>)
    ensures Documents(c, map[], Push(DocumentEnd, rest), m, directives, acc) == Documents(c, map[], rest, m, true, acc)
  {
  }

  lemma DecodesExplicit(c: Config, handles: map<string, string>, d: Document, rest: seq<Event>, m: Memory, directives: bool,
                        acc: seq<Value>)
    requires rest != [] && d.explicit && (!d.ended ==> rest[0].DocumentStart? || rest[0].StreamEnd?)
    requires Readable(d.root, AfterRoot(d, rest), false) && Height(d.root) <= MAX_DEPTH && KeepsTags(Scope(c, handles), d.root)
    ensures GoesOn(c, Documents(c, handles, RenderBody(d, rest), m, directives, acc),
                   EvalNode(Scope(c, handles), Parsed(d.root), m), rest, d.ended, acc)
  {
    hide Node, Documents, EvalNode;
    DecodesTree(Scope(c, handles), d.root, AfterRoot(d, rest), m, 0, false);
    ExplicitRead(c, handles, RenderBody(d, rest), m, directives, acc);
  }

  lemma DecodesImplicit(c: Config, d: Document, rest: seq<Event>, m: Memory, directives: bool, acc: seq<Value>)
    requires rest != [] && !d.explicit && !IsBareEmpty(d.root)
    requires !d.ended ==> rest[0].DocumentStart? || rest[0].StreamEnd?
    requires Readable(d.root, AfterRoot(d, rest), false) && Height(d.root) <= MAX_DEPTH && KeepsTags(Scope(c, map[]), d.root)
    ensures GoesOn(c, Documents(c, map[], RenderBody(d, rest), m, directives, acc),
                   EvalNode(Scope(c, map[]), Parsed(d.root), m), rest, d.ended, acc)
  {
    var after := AfterRoot(d, rest);
    var ev := RenderTree(d.root, after);
    DecodesTree(Scope(c, map[]), d.root, after, m, 0, false);
    TreeStarts(d.root, after);
    ImplicitGoesOn(c, ev, after, EvalNode(Scope(c, map[]), Parsed(d.root), m), m, directives, acc);
    var e := EvalNode(Scope(c, map[]), Parsed(d.root), m);
    if e.r.Ok? && d.ended {
      SkipsEnd(c, rest, Forget(e.mem), false, acc + [e.r.value]);
    }
  }

  lemma ImplicitGoesOn(c: Config, ev: seq<Event>, after: seq<Event>, e: Meaning<Value>, m: Memory, directives: bool,
                       acc: seq<Value>)
    requires |after| < |ev| && AtBoundary(after) && (IsProperty(ev[0]) || IsNodeStart(ev[0], false))
    requires Agrees(Node(Scope(c, map[]), ev, m, 0, false), e, after, false)
    ensures GoesOn(c, Documents(c, map[], ev, m, directives, acc), e, after, false, acc)
  {
    hide Node, Documents;
    ImplicitRead(c, map[], ev, m, directives, acc);
  }

  lemma StartsBody(c: Config, parts: seq<Part>, open: bool)
    requires ReadableStream(c, parts, open) && !open
    ensures var ev := RenderStream(parts); ev[0].DocumentStart? || ev[0].StreamEnd?
  {
  }

  lemma DecodesDocument(c: Config, d: Document, rest: seq<Event>, m: Memory, open: bool, acc: seq<Value>)
    requires rest != [] && ReadableDocument(c, d, rest, open)
    requires !d.ended ==> rest[0].DocumentStart? || rest[0].StreamEnd?
    ensures GoesOn(c, Documents(c, map[], RenderDirectives(d.directives, RenderBody(d, rest)), m, open, acc),
                   EvalDocument(c, d, AsParsed, m), rest, d.ended, acc)
  {
    var body := RenderBody(d, rest);
    if d.directives == [] {
      if d.explicit {
        DecodesExplicit(c, map[], d, rest, m, open, acc);
      } else {
        DecodesImplicit(c, d, rest, m, open, acc);
      }
    } else {
      ReadsDirectives(d.directives, body, map[], false);
      var declared := Declared(d.directives, map[], false);
      DirectivesGoOn(c, d.directives, body, m, acc);
      if declared.Ok? {
        DecodesExplicit(c, declared.value, d, rest, m, true, acc);
      }
    }
  }

  lemma DirectivesGoOn(c: Config, ds: seq<string>, body: seq<Event>, m: Memory, acc: seq<Value>)
    requires ds != [] && body != [] && body[0].DocumentStart?
    requires var run, declared := Directives(RenderDirectives(ds, body), map[], false), Declared(ds, map[], false);
             if declared.Ok? then run == Run(body, declared.value, Ok(())) else run.r == Err(BadDirective)
    ensures var o, declared := Documents(c, map[], RenderDirectives(ds, body), m, true, acc), Declared(ds, map[], false);
            if declared.Ok? then o == Documents(c, declared.value, body, m, true, acc) else o.r == Err(declared.error)
  {
  }

  // A stream of documents, implicit ones and directives included, decodes to the values of
  // the trees that its roots are parsed as.
  lemma {:induction false} DecodesStream(c: Config, parts: seq<Part>, m: Memory, open: bool, acc: seq<Value>)
    requires ReadableStream(c, parts, open)
    ensures SameOutcome(Documents(c, map[], RenderStream(parts), m, open, acc), EvalStream(c, parts, AsParsed, m, acc), [])
  {
    if parts == [] {
      assert RenderStream(parts)[1..] == [];
    } else {
      var rest := RenderStream(parts[1..]);
      match parts[0]
      case StrayEnd =>
        SkipsEnd(c, rest, m, open, acc);
        DecodesStream(c, parts[1..], m, true, acc);
      case Whole(d) =>
        if !d.ended {
          StartsBody(c, parts[1..], false);
        }
        DecodesDocument(c, d, rest, m, open, acc);
        var e := EvalDocument(c, d, AsParsed, m);
        if e.r.Ok? {
          DecodesStream(c, parts[1..], Forget(e.mem), d.ended, acc + [e.r.value]);
        }
    }
  }
}
