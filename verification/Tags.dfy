// What a tag stands for (src/decode/mod.rs, `expand_tag` and `named_tag_handle`), for every
// suffix and every set of handles, and what the decoder makes of a tagged scalar.
module Tags {
  import opened Wrappers
  import opened Text
  import opened Values
  import opened Events
  import opened Decode
  import opened Resolver
  import opened Schemas

  // ----- The forms of a tag -----

  // The name in `!name!suffix`.
  predicate IsHandleName(name: string) { name != "" && '!' !in name && name[0] != '<' }

  function Handle(name: string): string { "!" + name + "!" }

  // `!!suffix` has the prefix of the core schema, unless `!!` is declared.
  lemma SecondaryExpands(handles: map<string, string>, suffix: string)
    ensures ExpandTag(handles, "!!" + suffix) == (if "!!" in handles then handles["!!"] else "tag:yaml.org,2002:") + suffix
    ensures !HandleUndefined(handles, "!!" + suffix)
  {
    var tag := "!!" + suffix;
    assert tag[2..] == suffix && tag[0] == '!' && tag[1] == '!';
    assert tag[1..][0] == '!';
  }

  // `!name!suffix` has the prefix declared for its handle, and without one is refused.
  lemma NamedExpands(handles: map<string, string>, name: string, suffix: string)
    requires IsHandleName(name)
    ensures HandleUndefined(handles, Handle(name) + suffix) <==> Handle(name) !in handles
    ensures Handle(name) in handles ==> ExpandTag(handles, Handle(name) + suffix) == handles[Handle(name)] + suffix
  {
    var tag := Handle(name) + suffix;
    assert tag[1..] == name + (['!'] + suffix);
    MarkFound(name, suffix);
    assert tag[..|name| + 2] == Handle(name) && tag[|name| + 2..] == suffix;
    assert tag[1] == name[0];
    assert NamedHandle(tag) == Some(Handle(name));
  }

  lemma {:induction false} MarkFound(name: string, suffix: string)
    requires '!' !in name
    ensures FindMark(name + (['!'] + suffix)) == |name|
  {
    var s := name + (['!'] + suffix);
    if name == "" {
      assert s == ['!'] + suffix;
    } else {
      assert s[0] == name[0] && s[1..] == name[1..] + (['!'] + suffix);
      MarkFound(name[1..], suffix);
    }
  }

  lemma {:induction false} NoMark(s: string)
    ensures FindMark(s) == |s| <==> '!' !in s
    ensures '!' !in s[..FindMark(s)]
  {
    if s != "" && s[0] != '!' {
      NoMark(s[1..]);
      assert s[..FindMark(s)] == [s[0]] + s[1..][..FindMark(s[1..])];
      assert s == [s[0]] + s[1..];
    }
  }

  // `!suffix` changes only where `!` itself is declared.
  lemma PrimaryExpands(handles: map<string, string>, suffix: string)
    requires '!' !in suffix && !("<" <= suffix)
    ensures ExpandTag(handles, "!" + suffix) == if "!" in handles then handles["!"] + suffix else "!" + suffix
    ensures !HandleUndefined(handles, "!" + suffix)
  {
    var tag := "!" + suffix;
    assert tag[1..] == suffix;
    NoMark(suffix);
    if suffix != "" {
      assert tag[1] == suffix[0];
    }
  }

  // A verbatim `!<...>` and what does not begin with `!` stay as they are.
  lemma OthersStay(handles: map<string, string>, tag: string)
    requires "!<" <= tag || !("!" <= tag)
    ensures ExpandTag(handles, tag) == tag && !HandleUndefined(handles, tag)
  {
    if "!<" <= tag {
      assert tag[1..][0] == '<';
    } else if tag != "" {
      assert tag[0] == "!"[0] ==> "!" <= tag;
    }
  }

  ghost predicate IsNamed(tag: string, name: string, suffix: string) { IsHandleName(name) && tag == Handle(name) + suffix }

  // A tag is refused exactly when it has a named handle that is not declared.
  lemma UndefinedExactly(handles: map<string, string>, tag: string)
    ensures HandleUndefined(handles, tag) <==> exists name, suffix :: IsNamed(tag, name, suffix) && Handle(name) !in handles
  {
    if HandleUndefined(handles, tag) {
      var rest := tag[1..];
      var n := FindMark(rest);
      NoMark(rest);
      assert n > 0 && rest[..n][0] == rest[0];
      assert tag[..n + 2] == Handle(rest[..n]);
      assert IsNamed(tag, rest[..n], tag[n + 2..]);
    }
    forall name, suffix | IsNamed(tag, name, suffix) && Handle(name) !in handles
      ensures HandleUndefined(handles, tag)
    {
      NamedExpands(handles, name, suffix);
    }
  }

  // ----- Tagged scalars -----

  // The decoder makes of these events, in front of these others, this value.
  predicate Reads(sc: Scope, ev: seq<Event>, v: Value, rest: seq<Event>, m: Memory, d: nat, allow: bool) {
    var o := Node(sc, ev + rest, m, d, allow);
    o.rest == rest && o.r == Ok(Some(v)) && o.mem.anchors == m.anchors && o.mem.nodes == m.nodes
  }

  // In front of any others.
  ghost predicate Decodes(sc: Scope, ev: seq<Event>, v: Value) {
    forall rest, m, d: nat, allow | d < 1000 :: Reads(sc, ev, v, rest, m, d, allow)
  }

  lemma TaggedScalar(sc: Scope, tag: string, text: string, style: ScalarStyle, v: Value)
    requires !HandleUndefined(sc.handles, tag)
    requires var full := ExpandTag(sc.handles, tag);
             v == WithTag(Some(full), ScalarValue(sc.config, text, style, Some(full)).value)
    ensures Decodes(sc, [Tag(tag), Scalar(text, style)], v)
  {
    hide Reads, ExpandTag, HandleUndefined, ScalarValue, WithTag;
    forall rest, m, d: nat, allow | d < 1000
      ensures Reads(sc, [Tag(tag), Scalar(text, style)], v, rest, m, d, allow)
    {
      TaggedRead(sc, tag, text, style, rest, m, d, allow);
    }
  }

  lemma TaggedRead(sc: Scope, tag: string, text: string, style: ScalarStyle, rest: seq<Event>, m: Memory, d: nat, allow: bool)
    requires !HandleUndefined(sc.handles, tag) && d < 1000
    ensures var full := ExpandTag(sc.handles, tag);
            Reads(sc, [Tag(tag), Scalar(text, style)], WithTag(Some(full), ScalarValue(sc.config, text, style, Some(full)).value),
                  rest, m, d, allow)
  {
    hide ExpandTag, HandleUndefined, ScalarValue, WithTag, Node, Inner, NoteMerge;
    var full := ExpandTag(sc.handles, tag);
    assert [Tag(tag), Scalar(text, style)] + rest == [Tag(tag)] + ([Scalar(text, style)] + rest);
    TagRead(sc, tag, [Scalar(text, style)] + rest, m, d, allow);
    ScalarRead(sc, text, style, rest, m, d + 1, allow, full);
    MergeNoted(m, ScalarValue(sc.config, text, style, Some(full)).merges);
  }

  lemma MergeNoted(m: Memory, merges: bool)
    ensures var now := NoteMerge(m, merges); now.anchors == m.anchors && now.nodes == m.nodes
  {
  }

  lemma TagRead(sc: Scope, tag: string, rest: seq<Event>, m: Memory, d: nat, allow: bool)
    requires d < 1000 && !HandleUndefined(sc.handles, tag)
    ensures Node(sc, [Tag(tag)] + rest, m, d, allow) == Inner(sc, rest, m, d + 1, allow, Some(ExpandTag(sc.handles, tag)), None)
  {
    hide ExpandTag, HandleUndefined, Content;
    assert ([Tag(tag)] + rest)[1..] == rest;
  }

  lemma ScalarRead(sc: Scope, text: string, style: ScalarStyle, rest: seq<Event>, m: Memory, d: nat, allow: bool, tag: string)
    ensures var r := ScalarValue(sc.config, text, style, Some(tag));
            Inner(sc, [Scalar(text, style)] + rest, m, d, allow, Some(tag), None) ==
            Out(rest, NoteMerge(m, r.merges), Ok(Some(WithTag(Some(tag), r.value))))
  {
    hide ScalarValue, WithTag;
    var ev := [Scalar(text, style)] + rest;
    assert ev[1..] == rest && IsNodeStart(ev[0], allow);
    assert Inner(sc, ev, m, d, allow, Some(tag), None) == Content(sc, ev, m, d, allow, Some(tag), None);
  }

  // A tag outside the core schema is kept around the text, whatever the text.
  lemma CustomTagIsKept(sc: Scope, tag: string, text: string, style: ScalarStyle)
    requires !HandleUndefined(sc.handles, tag)
    requires var full := ExpandTag(sc.handles, tag); !("!!" <= full) && !("tag:yaml.org,2002:" <= full)
    ensures Decodes(sc, [Tag(tag), Scalar(text, style)], Tagged(ExpandTag(sc.handles, tag), Str(text)))
  {
    var full := ExpandTag(sc.handles, tag);
    OtherTagsMakeText(sc.config.schema, sc.config.floats, text, style, full);
    TaggedScalar(sc, tag, text, style, Tagged(full, Str(text)));
  }

  // Under a `%TAG !e! tag:example.com,2000:`, as under any other.
  lemma NamedTagIsKept(sc: Scope, name: string, suffix: string, text: string, style: ScalarStyle)
    requires IsHandleName(name) && Handle(name) in sc.handles
    requires var full := sc.handles[Handle(name)] + suffix; !("!!" <= full) && !("tag:yaml.org,2002:" <= full)
    ensures Decodes(sc, [Tag(Handle(name) + suffix), Scalar(text, style)], Tagged(sc.handles[Handle(name)] + suffix, Str(text)))
  {
    NamedExpands(sc.handles, name, suffix);
    CustomTagIsKept(sc, Handle(name) + suffix, text, style);
  }

  // `!!str` makes text of anything.
  lemma StrTagIsText(sc: Scope, text: string, style: ScalarStyle)
    requires "!!" !in sc.handles
    ensures Decodes(sc, [Tag("!!str"), Scalar(text, style)], Str(text))
  {
    var full := "tag:yaml.org,2002:str";
    assert "!!str" == "!!" + "str" && full == "tag:yaml.org,2002:" + "str";
    CoreTag(sc.handles, "str", "!!str", full);
    TaggedWords(sc.config.schema, sc.config.floats, text, style, full);
    hide ExpandTag, Classify, WithTag, HandleUndefined;
    TaggedScalar(sc, "!!str", text, style, Str(text));
  }

  lemma CoreTag(handles: map<string, string>, name: string, tag: string, full: string)
    requires "!!" !in handles && tag == "!!" + name && full == "tag:yaml.org,2002:" + name
    ensures ExpandTag(handles, tag) == full && !HandleUndefined(handles, tag)
    ensures IsCore(full, name) && forall v :: WithTag(Some(full), v) == v
  {
    SecondaryExpands(handles, name);
    assert "tag:yaml.org,2002:" <= full;
  }

  // `!!int` makes a number of a numeral in any style.
  lemma IntTagIsNumber(sc: Scope, n: nat, negative: bool, style: ScalarStyle)
    requires "!!" !in sc.handles && n <= 0x7fff_ffff_ffff_ffff
    ensures var i: int := n;
            Decodes(sc, [Tag("!!int"), Scalar((if negative then "-" else "") + Decimal(n), style)],
                Int(if negative then -i else i))
  {
    var i: int := n;
    var text := (if negative then "-" else "") + Decimal(n);
    var full := "tag:yaml.org,2002:int";
    assert "!!int" == "!!" + "int" && full == "tag:yaml.org,2002:" + "int";
    CoreTag(sc.handles, "int", "!!int", full);
    TaggedNumeral(sc.config, n, negative, style, full);
    hide ExpandTag, ScalarValue, WithTag, HandleUndefined;
    TaggedScalar(sc, "!!int", text, style, Int(if negative then -i else i));
  }

  lemma TaggedNumeral(c: Config, n: nat, negative: bool, style: ScalarStyle, tag: string)
    requires IsCore(tag, "int") && n <= 0x7fff_ffff_ffff_ffff
    ensures var i: int := n;
            ScalarValue(c, (if negative then "-" else "") + Decimal(n), style, Some(tag)).value == Int(if negative then -i else i)
  {
    var sign := if negative then "-" else "";
    var text := sign + Decimal(n);
    hide Decimal, RadixValue, Classify, IsCore, SplitSign, Numeral12, Numeral11;
    NumeralOf(sign, n);
    if c.schema == Yaml12 {
      TaggedInts12(c.floats, text, style, tag);
    } else {
      TaggedInts11(c.floats, text, style, tag, c.schema);
    }
  }

  // `!!bool` makes a boolean of the schema's words, in any style.
  lemma BoolTagIsBool(sc: Scope, text: string, style: ScalarStyle)
    requires "!!" !in sc.handles
    ensures IsTrueWord(sc.config.schema, text) ==> Decodes(sc, [Tag("!!bool"), Scalar(text, style)], Bool(true))
    ensures IsFalseWord(sc.config.schema, text) ==> Decodes(sc, [Tag("!!bool"), Scalar(text, style)], Bool(false))
  {
    var full := "tag:yaml.org,2002:bool";
    assert "!!bool" == "!!" + "bool" && full == "tag:yaml.org,2002:" + "bool";
    CoreTag(sc.handles, "bool", "!!bool", full);
    TaggedWords(sc.config.schema, sc.config.floats, text, style, full);
    WordsDiffer(text);
    hide ExpandTag, Classify, WithTag, HandleUndefined, IsTrueWord, IsFalseWord;
    TaggedScalar(sc, "!!bool", text, style, WithTag(Some(full), ScalarValue(sc.config, text, style, Some(full)).value));
  }

  // An undeclared handle is an error, whatever follows.
  lemma UndeclaredIsRefused(sc: Scope, name: string, suffix: string, rest: seq<Event>, m: Memory, d: nat, allow: bool)
    requires IsHandleName(name) && Handle(name) !in sc.handles && d < 1000
    ensures Node(sc, [Tag(Handle(name) + suffix)] + rest, m, d, allow).r == Err(UndefinedHandle)
  {
    NamedExpands(sc.handles, name, suffix);
  }
}
