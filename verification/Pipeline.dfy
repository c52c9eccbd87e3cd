// A whole decode (src/decode/mod.rs, `decode_collecting`): the stream is decoded, and the
// merge pass runs over its documents if a merge key was seen.
module Pipeline {
  import opened Wrappers
  import opened Values
  import opened Events
  import D = Decode
  import B = DecodeBounds
  import Decoder
  import Merge
  import DecodeGrammar
  import G = StreamGrammar

  function MergedAll(docs: seq<Value>): (r: seq<Value>)
    ensures |r| == |docs|
  {
    if docs == [] then [] else [Merge.Merged(docs[0])] + MergedAll(docs[1..])
  }

  predicate AllClean(docs: seq<Value>) { forall i | 0 <= i < |docs| :: Merge.Clean(docs[i]) }

  lemma {:induction false} MergedAllAreClean(docs: seq<Value>, sawMerge: bool)
    requires B.FitItems(docs, sawMerge)
    ensures AllClean(MergedAll(docs)) && CountItems(MergedAll(docs)) <= CountItems(docs)
  {
    if docs != [] {
      Merge.MergedIsClean(docs[0]);
      Merge.MergedIsNoBigger(docs[0]);
      assert MergedAll(docs)[1..] == MergedAll(docs[1..]);
      MergedAllAreClean(docs[1..], sawMerge);
    }
  }

  // Without a merge key there is nothing to merge, so the pass may be skipped.
  lemma {:induction false} NothingToMerge(docs: seq<Value>)
    requires AllClean(docs)
    ensures MergedAll(docs) == docs
  {
    if docs != [] {
      Merge.CleanIsMerged(docs[0]);
      NothingToMerge(docs[1..]);
      assert docs == [docs[0]] + docs[1..];
    }
  }

  // Whatever the events: the documents of the stream, merged. No merge marker is left
  // anywhere, and they weigh at most four nodes an event plus the budget for aliases.
  method DecodeCollecting(c: Config, events: seq<Event>) returns (r: Result<seq<Value>, Error>)
    ensures var o := D.Documents(c, map[], events, D.FRESH, true, []);
            r == if o.r.Ok? then Ok(MergedAll(o.r.value)) else o.r
    ensures r.Ok? ==> AllClean(r.value) && CountItems(r.value) <= 4 * |events| + 10_000_000
  {
    var decoder := new Decoder.Decoder(c, events);
    r := decoder.DecodeStream();
    B.StreamIsBounded(c, events);
    if r.Ok? {
      ghost var docs := r.value;
      MergedAllAreClean(docs, decoder.sawMerge);
      if decoder.sawMerge {
        var merged := MergeAll(r.value);
        r := Ok(merged);
      } else {
        NothingToMerge(docs);
      }
    }
  }

  method MergeAll(docs: seq<Value>) returns (out: seq<Value>)
    requires B.FitItems(docs, true)
    ensures out == MergedAll(docs)
  {
    out := [];
    for i := 0 to |docs|
      invariant out + MergedAll(docs[i..]) == MergedAll(docs)
    {
      assert docs[i..][1..] == docs[i + 1..];
      var doc := Merge.ApplyMergeKeys(docs[i]);
      assert out + ([doc] + MergedAll(docs[i + 1..])) == out + [doc] + MergedAll(docs[i + 1..]);
      out := out + [doc];
    }
  }

  // A laid-out stream decodes to the values of the trees that its documents are parsed as:
  // those laid out, where no key is an indentless sequence.
  lemma StreamsDecode(c: Config, parts: seq<G.Part>)
    requires G.ReadableStream(c, parts, true)
    ensures var o := D.Documents(c, map[], [StreamStart] + G.RenderStream(parts), D.FRESH, true, []);
            && DecodeGrammar.SameOutcome(o, G.EvalStream(c, parts, G.AsParsed, D.FRESH, []), [])
            && (G.StreamHasPlainKeys(parts) ==> DecodeGrammar.SameOutcome(o, G.EvalStream(c, parts, G.LaidOut, D.FRESH, []), []))
  {
    G.DecodesStream(c, parts, D.FRESH, true, []);
    if G.StreamHasPlainKeys(parts) {
      G.PlainStream(c, parts, D.FRESH, []);
    }
    var ev := [StreamStart] + G.RenderStream(parts);
    assert ev[1..] == G.RenderStream(parts);
  }
}
