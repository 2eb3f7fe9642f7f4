/**
 * The document path of `MdtransTool._invoke`: parse the Markdown, index what
 * needs translating, translate it chunk by chunk, and rebuild the document.
 * A failing translation request ends the run without a document.
 */
module Pipeline {
  import opened Wrappers
  import opened Lines
  import opened MediaLink
  import opened Segmenter
  import opened Indexer
  import opened Chunking
  import opened Reassembler

  /** The stages after parsing: the rebuilt document, or the error of the request that failed. */
  function Render(blocks: seq<Block>, invoke: Translator): Result<string, string> {
    var units := Units(blocks);
    match TranslateAll(Batch(units), invoke)
    case Failure(e) => Failure(e)
    case Success(trans) => Success(Join(Outputs(blocks, TextIndexOf(units), MediaIndexOf(units), trans)))
  }

  /** The translated document, or the error of the request that failed. */
  function TranslateDocument(content: string, invoke: Translator): Result<string, string> {
    Render(Parse(content), invoke)
  }

  /** The stages in the order the source runs them. */
  method TranslateMarkdown(content: string, invoke: Translator) returns (r: Result<string, string>)
    ensures r == TranslateDocument(content, invoke)
  {
    var blocks := ParseMarkdown(content);
    var textIndex, mediaIndex, toTranslate := BuildIndex(blocks);
    var transDict := TranslateBatch(toTranslate, invoke);
    if transDict.Failure? {
      return Failure(transDict.error);
    }
    var doc := Reassemble(blocks, textIndex, mediaIndex, transDict.value);
    return Success(doc);
  }

  // ---------------------------------------------------------------------
  // End-to-end properties

  /** No line of any block holds a newline. */
  predicate SingleLines(bs: seq<Block>) {
    forall b, k :: 0 <= b < |bs| && 0 <= k < |BlockLines(bs[b])| ==> '\n' !in BlockLines(bs[b])[k]
  }

  lemma {:induction false} BlockLinesInFlatten(bs: seq<Block>, b: nat, k: nat)
    requires b < |bs| && k < |BlockLines(bs[b])|
    ensures BlockLines(bs[b])[k] in Flatten(bs)
  {
    var n := |bs| - 1;
    if b < n {
      assert bs[..n][b] == bs[b];
      BlockLinesInFlatten(bs[..n], b, k);
    }
  }

  /** The blocks of a parse hold the lines of the document, none of which holds a newline. */
  lemma ParseSingleLines(content: string)
    ensures SingleLines(Parse(content))
  {
    var bs := Parse(content);
    ParseLossless(content);
    forall b, k | 0 <= b < |bs| && 0 <= k < |BlockLines(bs[b])|
      ensures '\n' !in BlockLines(bs[b])[k]
    {
      BlockLinesInFlatten(bs, b, k);
    }
  }

  lemma AltHasNoNewline(raw: string, parts: MediaParts, altText: string)
    requires MatchMedia(raw) == Some(parts) && altText == Strip(parts.alt) && '\n' !in raw
    ensures '\n' !in altText
  {
    MatchMediaSound(raw);
    StripAddsNoChar(parts.alt, '\n');
  }

  /** No queued text holds a newline, so joining a chunk and splitting the reply keep positions. */
  lemma QueuedTextsSingleLine(bs: seq<Block>)
    requires BlocksOk(bs) && SingleLines(bs)
    ensures NoNewlines(Batch(Units(bs)))
  {
    var us := Units(bs);
    UnitsOk(bs);
    forall j | 0 <= j < |Batch(us)|
      ensures '\n' !in Batch(us)[j].1
    {
      assert UnitOk(bs, us[j]);
      match us[j].slot
      case TextSlot(b, l) =>
        assert BlockLines(bs[b])[l] == bs[b].lines[l];
      case MediaSlot(b) =>
        assert BlockOk(bs[b]) && BlockLines(bs[b])[0] == bs[b].raw;
        AltHasNoNewline(bs[b].raw, bs[b].parts, bs[b].altText);
    }
  }

  /** A map that gives every queued entry its own text is faithful to the blocks. */
  lemma SelfMapFaithful(bs: seq<Block>, trans: map<nat, string>)
    requires forall j :: 0 <= j < |Units(bs)| && j in trans ==> trans[j] == Units(bs)[j].source
    ensures Faithful(bs, TextIndexOf(Units(bs)), MediaIndexOf(Units(bs)), trans)
  {
    var us := Units(bs);
    var ti := TextIndexOf(us);
    var mi := MediaIndexOf(us);
    forall b, l | 0 <= b < |bs| && bs[b].TextBlock? && 0 <= l < |bs[b].lines| && Lookup(ti, (b, l), trans).Some?
      ensures Lookup(ti, (b, l), trans).value == bs[b].lines[l]
    {
      TextIndexExact(bs, b, l);
    }
    forall b | 0 <= b < |bs| && bs[b].MediaBlock? && Lookup(mi, b, trans).Some?
      ensures Lookup(mi, b, trans).value == bs[b].altText
    {
      MediaIndexExact(bs, b);
    }
  }

  /** With a model that echoes its requests, rendering gives back the lines of the blocks. */
  lemma EchoRender(bs: seq<Block>, invoke: Translator)
    requires Echoes(invoke) && BlocksOk(bs) && SingleLines(bs)
    ensures Render(bs, invoke) == Success(Join(Flatten(bs)))
  {
    var us := Units(bs);
    var batch := Batch(us);
    QueuedTextsSingleLine(bs);
    EchoMapsToSelf(batch, invoke);
    var trans := TranslateAll(batch, invoke).value;
    SelfMapFaithful(bs, trans);
    OutputsFaithful(bs, TextIndexOf(us), MediaIndexOf(us), trans);
  }

  /**
   * With a model that answers every request with the request itself, the
   * translated document is the original, character for character.
   */
  lemma EchoRoundTrip(content: string, invoke: Translator)
    requires Echoes(invoke)
    ensures TranslateDocument(content, invoke) == Success(content)
  {
    ParseWellFormed(content);
    ParseSingleLines(content);
    EchoRender(Parse(content), invoke);
    ParseLossless(content);
  }

  /**
   * With an empty translation map, whatever the indexes, rebuilding the
   * parsed document gives back the original, character for character.
   */
  lemma EmptyMapRoundTrip(content: string, ti: map<(nat, nat), nat>, mi: map<nat, nat>)
    ensures Join(Outputs(Parse(content), ti, mi, map[])) == content
  {
    ParseWellFormed(content);
    ParseLossless(content);
    EmptyMapOutputs(Parse(content), ti, mi);
  }

  /** With an empty translation map the blocks' output joins to the blocks' lines. */
  lemma EmptyMapOutputs(bs: seq<Block>, ti: map<(nat, nat), nat>, mi: map<nat, nat>)
    requires BlocksOk(bs)
    ensures Join(Outputs(bs, ti, mi, map[])) == Join(Flatten(bs))
  {
    EmptyMapFaithful(bs, ti, mi);
    OutputsFaithful(bs, ti, mi, map[]);
  }

  /** No slot has a translation in an empty map, so nothing can disagree with its source text. */
  lemma EmptyMapFaithful(bs: seq<Block>, ti: map<(nat, nat), nat>, mi: map<nat, nat>)
    ensures Faithful(bs, ti, mi, map[])
  {
    forall b: nat, l: nat
      ensures Lookup(ti, (b, l), map[]) == None
    {
    }
    forall b: nat
      ensures Lookup(mi, b, map[]) == None
    {
    }
  }

  /**
   * Where a text line ends up: a blank line stays as it is; any other line
   * has an id, and becomes the reply line that the translation of its chunk
   * gives for that id, or stays as it is when the reply is too short.
   */
  lemma TextLineOutcome(bs: seq<Block>, invoke: Translator, b: nat, l: nat)
    requires Render(bs, invoke).Success?
    requires b < |bs| && bs[b].TextBlock? && l < |bs[b].lines|
    ensures var us := Units(bs);
      var line := bs[b].lines[l];
      var out := TextOut(b, bs[b].lines, TextIndexOf(us), TranslateAll(Batch(us), invoke).value);
      && |out| == |bs[b].lines|
      && (IsBlank(line) ==> out[l] == line)
      && (!IsBlank(line) ==>
            (b, l) in TextIndexOf(us) &&
            var j := TextIndexOf(us)[(b, l)];
            j < |Batch(us)| && Batch(us)[j] == (j, line)
            && out[l] == match Reply(Batch(us), invoke, j) case Some(t) => t case None => line)
  {
    var us := Units(bs);
    var trans := TranslateAll(Batch(us), invoke).value;
    TextOutLines(b, bs[b].lines, TextIndexOf(us), trans);
    TextIndexExact(bs, b, l);
    TranslateAllMap(Batch(us), invoke);
  }

  /**
   * Where a media line ends up: it is rebuilt around the reply line its alt
   * text receives, or kept as it is when the reply is too short.
   */
  lemma MediaLineOutcome(bs: seq<Block>, invoke: Translator, b: nat)
    requires Render(bs, invoke).Success?
    requires b < |bs| && bs[b].MediaBlock?
    ensures var us := Units(bs);
      b in MediaIndexOf(us) &&
      var j := MediaIndexOf(us)[b];
      && j < |Batch(us)| && Batch(us)[j] == (j, bs[b].altText)
      && BlockOut(b, bs[b], TextIndexOf(us), MediaIndexOf(us), TranslateAll(Batch(us), invoke).value)
        == match Reply(Batch(us), invoke, j)
           case Some(t) => [RebuildMedia(bs[b].parts, t)]
           case None => [bs[b].raw]
  {
    var us := Units(bs);
    MediaIndexExact(bs, b);
    TranslateAllMap(Batch(us), invoke);
  }
}
