/**
 * `parse_markdown`: one pass over the lines of the document that sorts them
 * into text, fenced-code and media blocks.
 */
module Segmenter {
  import opened Wrappers
  import opened Lines
  import opened MediaLink

  /**
   * A block of the document. Code and media blocks remember the index of
   * the line that started them (`line_num`); text blocks keep the default.
   */
  datatype Block =
    | TextBlock(lines: seq<string>)
    | CodeBlock(lines: seq<string>, lineNum: nat)
    | MediaBlock(raw: string, parts: MediaParts, altText: string, lineNum: nat)

  /** `re.match(r'^\s*```(\w*)', line)`: after leading whitespace the line starts with three backticks. */
  predicate IsFenceOpen(line: string) {
    var t := TrimLeft(line);
    |t| >= 3 && t[..3] == "```"
  }

  /** The source lines a block stands for. */
  function BlockLines(b: Block): seq<string> {
    match b
    case TextBlock(ls) => ls
    case CodeBlock(ls, _) => ls
    case MediaBlock(raw, _, _, _) => [raw]
  }

  function Flatten(bs: seq<Block>): seq<string> {
    if bs == [] then [] else Flatten(bs[..|bs| - 1]) + BlockLines(bs[|bs| - 1])
  }

  /** The loop variables `blocks`, `current_text` and `in_code_block`. */
  datatype ParseState = ParseState(blocks: seq<Block>, pending: seq<string>, inCode: bool)

  /** Inside a code block the last block is the code block being filled. */
  predicate CodeOpen(st: ParseState) {
    st.inCode ==> |st.blocks| > 0 && st.blocks[|st.blocks| - 1].CodeBlock?
  }

  /** `if current_text: blocks.append(MarkdownBlock("text", current_text.copy()))`. */
  function Flush(blocks: seq<Block>, pending: seq<string>): seq<Block> {
    if pending == [] then blocks else blocks + [TextBlock(pending)]
  }

  /**
   * One iteration of the loop, for line number `num`. `media` is
   * `media_pattern.fullmatch(line)`, which the loop only evaluates once the
   * line is known to be neither a fence nor inside a code block; being a pure
   * function of the line it is passed in ready-made.
   */
  function Step(st: ParseState, line: string, media: Option<MediaParts>, num: nat): (r: ParseState)
    requires CodeOpen(st)
    ensures CodeOpen(r)
  {
    if IsFenceOpen(line) then
      ParseState(Flush(st.blocks, st.pending) + [CodeBlock([line], num)], [], true)
    else if st.inCode then
      var n := |st.blocks| - 1;
      var last := st.blocks[n];
      var closes := Strip(line) == "```";
      ParseState(st.blocks[..n] + [CodeBlock(last.lines + [line], last.lineNum)], st.pending,
                 if closes then false else st.inCode)
    else
      match media
      case Some(p) =>
        ParseState(Flush(st.blocks, st.pending) + [MediaBlock(line, p, Strip(p.alt), num)], [], st.inCode)
      case None =>
        ParseState(st.blocks, st.pending + [line], st.inCode)
  }

  /** The state after the loop has consumed `lines`. */
  function FeedAll(lines: seq<string>): (r: ParseState)
    ensures CodeOpen(r)
  {
    if lines == [] then ParseState([], [], false)
    else
      var n := |lines| - 1;
      Step(FeedAll(lines[..n]), lines[n], MatchMedia(lines[n]), n)
  }

  /** The blocks `parse_markdown(content)` returns. */
  function Parse(content: string): seq<Block> {
    var st := FeedAll(Split(content));
    Flush(st.blocks, st.pending)
  }

  /** `parse_markdown`, as the loop the source runs. */
  method ParseMarkdown(content: string) returns (blocks: seq<Block>)
    ensures blocks == Parse(content)
    ensures Flatten(blocks) == Split(content)
    ensures WellFormed(blocks)
  {
    var lines := Split(content);
    blocks := [];
    var currentText: seq<string> := [];
    var inCodeBlock := false;
    for i := 0 to |lines|
      invariant ParseState(blocks, currentText, inCodeBlock) == FeedAll(lines[..i])
    {
      assert lines[..i + 1][..i] == lines[..i];
      var line := lines[i];
      if IsFenceOpen(line) {
        if currentText != [] {
          blocks := blocks + [TextBlock(currentText)];
          currentText := [];
        }
        inCodeBlock := true;
        blocks := blocks + [CodeBlock([line], i)];
      } else if inCodeBlock {
        var last := blocks[|blocks| - 1];
        blocks := blocks[..|blocks| - 1] + [CodeBlock(last.lines + [line], last.lineNum)];
        if Strip(line) == "```" {
          inCodeBlock := false;
        }
      } else {
        var mediaMatch := MatchMedia(line);
        if mediaMatch.Some? {
          if currentText != [] {
            blocks := blocks + [TextBlock(currentText)];
            currentText := [];
          }
          var altText := Strip(mediaMatch.value.alt);
          blocks := blocks + [MediaBlock(line, mediaMatch.value, altText, i)];
        } else {
          currentText := currentText + [line];
        }
      }
    }
    assert lines[..|lines|] == lines;
    if currentText != [] {
      blocks := blocks + [TextBlock(currentText)];
    }
    ParseLossless(content);
    ParseWellFormed(content);
  }

  // ---------------------------------------------------------------------
  // What a parse guarantees

  /** A line that stays in a text block: neither a fence nor a media line. */
  predicate TextLine(line: string) {
    !IsFenceOpen(line) && MatchMedia(line).None?
  }

  /**
   * A text block holds text lines only; a code block starts at a fence and
   * holds no other fence; a media block keeps the match of its line and the
   * stripped alt text.
   */
  predicate BlockOk(b: Block) {
    match b
    case TextBlock(ls) =>
      ls != [] && forall k :: 0 <= k < |ls| ==> TextLine(ls[k])
    case CodeBlock(ls, _) =>
      ls != [] && IsFenceOpen(ls[0]) && forall k :: 1 <= k < |ls| ==> !IsFenceOpen(ls[k])
    case MediaBlock(raw, parts, altText, _) =>
      !IsFenceOpen(raw) && MatchMedia(raw) == Some(parts) && altText == Strip(parts.alt)
  }

  function Last(bs: seq<Block>): Block
    requires bs != []
  {
    bs[|bs| - 1]
  }

  /** Block `b` may follow the blocks `prefix`. */
  predicate Fits(prefix: seq<Block>, b: Block) {
    && (b.TextBlock? ==> prefix == [] || !Last(prefix).TextBlock?)
    && (prefix != [] && Last(prefix).CodeBlock? ==> b.CodeBlock?)
    && (!b.TextBlock? ==> b.lineNum == |Flatten(prefix)|)
  }

  /** Every block fits after the ones before it (the order of blocks, apart from their contents). */
  predicate Built(bs: seq<Block>) {
    bs == [] || (Built(bs[..|bs| - 1]) && Fits(bs[..|bs| - 1], Last(bs)))
  }

  /** A code or media block records the index of its first line in the document. */
  predicate LineNumOk(bs: seq<Block>, i: nat)
    requires i < |bs|
  {
    !bs[i].TextBlock? ==> bs[i].lineNum == |Flatten(bs[..i])|
  }

  predicate BlocksOk(bs: seq<Block>) {
    forall i :: 0 <= i < |bs| ==> BlockOk(bs[i])
  }

  ghost predicate NoAdjacentText(bs: seq<Block>) {
    forall i, j :: 0 <= i && j == i + 1 && j < |bs| ==> !(bs[i].TextBlock? && bs[j].TextBlock?)
  }

  predicate CodeSticky(bs: seq<Block>) {
    forall i, j :: 0 <= i < j < |bs| && bs[i].CodeBlock? ==> bs[j].CodeBlock?
  }

  predicate LineNumsOk(bs: seq<Block>) {
    forall i :: 0 <= i < |bs| ==> LineNumOk(bs, i)
  }

  /**
   * Every block is well formed, no two text blocks are adjacent, a code block
   * is followed only by code blocks, and line numbers are positions.
   */
  ghost predicate WellFormed(bs: seq<Block>) {
    BlocksOk(bs) && NoAdjacentText(bs) && CodeSticky(bs) && LineNumsOk(bs)
  }

  /** The invariant the loop keeps on the order of blocks: between lines the last block is never text. */
  ghost predicate StateOk(st: ParseState) {
    && Built(st.blocks)
    && (st.blocks == [] || !Last(st.blocks).TextBlock?)
    && (st.inCode ==> st.pending == [] && st.blocks != [] && Last(st.blocks).CodeBlock?)
    && (!st.inCode ==> st.blocks == [] || !Last(st.blocks).CodeBlock?)
  }

  /** The invariant the loop keeps on the contents of blocks and of the pending text. */
  ghost predicate ContentOk(st: ParseState) {
    BlocksOk(st.blocks) && forall k :: 0 <= k < |st.pending| ==> TextLine(st.pending[k])
  }

  /** The state accounts for exactly the lines consumed so far. */
  predicate Consumed(st: ParseState, fed: seq<string>) {
    Flatten(st.blocks) + st.pending == fed
  }

  /** `line.strip() == '```'` already makes the line open a fence. */
  lemma CloseIsFence(line: string)
    requires Strip(line) == "```"
    ensures IsFenceOpen(line)
  {
    StripPrefix(line);
    assert TrimLeft(line)[..3] == Strip(line);
  }

  lemma FlattenSnoc(bs: seq<Block>, b: Block)
    ensures Flatten(bs + [b]) == Flatten(bs) + BlockLines(b)
  {
    assert (bs + [b])[..|bs|] == bs;
  }

  lemma BuiltSnoc(bs: seq<Block>, b: Block)
    requires Built(bs) && Fits(bs, b)
    ensures Built(bs + [b]) && Last(bs + [b]) == b
  {
    assert (bs + [b])[..|bs|] == bs;
  }

  lemma SnocBlocksOk(bs: seq<Block>, b: Block)
    requires BlocksOk(bs) && BlockOk(b)
    ensures BlocksOk(bs + [b])
  {
  }

  lemma SnocNoAdjacentText(bs: seq<Block>, b: Block)
    requires NoAdjacentText(bs)
    requires b.TextBlock? ==> bs == [] || !Last(bs).TextBlock?
    ensures NoAdjacentText(bs + [b])
  {
  }

  lemma SnocCodeSticky(bs: seq<Block>, b: Block)
    requires CodeSticky(bs)
    requires bs != [] && Last(bs).CodeBlock? ==> b.CodeBlock?
    ensures CodeSticky(bs + [b])
  {
    var cs := bs + [b];
    forall i, j | 0 <= i < j < |cs| && cs[i].CodeBlock? ensures cs[j].CodeBlock? {
      if j == |bs| && i < |bs| - 1 {
        assert bs[i].CodeBlock?;
      }
    }
  }

  lemma SnocLineNumsOk(bs: seq<Block>, b: Block)
    requires LineNumsOk(bs)
    requires !b.TextBlock? ==> b.lineNum == |Flatten(bs)|
    ensures LineNumsOk(bs + [b])
  {
    var cs := bs + [b];
    forall i | 0 <= i < |cs| ensures LineNumOk(cs, i) {
      if i < |bs| {
        assert LineNumOk(bs, i);
        assert cs[..i] == bs[..i];
      } else {
        assert cs[..i] == bs;
      }
    }
  }

  /** The step-by-step construction gives the order properties stated over all blocks. */
  lemma {:induction false} BuiltOrdered(bs: seq<Block>)
    requires Built(bs)
    ensures NoAdjacentText(bs) && CodeSticky(bs) && LineNumsOk(bs)
  {
    if bs != [] {
      var ps := bs[..|bs| - 1];
      var b := Last(bs);
      BuiltOrdered(ps);
      SnocLast(bs);
      SnocNoAdjacentText(ps, b);
      SnocCodeSticky(ps, b);
      SnocLineNumsOk(ps, b);
    }
  }

  lemma SnocLast(bs: seq<Block>)
    requires bs != []
    ensures bs == bs[..|bs| - 1] + [Last(bs)]
  {
  }

  lemma FlushOk(st: ParseState, fed: seq<string>)
    requires StateOk(st) && Consumed(st, fed)
    ensures Built(Flush(st.blocks, st.pending))
    ensures Flatten(Flush(st.blocks, st.pending)) == fed
    ensures !st.inCode ==> Flush(st.blocks, st.pending) == [] || !Last(Flush(st.blocks, st.pending)).CodeBlock?
  {
    if st.pending != [] {
      BuiltSnoc(st.blocks, TextBlock(st.pending));
      FlattenSnoc(st.blocks, TextBlock(st.pending));
    }
  }

  /** A fence line flushes the pending text and opens a code block. */
  lemma StepFenceOk(st: ParseState, line: string, media: Option<MediaParts>, fed: seq<string>)
    requires CodeOpen(st) && StateOk(st) && Consumed(st, fed)
    requires IsFenceOpen(line)
    ensures StateOk(Step(st, line, media, |fed|)) && Consumed(Step(st, line, media, |fed|), fed + [line])
    ensures Step(st, line, media, |fed|) ==
      ParseState(Flush(st.blocks, st.pending) + [CodeBlock([line], |fed|)], [], true)
  {
    var bs := Flush(st.blocks, st.pending);
    var b := CodeBlock([line], |fed|);
    FlushOk(st, fed);
    BuiltSnoc(bs, b);
    FlattenSnoc(bs, b);
    StepFence(st, line, media, |fed|);
  }

  lemma StepFence(st: ParseState, line: string, media: Option<MediaParts>, num: nat)
    requires CodeOpen(st) && IsFenceOpen(line)
    ensures Step(st, line, media, num) == ParseState(Flush(st.blocks, st.pending) + [CodeBlock([line], num)], [], true)
  {
  }

  /**
   * Inside a code block every line is appended to the open block, and the
   * block never closes.
   */
  lemma StepCodeOk(st: ParseState, line: string, media: Option<MediaParts>, fed: seq<string>)
    requires CodeOpen(st) && StateOk(st) && Consumed(st, fed)
    requires !IsFenceOpen(line) && st.inCode
    ensures StateOk(Step(st, line, media, |fed|)) && Consumed(Step(st, line, media, |fed|), fed + [line])
    ensures var n := |st.blocks| - 1;
      Step(st, line, media, |fed|) ==
        ParseState(st.blocks[..n] + [CodeBlock(st.blocks[n].lines + [line], st.blocks[n].lineNum)], [], true)
  {
    if Strip(line) == "```" {
      CloseIsFence(line);
    }
    var n := |st.blocks| - 1;
    var last := st.blocks[n];
    var ps := st.blocks[..n];
    var b := CodeBlock(last.lines + [line], last.lineNum);
    SnocLast(st.blocks);
    FlattenSnoc(ps, last);
    BuiltSnoc(ps, b);
    FlattenSnoc(ps, b);
    assert Step(st, line, media, |fed|) == ParseState(ps + [b], [], true);
  }

  /** A media line flushes the pending text and becomes a block of its own. */
  lemma StepMediaOk(st: ParseState, line: string, media: Option<MediaParts>, fed: seq<string>)
    requires CodeOpen(st) && StateOk(st) && Consumed(st, fed)
    requires !IsFenceOpen(line) && !st.inCode && media.Some?
    ensures StateOk(Step(st, line, media, |fed|)) && Consumed(Step(st, line, media, |fed|), fed + [line])
    ensures Step(st, line, media, |fed|) ==
      ParseState(Flush(st.blocks, st.pending) + [MediaBlock(line, media.value, Strip(media.value.alt), |fed|)], [], false)
  {
    var p := media.value;
    var bs := Flush(st.blocks, st.pending);
    FlushOk(st, fed);
    var b := MediaBlock(line, p, Strip(p.alt), |fed|);
    BuiltSnoc(bs, b);
    FlattenSnoc(bs, b);
    assert Step(st, line, media, |fed|) == ParseState(bs + [b], [], false);
  }

  /** Any other line is added to the pending text. */
  lemma StepTextOk(st: ParseState, line: string, media: Option<MediaParts>, fed: seq<string>)
    requires CodeOpen(st) && StateOk(st) && Consumed(st, fed)
    requires !IsFenceOpen(line) && !st.inCode && media.None?
    ensures StateOk(Step(st, line, media, |fed|)) && Consumed(Step(st, line, media, |fed|), fed + [line])
    ensures Step(st, line, media, |fed|) == ParseState(st.blocks, st.pending + [line], false)
  {
    assert Step(st, line, media, |fed|) == ParseState(st.blocks, st.pending + [line], false);
  }

  lemma FlushContent(st: ParseState)
    requires ContentOk(st)
    ensures BlocksOk(Flush(st.blocks, st.pending))
  {
    if st.pending != [] {
      SnocBlocksOk(st.blocks, TextBlock(st.pending));
    }
  }

  /** Each step puts a line only where its kind allows. */
  lemma StepContent(st: ParseState, line: string, num: nat)
    requires CodeOpen(st) && ContentOk(st)
    ensures ContentOk(Step(st, line, MatchMedia(line), num))
  {
    var bs := Flush(st.blocks, st.pending);
    if IsFenceOpen(line) {
      FlushContent(st);
      SnocBlocksOk(bs, CodeBlock([line], num));
    } else if st.inCode {
      if Strip(line) == "```" {
        CloseIsFence(line);
      }
      var n := |st.blocks| - 1;
      var last := st.blocks[n];
      assert BlockOk(last);
      SnocBlocksOk(st.blocks[..n], CodeBlock(last.lines + [line], last.lineNum));
    } else if MatchMedia(line).Some? {
      var p := MatchMedia(line).value;
      FlushContent(st);
      SnocBlocksOk(bs, MediaBlock(line, p, Strip(p.alt), num));
    }
  }

  lemma {:induction false} FeedAllContent(lines: seq<string>)
    ensures ContentOk(FeedAll(lines))
  {
    if lines != [] {
      var n := |lines| - 1;
      FeedAllContent(lines[..n]);
      StepContent(FeedAll(lines[..n]), lines[n], n);
    }
  }

  lemma {:induction false} FeedAllOk(lines: seq<string>)
    ensures StateOk(FeedAll(lines)) && Consumed(FeedAll(lines), lines)
  {
    if lines != [] {
      var n := |lines| - 1;
      var fed := lines[..n];
      FeedAllOk(fed);
      var st := FeedAll(fed);
      var line := lines[n];
      assert fed + [line] == lines;
      if IsFenceOpen(line) {
        StepFenceOk(st, line, MatchMedia(line), fed);
      } else if st.inCode {
        StepCodeOk(st, line, MatchMedia(line), fed);
      } else if MatchMedia(line).Some? {
        StepMediaOk(st, line, MatchMedia(line), fed);
      } else {
        StepTextOk(st, line, MatchMedia(line), fed);
      }
    }
  }

  /** The blocks hold every line of the document, in order, and nothing else. */
  lemma ParseLossless(content: string)
    ensures Flatten(Parse(content)) == Split(content)
    ensures Join(Flatten(Parse(content))) == content
  {
    var st := FeedAll(Split(content));
    FeedAllOk(Split(content));
    FlushOk(st, Split(content));
    JoinSplit(content);
  }

  /** The blocks of a parse are well formed. */
  lemma ParseWellFormed(content: string)
    ensures WellFormed(Parse(content))
  {
    var st := FeedAll(Split(content));
    FeedAllOk(Split(content));
    FlushOk(st, Split(content));
    BuiltOrdered(Parse(content));
    FeedAllContent(Split(content));
    FlushContent(st);
  }
}
