/**
 * The rebuilding loop of `MdtransTool._invoke`: code blocks are copied line
 * by line, a media line whose alt text was translated is rebuilt from its
 * seven regex groups with the new alt text, every text line whose id was
 * translated is replaced, and the pieces are joined with newlines.
 */
module Reassembler {
  import opened Wrappers
  import opened Lines
  import opened MediaLink
  import opened Segmenter

  /** `f"{comp[0]}{comp[1]}{comp[2]}{new_alt}{comp[4]}{comp[5]}{comp[6]}"`. */
  function RebuildMedia(p: MediaParts, newAlt: string): string {
    p.lead + p.open + p.ws1 + newAlt + p.ws2 + p.close + p.target
  }

  /**
   * The translation stored for a slot, if the slot has an id and the id a
   * translation (`uid and uid in trans_dict`; ids stand for uuid strings,
   * which are never empty).
   */
  function Lookup<K>(index: map<K, nat>, key: K, trans: map<nat, string>): Option<string> {
    if key in index && index[key] in trans then Some(trans[index[key]]) else None
  }

  /** The new text of line `l` of text block `b`. */
  function LineOut(b: nat, l: nat, line: string, ti: map<(nat, nat), nat>, trans: map<nat, string>): string {
    match Lookup(ti, (b, l), trans)
    case Some(t) => t
    case None => line
  }

  /** `new_lines` after the lines `ls` of text block `b`. */
  function TextOut(b: nat, ls: seq<string>, ti: map<(nat, nat), nat>, trans: map<nat, string>): seq<string> {
    if ls == [] then []
    else
      var n := |ls| - 1;
      TextOut(b, ls[..n], ti, trans) + [LineOut(b, n, ls[n], ti, trans)]
  }

  /** What block `b` adds to `output`. */
  function BlockOut(b: nat, block: Block, ti: map<(nat, nat), nat>, mi: map<nat, nat>, trans: map<nat, string>): seq<string> {
    match block
    case CodeBlock(ls, _) => ls
    case MediaBlock(raw, parts, _, _) =>
      (match Lookup(mi, b, trans)
       case Some(t) => [RebuildMedia(parts, t)]
       case None => [raw])
    case TextBlock(ls) => [Join(TextOut(b, ls, ti, trans))]
  }

  /** `output` after the blocks `bs`. */
  function Outputs(bs: seq<Block>, ti: map<(nat, nat), nat>, mi: map<nat, nat>, trans: map<nat, string>): seq<string> {
    if bs == [] then []
    else
      var n := |bs| - 1;
      Outputs(bs[..n], ti, mi, trans) + BlockOut(n, bs[n], ti, mi, trans)
  }

  /** The rebuilding loop, as the source runs it. */
  method Reassemble(blocks: seq<Block>, textIndex: map<(nat, nat), nat>, mediaIndex: map<nat, nat>,
                    transDict: map<nat, string>) returns (doc: string)
    ensures doc == Join(Outputs(blocks, textIndex, mediaIndex, transDict))
  {
    var output: seq<string> := [];
    for bi := 0 to |blocks|
      invariant output == Outputs(blocks[..bi], textIndex, mediaIndex, transDict)
    {
      assert blocks[..bi + 1][..bi] == blocks[..bi];
      var block := blocks[bi];
      if block.CodeBlock? {
        output := output + block.lines;
      } else if block.MediaBlock? {
        if bi in mediaIndex && mediaIndex[bi] in transDict {
          var newAlt := transDict[mediaIndex[bi]];
          output := output + [RebuildMedia(block.parts, newAlt)];
        } else {
          output := output + [block.raw];
        }
      } else {
        var ls := block.lines;
        var newLines: seq<string> := [];
        for li := 0 to |ls|
          invariant newLines == TextOut(bi, ls[..li], textIndex, transDict)
        {
          assert ls[..li + 1][..li] == ls[..li];
          var line := ls[li];
          var newLine := if (bi, li) in textIndex && textIndex[(bi, li)] in transDict
            then transDict[textIndex[(bi, li)]] else line;
          newLines := newLines + [newLine];
        }
        assert ls[..|ls|] == ls;
        output := output + [Join(newLines)];
      }
    }
    assert blocks[..|blocks|] == blocks;
    doc := Join(output);
  }

  // ---------------------------------------------------------------------
  // What the rebuild guarantees

  /**
   * Rebuilding a media line changes only the alt text: the characters before
   * and after it are those of the original line.
   */
  lemma RebuildKeepsFrame(p: MediaParts, newAlt: string)
    ensures var pre := p.lead + p.open + p.ws1;
      var post := p.ws2 + p.close + p.target;
      Concat(p) == pre + p.alt + post && RebuildMedia(p, newAlt) == pre + newAlt + post
  {
  }

  /** `new_lines` has one entry per line: the translation where there is one, else the line. */
  lemma {:induction false} TextOutLines(b: nat, ls: seq<string>, ti: map<(nat, nat), nat>, trans: map<nat, string>)
    ensures |TextOut(b, ls, ti, trans)| == |ls|
    ensures forall l :: 0 <= l < |ls| ==>
      TextOut(b, ls, ti, trans)[l] == (match Lookup(ti, (b, l), trans) case Some(t) => t case None => ls[l])
  {
    if ls != [] {
      var n := |ls| - 1;
      TextOutLines(b, ls[..n], ti, trans);
    }
  }

  /**
   * The translations agree with the texts they were made from: a translated
   * id of a text line holds that line, a translated id of a media block its
   * alt text.
   */
  ghost predicate Faithful(bs: seq<Block>, ti: map<(nat, nat), nat>, mi: map<nat, nat>, trans: map<nat, string>) {
    && (forall b, l :: 0 <= b < |bs| && bs[b].TextBlock? && 0 <= l < |bs[b].lines| && Lookup(ti, (b, l), trans).Some?
          ==> Lookup(ti, (b, l), trans).value == bs[b].lines[l])
    && (forall b :: 0 <= b < |bs| && bs[b].MediaBlock? && Lookup(mi, b, trans).Some?
          ==> Lookup(mi, b, trans).value == bs[b].altText)
  }

  /** Under faithful translations a block's output joins to the block's own lines. */
  lemma BlockOutFaithful(bs: seq<Block>, b: nat, ti: map<(nat, nat), nat>, mi: map<nat, nat>, trans: map<nat, string>)
    requires b < |bs| && BlockOk(bs[b]) && Faithful(bs, ti, mi, trans)
    ensures BlockOut(b, bs[b], ti, mi, trans) != [] && BlockLines(bs[b]) != []
    ensures Join(BlockOut(b, bs[b], ti, mi, trans)) == Join(BlockLines(bs[b]))
  {
    var block := bs[b];
    if block.MediaBlock? {
      MediaBlockRebuilds(block.raw, block.parts, block.altText);
      MediaOutFaithful(block, b, mi, trans);
    } else if block.TextBlock? {
      TextOutFaithful(bs, b, ti, mi, trans);
    }
  }

  /** A media line rebuilt with its own (stripped) alt text is the original line. */
  lemma MediaBlockRebuilds(raw: string, parts: MediaParts, altText: string)
    requires MatchMedia(raw) == Some(parts) && altText == Strip(parts.alt)
    ensures RebuildMedia(parts, altText) == raw
  {
    MatchMediaSound(raw);
    MatchedAltIsStripped(raw);
    RebuildKeepsFrame(parts, parts.alt);
  }

  lemma MediaOutFaithful(block: Block, b: nat, mi: map<nat, nat>, trans: map<nat, string>)
    requires block.MediaBlock? && RebuildMedia(block.parts, block.altText) == block.raw
    requires Lookup(mi, b, trans).Some? ==> Lookup(mi, b, trans).value == block.altText
    ensures forall ti :: BlockOut(b, block, ti, mi, trans) == [block.raw]
  {
  }

  lemma TextOutFaithful(bs: seq<Block>, b: nat, ti: map<(nat, nat), nat>, mi: map<nat, nat>, trans: map<nat, string>)
    requires b < |bs| && bs[b].TextBlock? && Faithful(bs, ti, mi, trans)
    ensures TextOut(b, bs[b].lines, ti, trans) == bs[b].lines
  {
    TextOutLines(b, bs[b].lines, ti, trans);
  }

  /** Under faithful translations the document comes back unchanged. */
  lemma {:induction false} OutputsFaithful(bs: seq<Block>, ti: map<(nat, nat), nat>, mi: map<nat, nat>, trans: map<nat, string>)
    requires BlocksOk(bs) && Faithful(bs, ti, mi, trans)
    ensures |Outputs(bs, ti, mi, trans)| >= 1 <==> bs != []
    ensures Join(Outputs(bs, ti, mi, trans)) == Join(Flatten(bs))
  {
    if bs != [] {
      var n := |bs| - 1;
      var prefix := bs[..n];
      assert BlocksOk(prefix);
      FaithfulPrefix(bs, n, ti, mi, trans);
      OutputsFaithful(prefix, ti, mi, trans);
      BlockOutFaithful(bs, n, ti, mi, trans);
      var o := Outputs(prefix, ti, mi, trans);
      var f := Flatten(prefix);
      var bo := BlockOut(n, bs[n], ti, mi, trans);
      var bl := BlockLines(bs[n]);
      if n == 0 {
        assert o == [] && f == [];
        assert o + bo == bo && f + bl == bl;
      } else {
        FlattenNonEmpty(prefix);
        JoinAppend(o, bo);
        JoinAppend(f, bl);
      }
    }
  }

  lemma FaithfulPrefix(bs: seq<Block>, n: nat, ti: map<(nat, nat), nat>, mi: map<nat, nat>, trans: map<nat, string>)
    requires n <= |bs| && Faithful(bs, ti, mi, trans)
    ensures Faithful(bs[..n], ti, mi, trans)
  {
    var p := bs[..n];
    forall b, l | 0 <= b < |p| && p[b].TextBlock? && 0 <= l < |p[b].lines| && Lookup(ti, (b, l), trans).Some?
      ensures Lookup(ti, (b, l), trans).value == p[b].lines[l]
    {
      assert p[b] == bs[b];
    }
    forall b | 0 <= b < |p| && p[b].MediaBlock? && Lookup(mi, b, trans).Some?
      ensures Lookup(mi, b, trans).value == p[b].altText
    {
      assert p[b] == bs[b];
    }
  }

  lemma FlattenNonEmpty(bs: seq<Block>)
    requires bs != [] && BlocksOk(bs)
    ensures Flatten(bs) != []
  {
    var n := |bs| - 1;
    assert BlockOk(bs[n]);
  }
}
