/**
 * The translation index of `MdtransTool._invoke`: every non-blank line of a
 * text block and the alt text of every media block get an id, are recorded
 * in `text_index` / `media_index` under that id, and are queued in
 * `to_translate`. Code blocks are skipped.
 *
 * The source draws ids from `uuid.uuid4()`; here the id of an entry is its
 * position in `to_translate`, which gives the same distinctness.
 */
module Indexer {
  import opened Lines
  import opened Segmenter

  /** Where a queued text goes back to: a line of a text block, or a media block. */
  datatype Slot = TextSlot(block: nat, line: nat) | MediaSlot(block: nat)

  /** One queued text and the slot it belongs to. */
  datatype Unit = Unit(slot: Slot, source: string)

  /** The queue entries for the lines `ls` of text block `b`: the non-blank ones, in order. */
  function LineUnits(b: nat, ls: seq<string>): seq<Unit> {
    if ls == [] then []
    else
      var n := |ls| - 1;
      LineUnits(b, ls[..n]) + (if IsBlank(ls[n]) then [] else [Unit(TextSlot(b, n), ls[n])])
  }

  function BlockUnits(b: nat, block: Block): seq<Unit> {
    match block
    case TextBlock(ls) => LineUnits(b, ls)
    case MediaBlock(_, _, altText, _) => [Unit(MediaSlot(b), altText)]
    case CodeBlock(_, _) => []
  }

  /** The queue entries of all blocks, in the order the loop visits them. */
  function Units(bs: seq<Block>): seq<Unit> {
    if bs == [] then []
    else
      var n := |bs| - 1;
      Units(bs[..n]) + BlockUnits(n, bs[n])
  }

  /** `to_translate`: pairs of id and text, the id being the position. */
  function Batch(us: seq<Unit>): (r: seq<(nat, string)>)
    ensures |r| == |us|
    ensures forall j :: 0 <= j < |r| ==> r[j] == (j, us[j].source)
  {
    seq(|us|, j requires 0 <= j < |us| => (j, us[j].source))
  }

  /** `text_index`: slot of a text line to the id of its entry (a later entry overwrites). */
  function TextIndexOf(us: seq<Unit>): map<(nat, nat), nat> {
    if us == [] then map[]
    else
      var n := |us| - 1;
      var m := TextIndexOf(us[..n]);
      match us[n].slot
      case TextSlot(b, l) => m[(b, l) := n]
      case MediaSlot(_) => m
  }

  /** `media_index`: block index of a media block to the id of its entry. */
  function MediaIndexOf(us: seq<Unit>): map<nat, nat> {
    if us == [] then map[]
    else
      var n := |us| - 1;
      var m := MediaIndexOf(us[..n]);
      match us[n].slot
      case MediaSlot(b) => m[b := n]
      case TextSlot(_, _) => m
  }

  /** The index-building loop over blocks and, inside text blocks, over lines. */
  method BuildIndex(blocks: seq<Block>)
    returns (textIndex: map<(nat, nat), nat>, mediaIndex: map<nat, nat>, toTranslate: seq<(nat, string)>)
    ensures textIndex == TextIndexOf(Units(blocks))
    ensures mediaIndex == MediaIndexOf(Units(blocks))
    ensures toTranslate == Batch(Units(blocks))
  {
    textIndex := map[];
    mediaIndex := map[];
    toTranslate := [];
    ghost var seen: seq<Unit> := [];
    for bi := 0 to |blocks|
      invariant seen == Units(blocks[..bi])
      invariant textIndex == TextIndexOf(seen) && mediaIndex == MediaIndexOf(seen)
      invariant toTranslate == Batch(seen)
    {
      UnitsSnoc(blocks, bi + 1);
      ghost var done := seen;
      var block := blocks[bi];
      if block.TextBlock? {
        var ls := block.lines;
        for li := 0 to |ls|
          invariant seen == done + LineUnits(bi, ls[..li])
          invariant textIndex == TextIndexOf(seen) && mediaIndex == MediaIndexOf(seen)
          invariant toTranslate == Batch(seen)
        {
          LineUnitsSnoc(bi, ls, li + 1);
          var line := ls[li];
          if !IsBlank(line) {
            var uid := |toTranslate|;
            textIndex := textIndex[(bi, li) := uid];
            toTranslate := toTranslate + [(uid, line)];
            ghost var u := Unit(TextSlot(bi, li), line);
            Snoc(seen, u);
            AppendAssoc(done, LineUnits(bi, ls[..li]), [u]);
            seen := seen + [u];
          } else {
            assert LineUnits(bi, ls[..li + 1]) == LineUnits(bi, ls[..li]);
          }
        }
        assert ls[..|ls|] == ls;
        assert BlockUnits(bi, block) == LineUnits(bi, ls);
      } else if block.MediaBlock? {
        var uid := |toTranslate|;
        mediaIndex := mediaIndex[bi := uid];
        toTranslate := toTranslate + [(uid, block.altText)];
        ghost var u := Unit(MediaSlot(bi), block.altText);
        Snoc(seen, u);
        assert BlockUnits(bi, block) == [u];
        seen := seen + [u];
      } else {
        assert BlockUnits(bi, block) == [];
        assert done + [] == done;
      }
    }
    assert blocks[..|blocks|] == blocks;
  }

  lemma AppendAssoc(a: seq<Unit>, b: seq<Unit>, c: seq<Unit>)
    ensures a + (b + c) == (a + b) + c
  {
  }

  /** Adding one entry extends the three structures by that entry. */
  lemma Snoc(us: seq<Unit>, u: Unit)
    ensures TextIndexOf(us + [u]) == (if u.slot.TextSlot? then TextIndexOf(us)[(u.slot.block, u.slot.line) := |us|] else TextIndexOf(us))
    ensures MediaIndexOf(us + [u]) == (if u.slot.MediaSlot? then MediaIndexOf(us)[u.slot.block := |us|] else MediaIndexOf(us))
    ensures Batch(us + [u]) == Batch(us) + [(|us|, u.source)]
  {
    assert (us + [u])[..|us|] == us;
    SnocBatch(us, u);
  }

  lemma SnocBatch(us: seq<Unit>, u: Unit)
    ensures Batch(us + [u]) == Batch(us) + [(|us|, u.source)]
  {
    var l := Batch(us + [u]);
    var r := Batch(us) + [(|us|, u.source)];
    assert |l| == |r|;
    forall j | 0 <= j < |l| ensures l[j] == r[j] {
      if j < |us| {
        assert (us + [u])[j] == us[j];
      }
    }
  }

  /** The entries of the first `k` blocks extend those of the first `k - 1`. */
  lemma UnitsSnoc(bs: seq<Block>, k: nat)
    requires 0 < k <= |bs|
    ensures Units(bs[..k]) == Units(bs[..k - 1]) + BlockUnits(k - 1, bs[k - 1])
  {
    assert bs[..k][..k - 1] == bs[..k - 1];
  }

  lemma LineUnitsSnoc(b: nat, ls: seq<string>, k: nat)
    requires 0 < k <= |ls|
    ensures LineUnits(b, ls[..k]) ==
      LineUnits(b, ls[..k - 1]) + (if IsBlank(ls[k - 1]) then [] else [Unit(TextSlot(b, k - 1), ls[k - 1])])
  {
    assert ls[..k][..k - 1] == ls[..k - 1];
  }

  // ---------------------------------------------------------------------
  // What the index guarantees

  /** Entry `u` stands for what the slot it names holds in `bs`. */
  predicate UnitOk(bs: seq<Block>, u: Unit) {
    match u.slot
    case TextSlot(b, l) =>
      b < |bs| && bs[b].TextBlock? && l < |bs[b].lines|
      && !IsBlank(bs[b].lines[l]) && u.source == bs[b].lines[l]
    case MediaSlot(b) =>
      b < |bs| && bs[b].MediaBlock? && u.source == bs[b].altText
  }

  /** Slots in the order the loops visit them: by block, then by line. */
  predicate Before(s: Slot, t: Slot) {
    s.block < t.block || (s.block == t.block && s.TextSlot? && t.TextSlot? && s.line < t.line)
  }

  lemma {:induction false} LineUnitsSound(bs: seq<Block>, b: nat, ls: seq<string>)
    requires b < |bs| && bs[b].TextBlock? && ls <= bs[b].lines
    ensures forall j :: 0 <= j < |LineUnits(b, ls)| ==>
      UnitOk(bs, LineUnits(b, ls)[j]) && LineUnits(b, ls)[j].slot.block == b
      && LineUnits(b, ls)[j].slot.TextSlot? && LineUnits(b, ls)[j].slot.line < |ls|
    ensures forall i, j :: 0 <= i < j < |LineUnits(b, ls)| ==>
      Before(LineUnits(b, ls)[i].slot, LineUnits(b, ls)[j].slot)
  {
    if ls != [] {
      var n := |ls| - 1;
      LineUnitsSound(bs, b, ls[..n]);
      assert bs[b].lines[n] == ls[n];
    }
  }

  lemma {:induction false} UnitsSound(bs: seq<Block>, k: nat)
    requires k <= |bs|
    ensures forall j :: 0 <= j < |Units(bs[..k])| ==>
      UnitOk(bs, Units(bs[..k])[j]) && Units(bs[..k])[j].slot.block < k
    ensures forall i, j :: 0 <= i < j < |Units(bs[..k])| ==>
      Before(Units(bs[..k])[i].slot, Units(bs[..k])[j].slot)
  {
    if k > 0 {
      var n := k - 1;
      UnitsSound(bs, n);
      assert bs[..k][..n] == bs[..n];
      var prev := Units(bs[..n]);
      var more := BlockUnits(n, bs[n]);
      assert Units(bs[..k]) == prev + more;
      if bs[n].TextBlock? {
        LineUnitsSound(bs, n, bs[n].lines);
      }
    }
  }

  /** Every queue entry stands for a non-blank text line or a media alt text, in visiting order. */
  lemma UnitsOk(bs: seq<Block>)
    ensures forall j :: 0 <= j < |Units(bs)| ==> UnitOk(bs, Units(bs)[j])
    ensures forall i, j :: 0 <= i < j < |Units(bs)| ==> Before(Units(bs)[i].slot, Units(bs)[j].slot)
  {
    UnitsSound(bs, |bs|);
    assert bs[..|bs|] == bs;
  }

  lemma {:induction false} LineUnitAt(b: nat, ls: seq<string>, l: nat) returns (j: nat)
    requires l < |ls| && !IsBlank(ls[l])
    ensures j < |LineUnits(b, ls)| && LineUnits(b, ls)[j].slot == TextSlot(b, l)
  {
    var n := |ls| - 1;
    if l == n {
      j := |LineUnits(b, ls[..n])|;
    } else {
      assert ls[..n][l] == ls[l];
      j := LineUnitAt(b, ls[..n], l);
    }
  }

  /** A block's entries appear, contiguously, in the entries of every longer prefix of blocks. */
  lemma {:induction false} UnitsGrow(bs: seq<Block>, b: nat, k: nat) returns (off: nat)
    requires b < k <= |bs|
    ensures off + |BlockUnits(b, bs[b])| <= |Units(bs[..k])|
    ensures Units(bs[..k])[off..off + |BlockUnits(b, bs[b])|] == BlockUnits(b, bs[b])
  {
    var n := k - 1;
    UnitsSnoc(bs, k);
    var prev := Units(bs[..n]);
    var more := BlockUnits(n, bs[n]);
    var mine := BlockUnits(b, bs[b]);
    if b == n {
      off := |prev|;
      SliceOfCat(Units(bs[..k]), prev, more, off, off + |mine|);
      SuffixSlice(prev, more);
    } else {
      off := UnitsGrow(bs, b, n);
      SliceOfCat(Units(bs[..k]), prev, more, off, off + |mine|);
      PrefixSlice(prev, more, off, off + |mine|);
    }
  }

  /** Rewrites a slice of `all` as a slice of its two parts, keeping the proof of UnitsGrow small. */
  lemma SliceOfCat(all: seq<Unit>, a: seq<Unit>, c: seq<Unit>, i: nat, j: nat)
    requires all == a + c && i <= j <= |all|
    ensures all[i..j] == (a + c)[i..j]
  {
  }

  lemma SuffixSlice(a: seq<Unit>, c: seq<Unit>)
    ensures (a + c)[|a|..|a| + |c|] == c
  {
  }

  lemma PrefixSlice(a: seq<Unit>, c: seq<Unit>, i: nat, j: nat)
    requires i <= j <= |a|
    ensures (a + c)[i..j] == a[i..j]
  {
  }

  lemma UnitOf(bs: seq<Block>, b: nat) returns (off: nat)
    requires b < |bs|
    ensures off + |BlockUnits(b, bs[b])| <= |Units(bs)|
    ensures Units(bs)[off..off + |BlockUnits(b, bs[b])|] == BlockUnits(b, bs[b])
  {
    off := UnitsGrow(bs, b, |bs|);
    assert bs[..|bs|] == bs;
  }

  /** Every non-blank text line and every media block has an entry. */
  lemma TextUnitAt(bs: seq<Block>, b: nat, l: nat) returns (j: nat)
    requires b < |bs| && bs[b].TextBlock? && l < |bs[b].lines| && !IsBlank(bs[b].lines[l])
    ensures j < |Units(bs)| && Units(bs)[j].slot == TextSlot(b, l)
  {
    var off := UnitOf(bs, b);
    var i := LineUnitAt(b, bs[b].lines, l);
    var us := BlockUnits(b, bs[b]);
    assert us == LineUnits(b, bs[b].lines);
    j := off + i;
    assert Units(bs)[j] == Units(bs)[off..off + |us|][i];
  }

  lemma MediaUnitAt(bs: seq<Block>, b: nat) returns (j: nat)
    requires b < |bs| && bs[b].MediaBlock?
    ensures j < |Units(bs)| && Units(bs)[j].slot == MediaSlot(b)
  {
    var off := UnitOf(bs, b);
    var us := BlockUnits(b, bs[b]);
    assert us == [Unit(MediaSlot(b), bs[b].altText)];
    j := off;
    assert Units(bs)[j] == Units(bs)[off..off + |us|][0];
  }

  /** A key of the text index points at an entry for that very slot. */
  lemma {:induction false} TextIndexSound(us: seq<Unit>)
    ensures forall k :: k in TextIndexOf(us) ==>
      TextIndexOf(us)[k] < |us| && us[TextIndexOf(us)[k]].slot == TextSlot(k.0, k.1)
  {
    if us != [] {
      var n := |us| - 1;
      TextIndexSound(us[..n]);
    }
  }

  lemma {:induction false} MediaIndexSound(us: seq<Unit>)
    ensures forall k :: k in MediaIndexOf(us) ==>
      MediaIndexOf(us)[k] < |us| && us[MediaIndexOf(us)[k]].slot == MediaSlot(k)
  {
    if us != [] {
      var n := |us| - 1;
      MediaIndexSound(us[..n]);
    }
  }

  /** An entry for a text slot puts that slot in the text index. */
  lemma {:induction false} TextIndexComplete(us: seq<Unit>, j: nat)
    requires j < |us| && us[j].slot.TextSlot?
    ensures (us[j].slot.block, us[j].slot.line) in TextIndexOf(us)
  {
    var n := |us| - 1;
    if j < n {
      TextIndexComplete(us[..n], j);
    }
  }

  lemma {:induction false} MediaIndexComplete(us: seq<Unit>, j: nat)
    requires j < |us| && us[j].slot.MediaSlot?
    ensures us[j].slot.block in MediaIndexOf(us)
  {
    var n := |us| - 1;
    if j < n {
      MediaIndexComplete(us[..n], j);
    }
  }

  /**
   * Exactly the non-blank lines of text blocks are in `text_index`, and the
   * queued text under a line's id is that line.
   */
  lemma TextIndexExact(bs: seq<Block>, b: nat, l: nat)
    ensures (b, l) in TextIndexOf(Units(bs)) <==>
      b < |bs| && bs[b].TextBlock? && l < |bs[b].lines| && !IsBlank(bs[b].lines[l])
    ensures (b, l) in TextIndexOf(Units(bs)) ==>
      var j := TextIndexOf(Units(bs))[(b, l)];
      j < |Batch(Units(bs))| && Batch(Units(bs))[j] == (j, bs[b].lines[l])
  {
    var us := Units(bs);
    UnitsOk(bs);
    TextIndexSound(us);
    if (b, l) in TextIndexOf(us) {
      assert UnitOk(bs, us[TextIndexOf(us)[(b, l)]]);
    }
    if b < |bs| && bs[b].TextBlock? && l < |bs[b].lines| && !IsBlank(bs[b].lines[l]) {
      var j := TextUnitAt(bs, b, l);
      TextIndexComplete(us, j);
    }
  }

  /** Exactly the media blocks are in `media_index`, and the queued text is the alt text. */
  lemma MediaIndexExact(bs: seq<Block>, b: nat)
    ensures b in MediaIndexOf(Units(bs)) <==> b < |bs| && bs[b].MediaBlock?
    ensures b in MediaIndexOf(Units(bs)) ==>
      var j := MediaIndexOf(Units(bs))[b];
      j < |Batch(Units(bs))| && Batch(Units(bs))[j] == (j, bs[b].altText)
  {
    var us := Units(bs);
    UnitsOk(bs);
    MediaIndexSound(us);
    if b in MediaIndexOf(us) {
      assert UnitOk(bs, us[MediaIndexOf(us)[b]]);
    }
    if b < |bs| && bs[b].MediaBlock? {
      var j := MediaUnitAt(bs, b);
      MediaIndexComplete(us, j);
    }
  }

  /** No two slots share an id: each index is one-to-one and the two indexes are disjoint. */
  lemma IdsDistinct(bs: seq<Block>)
    ensures var ti := TextIndexOf(Units(bs));
      forall k1, k2 :: k1 in ti && k2 in ti && ti[k1] == ti[k2] ==> k1 == k2
    ensures var mi := MediaIndexOf(Units(bs));
      forall k1, k2 :: k1 in mi && k2 in mi && mi[k1] == mi[k2] ==> k1 == k2
    ensures var ti := TextIndexOf(Units(bs)); var mi := MediaIndexOf(Units(bs));
      forall k, m :: k in ti && m in mi ==> ti[k] != mi[m]
  {
    TextIndexSound(Units(bs));
    MediaIndexSound(Units(bs));
  }

  /** Every queued entry is reachable from its slot: its id is the one the index holds. */
  lemma EveryEntryIndexed(bs: seq<Block>, j: nat)
    requires j < |Units(bs)|
    ensures var s := Units(bs)[j].slot;
      match s
      case TextSlot(b, l) => (b, l) in TextIndexOf(Units(bs)) && TextIndexOf(Units(bs))[(b, l)] == j
      case MediaSlot(b) => b in MediaIndexOf(Units(bs)) && MediaIndexOf(Units(bs))[b] == j
  {
    var us := Units(bs);
    UnitsOk(bs);
    TextIndexSound(us);
    MediaIndexSound(us);
    match us[j].slot
    case TextSlot(b, l) =>
      TextIndexComplete(us, j);
    case MediaSlot(b) =>
      MediaIndexComplete(us, j);
  }
}
