/**
 * The chunked translation loop of `MdtransTool._invoke` and the reply
 * handling at the end of `translate_text`: the batch is cut into consecutive
 * chunks of at most 3000 entries, each chunk's texts are sent as one
 * newline-joined request, the reply is split on newlines and cut to the
 * chunk's length, and ids are paired with reply lines positionally. A failing
 * request ends the run.
 *
 * The model call (prompt, parameters, status check, reading `output.text`) is
 * the parameter `invoke`: the request text in, the reply text or an error out.
 */
module Chunking {
  import opened Wrappers
  import opened Lines

  const ChunkSize: nat := 3000

  /** An entry of `to_translate`: an id and the text to translate. */
  type Entry = (nat, string)

  type Translator = string -> Result<string, string>

  function Min(a: nat, b: nat): nat {
    if a <= b then a else b
  }

  /** `[uid for uid, _ in chunk]`. */
  function Ids(es: seq<Entry>): (r: seq<nat>)
    ensures |r| == |es| && forall i :: 0 <= i < |r| ==> r[i] == es[i].0
  {
    if es == [] then [] else [es[0].0] + Ids(es[1..])
  }

  /** `[text for _, text in chunk]`. */
  function Texts(es: seq<Entry>): (r: seq<string>)
    ensures |r| == |es| && forall i :: 0 <= i < |r| ==> r[i] == es[i].1
  {
    if es == [] then [] else [es[0].1] + Texts(es[1..])
  }

  /** Python's `zip`: pairs up positions until the shorter list ends. */
  function Zip(a: seq<nat>, b: seq<string>): (r: seq<Entry>)
    ensures |r| == Min(|a|, |b|)
    ensures forall i :: 0 <= i < |r| ==> r[i] == (a[i], b[i])
  {
    if a == [] || b == [] then [] else [(a[0], b[0])] + Zip(a[1..], b[1..])
  }

  /** `dict(pairs)`: a later pair for the same key overwrites an earlier one. */
  function ToMap(ps: seq<Entry>): map<nat, string> {
    if ps == [] then map[]
    else
      var n := |ps| - 1;
      ToMap(ps[..n])[ps[n].0 := ps[n].1]
  }

  /**
   * `translate_text`: one request holding the texts joined by newlines; the
   * reply split on newlines and cut to at most as many lines as were sent.
   */
  function TranslateText(texts: seq<string>, invoke: Translator): (r: Result<seq<string>, string>)
    ensures r.Success? ==> |r.value| <= |texts|
  {
    match invoke(Join(texts))
    case Failure(e) => Failure(e)
    case Success(reply) =>
      var lines := Split(reply);
      Success(lines[..Min(|lines|, |texts|)])
  }

  /** The pairs one chunk contributes: `zip(ids, chunk_trans[:len(chunk_texts)])`. */
  function ChunkPairs(chunk: seq<Entry>, invoke: Translator): Result<seq<Entry>, string> {
    var texts := Texts(chunk);
    match TranslateText(texts, invoke)
    case Failure(e) => Failure(e)
    case Success(ts) =>
      var valid := ts[..Min(|ts|, |texts|)];
      Success(Zip(Ids(chunk), valid))
  }

  /** `batch[i:]`, which Python clamps to the empty list past the end. */
  function Drop(batch: seq<Entry>, i: nat): seq<Entry> {
    if i <= |batch| then batch[i..] else []
  }

  /** `to_translate[i:i+CHUNK_SIZE]` for `i` in `range(0, len(to_translate), CHUNK_SIZE)`. */
  function Chunks(batch: seq<Entry>): seq<seq<Entry>>
    decreases |batch|
  {
    if batch == [] then []
    else
      var k := Min(ChunkSize, |batch|);
      [batch[..k]] + Chunks(batch[k..])
  }

  function Prepend(p: seq<Entry>, r: Result<seq<Entry>, string>): Result<seq<Entry>, string> {
    match r
    case Failure(e) => Failure(e)
    case Success(q) => Success(p + q)
  }

  /** `translated` after all chunks, or the error of the first chunk that fails. */
  function TranslateChunks(cs: seq<seq<Entry>>, invoke: Translator): Result<seq<Entry>, string> {
    if cs == [] then Success([])
    else
      match ChunkPairs(cs[0], invoke)
      case Failure(e) => Failure(e)
      case Success(p) => Prepend(p, TranslateChunks(cs[1..], invoke))
  }

  /** `trans_dict`, or the error that ended the run. */
  function TranslateAll(batch: seq<Entry>, invoke: Translator): Result<map<nat, string>, string> {
    match TranslateChunks(Chunks(batch), invoke)
    case Failure(e) => Failure(e)
    case Success(ps) => Success(ToMap(ps))
  }

  /** The chunk loop, as the source runs it. */
  method TranslateBatch(batch: seq<Entry>, invoke: Translator) returns (r: Result<map<nat, string>, string>)
    ensures r == TranslateAll(batch, invoke)
  {
    var translated: seq<Entry> := [];
    var i: nat := 0;
    assert Drop(batch, 0) == batch;
    PrependEmpty(TranslateChunks(Chunks(batch), invoke));
    while i < |batch|
      invariant Prepend(translated, TranslateChunks(Chunks(Drop(batch, i)), invoke))
        == TranslateChunks(Chunks(batch), invoke)
      decreases |batch| - i
    {
      var chunk := batch[i..Min(i + ChunkSize, |batch|)];
      ChunksStep(batch, i);
      var chunkTexts := Texts(chunk);
      var chunkTrans := TranslateText(chunkTexts, invoke);
      if chunkTrans.Failure? {
        return Failure(chunkTrans.error);
      }
      var validTrans := chunkTrans.value[..Min(|chunkTrans.value|, |chunkTexts|)];
      PrependTwice(translated, Zip(Ids(chunk), validTrans), TranslateChunks(Chunks(Drop(batch, i + ChunkSize)), invoke));
      translated := translated + Zip(Ids(chunk), validTrans);
      i := i + ChunkSize;
    }
    assert Drop(batch, i) == [];
    assert translated + [] == translated;
    r := Success(ToMap(translated));
  }

  lemma ChunksStep(batch: seq<Entry>, i: nat)
    requires i < |batch|
    ensures Chunks(Drop(batch, i)) ==
      [batch[i..Min(i + ChunkSize, |batch|)]] + Chunks(Drop(batch, i + ChunkSize))
  {
    var rest := batch[i..];
    var k := Min(ChunkSize, |rest|);
    assert rest[..k] == batch[i..Min(i + ChunkSize, |batch|)];
    assert rest[k..] == Drop(batch, i + ChunkSize);
  }

  lemma PrependTwice(a: seq<Entry>, b: seq<Entry>, r: Result<seq<Entry>, string>)
    ensures Prepend(a, Prepend(b, r)) == Prepend(a + b, r)
  {
    if r.Success? {
      assert a + (b + r.value) == (a + b) + r.value;
    }
  }

  // ---------------------------------------------------------------------
  // Chunks

  function ConcatChunks(cs: seq<seq<Entry>>): seq<Entry> {
    if cs == [] then [] else cs[0] + ConcatChunks(cs[1..])
  }

  /** The chunks cover the batch in order; each has 1 to 3000 entries, and all but the last exactly 3000. */
  lemma {:induction false} ChunksCover(batch: seq<Entry>)
    ensures ConcatChunks(Chunks(batch)) == batch
    ensures forall k :: 0 <= k < |Chunks(batch)| ==> 1 <= |Chunks(batch)[k]| <= ChunkSize
    ensures forall k :: 0 <= k < |Chunks(batch)| - 1 ==> |Chunks(batch)[k]| == ChunkSize
    decreases |batch|
  {
    if batch != [] {
      var k := Min(ChunkSize, |batch|);
      ChunksCover(batch[k..]);
      assert batch[..k] + batch[k..] == batch;
      var cs := Chunks(batch);
      assert cs[1..] == Chunks(batch[k..]);
    }
  }

  /** Chunk `k` is the slice starting at `k * 3000`. */
  lemma {:induction false} ChunkAt(batch: seq<Entry>, k: nat)
    requires k < |Chunks(batch)|
    ensures k * ChunkSize < |batch|
    ensures Chunks(batch)[k] == batch[k * ChunkSize..Min(k * ChunkSize + ChunkSize, |batch|)]
    decreases |batch|
  {
    var c := Min(ChunkSize, |batch|);
    if k > 0 {
      var rest := batch[c..];
      var k2: nat := k - 1;
      assert Chunks(batch)[k] == Chunks(rest)[k2];
      ChunkAt(rest, k2);
      assert c == ChunkSize;
      var s2 := k2 * ChunkSize;
      assert k * ChunkSize == s2 + ChunkSize;
      SliceOfDrop(batch, ChunkSize, s2, Min(s2 + ChunkSize, |rest|));
    }
  }

  // ---------------------------------------------------------------------
  // What the pairing gives

  /** Entry `j` of the batch has id `o + j`, as with a counter started at `o`. */
  predicate IdsFrom(batch: seq<Entry>, o: nat) {
    forall j :: 0 <= j < |batch| ==> batch[j].0 == o + j
  }

  /** Line `i` of the reply to `chunk`, if the request succeeds and the reply has that line. */
  function ChunkReply(chunk: seq<Entry>, invoke: Translator, i: nat): Option<string> {
    match TranslateText(Texts(chunk), invoke)
    case Failure(_) => None
    case Success(ts) => if i < |ts| then Some(ts[i]) else None
  }

  /**
   * The translation entry `j` receives: the reply line at its offset within
   * its chunk (ReplyAt locates the chunk by division).
   */
  function Reply(batch: seq<Entry>, invoke: Translator, j: nat): Option<string>
    requires j < |batch|
    decreases |batch|
  {
    if j < ChunkSize then ChunkReply(batch[..Min(ChunkSize, |batch|)], invoke, j)
    else Reply(batch[ChunkSize..], invoke, j - ChunkSize)
  }

  /** Entry `j` is answered by the chunk starting at the multiple of 3000 at or below `j`. */
  lemma {:induction false} ReplyAt(batch: seq<Entry>, invoke: Translator, j: nat)
    requires j < |batch|
    ensures var s := j / ChunkSize * ChunkSize;
      s <= j && Reply(batch, invoke, j) == ChunkReply(batch[s..Min(s + ChunkSize, |batch|)], invoke, j - s)
    decreases |batch|
  {
    var s := j / ChunkSize * ChunkSize;
    if j < ChunkSize {
      assert s == 0;
      assert batch[0..Min(ChunkSize, |batch|)] == batch[..Min(ChunkSize, |batch|)];
    } else {
      var rest := batch[ChunkSize..];
      var j2: nat := j - ChunkSize;
      ReplyAt(rest, invoke, j2);
      var s2 := j2 / ChunkSize * ChunkSize;
      ChunkStartStep(j, j2);
      SliceOfDrop(batch, ChunkSize, s2, Min(s2 + ChunkSize, |rest|));
    }
  }

  lemma ChunkStartStep(j: nat, j2: nat)
    requires ChunkSize <= j && j2 == j - ChunkSize
    ensures j / ChunkSize * ChunkSize == j2 / ChunkSize * ChunkSize + ChunkSize
  {
    assert j / ChunkSize == j2 / ChunkSize + 1;
  }

  lemma PrependEmpty(r: Result<seq<Entry>, string>)
    ensures Prepend([], r) == r
  {
    if r.Success? {
      assert [] + r.value == r.value;
    }
  }

  /** One turn of the loop: the first chunk's pairs come before those of the rest. */
  lemma TranslateChunksCons(batch: seq<Entry>, invoke: Translator)
    requires batch != []
    ensures var c := Min(ChunkSize, |batch|);
      TranslateChunks(Chunks(batch), invoke) ==
        match ChunkPairs(batch[..c], invoke)
        case Failure(e) => Failure(e)
        case Success(p) => Prepend(p, TranslateChunks(Chunks(batch[c..]), invoke))
  {
    var c := Min(ChunkSize, |batch|);
    assert Chunks(batch)[0] == batch[..c] && Chunks(batch)[1..] == Chunks(batch[c..]);
  }

  lemma ToMapSnoc(ps: seq<Entry>, e: Entry)
    ensures ToMap(ps + [e]) == ToMap(ps)[e.0 := e.1]
  {
    assert (ps + [e])[..|ps|] == ps;
  }

  lemma UnionUpdate(m: map<nat, string>, n: map<nat, string>, k: nat, v: string)
    ensures (m + n)[k := v] == m + n[k := v]
  {
  }

  /** `dict(a + b)` is `dict(a)` overwritten by `dict(b)`. */
  lemma {:induction false} ToMapAppend(a: seq<Entry>, b: seq<Entry>)
    ensures ToMap(a + b) == ToMap(a) + ToMap(b)
  {
    if b == [] {
      assert a + b == a;
    } else {
      var n := |b| - 1;
      ToMapAppend(a, b[..n]);
      assert a + b == (a + b[..n]) + [b[n]];
      ToMapSnoc(a + b[..n], b[n]);
      assert b == b[..n] + [b[n]];
      ToMapSnoc(b[..n], b[n]);
      UnionUpdate(ToMap(a), ToMap(b[..n]), b[n].0, b[n].1);
    }
  }

  /** A run of pairs with ids `o, o+1, ...`: `dict` maps id `o + i` to the `i`-th text and has no other key. */
  lemma {:induction false} ToMapCounted(ps: seq<Entry>, o: nat, n: nat)
    requires n <= |ps|
    requires IdsFrom(ps, o)
    ensures forall k :: k in ToMap(ps[..n]) <==> o <= k < o + n
    ensures forall k :: k in ToMap(ps[..n]) ==> ToMap(ps[..n])[k] == ps[k - o].1
  {
    if n == 0 {
      assert ps[..n] == [];
    } else {
      ToMapCounted(ps, o, n - 1);
      assert ps[..n] == ps[..n - 1] + [ps[n - 1]];
      ToMapSnoc(ps[..n - 1], ps[n - 1]);
    }
  }

  /** Every key of one chunk's map is the id of an entry of the chunk. */
  lemma ChunkPairsKeys(chunk: seq<Entry>, o: nat, invoke: Translator)
    requires IdsFrom(chunk, o)
    requires ChunkPairs(chunk, invoke).Success?
    ensures forall k :: k in ToMap(ChunkPairs(chunk, invoke).value) ==> o <= k < o + |chunk|
  {
    var ts := TranslateText(Texts(chunk), invoke).value;
    var ps := Zip(Ids(chunk), ts[..Min(|ts|, |chunk|)]);
    assert IdsFrom(ps, o);
    ToMapCounted(ps, o, |ps|);
    assert ps[..|ps|] == ps;
  }

  /**
   * Entry `i` of one chunk, with id `o + i`, is mapped exactly when the reply
   * has line `i`, and then to that line.
   */
  lemma ChunkPairsMap(chunk: seq<Entry>, o: nat, invoke: Translator, i: nat, id: nat)
    requires IdsFrom(chunk, o)
    requires ChunkPairs(chunk, invoke).Success?
    requires i < |chunk| && id == o + i
    ensures id in ToMap(ChunkPairs(chunk, invoke).value) <==> ChunkReply(chunk, invoke, i).Some?
    ensures id in ToMap(ChunkPairs(chunk, invoke).value) ==>
      ToMap(ChunkPairs(chunk, invoke).value)[id] == ChunkReply(chunk, invoke, i).value
  {
    var ts := TranslateText(Texts(chunk), invoke).value;
    var ps := Zip(Ids(chunk), ts[..Min(|ts|, |chunk|)]);
    assert ChunkPairs(chunk, invoke).value == ps;
    assert |ps| == |ts|;
    assert IdsFrom(ps, o);
    ToMapCounted(ps, o, |ps|);
    assert ps[..|ps|] == ps;
    if i < |ts| {
      var k: nat := id - o;
      assert k == i;
      assert ToMap(ps)[id] == ps[k].1;
      assert ChunkReply(chunk, invoke, i) == Some(ts[i]);
    }
  }

  lemma SliceOfDrop(b: seq<Entry>, c: nat, x: nat, y: nat)
    requires c <= |b| && x <= y <= |b| - c
    ensures b[c..][x..y] == b[c + x..c + y]
  {
  }

  /** Under the first chunk, the pairs are the chunk's own followed by those of the rest. */
  lemma PairsCons(batch: seq<Entry>, invoke: Translator)
    requires batch != []
    requires TranslateChunks(Chunks(batch), invoke).Success?
    ensures var c := Min(ChunkSize, |batch|);
      && ChunkPairs(batch[..c], invoke).Success?
      && TranslateChunks(Chunks(batch[c..]), invoke).Success?
      && TranslateChunks(Chunks(batch), invoke).value
        == ChunkPairs(batch[..c], invoke).value + TranslateChunks(Chunks(batch[c..]), invoke).value
  {
    TranslateChunksCons(batch, invoke);
  }

  /** With ids counted from `o`, every key of the map is the id of an entry. */
  lemma {:induction false} TranslatedKeys(batch: seq<Entry>, o: nat, invoke: Translator)
    requires IdsFrom(batch, o)
    requires TranslateChunks(Chunks(batch), invoke).Success?
    ensures forall k :: k in ToMap(TranslateChunks(Chunks(batch), invoke).value) ==> o <= k < o + |batch|
    decreases |batch|
  {
    if batch == [] {
      assert TranslateChunks(Chunks(batch), invoke).value == [];
    } else {
      var c := Min(ChunkSize, |batch|);
      PairsCons(batch, invoke);
      var p := ChunkPairs(batch[..c], invoke).value;
      var q := TranslateChunks(Chunks(batch[c..]), invoke).value;
      TranslatedKeys(batch[c..], o + c, invoke);
      ChunkPairsKeys(batch[..c], o, invoke);
      ToMapAppend(p, q);
    }
  }

  /**
   * With ids counted from `o`, when no request fails entry `j` is in the map
   * exactly when its chunk's reply reaches it, and then holds that reply
   * line: extra reply lines are ignored and missing ones leave ids unmapped.
   */
  lemma {:induction false} TranslatedMap(batch: seq<Entry>, o: nat, invoke: Translator, j: nat, id: nat)
    requires IdsFrom(batch, o)
    requires TranslateChunks(Chunks(batch), invoke).Success?
    requires j < |batch| && id == o + j
    ensures id in ToMap(TranslateChunks(Chunks(batch), invoke).value) <==> Reply(batch, invoke, j).Some?
    ensures id in ToMap(TranslateChunks(Chunks(batch), invoke).value) ==>
      ToMap(TranslateChunks(Chunks(batch), invoke).value)[id] == Reply(batch, invoke, j).value
    decreases |batch|
  {
    var c := Min(ChunkSize, |batch|);
    var rest := batch[c..];
    PairsCons(batch, invoke);
    var p := ChunkPairs(batch[..c], invoke).value;
    var q := TranslateChunks(Chunks(rest), invoke).value;
    ToMapAppend(p, q);
    var mp := ToMap(p);
    var mq := ToMap(q);
    if j < c {
      ChunkPairsMap(batch[..c], o, invoke, j, id);
      TranslatedKeys(rest, o + c, invoke);
      UnionLeft(mp, mq, id);
    } else {
      var j2: nat := j - c;
      ChunkPairsKeys(batch[..c], o, invoke);
      TranslatedMap(rest, o + c, invoke, j2, id);
      UnionRight(mp, mq, id);
      assert c == ChunkSize;
      ReplyStep(batch, invoke, j, j2);
    }
  }

  lemma ReplyStep(batch: seq<Entry>, invoke: Translator, j: nat, j2: nat)
    requires ChunkSize <= j < |batch| && j2 == j - ChunkSize
    ensures Reply(batch, invoke, j) == Reply(batch[ChunkSize..], invoke, j2)
  {
  }

  lemma UnionLeft(a: map<nat, string>, b: map<nat, string>, k: nat)
    requires k !in b
    ensures (k in a + b <==> k in a) && (k in a ==> (a + b)[k] == a[k])
  {
  }

  lemma UnionRight(a: map<nat, string>, b: map<nat, string>, k: nat)
    requires k !in a
    ensures (k in a + b <==> k in b) && (k in b ==> (a + b)[k] == b[k])
  {
  }

  /** A chunk's pairs fail exactly when its request fails, with the same error. */
  lemma ChunkPairsFailure(chunk: seq<Entry>, invoke: Translator)
    ensures ChunkPairs(chunk, invoke).Failure? <==> TranslateText(Texts(chunk), invoke).Failure?
    ensures ChunkPairs(chunk, invoke).Failure? ==>
      ChunkPairs(chunk, invoke).error == TranslateText(Texts(chunk), invoke).error
  {
  }

  /**
   * The run fails exactly when some chunk's request fails, and the error is
   * that of the first failing chunk.
   */
  lemma {:induction false} FailureIffChunkFails(cs: seq<seq<Entry>>, invoke: Translator)
    ensures TranslateChunks(cs, invoke).Failure? <==>
      exists k :: 0 <= k < |cs| && ChunkPairs(cs[k], invoke).Failure?
    ensures TranslateChunks(cs, invoke).Failure? ==>
      exists k :: 0 <= k < |cs| && ChunkPairs(cs[k], invoke) == Failure(TranslateChunks(cs, invoke).error)
        && forall i :: 0 <= i < k ==> ChunkPairs(cs[i], invoke).Success?
  {
    if cs != [] {
      var r := TranslateChunks(cs, invoke);
      var tail := cs[1..];
      FailureIffChunkFails(tail, invoke);
      if ChunkPairs(cs[0], invoke).Success? {
        assert r == Prepend(ChunkPairs(cs[0], invoke).value, TranslateChunks(tail, invoke));
        if r.Failure? {
          var k :| 0 <= k < |tail| && ChunkPairs(tail[k], invoke) == Failure(TranslateChunks(tail, invoke).error)
            && forall i :: 0 <= i < k ==> ChunkPairs(tail[i], invoke).Success?;
          assert tail[k] == cs[k + 1];
          assert forall i :: 0 <= i < k + 1 ==> ChunkPairs(cs[i], invoke).Success? by {
            forall i | 0 <= i < k + 1 ensures ChunkPairs(cs[i], invoke).Success? {
              if i > 0 {
                assert cs[i] == tail[i - 1];
              }
            }
          }
        }
        forall k | 0 <= k < |cs| && ChunkPairs(cs[k], invoke).Failure?
          ensures r.Failure?
        {
          assert cs[k] == tail[k - 1];
        }
      }
    }
  }

  /** An echoing model gives every line back unchanged. */
  lemma TranslateTextEcho(texts: seq<string>, invoke: Translator)
    requires texts != [] && forall i :: 0 <= i < |texts| ==> '\n' !in texts[i]
    requires invoke(Join(texts)) == Success(Join(texts))
    ensures TranslateText(texts, invoke) == Success(texts)
  {
    var request := Join(texts);
    SplitJoin(texts);
    var lines := Split(request);
    assert lines[..Min(|lines|, |texts|)] == texts;
  }

  /**
   * With ids counted from 0, as the indexer assigns them, a run that does not
   * fail maps exactly the entries whose chunk reply reaches them, each to its
   * own reply line, and nothing else.
   */
  lemma TranslateAllMap(batch: seq<Entry>, invoke: Translator)
    requires IdsFrom(batch, 0)
    requires TranslateAll(batch, invoke).Success?
    ensures var m := TranslateAll(batch, invoke).value;
      && (forall k :: k in m ==> k < |batch|)
      && (forall j :: 0 <= j < |batch| ==> (j in m <==> Reply(batch, invoke, j).Some?))
      && (forall j :: 0 <= j < |batch| && j in m ==> m[j] == Reply(batch, invoke, j).value)
  {
    TranslatedKeys(batch, 0, invoke);
    forall j | 0 <= j < |batch|
      ensures j in TranslateAll(batch, invoke).value <==> Reply(batch, invoke, j).Some?
      ensures j in TranslateAll(batch, invoke).value ==>
        TranslateAll(batch, invoke).value[j] == Reply(batch, invoke, j).value
    {
      TranslatedMap(batch, 0, invoke, j, j);
    }
  }

  /** A model that answers every request with the request itself. */
  ghost predicate Echoes(invoke: Translator) {
    forall request :: invoke(request) == Success(request)
  }

  predicate NoNewlines(batch: seq<Entry>) {
    forall j :: 0 <= j < |batch| ==> '\n' !in batch[j].1
  }

  lemma EchoChunk(chunk: seq<Entry>, invoke: Translator)
    requires chunk != [] && Echoes(invoke) && NoNewlines(chunk)
    ensures TranslateText(Texts(chunk), invoke) == Success(Texts(chunk))
  {
    TranslateTextEcho(Texts(chunk), invoke);
  }

  /** Under an echoing model every entry's reply is its own text. */
  lemma {:induction false} EchoReply(batch: seq<Entry>, invoke: Translator, j: nat)
    requires Echoes(invoke) && NoNewlines(batch) && j < |batch|
    ensures Reply(batch, invoke, j) == Some(batch[j].1)
    decreases |batch|
  {
    if j < ChunkSize {
      var chunk := batch[..Min(ChunkSize, |batch|)];
      EchoChunk(chunk, invoke);
      assert chunk[j] == batch[j];
    } else {
      var j2: nat := j - ChunkSize;
      var rest := batch[ChunkSize..];
      EchoReply(rest, invoke, j2);
      ReplyStep(batch, invoke, j, j2);
      assert rest[j2] == batch[j];
    }
  }

  /** Under an echoing model no request fails. */
  lemma {:induction false} EchoSucceeds(batch: seq<Entry>, invoke: Translator)
    requires Echoes(invoke) && NoNewlines(batch)
    ensures TranslateChunks(Chunks(batch), invoke).Success?
    decreases |batch|
  {
    if batch == [] {
      assert Chunks(batch) == [];
    } else {
      var c := Min(ChunkSize, |batch|);
      TranslateChunksCons(batch, invoke);
      EchoChunk(batch[..c], invoke);
      EchoSucceeds(batch[c..], invoke);
    }
  }

  /** Under an echoing model every entry is mapped to its own text. */
  lemma EchoMapsToSelf(batch: seq<Entry>, invoke: Translator)
    requires IdsFrom(batch, 0) && Echoes(invoke) && NoNewlines(batch)
    ensures TranslateAll(batch, invoke).Success?
    ensures var m := TranslateAll(batch, invoke).value;
      && (forall k: nat :: k in m <==> k < |batch|)
      && (forall j :: 0 <= j < |batch| ==> m[j] == batch[j].1)
  {
    EchoSucceeds(batch, invoke);
    TranslateAllMap(batch, invoke);
    var m := TranslateAll(batch, invoke).value;
    forall j: nat | j < |batch|
      ensures j in m && m[j] == batch[j].1
    {
      EchoReply(batch, invoke, j);
    }
  }
}
