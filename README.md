# mdtrans: a verified model of the Markdown translation core

`tools/mdtrans.py` translates a Markdown file with a language model without
disturbing its layout. It does this in four steps:

- **Segmenter** (`parse_markdown`). It cuts the document into text blocks, code blocks and media lines.
- **Indexer**. Every non-blank text line and every media alt text gets an id and is queued for translation.
- **Chunking**. The queue is sent to the model in chunks of at most 3000 entries (text lines and alt texts). Each reply is split into lines, cut to the chunk's length and zipped with the chunk's ids into a dictionary.
- **Reassembler**. The document is rebuilt: code stays verbatim, a media line is rebuilt around its translated alt text, and every text line whose id was translated is replaced.

This project models those steps in Dafny and proves what they guarantee.

| file | module | contents |
|---|---|---|
| `lines.dfy` | `Wrappers`, `Lines` | `Option`/`Result`, and Python's `isspace`, `strip`, `split('\n')`, `'\n'.join` with their laws |
| `media.dfy` | `MediaLink` | the media regex as a function giving the groups Python's matcher picks |
| `segmenter.dfy` | `Segmenter` | the line loop of `parse_markdown`, as a fold and as a method |
| `indexer.dfy` | `Indexer` | the index-building loop |
| `chunking.dfy` | `Chunking` | the chunk loop, `translate_text`'s split and cut, `zip` and `dict` |
| `reassembler.dfy` | `Reassembler` | the rebuilding loop |
| `pipeline.dfy` | `Pipeline` | the four stages in sequence, with end-to-end properties |

Each loop of the source is a `method` with the same loop. Its `ensures` ties
the result to a recursive specification function: `Parse`, `Units` with
`TextIndexOf`/`MediaIndexOf`/`Batch`, `TranslateAll`, and `Outputs`. What the
source promises is proved as lemmas about those functions.

The end-to-end results are these:

- **Lossless segmentation.** The blocks hold exactly the document's lines, in order (`ParseLossless`).
- **Echo round trip.** A model that answers every request with the request itself gives the document back, character for character (`EchoRoundTrip`).
- **Where each line ends up.** When no request fails, every text line is left unchanged or replaced by its reply line, and every media line is left unchanged or rebuilt with its reply line as the alt text. The reply line is the one the translation of the entry's chunk gives at its position (`TextLineOutcome`, `MediaLineOutcome`).

Design choices:

- **Ids.** The source draws ids from `uuid.uuid4()`. Here the id of a queued entry is its position in `to_translate`, which gives the same distinctness. A uuid string is never empty, so the source's `if uid and uid in trans_dict` reduces to presence in the dictionary.
- **The model call.** The call to the language model is a parameter `invoke: string -> Result<string, string>`. It receives the chunk's texts joined by newlines and returns the reply text, or an error. The error stands for an exception or a non-200 status (`tools/mdtrans.py:216-228`).
- **The media regex.** `media_pattern` (`tools/mdtrans.py:24-27`) is not run as a regex. `MatchMedia` computes the groups Python's backtracking matcher picks: maximal leading whitespace, then the opening bracket, then maximal whitespace, then the shortest (lazy) alt text after which the rest of the line can still close. `MatchMediaSound` and `MatchMediaLazy` relate `MatchMedia` to every possible seven-part split of the line.
- **`\s`** is Python's `str.isspace`, written out character by character.

Lines 44-45 of `tools/mdtrans.py` are meant to close a code block on a line
that strips to three backticks. They never run: such a line also matches the
fence-opening test at line 32, which runs first, and the model follows the
code as written. So a closing fence starts a new code block, and the `in_code_block` flag, once set, is
never cleared. `Segmenter.Step` models the code as written. `CloseIsFence`
shows that the closing branch is unreachable, and `StepCodeOk` shows that
inside a code block the flag stays set. As a result, every block after the
first code block is a code block (`WellFormed`'s `CodeSticky`), and text or
media after a fenced block is never translated.

## Model

| member | source | states |
|---|---|---|
| Lines.Split | tools/mdtrans.py:30 | `split('\n')` yields at least one piece and no piece holds a newline |
| Lines.JoinSplit | tools/mdtrans.py:30 | joining the pieces of a split with newlines gives back the original text |
| Lines.SplitJoin | tools/mdtrans.py:219 | splitting a newline-join of newline-free lines gives back the lines |
| Lines.JoinAppend | tools/mdtrans.py:178 | the join of a concatenation is the two joins with one newline between them |
| Lines.BlankIffStripEmpty | tools/mdtrans.py:117 | `line.strip()` is empty exactly when the line is all whitespace |
| Lines.StripAddsNoChar | tools/mdtrans.py:53 | stripping cannot introduce a character that was not in the string |
| MediaLink.MatchMediaSound | tools/mdtrans.py:24-27 | a match's seven groups concatenate to the line and have the shapes the pattern demands |
| MediaLink.MatchMediaLazy | tools/mdtrans.py:24-27 | every line with some seven-part split matches; the match has the same leading whitespace and bracket as any split, inner whitespace at least as long, and for the same whitespace an alt text no longer |
| MediaLink.MatchWithin | tools/mdtrans.py:25 | if the alt text may end at a position, the match exists and its alt text ends no later |
| MediaLink.MatchedAltIsStripped | tools/mdtrans.py:53 | the captured alt text has no whitespace at either end, so stripping it changes nothing |
| MediaLink.FindAltEnd | tools/mdtrans.py:25 | the lazy group 4 ends at the first position after which the line can close |
| Segmenter.Step | tools/mdtrans.py:31-61 | one iteration of the line loop keeps the open code block last while inside a fence |
| Segmenter.ParseMarkdown | tools/mdtrans.py:20-65 | the loop returns `Parse(content)`; its blocks hold exactly the split lines, in order, and are well formed |
| Segmenter.CloseIsFence | tools/mdtrans.py:32-45 | a line that strips to three backticks already opens a fence, so the closing branch never runs |
| Segmenter.StepCodeOk | tools/mdtrans.py:42-46 | inside a code block every non-fence line is appended to the open code block, the pending text stays empty and the flag stays set; the loop invariant is kept |
| Segmenter.StepFenceOk | tools/mdtrans.py:33-40 | a fence flushes the pending text, appends a code block holding the line and numbered by it, and sets the flag; the loop invariant is kept |
| Segmenter.StepMediaOk | tools/mdtrans.py:48-59 | a media line flushes the pending text and becomes a media block with its groups, stripped alt text and line number; the loop invariant is kept |
| Segmenter.StepTextOk | tools/mdtrans.py:61 | any other line is appended to the pending text and nothing else changes; the loop invariant is kept |
| Segmenter.StepContent | tools/mdtrans.py:31-61 | each step puts a line only where its kind allows: text lines are neither fences nor media, media blocks keep their match and stripped alt text |
| Segmenter.ParseLossless | tools/mdtrans.py:20-65 | the blocks flatten to the document's lines, which join back to the document |
| Segmenter.ParseWellFormed | tools/mdtrans.py:20-65 | no two text blocks are adjacent, a code block is followed only by code blocks, line numbers are positions, and every block is well formed |
| Indexer.BuildIndex | tools/mdtrans.py:109-124 | the loop returns the two indexes and the queue of the specification functions |
| Indexer.UnitsOk | tools/mdtrans.py:114-124 | every queued entry stands for a non-blank text line or a media alt text, in block then line order |
| Indexer.TextIndexExact | tools/mdtrans.py:115-120 | a slot is in `text_index` exactly when it holds a non-blank text line, and the queued text under its id is that line |
| Indexer.MediaIndexExact | tools/mdtrans.py:121-124 | a block is in `media_index` exactly when it is a media block, and the queued text under its id is its alt text |
| Indexer.IdsDistinct | tools/mdtrans.py:118-123 | each index is one-to-one and the two indexes share no id |
| Indexer.EveryEntryIndexed | tools/mdtrans.py:112-124 | every queued entry's id is the one its slot holds in the index |
| Chunking.Ids | tools/mdtrans.py:149 | the id list has one id per chunk entry, in order |
| Chunking.Texts | tools/mdtrans.py:131 | the text list has one text per chunk entry, in order |
| Chunking.Zip | tools/mdtrans.py:149 | `zip` pairs up positions until the shorter list ends |
| Chunking.TranslateText | tools/mdtrans.py:228-229 | a successful reply yields at most as many lines as were sent |
| Chunking.TranslateBatch | tools/mdtrans.py:126-151 | the chunk loop returns `TranslateAll`: the dictionary of all chunks' pairs, or the error of the first failing request |
| Chunking.ChunksCover | tools/mdtrans.py:129-130 | the chunks cover the queue in order, each holds 1 to 3000 entries, and all but the last exactly 3000 |
| Chunking.ChunkAt | tools/mdtrans.py:129-130 | chunk `k` is the slice starting at `k * 3000` |
| Chunking.ReplyAt | tools/mdtrans.py:129-149 | entry `j` is answered by the reply line at offset `j - s` of the chunk starting at the multiple `s` of 3000 at or below `j` |
| Chunking.ToMapAppend | tools/mdtrans.py:151 | `dict(a + b)` is `dict(a)` overwritten by `dict(b)` |
| Chunking.ChunkPairsMap | tools/mdtrans.py:147-149 | an entry of one chunk is mapped exactly when the reply has its line, and then to that line |
| Chunking.TranslatedMap | tools/mdtrans.py:126-151 | with ids counted from any start, an entry is in the dictionary exactly when its chunk's reply reaches it, and then holds that reply line |
| Chunking.TranslateAllMap | tools/mdtrans.py:126-151 | with the indexer's ids, the dictionary has no key outside the queue, and entry `j` is mapped exactly when its reply line exists, to that line |
| Chunking.FailureIffChunkFails | tools/mdtrans.py:136-145 | the run fails exactly when some chunk's request fails, with the error of the first failing chunk |
| Chunking.TranslateTextEcho | tools/mdtrans.py:219-229 | a model that echoes its request gives back every newline-free line unchanged |
| Chunking.EchoReply | tools/mdtrans.py:129-149 | under an echoing model every entry's reply line is its own text |
| Chunking.EchoMapsToSelf | tools/mdtrans.py:126-151 | under an echoing model the dictionary maps every id of the queue to its own text, and nothing else |
| Reassembler.Reassemble | tools/mdtrans.py:154-187 | the rebuilding loop returns the newline-join of `Outputs` |
| Reassembler.RebuildKeepsFrame | tools/mdtrans.py:165-167 | rebuilding a media line changes only the alt text: what precedes and follows it is the original line's |
| Reassembler.MediaBlockRebuilds | tools/mdtrans.py:53-58 | a media line rebuilt with its own stripped alt text is the original line |
| Reassembler.TextOutLines | tools/mdtrans.py:173-177 | `new_lines` has one entry per line: the translation where the line's id has one, else the line |
| Reassembler.OutputsFaithful | tools/mdtrans.py:154-187 | when every translation equals its source text, the rebuilt document is the newline-join of the blocks' lines |
| Pipeline.TranslateMarkdown | tools/mdtrans.py:104-187 | parsing, indexing, chunked translation and rebuilding in sequence give `TranslateDocument`, a failed request ending the run |
| Pipeline.ParseSingleLines | tools/mdtrans.py:30 | no line of any block holds a newline |
| Pipeline.QueuedTextsSingleLine | tools/mdtrans.py:114-124 | no queued text holds a newline, so joining a chunk and splitting the reply keeps positions |
| Pipeline.EmptyMapRoundTrip | tools/mdtrans.py:154-187 | with an empty translation map, whatever the indexes, the rebuilt document is the original, character for character |
| Pipeline.EchoRoundTrip | tools/mdtrans.py:104-187 | with a model that echoes every request, the translated document is the original, character for character |
| Pipeline.TextLineOutcome | tools/mdtrans.py:172-178 | a blank text line stays as it is; any other line is queued under an id and becomes its reply line, or stays when the reply is too short |
| Pipeline.MediaLineOutcome | tools/mdtrans.py:160-170 | a media line is queued under an id with its alt text and is rebuilt around its reply line, or kept when the reply is too short |

## Left out

- The host plugin, the tool parameters, `LLMModelConfig`, the prompts, `query` and `timeout`. Only the model call's outcome, success with a reply or failure, is modelled, as the `invoke` parameter.
- Reading the uploaded file, UTF-8 decoding, and the early return for an empty file. The model starts from the decoded document.
- Progress messages, `print` calls, the blob message with its metadata, and the outer `except` that turns any other exception into a message. These are I/O and produce no value the model could state.
- `uuid.uuid4()`. It is replaced by the entry's position in `to_translate`.
- Regex group 8, the URL inside the parentheses. The source never reads it.
- In-place updates through `blocks[-1].content` are modelled as replacing the last block with a copy that has one more line. Aliasing is not modelled.
- `Segmenter.Step` receives the media match as a parameter rather than computing it. The loop evaluates `fullmatch` only for a line that is neither a fence nor inside a code block, and the match is a pure function of the line, so nothing is lost.
- The model call is a function of the request text alone: two requests with the same joined text get the same reply, and a model that answers differently from call to call is not expressed. The properties proved hold for every such function.
- Whether the language model actually translates, or keeps formatting symbols as its prompt asks, is a property of the model and not of this code. The reply is any string.
