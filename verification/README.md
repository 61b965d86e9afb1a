# Editorial.ai — the output section and the submission controller, in Dafny

Editorial.ai rewrites a text or a linked article in the house style of a
chosen publication. This project models the two parts of the front end
that hold logic of their own.

**The output section** (`components/OutputSection.tsx`)
- Article rendering: `renderFormattedBody` splits the body into paragraphs
  at blank lines and marks `**bold**` spans. The first paragraph gets a
  drop cap.
- Exported texts: `cleanMarkdown` removes emphasis markers. From the
  cleaned text the component builds three texts: the narration script, the
  clipboard text and the `.txt` download.
- Speech audio: the payload from the speech service is decoded, and either
  played or saved as a `.wav` file.
  - `base64ToUint8Array` turns the base64 payload into bytes through
    `atob`.
  - `decodePCM` reads the bytes as signed 16-bit little-endian samples.
  - `writeString` and `createWavBlob` write a 44-byte RIFF WAVE header in
    front of the bytes.
- The read-aloud controller: the component state `isReading`,
  `isAudioProcessing`, the source-node ref and the one-entry audio cache.
  It also covers the handlers that change that state: stop, fetch, read
  aloud, the end of playback, audio download, text download, copy and the
  content-change effect.

**The submission controller** (`App.tsx`)
- The page state: selected style, input mode, input text, output,
  loading flag and error.
- `handleSubmit`, with the rewrite service as an oracle.

## Modules and files

| file | module | what it holds |
|---|---|---|
| `seqs.dfy` | `Seqs` | generic facts about slicing concatenated sequences |
| `bytes.dfy` | `Bytes` | bytes; little-endian `setUint16`/`setUint32` fields |
| `jstext.dfy` | `JsText` | JavaScript `trim`, `indexOf`, `split`, `join`; line terminators |
| `types.dfy` | `Types` | the records of `types.ts`; the catalogue of `constants.ts` |
| `base64.dfy` | `Base64` | `atob` (forgiving-base64 decode); canonical `btoa` as its partner |
| `pcm.dfy` | `Pcm` | `base64ToUint8Array` and `decodePCM` as loop methods; an encoder as partner |
| `wav.dfy` | `Wav` | `writeString`/`createWavBlob` on a byte array; a WAVE reader as partner |
| `markdown.dfy` | `Markdown` | `cleanMarkdown` as two left-to-right lazy regex scans |
| `export.dfy` | `Export` | narration script, clipboard text, `.txt` export, download names |
| `render.dfy` | `Render` | `renderFormattedBody`: paragraphs, bold split, drop cap |
| `playback.dfy` | `Playback` | the controller: state `Reader`, class `OutputSection`, runs of events, the nodes still sounding |
| `submission.dfy` | `Submission` | the page: state `Page`, class `App` |

Both controllers are written twice, as the same transitions.
- A value type with one function per handler, where the all-inputs lemmas
  live. These are `Playback.Reader` with `Playback.AfterReadAloud` and the
  other `After*` functions, and `Submission.Page`.
- A class whose fields are the hooks' state and refs, with one method per
  handler (`Playback.OutputSection`, `Submission.App`). Each method is
  proved to make exactly the transition its function describes
  (`ensures Snapshot() == After…(old(Snapshot()), …)`).

The services and the clock are parameters: each handler receives the
reply the service would give and the value `Date.now()` would return.
- The speech service's reply is `Some(base64)`, or `None` where
  `generateSpeech` throws.
- The rewrite service's reply is `Some(content)`, or `None` where
  `transformContent` throws.

## Model

| member | source | states |
|---|---|---|
| Bytes.Codes | components/OutputSection.tsx:16-19 | byte i is the code of character i modulo 256, one byte per character; shared by `base64ToUint8Array` (line 18) and `writeString` (line 39) |
| Bytes.U16 | components/OutputSection.tsx:56 | `setUint16(_, v, true)` stores two bytes that read back, little-endian, as `v` modulo 2^16 |
| Bytes.U32 | components/OutputSection.tsx:50 | `setUint32(_, v, true)` stores four bytes that read back, little-endian, as `v` modulo 2^32 |
| Bytes.FromLEOfLE | components/OutputSection.tsx:55-61 | a value below 256^n encoded in n little-endian bytes reads back as itself |
| Bytes.LEOfFromLE | components/OutputSection.tsx:55-61 | encoding the value of any little-endian bytes gives those bytes back |
| Wav.WriteString | components/OutputSection.tsx:37-41 | character i lands at `offset + i`, and every byte outside `[offset, offset + length)` keeps its old value |
| Wav.StoreLE | components/OutputSection.tsx:50-65 | a little-endian store replaces exactly `width` bytes at `offset` with the low bytes of `v`; nothing else changes |
| Wav.SetUint16 | components/OutputSection.tsx:56-61 | `setUint16(offset, v, true)`: bytes `offset`, `offset+1` become `U16(v)`, the rest are unchanged |
| Wav.SetUint32 | components/OutputSection.tsx:50 | `setUint32(offset, v, true)`: four bytes become `U32(v)`, the rest are unchanged |
| Wav.RiffDescriptor | components/OutputSection.tsx:49-51 | the RIFF descriptor is 12 bytes |
| Wav.FmtFormatFields | components/OutputSection.tsx:54-57 | tag, size, format and channel count take 12 bytes |
| Wav.FmtRateFields | components/OutputSection.tsx:58-61 | rate, byte rate, block align and sample width take 12 bytes |
| Wav.FmtSubchunk | components/OutputSection.tsx:54-61 | the `fmt ` sub-chunk is 24 bytes |
| Wav.DataSubchunkHeader | components/OutputSection.tsx:64-65 | the `data` header is 8 bytes |
| Wav.WavHeader | components/OutputSection.tsx:44-65 | the header is 44 bytes: RIFF descriptor (12), `fmt ` sub-chunk (24), `data` header (8) |
| Wav.WavFile | components/OutputSection.tsx:67 | the blob is the 44-byte header followed by the PCM bytes unchanged: `44 + L` bytes |
| Wav.WriteRiffDescriptor | components/OutputSection.tsx:48-51 | bytes 0-11 become "RIFF", the LE uint32 `36 + L`, "WAVE" |
| Wav.WriteFmtFormatFields | components/OutputSection.tsx:53-57 | bytes 12-23 become "fmt ", LE 16, LE 1 (PCM), LE 1 (one channel); bytes 0-11 are kept |
| Wav.WriteFmtRateFields | components/OutputSection.tsx:58-61 | bytes 24-35 become the rate, `rate * 2`, block align 2 and 16 bits, all LE; bytes 0-23 are kept |
| Wav.WriteDataSubchunkHeader | components/OutputSection.tsx:63-65 | bytes 36-43 become "data" and the LE uint32 `L`; bytes 0-35 are kept |
| Wav.CreateWavBlob | components/OutputSection.tsx:43-68 | filling a fresh 44-byte view field by field, then appending the PCM, yields exactly `WavFile(pcm, rate)` |
| Wav.ParseFmtRateFields | components/OutputSection.tsx:58-61 | the reader accepts the rate fields only when byte rate, block align and sample width are those of mono 16-bit PCM |
| Wav.ParseFmtSubchunk | components/OutputSection.tsx:54-61 | an accepted `fmt ` sub-chunk reports a rate that fits 32 bits |
| Wav.ParseWav | components/OutputSection.tsx:43-68 | a file the reader accepts is at least 44 bytes, its samples are the bytes after the header, and its rate fits 32 bits |
| Wav.ParseRiffDescriptorOf | components/OutputSection.tsx:49-51 | the descriptor written for L bytes reads back with size field `36 + L` (when that fits 32 bits) |
| Wav.ParseFmtRateFieldsOf | components/OutputSection.tsx:58-61 | the rate fields written for a 32-bit rate read back as that rate |
| Wav.ParseFmtSubchunkOf | components/OutputSection.tsx:54-61 | the whole `fmt ` sub-chunk written for a 32-bit rate reads back as that rate |
| Wav.ParseDataSubchunkHeaderOf | components/OutputSection.tsx:64-65 | the `data` header written for L bytes reads back as L |
| Wav.RiffDescriptorOfParse | components/OutputSection.tsx:49-51 | a descriptor that reads back as `36 + n` is exactly the one written for n |
| Wav.FmtRateFieldsOfParse | components/OutputSection.tsx:58-61 | rate fields that read back as a rate are exactly the ones written for it |
| Wav.FmtSubchunkOfParse | components/OutputSection.tsx:54-61 | a `fmt ` sub-chunk that reads back is exactly the one written for its rate |
| Wav.DataSubchunkHeaderOfParse | components/OutputSection.tsx:64-65 | a `data` header that reads back as n is exactly the one written for n |
| Wav.ParseWavFile | components/OutputSection.tsx:43-68 | round trip: the blob for `pcm` at `rate` reads back as `(rate, pcm)` whenever `36 + L < 2^32` and the rate fits 32 bits |
| Wav.ParseWavOnlyWavFiles | components/OutputSection.tsx:43-68 | converse: every file the reader accepts is exactly the blob built from the rate and samples it reports |
| Wav.FieldIs32 | components/OutputSection.tsx:50 | a 4-byte field whose value is `v mod 2^32` is the field `setUint32` writes for `v` |
| Wav.FieldIs16 | components/OutputSection.tsx:56 | a 2-byte field whose value is `v mod 2^16` is the field `setUint16` writes for `v` |
| Base64.SextetOf | components/OutputSection.tsx:14 | an alphabet character's value is below 64; other characters have none |
| Base64.SextetChar | components/OutputSection.tsx:14 | the alphabet character of a 6-bit value decodes back to it and is neither whitespace nor `=` |
| Base64.RemoveWhitespace | components/OutputSection.tsx:14 | `atob`'s first step leaves no ASCII whitespace and keeps whitespace-free input unchanged |
| Base64.Atob | components/OutputSection.tsx:14 | every character of a decoded binary string has a code below 256 |
| Base64.Btoa | components/OutputSection.tsx:14 | the canonical encoding is padded to a multiple of four characters |
| Base64.AtobBtoa | components/OutputSection.tsx:14 | round trip: `atob` of the canonical encoding of any bytes is their binary string |
| Base64.DecodeEncodeSextets | components/OutputSection.tsx:14 | regrouping bytes into sextets and back loses nothing |
| Base64.SextetsOfChars | components/OutputSection.tsx:14 | alphabet characters decode to the sextets they encode |
| Base64.StripPaddingOfBtoa | components/OutputSection.tsx:14 | removing the padding of a canonical encoding leaves exactly its alphabet characters |
| Base64.EncodedLength | components/OutputSection.tsx:14 | an encoding never has a length of 1 modulo 4, which `atob` would reject |
| Base64.BtoaHasNoWhitespace | components/OutputSection.tsx:14 | the canonical encoding contains no whitespace |
| Pcm.BytesOfBase64 | components/OutputSection.tsx:13-21 | the conversion fails exactly where `atob` throws; otherwise it has one byte per decoded character |
| Pcm.Base64ToUint8Array | components/OutputSection.tsx:13-21 | the index loop fills the array with exactly `BytesOfBase64(base64)` |
| Pcm.BytesOfBase64Btoa | components/OutputSection.tsx:13-21 | round trip: the bytes of the canonical encoding of `b` are `b` |
| Pcm.CodesOfBinaryString | components/OutputSection.tsx:18 | reading the codes of a binary string back gives its bytes |
| Pcm.Int16 | components/OutputSection.tsx:28 | an `Int16Array` element lies in [-32768, 32767] and is congruent, mod 2^16, to the LE value of its two bytes |
| Pcm.Int16Bytes | components/OutputSection.tsx:28 | storing the element back gives the two bytes it was read from (two's complement is a bijection) |
| Pcm.Int16View | components/OutputSection.tsx:28 | the view of an even-length buffer has `len / 2` elements; element i comes from bytes `2i` and `2i+1` |
| Pcm.PcmSamples | components/OutputSection.tsx:23-35 | decoding fails exactly for an odd byte count (`Int16Array` throws) or none (`createBuffer` throws); otherwise it yields `len / 2` samples |
| Pcm.PcmSamplesInRange | components/OutputSection.tsx:32 | every sample `v / 32768` lies in [-1, 32767/32768] |
| Pcm.EncodePcm | components/OutputSection.tsx:32 | the partner encoder writes two bytes per sample |
| Pcm.EncodePcmSamples | components/OutputSection.tsx:28-33 | scaling by 1/32768 loses nothing: re-encoding the decoded samples gives the original bytes |
| Pcm.DecodePcm | components/OutputSection.tsx:23-35 | the loop fills the channel data with exactly `PcmSamples(data)`, with the same failures |
| JsText.TrimStart | components/OutputSection.tsx:202 | the result is a suffix that does not start with whitespace |
| JsText.TrimEnd | components/OutputSection.tsx:202 | the result is a prefix that does not end with whitespace |
| JsText.TrimStartDropsBlank | components/OutputSection.tsx:202 | everything `trimStart` drops is whitespace |
| JsText.TrimEndDropsBlank | components/OutputSection.tsx:202 | everything `trimEnd` drops is whitespace |
| JsText.TrimEmptyIffBlank | App.tsx:19 | `s.trim()` is empty exactly when every character of `s` is whitespace (both directions) |
| JsText.Trim | App.tsx:19 | `trim()` is never longer than its input, and a non-empty result neither starts nor ends with whitespace |
| JsText.TrimEndAppend | components/OutputSection.tsx:202 | `trimEnd(x + y)` is `x + trimEnd(y)` when y is not blank |
| JsText.TrimEndBlankSuffix | components/OutputSection.tsx:202 | a blank suffix disappears under `trimEnd` |
| JsText.TrimStartAppend | components/OutputSection.tsx:202 | `trimStart(x + y)` is `trimStart(x) + y` when x is not blank |
| JsText.IndexOf | components/OutputSection.tsx:229 | an index found leaves room for the whole separator |
| JsText.IndexOfFirst | components/OutputSection.tsx:229 | `indexOf` finds an occurrence and none before it; when it finds none, there is none |
| JsText.SplitJoin | components/OutputSection.tsx:229 | joining the pieces of `split(sep)` with `sep` gives the original string back |
| JsText.Split | components/OutputSection.tsx:229 | `split(sep)` always gives at least one piece; `SplitJoin` and `SplitPiecesFree` give its content |
| JsText.SplitPiecesFree | components/OutputSection.tsx:229 | no piece of a split contains the separator |
| Markdown.CloseAt | components/OutputSection.tsx:72 | a closing marker found lies wholly inside the text |
| Markdown.CloseAtFound | components/OutputSection.tsx:72 | the lazy `(.*?)` stops at the first closing marker, with no line terminator before it |
| Markdown.CloseAtMissing | components/OutputSection.tsx:72 | when no closing marker is found, every later marker has a line terminator before it |
| Markdown.SpanAt | components/OutputSection.tsx:72 | a match of `d(.*?)d` starts and ends with the marker and has line-terminator-free text between them |
| Markdown.UnwrapDeletesStars | components/OutputSection.tsx:72 | one replacement returns its input with some asterisks deleted and every other character kept, in order |
| Markdown.Unwrap | components/OutputSection.tsx:72 | one global replacement of a marker pair by the text between the markers is never longer than its input |
| Markdown.CleanMarkdownDeletesStars | components/OutputSection.tsx:71-73 | `cleanMarkdown` only deletes asterisks |
| Markdown.CleanMarkdown | components/OutputSection.tsx:71-73 | `cleanMarkdown`, the `**` pass then the `*` pass, is never longer than its input |
| Markdown.StarsDeletedTrans | components/OutputSection.tsx:72 | deleting asterisks twice is deleting asterisks |
| Markdown.UnwrapNoStars | components/OutputSection.tsx:72 | a replacement leaves text without asterisks unchanged |
| Markdown.CleanMarkdownNoStars | components/OutputSection.tsx:71-73 | text without `*` is unchanged |
| Markdown.CloseAtAfterPlain | components/OutputSection.tsx:72 | after asterisk-free text on one line, the lazy search stops at the next marker |
| Markdown.UnwrapBoldExample | components/OutputSection.tsx:72 | the first replacement turns `**bold**` into `bold` |
| Markdown.CleanMarkdownBoldExample | components/OutputSection.tsx:71-73 | `cleanMarkdown("**bold**") == "bold"` |
| Markdown.CleanMarkdownEmExample | components/OutputSection.tsx:71-73 | `cleanMarkdown("*em*") == "em"` |
| Markdown.CloseAtStopsAtLine | components/OutputSection.tsx:72 | the lazy search gives the same answer whatever follows a line terminator |
| Markdown.SpanAtStopsAtLine | components/OutputSection.tsx:72 | whether a span starts at a position does not depend on text after a line terminator |
| Markdown.UnwrapLineLocal | components/OutputSection.tsx:72 | a replacement works line by line: no span is matched across a line terminator |
| Markdown.CleanMarkdownLineLocal | components/OutputSection.tsx:71-73 | `cleanMarkdown(a + t + b) == cleanMarkdown(a) + t + cleanMarkdown(b)` for any line terminator t |
| Markdown.UnwrapStarUnpaired | components/OutputSection.tsx:72 | after the single-asterisk replacement, no asterisk has a partner later on its line |
| Markdown.UnwrapKeepsLoneStar | components/OutputSection.tsx:72 | a `*` with no partner on its line still has none after the replacement |
| Markdown.UnpairedNoSpan | components/OutputSection.tsx:72 | no span of either pattern starts where no asterisk has a partner on its line |
| Markdown.UnpairedFixed | components/OutputSection.tsx:72 | both replacements leave such text unchanged |
| Markdown.CleanMarkdownIdempotent | components/OutputSection.tsx:71-73 | `cleanMarkdown(cleanMarkdown(t)) == cleanMarkdown(t)` |
| Markdown.CleanMarkdownStarsOnSeparateLines | components/OutputSection.tsx:71-73 | in the output, any two asterisks are separated by a line terminator |
| Export.NarrationScript | components/OutputSection.tsx:107-108 | the script's length is the headline's, 5 for the pause, and the cleaned body's |
| Export.NarrationScriptParts | components/OutputSection.tsx:107-108 | the script is the headline, then `". \n\n "`, then the body with only asterisks removed |
| Export.ClipboardText | components/OutputSection.tsx:221-222 | the clipboard text's length is the headline's, 2 and the cleaned body's |
| Export.ClipboardTextParts | components/OutputSection.tsx:221-222 | the clipboard text is the headline, a blank line, then the body with only asterisks removed |
| Export.Bullets | components/OutputSection.tsx:197 | one line per takeaway, in order, line i being `"- " + k[i]` |
| Export.TextExportLayout | components/OutputSection.tsx:192-202 | the `.txt` contents are "Headline: …", "Key Takeaways:", the bullet lines, the rule, then the cleaned body without trailing whitespace; they end at the rule when the cleaned body is blank |
| Export.TextExport | components/OutputSection.tsx:192-202 | the `.txt` contents, after `trim()`, neither start nor end with whitespace |
| Export.TrimFramed | components/OutputSection.tsx:193-202 | `trim` removes the template's leading line break and trailing blank tail, and the body's own trailing whitespace |
| Export.Decimal | components/OutputSection.tsx:171 | the printed timestamp is a non-empty string of decimal digits |
| Export.DigitsValueDecimal | components/OutputSection.tsx:171 | the printed timestamp reads back as the same number |
| Export.DownloadFileName | components/OutputSection.tsx:171 | the name's length is the sum of its parts |
| Export.DownloadFileNameParts | components/OutputSection.tsx:171 | the name starts with `editorial-ai-` and the style id, and ends with `.` and the extension; the middle reads back as the timestamp |
| Render.FirstSpan | components/OutputSection.tsx:233 | a match found is at least 4 characters long and lies inside the paragraph |
| Render.FirstSpanMatches | components/OutputSection.tsx:233 | at the position found, `\*\*.*?\*\*` matches with the length found |
| Render.FirstSpanIsFirst | components/OutputSection.tsx:233 | no match starts before the position found |
| Render.BoldSplit | components/OutputSection.tsx:233 | the split has an odd number of parts (text, match, text, …, text) |
| Render.BoldSplitMatches | components/OutputSection.tsx:233 | every part at an odd index is a match: `**`, line-terminator-free text, `**` |
| Render.ConcatBoldSplit | components/OutputSection.tsx:233 | joining the parts gives back the paragraph |
| Render.SliceInner | components/OutputSection.tsx:236 | `slice(2, -2)` is the text between the markers, or empty for a part shorter than 4 |
| Render.ClassifyAsWritten | components/OutputSection.tsx:234-238 | as written: a part is bold exactly when it starts and ends with `**` |
| Render.ClassifyAsWrittenDropsStars | components/OutputSection.tsx:233-238 | the paragraph `***` is one plain part, and as written it becomes an empty bold child: its text is lost |
| Render.Classify | components/OutputSection.tsx:234-238 | corrected: a part is bold exactly when it has at least 4 characters and starts and ends with `**`; the child always shows the part's text |
| Render.ClassifyAgrees | components/OutputSection.tsx:235 | the two classifications differ exactly on the parts `**` and `***` |
| Render.Children | components/OutputSection.tsx:234-239 | corrected (see Findings): one child per part of the bold split, classified by `Classify` |
| Render.ChildrenBoldMatches | components/OutputSection.tsx:233-236 | each match of the pattern becomes a bold child holding the text between its markers |
| Render.ChildrenShowParagraph | components/OutputSection.tsx:233-239 | corrected (see Findings): the children, with bold shown as its markers, spell out the whole paragraph |
| Render.ChildrenAsWritten | components/OutputSection.tsx:233-239 | as written: one child per part of the bold split, classified by `ClassifyAsWritten` |
| Render.ClassifiedAgree | components/OutputSection.tsx:234-238 | classifying any parts as written and as intended gives the same children exactly when no part is a bare `**` or `***` |
| Render.ChildrenAsWrittenAgrees | components/OutputSection.tsx:233-239 | the children as written equal the corrected children exactly when no part of the paragraph's split is `**` or `***` |
| Render.ChildrenAsWrittenShowParagraph | components/OutputSection.tsx:233-239 | as written, a paragraph with no bare `**` or `***` part shows all of its text |
| Render.RenderPieces | components/OutputSection.tsx:229-251 | at most one element per piece; every element holds a non-blank piece and has the drop cap exactly when its key is 0 |
| Render.RenderFormattedBody | components/OutputSection.tsx:227-252 | `renderFormattedBody` gives at most one element per `\n\n` piece; every element holds a non-blank piece as raw text (its bold parts are rendered by `Children`) and has the drop cap exactly when its key is 0 |
| Render.RenderPiecesSound | components/OutputSection.tsx:229-251 | each element comes from a non-blank piece, holds its text, and has the drop cap exactly at split index 0 |
| Render.RenderPiecesOrdered | components/OutputSection.tsx:229 | the elements keep the order of the pieces |
| Render.RenderPiecesComplete | components/OutputSection.tsx:230 | every non-blank piece is rendered |
| Render.RenderFormattedBodyParagraphs | components/OutputSection.tsx:227-252 | corrected (see Findings): the body renders one paragraph per non-blank `"\n\n"` piece, in order, each showing all its text, with the drop cap exactly on split index 0 |
| Render.DropCapIffFirstPieceVisible | components/OutputSection.tsx:242 | some paragraph has the drop cap exactly when the first piece is not blank |
| Playback.Mounted | components/OutputSection.tsx:76-81 | on mount the component is valid and not reading, with no node, nothing sounding, no cache and empty logs |
| Playback.AfterStop | components/OutputSection.tsx:91-101 | `stopAudio` stops the node if there is one (it falls silent and is logged), then leaves no node and `isReading` false; nothing else changes |
| Playback.StopIdempotent | components/OutputSection.tsx:91-101 | stopping twice is stopping once |
| Playback.AfterContentChange | components/OutputSection.tsx:84-89 | a content change stops the audio and empties the cache; the logs are kept |
| Playback.AfterFetch | components/OutputSection.tsx:103-112 | `fetchAudioData`: a truthy cache is returned without asking; no content gives null; otherwise the narration script is sent and the reply is cached, or the call throws with the cache unchanged |
| Playback.FetchTwiceAsksOnce | components/OutputSection.tsx:104 | after one successful synthesis, the next fetch asks nothing, whatever the service would say |
| Playback.Play | components/OutputSection.tsx:136-146 | decoding and playing keeps the cache, the requests and the stop log, and keeps "a node whenever reading"; a started node is the next one, sounds, and overwrites the ref without stopping the node it held |
| Playback.AfterReadAloud | components/OutputSection.tsx:114-154 | while reading it only stops; without content it changes nothing; otherwise `isAudioProcessing` ends false |
| Playback.AfterEnded | components/OutputSection.tsx:142 | as written: a node's `ended` silences it and clears `isReading`, whichever node is in the ref; nothing else changes |
| Playback.ReadAloudPlays | components/OutputSection.tsx:114-154 | a successful read: one request, the reply cached, the next node in the ref and sounding with the decoded samples, no alert |
| Playback.ReadAloudPlaysSynthesizedPcm | components/OutputSection.tsx:114-154 | end to end: when the service returns base64 PCM, the node plays samples that re-encode to exactly that PCM |
| Playback.ReadAloudFailure | components/OutputSection.tsx:148-153 | a failed synthesis: one alert, no playback, the cache as it was, and the state valid |
| Playback.SaveWav | components/OutputSection.tsx:164-173 | saving touches neither playback nor the cache |
| Playback.AfterDownloadAudio | components/OutputSection.tsx:156-187 | without content nothing changes; playback is never touched; `isAudioProcessing` ends false |
| Playback.SaveWavOfBtoa | components/OutputSection.tsx:164-171 | saving the canonical base64 of a payload downloads the WAV file of exactly that payload |
| Playback.DownloadAudioWritesWav | components/OutputSection.tsx:156-187 | end to end: one new download, named after the style and the time, that reads back as the synthesized PCM at 24 kHz |
| Playback.AfterDownloadText | components/OutputSection.tsx:189-217 | the `.txt` export of the content is downloaded as `editorial-ai-<id>-<now>.txt`; nothing else changes |
| Playback.AfterCopy | components/OutputSection.tsx:219-224 | the clipboard text of the content is written; nothing else changes |
| Playback.StepValid | components/OutputSection.tsx:76-224 | every handler keeps the invariant: not processing, and a node whenever reading |
| Playback.RunValid | components/OutputSection.tsx:76-224 | the invariant holds after any sequence of handlers and events |
| Playback.StepKeepsCache | components/OutputSection.tsx:104 | no handler except a content change touches a truthy cache or asks the service |
| Playback.CachedRunAsksNothing | components/OutputSection.tsx:104 | once a non-empty audio is cached, no run without a content change asks the service again |
| Playback.ReadAloudTwiceAsksOnce | components/OutputSection.tsx:103-154 | two reads aloud of the same content, with anything but a content change between them, cost one synthesis |
| Playback.ContentChangeAsksAgain | components/OutputSection.tsx:85 | after a content change, the next read aloud asks for the new content's script |
| Playback.PlayingIsCurrent | components/OutputSection.tsx:76-154 | under the playback-session invariant, only the node in the ref can be sounding |
| Playback.OnePlayingAtMostOne | components/OutputSection.tsx:76-154 | under the invariant at most one node sounds |
| Playback.ReadAloudKeepsOnePlaying | components/OutputSection.tsx:114-154 | a read-aloud click keeps the invariant: it stops the sounding node or, with none sounding, starts at most one |
| Playback.StepOnePlaying | components/OutputSection.tsx:76-224 | every handler keeps the invariant, provided no node other than the one that ended is sounding when an `ended` event arrives (this covers the `ended` that follows every `stop()`) |
| Playback.RunOnePlaying | components/OutputSection.tsx:76-224 | at most one node sounds after any run in which no `ended` event arrives while another node is sounding |
| Playback.PlayCachedPcm | components/OutputSection.tsx:114-146 | with decodable audio cached and nothing reading, a click starts the next node and it sounds |
| Playback.PlayStopPlay | components/OutputSection.tsx:114-146 | play, stop, play: node k is stopped and node k + 1 alone sounds |
| Playback.StaleEndedTwoPlaying | components/OutputSection.tsx:94-145 | as written: after play, stop, play, a late `ended` of the stopped node lets the next click start a node while the previous one still sounds |
| Playback.AfterEndedGuarded | components/OutputSection.tsx:142 | corrected: `ended` clears `isReading` only when the node that ended is the one in the ref |
| Playback.EndedGuardedAgrees | components/OutputSection.tsx:142 | the guarded callback differs from the one as written exactly when a node other than the current one ends while reading |
| Playback.StepGuardedOnePlaying | components/OutputSection.tsx:76-224 | with the guarded callback, every step keeps the invariant, whichever node an `ended` comes from |
| Playback.RunGuardedOnePlaying | components/OutputSection.tsx:76-224 | with the guarded callback, at most one node sounds after any run |
| Playback.StaleEndedGuarded | components/OutputSection.tsx:94-145 | on the same run, the guarded callback ignores the late `ended`, and the last click silences everything |
| Playback.OutputSection.constructor | components/OutputSection.tsx:76-81 | the fresh component is in the mounted state |
| Playback.OutputSection.StopAudio | components/OutputSection.tsx:91-101 | the fields make exactly the `AfterStop` transition |
| Playback.OutputSection.ContentChange | components/OutputSection.tsx:84-89 | the fields make exactly the `AfterContentChange` transition |
| Playback.OutputSection.StyleChange | components/OutputSection.tsx:75 | only the style changes |
| Playback.OutputSection.FetchAudioData | components/OutputSection.tsx:103-112 | the fields and the result are exactly `AfterFetch` |
| Playback.OutputSection.HandleReadAloud | components/OutputSection.tsx:114-154 | the fields make exactly the `AfterReadAloud` transition |
| Playback.OutputSection.PlayFetchedAudio | components/OutputSection.tsx:125-150 | after the fetch, the fields make exactly the `PlayFetched` transition: no audio alerts, audio creates the context and plays |
| Playback.OutputSection.PlayAudio | components/OutputSection.tsx:136-146 | the fields make exactly the `Play` transition |
| Playback.OutputSection.StartNode | components/OutputSection.tsx:139-146 | the next node holds the samples, sounds and is in the ref, and the component is reading; nothing else changes |
| Playback.OutputSection.OnEnded | components/OutputSection.tsx:142 | the fields make exactly the `AfterEnded` transition for the node that ended |
| Playback.OutputSection.HandleDownloadAudio | components/OutputSection.tsx:156-187 | the fields make exactly the `AfterDownloadAudio` transition |
| Playback.OutputSection.SaveFetchedAudio | components/OutputSection.tsx:162-183 | after the fetch, the fields make exactly the `SaveFetched` transition: no audio alerts, audio is saved |
| Playback.OutputSection.SaveWavFile | components/OutputSection.tsx:164-173 | the fields make exactly the `SaveWav` transition |
| Playback.OutputSection.HandleDownloadText | components/OutputSection.tsx:189-217 | the fields make exactly the `AfterDownloadText` transition |
| Playback.OutputSection.HandleCopy | components/OutputSection.tsx:219-224 | the fields make exactly the `AfterCopy` transition |
| Submission.Initial | App.tsx:11-16 | initially: the first catalogue style (`economist`), text mode, empty input, no output, not loading, no error |
| Submission.AfterReply | App.tsx:24-32 | loading ends; a result replaces the output and keeps the error; a failure sets the fixed message and keeps the output; nothing else changes |
| Submission.SubmitIgnoresBlankInput | App.tsx:19-22 | whitespace-only input changes nothing and sends nothing; other input sets loading, clears the error and sends input, mode and prompt modifier |
| Submission.AfterSubmit | App.tsx:18-22 | the click: input that trims to nothing leaves the page unchanged; other input sets loading, clears the error and appends exactly one request with the input, the mode and the prompt modifier; nothing else changes |
| Submission.SubmitSucceeds | App.tsx:18-33 | a successful round shows the result with no error and loading over |
| Submission.SubmitFails | App.tsx:18-33 | a failed round shows the fixed message and keeps the previous output, with loading over |
| Submission.SubmitKeepsValid | App.tsx:18-33 | one request is in flight exactly while loading, across a submit and its reply |
| Submission.App.constructor | App.tsx:11-16 | the fresh page is in the initial state |
| Submission.App.SetSelectedStyle | App.tsx:11 | only the style changes |
| Submission.App.SetMode | App.tsx:12 | only the mode changes |
| Submission.App.SetInputText | App.tsx:13 | only the input changes |
| Submission.App.HandleSubmit | App.tsx:18-25 | the fields make exactly the `AfterSubmit` transition; a request is sent exactly when the input is not blank |
| Submission.App.ReceiveReply | App.tsx:24-32 | the fields make exactly the `AfterReply` transition |

## Left out

- The speech and rewrite services (`services/geminiService.ts`) are oracles. The model does not say what the services produce.
- `transformContent` parses the reply as JSON without checking the required fields. The model assumes a well-formed `GeneratedContent`.
- Web Audio is left out: creating and resuming the `AudioContext`, `createBufferSource`, `connect` and `start`. Playback is modelled as a numbered node holding its samples, plus the set of nodes still sounding; a flag records that the context exists. When a stopped node's `ended` event is dispatched is not modelled: it is an event the run may contain at any point.
- Samples are exact reals. `v / 32768` is exact in 32-bit floating point, so nothing is lost.
- `createBuffer` also throws for a sample rate outside the browser's range. The fixed 24000 Hz is always in range, so this case is not modelled.
- DOM side effects are recorded, not modelled:
  - Blob, object URLs and anchor clicks become an entry in a downloads log;
  - `navigator.clipboard.writeText` becomes an entry in a clipboard log;
  - `alert` becomes an entry in an alerts log;
  - `console.error` and the `setTimeout` cleanup are left out.
- `Date.now()` is a parameter.
- React scheduling is left out. Each handler runs as one atomic step.
  - The audio buttons are disabled while `isAudioProcessing`, and the submit button while loading. So handlers do not interleave.
  - A content change that arrives while synthesis is pending, and so stores the old content's audio in the fresh cache, is not modelled.
- Unmounting stops the audio the same way a content change does. Only the content change is modelled.
- Characters are Dafny `char`, not UTF-16 code units.
  - `charCodeAt` and string lengths agree with the model for text in the Basic Multilingual Plane.
  - The bytes `atob` yields are always below 256.
- Wav.ParseWavFile: the round trip requires `36 + L < 2^32` and a 32-bit rate. `setUint32` wraps larger values, so the size field then no longer describes the file.
- Playback.AfterReadAloud: its own contract states only the toggle, the no-content case and `isAudioProcessing`. The playing and failure outcomes are stated by `ReadAloudPlays`, `ReadAloudPlaysSynthesizedPcm` and `ReadAloudFailure`.
- Submission.App.HandleSubmit: requires that the page is not loading. The submit button is disabled while loading (App.tsx:89), so a second request cannot start.
- Submission.App.ReceiveReply: requires that the page is loading. A reply arrives only for a request in flight.
- Render.Children, Render.ChildrenShowParagraph and Render.RenderFormattedBodyParagraphs use the corrected classifier `Classify`. For a bare `**` or `***` part, the source renders an empty `<strong>` instead (see Findings). `Render.ChildrenAsWritten` and `Render.ChildrenAsWrittenAgrees` state where the two agree.
- Playback.AfterEnded: this is `onended` as written. At most one sounding node is proved for every run in which no `ended` event arrives while another node is sounding (`RunOnePlaying`). That includes the `ended` that follows each `stop()`. It is also proved for every run with the guarded callback (`RunGuardedOnePlaying`). The one excluded case is a stopped node's `ended` arriving after the next node has started; that run is in Findings.
- Pcm.Int16: `new Int16Array(buffer)` reads in the host's byte order. The model assumes a little-endian host, as nearly all browsers run on.
- The presentational components (`InputSection`, `StyleSelector`) and the JSX markup are not part of this model. They appear only as the state they feed: the selected style, the mode, the input and the disabled submit button.

## Findings

| source | as written | input that shows it | evidently intended | confidence | as-written member | corrected member |
|---|---|---|---|---|---|---|
| components/OutputSection.tsx:235-236 | a part is bold when it starts and ends with `**`; plain parts `**` and `***` qualify, and `slice(2, -2)` of them is empty | a body paragraph `***` (a common scene break): the bold split finds no match and returns the single part `***`, which renders as an empty `<strong>`, so the three characters vanish | only a part of four or more characters that starts and ends with `**` becomes bold, so a bare `**` or `***` stays plain text and every part's text stays visible | not executed | Render.ClassifyAsWrittenDropsStars | Render.Classify |
| components/OutputSection.tsx:142 | `onended` clears `isReading` for whichever node ends. `stop()` (line 94) fires `ended` later, and line 145 overwrites the ref without stopping the node it held | read aloud (node k starts), click again (node k stopped), click again (node k + 1 starts), node k's `ended` arrives, click again: node k + 2 starts while node k + 1 still sounds | only the ref's current node clears `isReading`, so at most one node sounds | low: the stopped node's `ended` must arrive after the next node has started; not executed | Playback.StaleEndedTwoPlaying | Playback.AfterEndedGuarded |
