# Podcast generator core, modelled in Dafny

This project models the two Python modules of an article-to-podcast generator.
The rest of that program is library calls and a Streamlit user interface.

- `text_processing.dfy` (module `TextProcessing`) covers `src/text_processing.py`:
  - `extract_article_text` tries four container tags in priority order, falls back to the page's paragraphs, and reports failures as prefixed strings.
  - `summarize_text` cuts the text into 1000-character windows, skips blank windows, and keeps a window verbatim when the summariser fails on it. It joins the results with single spaces.
  - `rewrite_to_podcast_style` wraps the text in a fixed template and expands every `.` to `. So, `.
- `audio_processing.dfy` (module `AudioProcessing`) covers `src/audio_processing.py`:
  - `text_to_speech` writes a file and reports success as a boolean.
  - `add_audio_intro_outro` speaks an intro and an outro into `intro.mp3` and `outro.mp3`. It exports intro + main + outro, then deletes the two temporary files.
  - `add_background_music` tiles the music, cuts it to the main track's length, lowers its volume and overlays it.
- `strings.dfy` (module `Strings`) gives the Python string built-ins these functions use their Python meaning: clamped slicing, `str.join`, `str.strip` over the code points `str.isspace` accepts, `str.count` and `str.replace`.
- `arithmetic.dfy` and `wrappers.dfy` hold small arithmetic facts and the `Option`/`Result` types.

How the model represents the outside world:

- A fetched page is a `Page`. It is a request failure, a parse failure, or a parsed document. The document is a sequence of `Element`s in document order. Each element has a tag name, a CSS class set and the two `get_text` strings the code asks for.
- `soup.find(tag, class_=[...])` is `Find`: the first element with that name and at least one allow-listed class. A BeautifulSoup tag is always truthy, so a container that is found wins even when its text is empty.
- The BART summariser is a `Summarizer` oracle. It is asked about chunk `k` with the chunk's text and answers `Some(summary)`, or `None` when the call raises. Because the oracle takes the chunk's index, it can answer differently from one call to the next.
- An audio segment is a sequence of one-millisecond frames, since pydub lengths and slices are in milliseconds. `+` is concatenation, `* n` is `Repeat` and `[:n]` is `Take`.
- Volume reduction and sample mixing are floating-point operations. They are the two functions of a `Dsp` parameter.
- The working directory is the `files` map of a `FileSystem` object, from file name to `Mp3(audio)` or `Corrupt`.
- Speech synthesis is a `Tts` oracle. It is asked with the text, the language and the output file name, so the intro call (`intro.mp3`) and the outro call (`outro.mp3`) can succeed or fail independently even when their texts are equal. It either saves audio or fails. A failure may leave a partly written file behind, because gTTS opens the output file before it writes to it.
- Four primitives carry the pydub operations: `Take` (`segment[:n]`, the first `min(n, len)` milliseconds), `Attenuate` (`segment - db`, every frame lowered through the `Dsp`), `Overlay` (`base.overlay(top)`, as long as the base, each frame mixed with the top's frame where it has one) and `Load` (`from_mp3`, the audio of a present, decodable file, otherwise a named error). What they mean together is stated by the lemmas `TakeTake`, `AttenuateRepeat`, `AttenuateTake`, `LoweredBed`, `OverlayIgnoresTail` and `LoadAfterSpeech`.

Two behaviours of the code are easy to miss:

- A text of at most 1000 characters that is empty or whitespace-only causes no summariser call and gives `""`; any other such text causes exactly one call (`SummaryOfOneChunk`).
- Not every error is recovered: the summarisation pipeline is built at src/text_processing.py:37, outside the `try`, so a failure to load the model escapes `summarize_text`. That step is left out below.

## Model

| member | source | states |
|---|---|---|
| `Strings.Slice` | src/text_processing.py:43 | `text[i:j]` is never longer than the text; with `i <= j <= len` it is the plain slice; with `i <= len <= j` it is the suffix from `i`; with `i >= len` it is empty |
| `Strings.TrimLeft` | src/text_processing.py:48 | `lstrip()` keeps a suffix, everything it removes is whitespace, and what it keeps starts with non-whitespace; it is empty exactly when the text is all whitespace |
| `Strings.TrimRight` | src/text_processing.py:48 | `rstrip()` keeps a prefix, everything it removes is whitespace, and what it keeps ends with non-whitespace; it is empty exactly when the text is all whitespace |
| `Strings.Strip` | src/text_processing.py:48 | `chunk.strip()` is empty exactly when every character is Python whitespace; otherwise it starts and ends with non-whitespace |
| `Strings.StripRemovesOnlySpace` | src/text_processing.py:48 | `strip()` returns a contiguous slice of the text with only whitespace before and after it |
| `Strings.Join` | src/text_processing.py:57 | joining no parts gives `""`; where each part lands is `JoinAt` |
| `Strings.JoinAt` | src/text_processing.py:57 | in `sep.join(parts)` each part appears verbatim at its offset, the sum of the earlier parts' lengths plus one separator each |
| `Strings.Count` | src/text_processing.py:70 | `count` never exceeds the length; `CountZero` says it is zero exactly when the character is absent |
| `Strings.CountZero` | src/text_processing.py:70 | `s.count(c)` is zero exactly when `c` does not occur in `s` |
| `Strings.ReplaceCharLength` | src/text_processing.py:70 | replacing a one-character pattern adds `len(rep) - 1` characters per occurrence |
| `Strings.ReplaceCharAbsent` | src/text_processing.py:70 | a text without the pattern character comes out of `replace` unchanged |
| `TextProcessing.ChunkAt` | src/text_processing.py:42-43 | in `Chunks`, the comprehension over `range(0, len(text), 1000)`, chunk `k` starts at `k * 1000`, strictly inside the text, and is the slice up to the next multiple of the window size or the end |
| `TextProcessing.ChunkCount` | src/text_processing.py:43 | the number of chunks is the ceiling of `len(text) / size`; there are no chunks exactly when the text is empty |
| `TextProcessing.ChunkSizes` | src/text_processing.py:42-43 | every chunk is non-empty and at most `size` long, and all but the last are exactly `size` long |
| `TextProcessing.ChunksConcat` | src/text_processing.py:43 | concatenating the chunks in order gives back the original text |
| `TextProcessing.Kept` | src/text_processing.py:46-49 | the positions sent to the summariser are exactly the non-blank chunks, in increasing order |
| `TextProcessing.Pieces` | src/text_processing.py:45-55 | the `summaries` list is never longer than the chunk list; `PiecesFollowKept` gives its exact contents |
| `TextProcessing.PiecesFollowKept` | src/text_processing.py:45-55 | the `summaries` list has one entry per non-blank chunk, in chunk order: the summary, or the chunk itself when the call failed |
| `TextProcessing.SummaryAsksOnlyKept` | src/text_processing.py:46-50 | two summarisers that agree on the non-blank chunks give the same summary, so a blank chunk never reaches the summariser |
| `TextProcessing.FailedChunkKeptVerbatim` | src/text_processing.py:49-57 | a chunk the summariser fails on occurs verbatim in the result, at the offset of its rank among the non-blank chunks |
| `TextProcessing.Summary` | src/text_processing.py:42-57 | an empty text summarises to `""`; `SummaryAsksOnlyKept`, `FailedChunkKeptVerbatim` and `SummaryOfOneChunk` say what a longer one gives |
| `TextProcessing.SummaryOfOneChunk` | src/text_processing.py:42-57 | a text of 1 to 1000 characters gives the summariser's answer or the text itself; a blank one gives `""` |
| `TextProcessing.SummarizeText` | src/text_processing.py:31-57 | the loop's result is the space-join of the per-chunk results in chunk order; it asks exactly the non-blank chunks; empty input gives `""` and no calls |
| `TextProcessing.RewriteToPodcastStyle` | src/text_processing.py:68-71 | the script starts with the fixed opening and ends with `. And that's pretty fascinating, isn't it?` |
| `TextProcessing.CollapseAfterExpand` | src/text_processing.py:70 | turning each `. So, ` back into `.` undoes the expansion of every `.` |
| `TextProcessing.RewriteRoundTrip` | src/text_processing.py:68-71 | the summary can be recovered from the script, so the template loses nothing |
| `TextProcessing.RewriteLength` | src/text_processing.py:68-71 | the script's length is prefix + text + 5 per `.` + suffix; a text without `.` appears unchanged between prefix and suffix |
| `TextProcessing.RewriteOneSentence` | src/text_processing.py:68-71 | `AI is transforming industries.` becomes `... industries. So, . And that's ...`: the final period is expanded too |
| `TextProcessing.Find` | src/text_processing.py:18 | `find` returns the first element of that tag with an allow-listed class, and nothing only when no element qualifies |
| `TextProcessing.ParagraphTexts` | src/text_processing.py:23-24 | there are at most as many fallback lines as elements, and none is empty |
| `TextProcessing.ParagraphTextsMembers` | src/text_processing.py:23-24 | every fallback line is some paragraph's text, and every non-empty paragraph text is a line |
| `TextProcessing.ParagraphTextsSingle` | src/text_processing.py:23-24 | one element gives one line exactly when it is a `p` with non-empty text, and that line is its text |
| `TextProcessing.ParagraphTextsConcat` | src/text_processing.py:23-24 | the lines of a document are the lines of its first part followed by those of the rest: document order, one line per paragraph |
| `TextProcessing.ExtractArticleText` | src/text_processing.py:6-29 | returns the text of the first tag among article, main, div and p that has a container; otherwise the newline-join of the paragraph texts; a request failure gives `Error fetching URL: ` + message and any other failure gives `Error parsing content: ` + message |
| `AudioProcessing.Repeat` | src/audio_processing.py:67 | `music * n` is `n` times as long as the music |
| `AudioProcessing.RepeatAt` | src/audio_processing.py:67 | `music * n` is `n` copies long, and frame `i` is frame `i mod len(music)` of the music |
| `AudioProcessing.TakeTake` | src/audio_processing.py:68 | cutting `[:a]` and then `[:b]` is cutting `[:min(a, b)]` |
| `AudioProcessing.AttenuateRepeat` | src/audio_processing.py:67-71 | lowering `music * n` is tiling the lowered music `n` times |
| `AudioProcessing.AttenuateTake` | src/audio_processing.py:68-71 | lowering `segment[:n]` is cutting the lowered segment to `n` |
| `AudioProcessing.OverlayIgnoresTail` | src/audio_processing.py:74 | overlaying a top at least as long as the base uses only its first `len(base)` milliseconds |
| `AudioProcessing.TiledCoversMain` | src/audio_processing.py:66-67 | when `0 < len(music) < len(main)`, the tiled music is `len(music) * (len(main) // len(music) + 1)` long, which is at least `len(main)` |
| `AudioProcessing.BackgroundBed` | src/audio_processing.py:65-68 | the bed is exactly `len(main)` long; it fails with a division by zero exactly when the music is empty and the main track is not; music at least as long as the main track is just its first `len(main)` milliseconds |
| `AudioProcessing.BedIsLoopedMusic` | src/audio_processing.py:65-68 | bed frame `i` is music frame `i mod len(music)`: tile-then-truncate plays the music in a loop |
| `AudioProcessing.LoweredBed` | src/audio_processing.py:65-71 | lowering the music before tiling and cutting gives the same bed as lowering the finished bed |
| `AudioProcessing.MixWithMusic` | src/audio_processing.py:65-74 | the mixed track has the main track's length; frame `i` is main frame `i` mixed with the lowered music frame `i mod len(music)`; empty music under a non-empty track is a division by zero |
| `AudioProcessing.AfterSpeech` | src/audio_processing.py:10-16 | synthesis adds at most its own output file; that file exists afterwards unless synthesis failed before creating it |
| `AudioProcessing.LoadAfterSpeech` | src/audio_processing.py:27-39 | loading a file just spoken gives the speech back; a partly written file fails to load as undecodable; every other file loads as before |
| `AudioProcessing.Spoken` | src/audio_processing.py:27-37 | a failed synthesis contributes empty audio, as `AudioSegment.empty()` |
| `AudioProcessing.IntroOutro` | src/audio_processing.py:18-55 | success exactly when the main file loads after synthesis; on success `intro.mp3` and `outro.mp3` are gone and the output is intro ++ main ++ outro, with an empty part for a failed synthesis, so its duration is the sum of the three; no other file changes, and a failure writes no output |
| `AudioProcessing.FileSystem.TextToSpeech` | src/audio_processing.py:6-16 | returns true exactly when synthesis and save succeed; the file then holds the speech, and a failure leaves the directory as it was apart from a possibly truncated output file |
| `AudioProcessing.FileSystem.AddAudioIntroOutro` | src/audio_processing.py:18-55 | the result and the new directory are those given by `IntroOutro` |
| `AudioProcessing.FileSystem.AddBackgroundMusic` | src/audio_processing.py:57-80 | true exactly when both files load and the music is not empty under a non-empty main track; the output then holds `MixWithMusic` of the two; on false nothing is written |

## Left out

- HTTP fetching and HTML parsing (`requests.get`, `raise_for_status`, BeautifulSoup): a page arrives as a `Page`, and `get_text` results are inputs carried by each element.
- Building the summarisation pipeline (src/text_processing.py:37): it is assumed to succeed. In the code a failure there propagates out of `summarize_text`, because the call is outside the `try`.
- The BART model itself and its `max_length`/`min_length`/`do_sample` settings: it is the `Summarizer` oracle, so the length of a summary is not bounded by the model.
- gTTS synthesis and the `lang`/`slow` options: synthesis is the `Tts` oracle.
- MP3 encoding and decoding: a file holds the decoded frames, so the model does not capture lossy encoding, and exporting then loading gives back the same frames.
- Write failures during `export` or `save` (a full disk, missing permissions): an export always succeeds in the model.
- Sub-millisecond timing: pydub rounds a segment's length to whole milliseconds. The model counts whole frames.
- The decibel arithmetic of `segment - volume_reduction` and the sample-wise addition of `overlay`: these are the `Dsp` parameter.
- `print` logging, the `__main__` demo blocks, `streamlit_app.py` (user interface) and `setup.py` (packaging).
