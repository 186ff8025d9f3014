/**
 * The text half of the podcast pipeline (src/text_processing.py): pulling the
 * article text out of a fetched page, summarising it chunk by chunk, and
 * wrapping the summary in the conversational template.
 *
 * The network fetch, the HTML parser and the BART summarisation model are not
 * modelled: a page arrives as an already-parsed outcome, and the summariser is
 * an oracle that either answers with a string or fails.
 */
module TextProcessing {
  import opened Wrappers
  import opened Strings
  import opened Arithmetic

  // ---------------------------------------------------------------------------
  // Chunking
  // ---------------------------------------------------------------------------

  /** Window size used by the summariser loop. */
  const MaxChunkLength: nat := 1000

  /** `[text[i:i + size] for i in range(0, len(text), size)]`. */
  function Chunks(text: string, size: nat): seq<string>
    requires size > 0
  {
    seq((|text| + size - 1) / size, k requires 0 <= k => Slice(text, k * size, k * size + size))
  }

  /** Chunk `k` starts at `k * size`, inside the text, and is the plain slice from there. */
  lemma ChunkAt(text: string, size: nat, k: nat)
    requires size > 0 && k < |Chunks(text, size)|
    ensures k * size < |text|
    ensures Chunks(text, size)[k] == text[k * size..Min(k * size + size, |text|)]
  {
    var n := (|text| + size - 1) / size;
    DivBounds(|text| + size - 1, size);
    MulMono(k + 1, n, size);
    assert (k + 1) * size == k * size + size;
  }

  /** The number of chunks is the ceiling of |text| / size. */
  lemma {:induction false} ChunkCount(text: string, size: nat)
    requires size > 0
    ensures |Chunks(text, size)| * size >= |text|
    ensures |text| > 0 ==> (|Chunks(text, size)| - 1) * size < |text|
    ensures |text| == 0 <==> Chunks(text, size) == []
  {
    var n := |Chunks(text, size)|;
    assert n == (|text| + size - 1) / size;
    DivBounds(|text| + size - 1, size);
    assert (n - 1) * size == n * size - size;
    if n > 0 {
      MulMono(1, n, size);
    }
  }

  /** Every chunk is non-empty and at most `size` long; all but the last are exactly `size`. */
  lemma ChunkSizes(text: string, size: nat, k: nat)
    requires size > 0 && k < |Chunks(text, size)|
    ensures 0 < |Chunks(text, size)[k]| <= size
    ensures k < |Chunks(text, size)| - 1 ==> |Chunks(text, size)[k]| == size
  {
    ChunkAt(text, size, k);
    if k < |Chunks(text, size)| - 1 {
      ChunkAt(text, size, k + 1);
      assert (k + 1) * size == k * size + size;
    }
  }

  /** Chunk `k - 1` covers the text from `(k - 1) * size` up to `k * size` or the end. */
  lemma ChunkBefore(text: string, size: nat, k: nat)
    requires size > 0 && 0 < k <= |Chunks(text, size)|
    ensures 0 <= (k - 1) * size == Min((k - 1) * size, |text|) <= Min(k * size, |text|)
    ensures Chunks(text, size)[k - 1] == text[(k - 1) * size..Min(k * size, |text|)]
  {
    ChunkAt(text, size, k - 1);
    assert (k - 1) * size + size == k * size;
  }

  lemma {:induction false} ChunksConcatPrefix(text: string, size: nat, k: nat)
    requires size > 0 && k <= |Chunks(text, size)|
    ensures Concat(Chunks(text, size)[..k]) == text[..Min(k * size, |text|)]
  {
    if k > 0 {
      ChunkBefore(text, size, k);
      ChunksConcatPrefix(text, size, k - 1);
      ConcatPrefix(Chunks(text, size), k);
      SliceJoin(text, (k - 1) * size, Min(k * size, |text|));
    }
  }

  /** Gluing the chunks back together gives the original text. */
  lemma ChunksConcat(text: string, size: nat)
    requires size > 0
    ensures Concat(Chunks(text, size)) == text
  {
    var cs := Chunks(text, size);
    ChunksConcatPrefix(text, size, |cs|);
    ChunkCount(text, size);
    assert cs[..|cs|] == cs;
  }

  // ---------------------------------------------------------------------------
  // Summarising
  // ---------------------------------------------------------------------------

  /**
   * The summarisation model, asked about chunk `k` with that chunk's text:
   * `Some(summary)` when the call returns, `None` when it raises. Indexing by
   * the chunk's position lets the answer differ from call to call.
   */
  type Summarizer = (nat, string) -> Option<string>

  /** What chunk `k` contributes once it is sent: the summary, or the chunk itself on failure. */
  function ChunkResult(k: nat, chunk: string, summarize: Summarizer): string
  {
    summarize(k, chunk).GetOr(chunk)
  }

  /** `not chunk.strip()`: the chunk holds whitespace only. */
  predicate IsBlank(chunk: string)
  {
    AllSpace(chunk)
  }

  /** Positions of the chunks that are sent to the summariser, in increasing order. */
  function Kept(cs: seq<string>): (ks: seq<nat>)
    ensures forall j :: 0 <= j < |ks| ==> ks[j] < |cs| && !IsBlank(cs[ks[j]])
    ensures forall k :: 0 <= k < |cs| && !IsBlank(cs[k]) ==> k in ks
    ensures forall i, j :: 0 <= i < j < |ks| ==> ks[i] < ks[j]
  {
    if cs == [] then []
    else
      var init := cs[..|cs| - 1];
      var ks := Kept(init);
      assert forall k :: 0 <= k < |init| ==> init[k] == cs[k];
      if IsBlank(cs[|cs| - 1]) then ks else ks + [|cs| - 1]
  }

  /** The `summaries` list after the loop has seen the chunks `cs`. */
  function Pieces(cs: seq<string>, summarize: Summarizer): (r: seq<string>)
    ensures |r| <= |cs|
  {
    if cs == [] then []
    else
      var last := cs[|cs| - 1];
      Pieces(cs[..|cs| - 1], summarize)
        + (if IsBlank(last) then [] else [ChunkResult(|cs| - 1, last, summarize)])
  }

  /** What `summarize_text` returns. */
  function Summary(text: string, summarize: Summarizer): (r: string)
    ensures text == [] ==> r == []
  {
    Join(" ", Pieces(Chunks(text, MaxChunkLength), summarize))
  }

  /** Piece `j` is the result for the `j`-th non-blank chunk: blank chunks leave no trace. */
  lemma {:induction false} PiecesFollowKept(cs: seq<string>, summarize: Summarizer)
    ensures |Pieces(cs, summarize)| == |Kept(cs)|
    ensures forall j :: 0 <= j < |Kept(cs)| ==>
      Pieces(cs, summarize)[j] == ChunkResult(Kept(cs)[j], cs[Kept(cs)[j]], summarize)
  {
    if cs != [] {
      var init := cs[..|cs| - 1];
      PiecesFollowKept(init, summarize);
      var ps, ks := Pieces(cs, summarize), Kept(cs);
      var ps0, ks0 := Pieces(init, summarize), Kept(init);
      forall j | 0 <= j < |ks|
        ensures ps[j] == ChunkResult(ks[j], cs[ks[j]], summarize)
      {
        if j < |ks0| {
          assert ps[j] == ps0[j] && ks[j] == ks0[j];
          assert cs[ks0[j]] == init[ks0[j]];
        }
      }
    }
  }

  /** The summary depends on the summariser only through its answers on non-blank chunks. */
  lemma SummaryAsksOnlyKept(text: string, f: Summarizer, g: Summarizer)
    requires var cs := Chunks(text, MaxChunkLength);
      forall k :: 0 <= k < |cs| && !IsBlank(cs[k]) ==> f(k, cs[k]) == g(k, cs[k])
    ensures Summary(text, f) == Summary(text, g)
  {
    var cs := Chunks(text, MaxChunkLength);
    PiecesFollowKept(cs, f);
    PiecesFollowKept(cs, g);
    assert Pieces(cs, f) == Pieces(cs, g);
  }

  /** `c` occurs in `s` starting at offset `o`. */
  predicate OccursAt(s: string, c: string, o: nat)
  {
    o + |c| <= |s| && s[o..o + |c|] == c
  }

  /** A non-blank chunk has a rank among the non-blank chunks. */
  lemma RankOf(cs: seq<string>, k: nat) returns (j: nat)
    requires k < |cs| && !IsBlank(cs[k])
    ensures j < |Kept(cs)| && Kept(cs)[j] == k
  {
    var ks := Kept(cs);
    assert k in ks;
    j :| 0 <= j < |ks| && ks[j] == k;
  }

  /** The piece of rank `j` is chunk `k` itself when the summariser fails on it. */
  lemma FailedPieceAt(cs: seq<string>, summarize: Summarizer, k: nat, j: nat)
    requires j < |Kept(cs)| && Kept(cs)[j] == k
    requires summarize(k, cs[k]).None?
    ensures |Pieces(cs, summarize)| == |Kept(cs)|
    ensures Pieces(cs, summarize)[j] == cs[k]
  {
    PiecesFollowKept(cs, summarize);
  }

  /** A failed piece appears verbatim in the space-join of the pieces, at the offset of its rank. */
  lemma FailedPieceVerbatim(cs: seq<string>, summarize: Summarizer, k: nat)
    requires k < |cs| && !IsBlank(cs[k]) && summarize(k, cs[k]).None?
    ensures |Pieces(cs, summarize)| == |Kept(cs)|
    ensures exists j :: (0 <= j < |Kept(cs)| && Kept(cs)[j] == k
      && OccursAt(Join(" ", Pieces(cs, summarize)), cs[k], JoinOffset(" ", Pieces(cs, summarize), j)))
  {
    var ps := Pieces(cs, summarize);
    var j := RankOf(cs, k);
    FailedPieceAt(cs, summarize, k, j);
    JoinAt(" ", ps, j);
    assert OccursAt(Join(" ", ps), cs[k], JoinOffset(" ", ps, j));
  }

  /**
   * A chunk the summariser fails on appears verbatim in the summary, as the
   * `j`-th piece of the join, where `j` is its rank among the non-blank chunks.
   */
  lemma FailedChunkKeptVerbatim(text: string, summarize: Summarizer, k: nat)
    requires k < |Chunks(text, MaxChunkLength)|
    requires !IsBlank(Chunks(text, MaxChunkLength)[k])
    requires summarize(k, Chunks(text, MaxChunkLength)[k]).None?
    ensures |Pieces(Chunks(text, MaxChunkLength), summarize)| == |Kept(Chunks(text, MaxChunkLength))|
    ensures exists j :: (0 <= j < |Kept(Chunks(text, MaxChunkLength))| && Kept(Chunks(text, MaxChunkLength))[j] == k
      && OccursAt(Summary(text, summarize), Chunks(text, MaxChunkLength)[k],
                  JoinOffset(" ", Pieces(Chunks(text, MaxChunkLength), summarize), j)))
  {
    FailedPieceVerbatim(Chunks(text, MaxChunkLength), summarize, k);
  }

  /** Text of at most one window: one call, whose answer (or the text itself) is the summary. */
  lemma SummaryOfOneChunk(text: string, summarize: Summarizer)
    requires 0 < |text| <= MaxChunkLength
    ensures IsBlank(text) ==> Summary(text, summarize) == []
    ensures !IsBlank(text) ==> Summary(text, summarize) == summarize(0, text).GetOr(text)
  {
    var cs := Chunks(text, MaxChunkLength);
    assert |cs| == 1;
    assert cs[0] == text;
    assert cs[..0] == [];
    assert Pieces(cs, summarize) == Pieces([], summarize)
      + (if IsBlank(text) then [] else [ChunkResult(0, text, summarize)]);
  }

  /** One turn of the `summarize_text` loop extends `Pieces` and `Kept` by chunk `k`'s contribution. */
  lemma LoopStep(cs: seq<string>, k: nat, summarize: Summarizer)
    requires k < |cs|
    ensures Pieces(cs[..k + 1], summarize)
      == Pieces(cs[..k], summarize) + (if IsBlank(cs[k]) then [] else [ChunkResult(k, cs[k], summarize)])
    ensures Kept(cs[..k + 1]) == Kept(cs[..k]) + (if IsBlank(cs[k]) then [] else [k])
  {
    assert cs[..k + 1][..k] == cs[..k];
  }

  /**
   * `summarize_text`: cut the text into windows, send every non-blank window
   * to the summariser, keep the window itself when the call fails, and join
   * the results with single spaces. `asked` lists the windows sent, by position.
   */
  method SummarizeText(text: string, summarize: Summarizer) returns (summary: string, asked: seq<nat>)
    ensures summary == Summary(text, summarize)
    ensures asked == Kept(Chunks(text, MaxChunkLength))
    ensures text == [] ==> summary == [] && asked == []
  {
    var chunks := Chunks(text, MaxChunkLength);
    var summaries: seq<string> := [];
    asked := [];
    for k := 0 to |chunks|
      invariant summaries == Pieces(chunks[..k], summarize)
      invariant asked == Kept(chunks[..k])
    {
      var chunk := chunks[k];
      LoopStep(chunks, k, summarize);
      if Strip(chunk) != [] {
        asked := asked + [k];
        match summarize(k, chunk)
        case Some(s) =>
          summaries := summaries + [s];
        case None =>
          summaries := summaries + [chunk];
      }
    }
    assert chunks[..|chunks|] == chunks;
    summary := Join(" ", summaries);
  }

  // ---------------------------------------------------------------------------
  // Podcast template
  // ---------------------------------------------------------------------------

  const PodcastPrefix: string := "Alright, so let's dive into this. What we're essentially looking at is... "
  const PodcastSuffix: string := ". And that's pretty fascinating, isn't it?"
  const SentenceBreak: string := ". So, "

  /** `rewrite_to_podcast_style`: prefix, every `.` expanded to `. So, `, suffix. */
  function RewriteToPodcastStyle(text: string): (r: string)
    ensures |PodcastPrefix| + |PodcastSuffix| <= |r|
    ensures r[..|PodcastPrefix|] == PodcastPrefix
    ensures r[|r| - |PodcastSuffix|..] == PodcastSuffix
  {
    PodcastPrefix + Replace(text, ".", SentenceBreak) + PodcastSuffix
  }

  /** Undoes the sentence-break expansion: every `. So, ` becomes `.` again. */
  function CollapseBreaks(t: string): string
  {
    if |t| >= |SentenceBreak| && t[..|SentenceBreak|] == SentenceBreak then
      "." + CollapseBreaks(t[|SentenceBreak|..])
    else if t == [] then []
    else [t[0]] + CollapseBreaks(t[1..])
  }

  lemma {:induction false} CollapseAfterExpand(s: string)
    ensures CollapseBreaks(Replace(s, ".", SentenceBreak)) == s
  {
    if s != [] {
      var rest := Replace(s[1..], ".", SentenceBreak);
      CollapseAfterExpand(s[1..]);
      assert s[..1] == [s[0]];
      if s[0] == '.' {
        assert Replace(s, ".", SentenceBreak) == SentenceBreak + rest;
        assert (SentenceBreak + rest)[|SentenceBreak|..] == rest;
      } else {
        var t := [s[0]] + rest;
        assert Replace(s, ".", SentenceBreak) == t;
        assert t[0] != '.';
        assert !(|t| >= |SentenceBreak| && t[..|SentenceBreak|] == SentenceBreak) by {
          if |t| >= |SentenceBreak| { assert t[..|SentenceBreak|][0] == t[0]; }
        }
        assert t[1..] == rest;
      }
      assert s == [s[0]] + s[1..];
    }
  }

  /** Reads the summary back out of a podcast script. */
  function RecoverSummary(script: string): string
    requires |PodcastPrefix| + |PodcastSuffix| <= |script|
  {
    CollapseBreaks(script[|PodcastPrefix|..|script| - |PodcastSuffix|])
  }

  /** The template loses nothing: the summary can be read back from the script. */
  lemma RewriteRoundTrip(text: string)
    ensures RecoverSummary(RewriteToPodcastStyle(text)) == text
  {
    var mid := Replace(text, ".", SentenceBreak);
    var r := RewriteToPodcastStyle(text);
    assert r[|PodcastPrefix|..|r| - |PodcastSuffix|] == mid;
    CollapseAfterExpand(text);
  }

  /** Length: prefix, the text, five more characters per `.`, suffix; no `.` means the text as is. */
  lemma RewriteLength(text: string)
    ensures |RewriteToPodcastStyle(text)|
      == |PodcastPrefix| + |text| + (|SentenceBreak| - 1) * Count(text, '.') + |PodcastSuffix|
    ensures Count(text, '.') == 0 ==>
      RewriteToPodcastStyle(text) == PodcastPrefix + text + PodcastSuffix
  {
    ReplaceCharLength(text, '.', SentenceBreak);
    CountZero(text, '.');
    if Count(text, '.') == 0 {
      ReplaceCharAbsent(text, '.', SentenceBreak);
    }
  }

  /** The trailing period of a one-sentence summary is expanded too, leaving `. So, .` before the suffix. */
  lemma RewriteOneSentence()
    ensures RewriteToPodcastStyle("AI is transforming industries.")
      == PodcastPrefix + "AI is transforming industries. So, " + PodcastSuffix
  {
    var body := "AI is transforming industries";
    var expanded := Replace(body + ".", ".", SentenceBreak);
    assert expanded == body + SentenceBreak by {
      assert '.' !in body;
      ReplaceCharConcat(body, ".", '.', SentenceBreak);
      ReplaceCharAbsent(body, '.', SentenceBreak);
      assert Replace(".", ".", SentenceBreak) == SentenceBreak;
    }
    assert body + "." == "AI is transforming industries.";
    assert body + SentenceBreak == "AI is transforming industries. So, ";
  }

  // ---------------------------------------------------------------------------
  // Article extraction
  // ---------------------------------------------------------------------------

  /**
   * One element of the parsed page, in document order: its tag name, its CSS
   * classes, `get_text(separator='\n', strip=True)` and `get_text(strip=True)`.
   */
  datatype Element = Element(name: string, classes: set<string>, lines: string, plainText: string)

  /** What fetching and parsing the URL gave. */
  datatype Page =
    | RequestFailed(message: string)  // any `requests` exception, HTTP error statuses included
    | ParseFailed(message: string)    // any other exception while parsing or querying
    | Parsed(elements: seq<Element>)

  const ArticleTags: seq<string> := ["article", "main", "div", "p"]
  const ContentClasses: set<string> := {"article-content", "post-content", "entry-content", "story-content"}
  const FetchErrorPrefix: string := "Error fetching URL: "
  const ParseErrorPrefix: string := "Error parsing content: "

  /** `tag` with at least one class from the allow-list. */
  predicate IsContainer(e: Element, tag: string)
  {
    e.name == tag && e.classes * ContentClasses != {}
  }

  /** `soup.find(tag, class_=[...])`: the first container of that tag in document order. */
  function Find(elements: seq<Element>, tag: string): (r: Option<Element>)
    ensures r.None? <==> forall i :: 0 <= i < |elements| ==> !IsContainer(elements[i], tag)
    ensures r.Some? ==> exists i :: (0 <= i < |elements| && elements[i] == r.value
      && IsContainer(elements[i], tag) && forall j :: 0 <= j < i ==> !IsContainer(elements[j], tag))
  {
    if elements == [] then None
    else if IsContainer(elements[0], tag) then Some(elements[0])
    else
      var r := Find(elements[1..], tag);
      assert forall i :: 0 < i < |elements| ==> elements[i] == elements[1..][i - 1];
      r
  }

  /** `[p.get_text(strip=True) for p in soup.find_all('p') if p.get_text(strip=True)]`. */
  function ParagraphTexts(elements: seq<Element>): (r: seq<string>)
    ensures |r| <= |elements|
    ensures forall t :: t in r ==> t != []
  {
    if elements == [] then []
    else
      var e := elements[0];
      (if e.name == "p" && e.plainText != [] then [e.plainText] else []) + ParagraphTexts(elements[1..])
  }

  /** Every fallback line is some paragraph's text, and every non-empty paragraph text is a line. */
  lemma {:induction false} ParagraphTextsMembers(elements: seq<Element>)
    ensures forall t :: t in ParagraphTexts(elements) ==>
      exists e :: e in elements && e.name == "p" && e.plainText == t
    ensures forall e :: e in elements && e.name == "p" && e.plainText != [] ==> e.plainText in ParagraphTexts(elements)
  {
    if elements != [] {
      ParagraphTextsMembers(elements[1..]);
      assert forall x :: x in elements[1..] ==> x in elements;
      assert forall x :: x in elements ==> x == elements[0] || x in elements[1..];
    }
  }

  /** One element gives one line exactly when it is a paragraph with text. */
  lemma ParagraphTextsSingle(e: Element)
    ensures ParagraphTexts([e]) == if e.name == "p" && e.plainText != [] then [e.plainText] else []
  {
    assert [e][1..] == [];
  }

  /** A document's fallback lines are its first element's line, if any, then those of the rest. */
  lemma ParagraphTextsCons(e: Element, rest: seq<Element>)
    ensures ParagraphTexts([e] + rest) == ParagraphTexts([e]) + ParagraphTexts(rest)
  {
    assert ([e] + rest)[0] == e;
    assert ([e] + rest)[1..] == rest;
    ParagraphTextsSingle(e);
  }

  /**
   * The fallback lines of a document are those of its first part followed by
   * those of the rest: document order, and one line per paragraph.
   */
  lemma {:induction false} ParagraphTextsConcat(a: seq<Element>, b: seq<Element>)
    ensures ParagraphTexts(a + b) == ParagraphTexts(a) + ParagraphTexts(b)
  {
    if a == [] {
      assert a + b == b;
    } else {
      var e := a[0];
      ParagraphTextsConcat(a[1..], b);
      assert a == [e] + a[1..];
      assert a + b == [e] + (a[1..] + b);
      ParagraphTextsCons(e, a[1..]);
      ParagraphTextsCons(e, a[1..] + b);
    }
  }

  /**
   * `extract_article_text`: the text of the first allow-listed container among
   * `article`, `main`, `div`, `p` (tried in that order), otherwise the non-empty
   * paragraph texts joined by newlines; failures come back as prefixed strings.
   */
  method ExtractArticleText(page: Page) returns (text: string)
    ensures page.RequestFailed? ==> text == FetchErrorPrefix + page.message
    ensures page.ParseFailed? ==> text == ParseErrorPrefix + page.message
    ensures page.Parsed? ==>
      (exists i :: 0 <= i < |ArticleTags| && Find(page.elements, ArticleTags[i]).Some?
         && (forall j :: 0 <= j < i ==> Find(page.elements, ArticleTags[j]).None?)
         && text == Find(page.elements, ArticleTags[i]).value.lines)
      || ((forall i :: 0 <= i < |ArticleTags| ==> Find(page.elements, ArticleTags[i]).None?)
         && text == Join("\n", ParagraphTexts(page.elements)))
  {
    match page
    case RequestFailed(message) =>
      return FetchErrorPrefix + message;
    case ParseFailed(message) =>
      return ParseErrorPrefix + message;
    case Parsed(elements) =>
      for i := 0 to |ArticleTags|
        invariant forall j :: 0 <= j < i ==> Find(elements, ArticleTags[j]).None?
      {
        var content := Find(elements, ArticleTags[i]);
        if content.Some? {
          return content.value.lines;
        }
      }
      return Join("\n", ParagraphTexts(elements));
  }
}
