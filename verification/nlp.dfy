/** The pure parts of `NLPService` (backend/app/services/nlp_service.py): `chunk_text`,
    which splits a transcript into sentences and packs them greedily into word-bounded
    chunks that overlap by a few sentences, and the comma-split post-processing of the
    key-concept reply. The language-model calls themselves are not modelled; their
    reply text is an input. */
module Nlp {
  import opened Wrappers
  import opened Strings
  import Config

  // ---------------------------------------------------------------------------
  // Sentence split: re.split(r'(?<=[.!?])\s+', text)

  predicate IsTerminator(c: char)
  {
    c == '.' || c == '!' || c == '?'
  }

  predicate EndsSentence(s: string)
  {
    |s| > 0 && IsTerminator(s[|s| - 1])
  }

  /** Index `p` starts a match of the split pattern: whitespace right after `.`, `!` or `?`. */
  predicate BreakAt(s: string, p: int)
  {
    1 <= p < |s| && IsTerminator(s[p - 1]) && IsSpace(s[p])
  }

  ghost predicate NoBreak(s: string)
  {
    forall p :: !BreakAt(s, p)
  }

  /** The first split point at or after `from`. */
  function FindBreak(s: string, from: nat): (r: Option<nat>)
    ensures r.Some? ==> from <= r.value && BreakAt(s, r.value)
    ensures r.Some? ==> forall q :: from <= q < r.value ==> !BreakAt(s, q)
    ensures r.None? ==> forall q :: from <= q ==> !BreakAt(s, q)
    decreases |s| - from
  {
    if from >= |s| then None
    else if BreakAt(s, from) then Some(from)
    else FindBreak(s, from + 1)
  }

  /** The end of the whitespace run that starts at `p` (the greedy `\s+`). */
  function SpaceRunEnd(s: string, p: nat): (e: nat)
    requires p <= |s|
    ensures p <= e <= |s|
    ensures forall i :: p <= i < e ==> IsSpace(s[i])
    ensures e < |s| ==> !IsSpace(s[e])
    decreases |s| - p
  {
    if p < |s| && IsSpace(s[p]) then SpaceRunEnd(s, p + 1) else p
  }

  /** What the sentence split produces: at least one piece; no piece contains a split
      point; every piece but the last ends a sentence; and no piece after the first
      starts with whitespace, because the split consumes the whole whitespace run. */
  ghost predicate WellFormedSentences(ss: seq<string>)
  {
    && |ss| >= 1
    && (forall i :: 0 <= i < |ss| ==> NoBreak(ss[i]))
    && (forall i :: 0 <= i < |ss| - 1 ==> EndsSentence(ss[i]))
    && (forall i :: 0 < i < |ss| ==> ss[i] == "" || !IsSpace(ss[i][0]))
  }

  /** `re.split(r'(?<=[.!?])\s+', text)`: cut at every maximal whitespace run that
      follows a sentence terminator, dropping the run. */
  function SplitSentences(text: string): (sentences: seq<string>)
    ensures WellFormedSentences(sentences)
    decreases |text|
  {
    match FindBreak(text, 0)
    case None => [text]
    case Some(p) =>
      var e := SpaceRunEnd(text, p);
      assert NoBreak(text[..p]) by {
        forall q | BreakAt(text[..p], q)
          ensures false
        {
          assert BreakAt(text, q);
        }
      }
      [text[..p]] + SplitSentences(text[e..])
  }

  lemma JoinStartsWithFirst(parts: seq<string>, sep: string)
    requires |parts| >= 1
    ensures StartsWith(Join(parts, sep), parts[0])
  {
    if |parts| > 1 {
      assert Join(parts, sep) == parts[0] + (sep + Join(parts[1..], sep));
    }
  }

  /** The first split point of `first + " " + rest` is the joining space, when `first`
      ends a sentence and holds no split point of its own. */
  lemma BreakAfterFirst(first: string, rest: string)
    requires EndsSentence(first) && NoBreak(first)
    ensures FindBreak(first + " " + rest, 0) == Some(|first|)
  {
    var text := first + " " + rest;
    var p := |first|;
    assert BreakAt(text, p) by {
      assert text[p - 1] == first[p - 1];
      assert text[p] == ' ';
    }
    forall q | 0 <= q < p
      ensures !BreakAt(text, q)
    {
      if 1 <= q {
        assert text[q - 1] == first[q - 1] && text[q] == first[q];
        assert !BreakAt(first, q);
      }
    }
  }

  /** The joining space is a whitespace run of length one when what follows it does not
      start with whitespace. */
  lemma SingleSpaceRun(first: string, rest: string)
    requires rest == "" || !IsSpace(rest[0])
    ensures SpaceRunEnd(first + " " + rest, |first|) == |first| + 1
  {
    var text := first + " " + rest;
    assert text[|first|] == ' ';
    if rest != "" {
      assert text[|first| + 1] == rest[0];
    }
  }

  lemma TailWellFormed(ss: seq<string>)
    requires WellFormedSentences(ss) && |ss| > 1
    ensures WellFormedSentences(ss[1..])
  {
    var t := ss[1..];
    assert forall i :: 0 <= i < |t| ==> t[i] == ss[i + 1];
  }

  /** Splitting a sentence, a joining space and a remainder that does not start with
      whitespace cuts off exactly that sentence. */
  lemma SplitAfterFirst(first: string, rest: string)
    requires EndsSentence(first) && NoBreak(first)
    requires rest == "" || !IsSpace(rest[0])
    ensures SplitSentences(first + " " + rest) == [first] + SplitSentences(rest)
  {
    var text := first + " " + rest;
    var p := |first|;
    BreakAfterFirst(first, rest);
    SingleSpaceRun(first, rest);
    assert text[..p] == first;
    assert text[p + 1..] == rest;
  }

  /** The sentences after the first, joined, do not start with whitespace. */
  lemma TailStart(ss: seq<string>)
    requires WellFormedSentences(ss) && |ss| > 1
    ensures var rest := Join(ss[1..], " "); rest == "" || !IsSpace(rest[0])
  {
    var rest := Join(ss[1..], " ");
    JoinStartsWithFirst(ss[1..], " ");
    if rest != "" {
      assert ss[1] != "" by {
        if |ss| > 2 { assert EndsSentence(ss[1]); }
      }
      assert rest[0] == ss[1][0];
    }
  }

  /** Sentences joined by single spaces split back into the same sentences. */
  lemma {:induction false} SentencesRoundTrip(ss: seq<string>)
    requires WellFormedSentences(ss)
    ensures SplitSentences(Join(ss, " ")) == ss
    decreases |ss|
  {
    var text := Join(ss, " ");
    if |ss| == 1 {
      assert FindBreak(text, 0).None? by {
        assert NoBreak(ss[0]);
      }
    } else {
      var first := ss[0];
      var rest := Join(ss[1..], " ");
      assert text == first + " " + rest;
      TailStart(ss);
      SplitAfterFirst(first, rest);
      TailWellFormed(ss);
      SentencesRoundTrip(ss[1..]);
      assert ss == [first] + ss[1..];
    }
  }

  /** `ss[0] + gaps[0] + ss[1] + ... + gaps[n - 2] + ss[n - 1]`. */
  function Interleave(ss: seq<string>, gaps: seq<string>): string
    requires |ss| >= 1 && |gaps| == |ss| - 1
    decreases |ss|
  {
    if |ss| == 1 then ss[0] else ss[0] + gaps[0] + Interleave(ss[1..], gaps[1..])
  }

  /** The whitespace runs the sentence split drops, in order: one non-empty run between
      each pair of neighbouring sentences. */
  function SentenceGaps(text: string): (gaps: seq<string>)
    ensures |gaps| == |SplitSentences(text)| - 1
    ensures forall i :: 0 <= i < |gaps| ==> |gaps[i]| > 0 && AllSpace(gaps[i])
    decreases |text|
  {
    match FindBreak(text, 0)
    case None => []
    case Some(p) =>
      var e := SpaceRunEnd(text, p);
      [text[p..e]] + SentenceGaps(text[e..])
  }

  /** Putting each dropped whitespace run back between its neighbouring sentences gives
      the text again: the split loses nothing but those runs. */
  lemma {:induction false} SentencesInterleave(text: string)
    ensures Interleave(SplitSentences(text), SentenceGaps(text)) == text
    decreases |text|
  {
    match FindBreak(text, 0)
    case None =>
    case Some(p) =>
      var e := SpaceRunEnd(text, p);
      var rest := text[e..];
      SentencesInterleave(rest);
      InterleaveCons(text[..p], text[p..e], SplitSentences(rest), SentenceGaps(rest));
      assert text == text[..p] + text[p..e] + rest;
  }

  lemma InterleaveCons(a: string, g: string, ss: seq<string>, gaps: seq<string>)
    requires |ss| >= 1 && |gaps| == |ss| - 1
    ensures Interleave([a] + ss, [g] + gaps) == a + g + Interleave(ss, gaps)
  {
    assert ([a] + ss)[1..] == ss;
    assert ([g] + gaps)[1..] == gaps;
  }

  /** The words of a list of strings, in order. */
  function FlatWords(xs: seq<string>): seq<string>
  {
    if |xs| == 0 then [] else Words(xs[0]) + FlatWords(xs[1..])
  }

  /** Splitting into sentences neither loses, adds nor reorders a word. */
  lemma {:induction false} SentencesKeepWords(text: string)
    ensures FlatWords(SplitSentences(text)) == Words(text)
    decreases |text|
  {
    match FindBreak(text, 0)
    case None =>
    case Some(p) =>
      var e := SpaceRunEnd(text, p);
      assert text == text[..p] + text[p..e] + text[e..];
      assert AllSpace(text[p..e]);
      WordsAcrossGap(text[..p], text[p..e], text[e..]);
      SentencesKeepWords(text[e..]);
      assert SplitSentences(text)[1..] == SplitSentences(text[e..]);
  }

  // ---------------------------------------------------------------------------
  // Word counts

  /** Total number of words over a list of sentences. */
  function WordSum(xs: seq<string>): nat
  {
    if |xs| == 0 then 0 else WordCount(xs[0]) + WordSum(xs[1..])
  }

  lemma {:induction false} WordSumAppend(a: seq<string>, b: seq<string>)
    ensures WordSum(a + b) == WordSum(a) + WordSum(b)
    decreases |a|
  {
    if |a| == 0 {
      assert a + b == b;
    } else {
      assert (a + b)[1..] == a[1..] + b;
      WordSumAppend(a[1..], b);
    }
  }

  /** The words of sentences joined by single spaces are the sentences' words in order,
      so the word count of a chunk is the sum of its sentences' word counts. */
  lemma {:induction false} JoinedWords(xs: seq<string>)
    ensures Words(Join(xs, " ")) == FlatWords(xs)
    ensures WordCount(Join(xs, " ")) == WordSum(xs)
    decreases |xs|
  {
    if |xs| == 0 {
    } else if |xs| == 1 {
      assert FlatWords(xs) == Words(xs[0]) + [];
    } else {
      WordsAcrossGap(xs[0], " ", Join(xs[1..], " "));
      JoinedWords(xs[1..]);
    }
    FlatWordsCount(xs);
  }

  lemma {:induction false} FlatWordsCount(xs: seq<string>)
    ensures |FlatWords(xs)| == WordSum(xs)
    decreases |xs|
  {
    if |xs| > 0 {
      FlatWordsCount(xs[1..]);
    }
  }

  // ---------------------------------------------------------------------------
  // Overlap: the suffix of a flushed chunk carried into the next one

  /** The last `k` elements of `xs`. */
  function Last(xs: seq<string>, k: nat): seq<string>
    requires k <= |xs|
  {
    xs[|xs| - k..]
  }

  /** The reversed loop over the flushed chunk: `k` sentences, holding `acc` words, have
      been carried so far; one more is taken while `acc` is below `overlap`. */
  function CarryCount(xs: seq<string>, overlap: int, k: nat, acc: int): (n: nat)
    requires k <= |xs|
    requires acc == WordSum(Last(xs, k))
    requires forall j :: 0 <= j < k ==> WordSum(Last(xs, j)) < overlap
    ensures k <= n <= |xs|
    ensures forall j :: 0 <= j < n ==> WordSum(Last(xs, j)) < overlap
    ensures n == |xs| || WordSum(Last(xs, n)) >= overlap
    decreases |xs| - k
  {
    if k == |xs| || acc >= overlap then k
    else
      assert Last(xs, k + 1)[1..] == Last(xs, k);
      CarryCount(xs, overlap, k + 1, acc + WordCount(xs[|xs| - 1 - k]))
  }

  /** The overlap carried from a flushed chunk `xs`: sentences are taken from the end
      while the carried word count is still below `overlap`, or all of `xs`. */
  function OverlapTail(xs: seq<string>, overlap: int): (t: seq<string>)
    ensures |t| <= |xs| && t == xs[|xs| - |t|..]
    ensures forall j :: 0 <= j < |t| ==> WordSum(Last(xs, j)) < overlap
    ensures |t| == |xs| || WordSum(t) >= overlap
    ensures |t| > 0 <==> |xs| > 0 && overlap > 0
  {
    assert Last(xs, 0) == [];
    Last(xs, CarryCount(xs, overlap, 0, 0))
  }

  /** The overlap is the only suffix with the properties `OverlapTail` promises. */
  lemma OverlapTailUnique(xs: seq<string>, overlap: int, n: nat)
    requires n <= |xs|
    requires forall j :: 0 <= j < n ==> WordSum(Last(xs, j)) < overlap
    requires n == |xs| || WordSum(Last(xs, n)) >= overlap
    ensures OverlapTail(xs, overlap) == Last(xs, n)
  {
    var t := OverlapTail(xs, overlap);
    assert t == Last(xs, |t|);
  }

  // ---------------------------------------------------------------------------
  // Greedy packing

  /** The sentences behind one emitted chunk: `carried` is the overlap taken over from the
      previous chunk, `added` the sentences that appear in no earlier chunk. */
  datatype Chunk = Chunk(carried: seq<string>, added: seq<string>)
  {
    function Sentences(): seq<string>
    {
      carried + added
    }
  }

  /** The added sentences of all chunks, in chunk order. */
  function AddedSentences(chunks: seq<Chunk>): seq<string>
  {
    if |chunks| == 0 then [] else AddedSentences(chunks[..|chunks| - 1]) + chunks[|chunks| - 1].added
  }

  ghost predicate EachAddsSentence(chunks: seq<Chunk>)
  {
    forall i :: 0 <= i < |chunks| ==> |chunks[i].added| > 0
  }

  /** The first chunk carries nothing and each later one starts with the overlap of the previous one. */
  ghost predicate CarriesOverlap(chunks: seq<Chunk>, overlap: int)
  {
    && (|chunks| > 0 ==> chunks[0].carried == [])
    && (forall i :: 0 < i < |chunks| ==>
          chunks[i].carried == OverlapTail(chunks[i - 1].Sentences(), overlap))
  }

  /** Each chunk but the last was closed because its next sentence would have taken it over `size` words. */
  ghost predicate ClosedWhenFull(chunks: seq<Chunk>, size: int)
    requires EachAddsSentence(chunks)
  {
    forall i :: 0 < i < |chunks| ==>
      WordSum(chunks[i - 1].Sentences()) + WordCount(chunks[i].added[0]) > size
  }

  /** No chunk was closed earlier than that: every sentence added to a non-empty chunk fitted. */
  ghost predicate NotClosedEarly(chunks: seq<Chunk>, size: int)
  {
    forall i, j :: 0 <= i < |chunks| && 1 <= j < |chunks[i].added| ==>
      WordSum(chunks[i].carried + chunks[i].added[..j]) + WordCount(chunks[i].added[j]) <= size
  }

  /** `chunks` is what `chunk_text`'s loop makes of `sentences`:
      - dropping the overlap, the chunks list every sentence exactly once, in order;
      - every chunk receives at least one new sentence, and the first carries nothing;
      - each later chunk starts with the overlap of the previous one;
      - a chunk was closed exactly when adding the next sentence would have taken it
        over `size` words, and not earlier. */
  ghost predicate ChunkingOf(sentences: seq<string>, size: int, overlap: int, chunks: seq<Chunk>)
  {
    && AddedSentences(chunks) == sentences
    && EachAddsSentence(chunks)
    && CarriesOverlap(chunks, overlap)
    && ClosedWhenFull(chunks, size)
    && NotClosedEarly(chunks, size)
  }

  lemma ChunkingStart(s: string, size: int, overlap: int)
    ensures ChunkingOf([s], size, overlap, [Chunk([], [s])])
  {
    assert AddedSentences([Chunk([], [s])]) == AddedSentences([]) + [s];
  }

  lemma AddedSentencesSnoc(chunks: seq<Chunk>, c: Chunk)
    ensures AddedSentences(chunks + [c]) == AddedSentences(chunks) + c.added
  {
    assert (chunks + [c])[..|chunks|] == chunks;
  }

  /** Growing the open chunk adds one sentence to the end of the new sentences. */
  lemma GrowAdded(chunks: seq<Chunk>, s: string)
    requires |chunks| > 0
    ensures var n := |chunks| - 1;
            AddedSentences(chunks[..n] + [Chunk(chunks[n].carried, chunks[n].added + [s])])
              == AddedSentences(chunks) + [s]
  {
    var n := |chunks| - 1;
    var grown := Chunk(chunks[n].carried, chunks[n].added + [s]);
    AddedSentencesSnoc(chunks[..n], grown);
    assert chunks[..n] + [chunks[n]] == chunks;
    AddedSentencesSnoc(chunks[..n], chunks[n]);
    SnocAssoc(AddedSentences(chunks[..n]), chunks[n].added, s);
  }

  lemma SnocAssoc(a: seq<string>, b: seq<string>, s: string)
    ensures a + (b + [s]) == (a + b) + [s]
  {
  }

  /** Growing the open chunk leaves the carried overlaps in place. */
  lemma GrowCarries(chunks: seq<Chunk>, overlap: int, s: string)
    requires |chunks| > 0 && CarriesOverlap(chunks, overlap)
    ensures var n := |chunks| - 1;
            CarriesOverlap(chunks[..n] + [Chunk(chunks[n].carried, chunks[n].added + [s])], overlap)
  {
    var n := |chunks| - 1;
    var chunks' := chunks[..n] + [Chunk(chunks[n].carried, chunks[n].added + [s])];
    forall i | 0 < i < |chunks'|
      ensures chunks'[i].carried == OverlapTail(chunks'[i - 1].Sentences(), overlap)
    {
      assert chunks'[i - 1] == chunks[i - 1];
      assert chunks'[i].carried == chunks[i].carried;
    }
  }

  /** Growing the open chunk leaves the reasons earlier chunks were closed in place. */
  lemma GrowClosed(chunks: seq<Chunk>, size: int, s: string)
    requires |chunks| > 0 && EachAddsSentence(chunks) && ClosedWhenFull(chunks, size)
    ensures var n := |chunks| - 1;
            var chunks' := chunks[..n] + [Chunk(chunks[n].carried, chunks[n].added + [s])];
            EachAddsSentence(chunks') && ClosedWhenFull(chunks', size)
  {
    var n := |chunks| - 1;
    var chunks' := chunks[..n] + [Chunk(chunks[n].carried, chunks[n].added + [s])];
    assert EachAddsSentence(chunks');
    forall i | 0 < i < |chunks'|
      ensures WordSum(chunks'[i - 1].Sentences()) + WordCount(chunks'[i].added[0]) > size
    {
      assert chunks'[i - 1] == chunks[i - 1];
      assert chunks'[i].added[0] == chunks[i].added[0];
    }
  }

  /** Growing the open chunk by a sentence that fits keeps every chunk open as long as it should be. */
  lemma GrowNotEarly(chunks: seq<Chunk>, size: int, s: string)
    requires |chunks| > 0 && NotClosedEarly(chunks, size)
    requires WordSum(chunks[|chunks| - 1].Sentences()) + WordCount(s) <= size
    ensures var n := |chunks| - 1;
            NotClosedEarly(chunks[..n] + [Chunk(chunks[n].carried, chunks[n].added + [s])], size)
  {
    var n := |chunks| - 1;
    var open := chunks[n];
    var grown := Chunk(open.carried, open.added + [s]);
    var chunks' := chunks[..n] + [grown];
    forall i, j | 0 <= i < |chunks'| && 1 <= j < |chunks'[i].added|
      ensures WordSum(chunks'[i].carried + chunks'[i].added[..j]) + WordCount(chunks'[i].added[j]) <= size
    {
      if i < n {
        assert chunks'[i] == chunks[i];
      } else if j == |open.added| {
        assert grown.added[..j] == open.added;
      } else {
        assert grown.added[..j] == open.added[..j];
        assert grown.added[j] == open.added[j];
      }
    }
  }

  /** Appending a sentence that still fits to the open chunk keeps the description. */
  lemma ChunkingAppend(ss: seq<string>, size: int, overlap: int, chunks: seq<Chunk>, s: string)
    requires |chunks| > 0 && ChunkingOf(ss, size, overlap, chunks)
    requires WordSum(chunks[|chunks| - 1].Sentences()) + WordCount(s) <= size
    ensures var open := chunks[|chunks| - 1];
            ChunkingOf(ss + [s], size, overlap, chunks[..|chunks| - 1] + [Chunk(open.carried, open.added + [s])])
  {
    var n := |chunks| - 1;
    GrowAdded(chunks, s);
    GrowCarries(chunks, overlap, s);
    GrowClosed(chunks, size, s);
    GrowNotEarly(chunks, size, s);
  }

  /** Opening a new chunk keeps the carried overlaps right when it starts with the overlap of the last one. */
  lemma OpenCarries(chunks: seq<Chunk>, overlap: int, next: Chunk)
    requires |chunks| > 0 && CarriesOverlap(chunks, overlap)
    requires next.carried == OverlapTail(chunks[|chunks| - 1].Sentences(), overlap)
    ensures CarriesOverlap(chunks + [next], overlap)
  {
    var chunks' := chunks + [next];
    forall i | 0 < i < |chunks'|
      ensures chunks'[i].carried == OverlapTail(chunks'[i - 1].Sentences(), overlap)
    {
      if i < |chunks| {
        assert chunks'[i - 1] == chunks[i - 1] && chunks'[i] == chunks[i];
      }
    }
  }

  /** Opening a new chunk because its first sentence did not fit keeps the closing reasons right. */
  lemma OpenClosed(chunks: seq<Chunk>, size: int, next: Chunk)
    requires |chunks| > 0 && EachAddsSentence(chunks) && ClosedWhenFull(chunks, size)
    requires |next.added| > 0
    requires WordSum(chunks[|chunks| - 1].Sentences()) + WordCount(next.added[0]) > size
    ensures EachAddsSentence(chunks + [next]) && ClosedWhenFull(chunks + [next], size)
  {
    var chunks' := chunks + [next];
    assert EachAddsSentence(chunks');
    forall i | 0 < i < |chunks'|
      ensures WordSum(chunks'[i - 1].Sentences()) + WordCount(chunks'[i].added[0]) > size
    {
      if i < |chunks| {
        assert chunks'[i - 1] == chunks[i - 1] && chunks'[i] == chunks[i];
      }
    }
  }

  /** A new chunk holding a single new sentence was not closed early. */
  lemma OpenNotEarly(chunks: seq<Chunk>, size: int, next: Chunk)
    requires NotClosedEarly(chunks, size) && |next.added| == 1
    ensures NotClosedEarly(chunks + [next], size)
  {
    var chunks' := chunks + [next];
    forall i, j | 0 <= i < |chunks'| && 1 <= j < |chunks'[i].added|
      ensures WordSum(chunks'[i].carried + chunks'[i].added[..j]) + WordCount(chunks'[i].added[j]) <= size
    {
      assert i < |chunks|;
      assert chunks'[i] == chunks[i];
    }
  }

  /** Closing the open chunk and starting a new one from its overlap and the sentence
      that did not fit keeps the description. */
  lemma ChunkingFlush(ss: seq<string>, size: int, overlap: int, chunks: seq<Chunk>, s: string)
    requires |chunks| > 0 && ChunkingOf(ss, size, overlap, chunks)
    requires WordSum(chunks[|chunks| - 1].Sentences()) + WordCount(s) > size
    ensures ChunkingOf(ss + [s], size, overlap,
              chunks + [Chunk(OverlapTail(chunks[|chunks| - 1].Sentences(), overlap), [s])])
  {
    var next := Chunk(OverlapTail(chunks[|chunks| - 1].Sentences(), overlap), [s]);
    AddedSentencesSnoc(chunks, next);
    OpenCarries(chunks, overlap, next);
    OpenClosed(chunks, size, next);
    OpenNotEarly(chunks, size, next);
  }

  /** One iteration that closes the open chunk `open` and starts the next one from its
      overlap and the sentence that did not fit. */
  lemma PackFlush(ss: seq<string>, size: int, overlap: int, done: seq<Chunk>, open: Chunk, s: string)
    requires ChunkingOf(ss, size, overlap, done + [open])
    requires WordSum(open.Sentences()) + WordCount(s) > size
    ensures ChunkingOf(ss + [s], size, overlap, (done + [open]) + [Chunk(OverlapTail(open.Sentences(), overlap), [s])])
  {
    ChunkingFlush(ss, size, overlap, done + [open], s);
  }

  /** One iteration that adds a sentence that fits to the open chunk `open`. */
  lemma PackAppend(ss: seq<string>, size: int, overlap: int, done: seq<Chunk>, open: Chunk, s: string)
    requires ChunkingOf(ss, size, overlap, done + [open])
    requires WordSum(open.Sentences()) + WordCount(s) <= size
    ensures ChunkingOf(ss + [s], size, overlap, done + [Chunk(open.carried, open.added + [s])])
  {
    var chunks := done + [open];
    ChunkingAppend(ss, size, overlap, chunks, s);
    assert chunks[..|chunks| - 1] == done;
  }

  /** The running word count after adding a sentence to a chunk. */
  lemma WordSumSnoc(xs: seq<string>, s: string)
    ensures WordSum(xs + [s]) == WordSum(xs) + WordCount(s)
  {
    WordSumAppend(xs, [s]);
    assert WordSum([s]) == WordCount(s) + WordSum([]);
  }

  /** One iteration of `chunk_text`'s main loop, for sentence `s` after the sentences
      `ss`. `open` is `current_chunk`, split into the sentences carried over and the ones
      added since, and `currentLength` is its word count, kept up to date as the source
      does rather than recomputed. */
  method PackStep(ss: seq<string>, s: string, size: int, overlap: int,
                  done: seq<Chunk>, open: Chunk, currentLength: int)
    returns (done': seq<Chunk>, open': Chunk, currentLength': int)
    requires (|ss| == 0 && done == [] && open == Chunk([], []))
             || (|open.added| > 0 && ChunkingOf(ss, size, overlap, done + [open]))
    requires currentLength == WordSum(open.Sentences())
    ensures |open'.added| > 0 && ChunkingOf(ss + [s], size, overlap, done' + [open'])
    ensures currentLength' == WordSum(open'.Sentences())
  {
    var sentenceLength := WordCount(s);
    if currentLength + sentenceLength > size && |open.Sentences()| > 0 {
      done', open', currentLength' := FlushOpen(ss, s, size, overlap, done, open);
    } else {
      done', open', currentLength' := ExtendOpen(ss, s, size, overlap, done, open, currentLength);
    }
  }

  /** The branch of the main loop that closes the open chunk `open`, because `s` does
      not fit, and starts the next one from its overlap and `s`. */
  method FlushOpen(ss: seq<string>, s: string, size: int, overlap: int, done: seq<Chunk>, open: Chunk)
    returns (done': seq<Chunk>, open': Chunk, currentLength': int)
    requires |open.added| > 0 && ChunkingOf(ss, size, overlap, done + [open])
    requires WordSum(open.Sentences()) + WordCount(s) > size
    ensures done' == done + [open] && open'.added == [s]
    ensures ChunkingOf(ss + [s], size, overlap, done' + [open'])
    ensures currentLength' == WordSum(open'.Sentences())
  {
    var overlapSentences, overlapLength := TakeOverlap(open.Sentences(), overlap);
    PackFlush(ss, size, overlap, done, open, s);
    WordSumSnoc(overlapSentences, s);
    done' := done + [open];
    open' := Chunk(overlapSentences, [s]);
    currentLength' := overlapLength + WordCount(s);
  }

  /** The branch of the main loop that adds `s` to the open chunk `open`, either because
      it fits or because `open` is still empty. */
  method ExtendOpen(ss: seq<string>, s: string, size: int, overlap: int,
                    done: seq<Chunk>, open: Chunk, currentLength: int)
    returns (done': seq<Chunk>, open': Chunk, currentLength': int)
    requires (|ss| == 0 && done == [] && open == Chunk([], []))
             || (|open.added| > 0 && ChunkingOf(ss, size, overlap, done + [open]))
    requires currentLength == WordSum(open.Sentences())
    requires currentLength + WordCount(s) <= size || |open.Sentences()| == 0
    ensures done' == done && open'.carried == open.carried && open'.added == open.added + [s]
    ensures ChunkingOf(ss + [s], size, overlap, done' + [open'])
    ensures currentLength' == WordSum(open'.Sentences())
  {
    if |open.added| == 0 {
      ChunkingStart(s, size, overlap);
      assert ss + [s] == [s];
    } else {
      PackAppend(ss, size, overlap, done, open, s);
    }
    WordSumSnoc(open.Sentences(), s);
    assert open.carried + (open.added + [s]) == open.Sentences() + [s];
    done' := done;
    open' := Chunk(open.carried, open.added + [s]);
    currentLength' := currentLength + WordCount(s);
  }

  /** `chunk_text`'s main loop over the sentences, and the final flush of a non-empty
      open chunk. */
  method PackSentences(sentences: seq<string>, size: int, overlap: int) returns (chunks: seq<Chunk>)
    ensures ChunkingOf(sentences, size, overlap, chunks)
    ensures |chunks| > 0 <==> |sentences| > 0
  {
    var done: seq<Chunk> := [];
    var open := Chunk([], []);
    var currentLength := 0;
    for i := 0 to |sentences|
      invariant i == 0 ==> done == [] && open == Chunk([], [])
      invariant i > 0 ==> |open.added| > 0 && ChunkingOf(sentences[..i], size, overlap, done + [open])
      invariant currentLength == WordSum(open.Sentences())
    {
      assert sentences[..i + 1] == sentences[..i] + [sentences[i]];
      done, open, currentLength := PackStep(sentences[..i], sentences[i], size, overlap, done, open, currentLength);
    }
    assert sentences[..|sentences|] == sentences;
    if |open.Sentences()| > 0 {
      chunks := done + [open];
    } else {
      chunks := done;
    }
  }

  /** The inner loop of `chunk_text`: walk the flushed chunk backwards, prepending
      sentences while fewer than `overlap` words have been carried. */
  method TakeOverlap(current: seq<string>, overlap: int) returns (carried: seq<string>, carriedLength: int)
    ensures carried == OverlapTail(current, overlap)
    ensures carriedLength == WordSum(carried)
  {
    carried := [];
    carriedLength := 0;
    var k := |current|;
    while k > 0 && carriedLength < overlap
      invariant 0 <= k <= |current|
      invariant carried == Last(current, |current| - k)
      invariant carriedLength == WordSum(carried)
      invariant forall j :: 0 <= j < |carried| ==> WordSum(Last(current, j)) < overlap
      decreases k
    {
      assert Last(current, |current| - k + 1) == [current[k - 1]] + carried;
      carried := [current[k - 1]] + carried;
      carriedLength := carriedLength + WordCount(current[k - 1]);
      k := k - 1;
    }
    OverlapTailUnique(current, overlap, |current| - k);
  }

  /** `chunk_size or settings.CHUNK_SIZE`: a missing or zero argument falls back to the
      default, any other value (a negative one included) is used as given. */
  function OrDefault(arg: Option<int>, default: int): (r: int)
    ensures arg.None? || arg == Some(0) ==> r == default
    ensures arg.Some? && arg.value != 0 ==> r == arg.value
  {
    match arg
    case Some(v) => if v != 0 then v else default
    case None => default
  }

  /** `chunk_text`: split into sentences, pack them, and join each chunk's sentences with
      single spaces. `groups` are the sentence lists the returned chunks were joined from. */
  method ChunkText(text: string, chunkSize: Option<int>, overlap: Option<int>)
    returns (chunks: seq<string>, groups: seq<Chunk>)
    ensures ChunkingOf(SplitSentences(text), OrDefault(chunkSize, Config.ChunkSize),
                       OrDefault(overlap, Config.ChunkOverlap), groups)
    ensures |chunks| == |groups| && |chunks| >= 1
    ensures forall i :: 0 <= i < |chunks| ==> chunks[i] == Join(groups[i].Sentences(), " ")
    ensures forall i :: 0 <= i < |chunks| ==> WordCount(chunks[i]) == WordSum(groups[i].Sentences())
  {
    var size := OrDefault(chunkSize, Config.ChunkSize);
    var carry := OrDefault(overlap, Config.ChunkOverlap);
    var sentences := SplitSentences(text);
    groups := PackSentences(sentences, size, carry);
    chunks := JoinChunks(groups);
  }

  /** The text of each chunk: its sentences joined with single spaces. */
  method JoinChunks(groups: seq<Chunk>) returns (chunks: seq<string>)
    ensures |chunks| == |groups|
    ensures forall i :: 0 <= i < |chunks| ==> chunks[i] == Join(groups[i].Sentences(), " ")
    ensures forall i :: 0 <= i < |chunks| ==> WordCount(chunks[i]) == WordSum(groups[i].Sentences())
  {
    chunks := [];
    for i := 0 to |groups|
      invariant |chunks| == i
      invariant forall k :: 0 <= k < i ==> chunks[k] == Join(groups[k].Sentences(), " ")
    {
      chunks := chunks + [Join(groups[i].Sentences(), " ")];
    }
    forall i | 0 <= i < |chunks|
      ensures WordCount(chunks[i]) == WordSum(groups[i].Sentences())
    {
      ChunkWordCount(groups[i].Sentences());
    }
  }

  lemma ChunkWordCount(xs: seq<string>)
    ensures WordCount(Join(xs, " ")) == WordSum(xs)
  {
    JoinedWords(xs);
  }

  /** A chunk that received two or more new sentences stays within `size` words: only the
      first new sentence of a chunk is added without a size check. */
  lemma ChunkWithinSize(sentences: seq<string>, size: int, overlap: int, chunks: seq<Chunk>, i: nat)
    requires ChunkingOf(sentences, size, overlap, chunks)
    requires i < |chunks| && |chunks[i].added| >= 2
    ensures WordSum(chunks[i].Sentences()) <= size
  {
    var c := chunks[i];
    var j := |c.added| - 1;
    assert c.carried + c.added == (c.carried + c.added[..j]) + [c.added[j]];
    WordSumAppend(c.carried + c.added[..j], [c.added[j]]);
  }

  /** With a positive overlap, every chunk after the first begins with a non-empty
      suffix of the previous chunk's sentences. */
  lemma OverlapIsSuffixOfPrevious(sentences: seq<string>, size: int, overlap: int, chunks: seq<Chunk>, i: nat)
    requires ChunkingOf(sentences, size, overlap, chunks)
    requires overlap > 0 && 0 < i < |chunks|
    ensures var prev := chunks[i - 1].Sentences();
            0 < |chunks[i].carried| <= |prev| && chunks[i].carried == prev[|prev| - |chunks[i].carried|..]
  {
  }

  /** `extract_key_concepts` post-processing: the reply is split at every comma and each
      piece stripped, keeping empty pieces. */
  function KeyConcepts(reply: string): (concepts: seq<string>)
    ensures |concepts| == multiset(reply)[','] + 1
    ensures var pieces := Split(reply, ",");
            && |concepts| == |pieces|
            && forall i :: 0 <= i < |concepts| ==> Trimmed(concepts[i]) && PaddedBy(pieces[i], concepts[i])
  {
    SplitCount(reply, ',');
    SplitStrip(reply, ",")
  }

  /** Concepts with no comma and no surrounding whitespace, listed comma-separated, are
      read back as the same list. */
  lemma KeyConceptsRoundTrip(concepts: seq<string>)
    requires |concepts| >= 1
    requires forall i :: 0 <= i < |concepts| ==> ',' !in concepts[i] && Trimmed(concepts[i])
    ensures KeyConcepts(Join(concepts, ",")) == concepts
  {
    SplitStripJoin(concepts, ',');
  }
}
