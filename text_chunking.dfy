/** `_split_text_into_chunks`, which the symptom, knowledge and guidelines servers
    each carry as an identical copy: text no longer than the limit is one chunk;
    otherwise the text is split into sentences and consecutive sentences are packed
    greedily, a new chunk starting only when the next sentence would push the
    running size (sentence lengths, spaces not counted) over the limit. */
module TextChunking {
  import opened Text
  import opened Optional

  // ---------------------------------------------------------------------------
  // Sentence splitting: `re.split(r'(?<=[.!?])\s+', text)`

  predicate IsTerminator(c: char)
  {
    c == '.' || c == '!' || c == '?'
  }

  /** The characters `\s` matches in a `str` pattern: those for which Python's
      `str.isspace` holds (tab to carriage return, the four information separators,
      space, next line, no-break space and the Unicode space separators). */
  predicate IsSpace(c: char)
  {
    || ('\t' <= c <= '\r')
    || ('\U{001C}' <= c <= ' ')
    || c == '\U{0085}' || c == '\U{00A0}' || c == '\U{1680}'
    || ('\U{2000}' <= c <= '\U{200A}')
    || c == '\U{2028}' || c == '\U{2029}' || c == '\U{202F}' || c == '\U{205F}' || c == '\U{3000}'
  }

  /** A split point: whitespace right after a sentence terminator. */
  predicate IsBreak(text: string, j: int)
  {
    0 < j < |text| && IsTerminator(text[j - 1]) && IsSpace(text[j])
  }

  /** The first split point at or after `from`. */
  function FindBreak(text: string, from: nat): (r: Option<nat>)
    ensures r.Some? ==> from <= r.value && IsBreak(text, r.value)
    ensures r.Some? ==> forall j :: from <= j < r.value ==> !IsBreak(text, j)
    ensures r.None? ==> forall j :: from <= j ==> !IsBreak(text, j)
    decreases |text| - from
  {
    if from >= |text| then None
    else if IsBreak(text, from) then Some(from)
    else FindBreak(text, from + 1)
  }

  /** The end of the run of whitespace starting at `j` (the greedy `\s+`). */
  function SkipSpaces(text: string, j: nat): (k: nat)
    requires j <= |text|
    ensures j <= k <= |text|
    ensures forall m :: j <= m < k ==> IsSpace(text[m])
    ensures k == |text| || !IsSpace(text[k])
    decreases |text| - j
  {
    if j < |text| && IsSpace(text[j]) then SkipSpaces(text, j + 1) else j
  }

  /** The sentence list: the pieces between split points, separators dropped. */
  function SplitSentences(text: string): (pieces: seq<string>)
    ensures |pieces| >= 1
    ensures pieces[0] <= text
    decreases |text|
  {
    match FindBreak(text, 1)
    case None => [text]
    case Some(j) =>
      var k := SkipSpaces(text, j);
      [text[..j]] + SplitSentences(text[k..])
  }

  /** The whitespace runs `SplitSentences` drops, one per split point, in order. */
  function Separators(text: string): (seps: seq<string>)
    ensures |seps| == |SplitSentences(text)| - 1
    decreases |text|
  {
    match FindBreak(text, 1)
    case None => []
    case Some(j) =>
      var k := SkipSpaces(text, j);
      [text[j..k]] + Separators(text[k..])
  }

  /** A non-empty run of whitespace. */
  predicate IsSpaceRun(s: string)
  {
    s != [] && forall m :: 0 <= m < |s| ==> IsSpace(s[m])
  }

  /** A string with no split point in it. */
  predicate NoBreak(s: string)
  {
    forall j :: 0 < j < |s| ==> !IsBreak(s, j)
  }

  /** Cutting a string at two points and gluing the parts back gives the string. */
  lemma ThreeParts(text: string, j: nat, k: nat)
    requires j <= k <= |text|
    ensures text[..j] + text[j..k] + text[k..] == text
  {
    assert text[..j] + text[j..k] == text[..k];
  }

  /** A string whose first character is whitespace. */
  predicate StartsWithSpace(s: string)
  {
    s != [] && IsSpace(s[0])
  }

  /** The split loses nothing but the separators: putting the separators back between
      the sentences gives the text again. */
  lemma {:induction false} SplitSentencesRoundTrip(text: string)
    ensures Interleave(SplitSentences(text), Separators(text)) == text
    decreases |text|
  {
    match FindBreak(text, 1)
    case None =>
    case Some(j) =>
      var k := SkipSpaces(text, j);
      var tail := text[k..];
      var rest := SplitSentences(tail);
      var restSeps := Separators(tail);
      SplitSentencesRoundTrip(tail);
      var pieces := [text[..j]] + rest;
      var seps := [text[j..k]] + restSeps;
      assert SplitSentences(text) == pieces && Separators(text) == seps;
      assert pieces[1..] == rest && seps[1..] == restSeps;
      assert Interleave(pieces, seps) == text[..j] + text[j..k] + Interleave(rest, restSeps);
      ThreeParts(text, j, k);
  }

  /** Each separator is a non-empty run of whitespace. */
  lemma {:induction false} SplitSentencesSeparators(text: string)
    ensures forall p :: 0 <= p < |Separators(text)| ==> IsSpaceRun(Separators(text)[p])
    decreases |text|
  {
    match FindBreak(text, 1)
    case None =>
    case Some(j) =>
      var k := SkipSpaces(text, j);
      var restSeps := Separators(text[k..]);
      SplitSentencesSeparators(text[k..]);
      var seps := [text[j..k]] + restSeps;
      assert Separators(text) == seps;
      assert text[j..k][0] == text[j];
      assert forall p :: 1 <= p < |seps| ==> seps[p] == restSeps[p - 1];
  }

  /** Each separator is a whole whitespace run (the greedy `\s+`): no sentence after
      the first starts with whitespace. */
  lemma {:induction false} SplitSentencesNoLeadingSpace(text: string)
    ensures forall p :: 1 <= p < |SplitSentences(text)| ==> !StartsWithSpace(SplitSentences(text)[p])
    decreases |text|
  {
    match FindBreak(text, 1)
    case None =>
    case Some(j) =>
      var k := SkipSpaces(text, j);
      var rest := SplitSentences(text[k..]);
      SplitSentencesNoLeadingSpace(text[k..]);
      var pieces := [text[..j]] + rest;
      assert SplitSentences(text) == pieces;
      if rest[0] != [] {
        assert rest[0][0] == text[k..][0] == text[k];
      }
      assert forall p :: 1 <= p < |pieces| ==> pieces[p] == rest[p - 1];
  }

  /** No sentence contains a split point: every break in the text was used. */
  lemma {:induction false} SplitSentencesNoBreak(text: string)
    ensures forall p :: 0 <= p < |SplitSentences(text)| ==> NoBreak(SplitSentences(text)[p])
    decreases |text|
  {
    var pieces := SplitSentences(text);
    match FindBreak(text, 1)
    case None =>
      forall m ensures !IsBreak(text, m) {
        if m >= 1 {
          assert 1 <= m;
        }
      }
    case Some(j) =>
      var k := SkipSpaces(text, j);
      var rest := SplitSentences(text[k..]);
      SplitSentencesNoBreak(text[k..]);
      assert pieces == [text[..j]] + rest;
      forall m ensures !IsBreak(text[..j], m) {
        if IsBreak(text[..j], m) {
          assert text[..j][m - 1] == text[m - 1] && text[..j][m] == text[m];
          assert 1 <= m < j && IsBreak(text, m);
          assert false;
        }
      }
      forall p | 0 <= p < |pieces|
        ensures NoBreak(pieces[p])
      {
        if p > 0 {
          assert pieces[p] == rest[p - 1];
        }
      }
  }

  /** A sentence that ends with `.`, `!` or `?`. */
  predicate EndsWithTerminator(sentence: string)
  {
    sentence != [] && IsTerminator(sentence[|sentence| - 1])
  }

  /** Every sentence but the last ends with its terminator: the split keeps the
      punctuation with the sentence and drops only the whitespace after it. */
  lemma {:induction false} SplitSentencesTerminated(text: string)
    ensures forall p :: 0 <= p < |SplitSentences(text)| - 1 ==> EndsWithTerminator(SplitSentences(text)[p])
    decreases |text|
  {
    var pieces := SplitSentences(text);
    match FindBreak(text, 1)
    case None =>
    case Some(j) =>
      var k := SkipSpaces(text, j);
      var rest := SplitSentences(text[k..]);
      SplitSentencesTerminated(text[k..]);
      assert pieces == [text[..j]] + rest;
      assert text[..j][j - 1] == text[j - 1];
      forall p | 0 <= p < |pieces| - 1
        ensures EndsWithTerminator(pieces[p])
      {
        if p > 0 {
          assert pieces[p] == rest[p - 1];
        }
      }
  }

  /** The sentences together are no longer than the text: only separators are dropped. */
  lemma {:induction false} SplitSentencesLength(text: string)
    ensures SumLen(SplitSentences(text)) <= |text|
    decreases |text|
  {
    match FindBreak(text, 1)
    case None =>
      assert SumLen([text]) == SumLen([]) + |text|;
    case Some(j) =>
      var k := SkipSpaces(text, j);
      var rest := SplitSentences(text[k..]);
      SplitSentencesLength(text[k..]);
      assert SplitSentences(text) == [text[..j]] + rest;
      SumLenAppend([text[..j]], rest);
      assert SumLen([text[..j]]) == SumLen([]) + j;
  }

  // ---------------------------------------------------------------------------
  // Greedy packing

  /** The sentences of a list of groups, in order. */
  ghost function Flatten(groups: seq<seq<string>>): seq<string>
  {
    if groups == [] then [] else groups[0] + Flatten(groups[1..])
  }

  lemma {:induction false} FlattenAppend(groups: seq<seq<string>>, g: seq<string>)
    ensures Flatten(groups + [g]) == Flatten(groups) + g
  {
    if groups == [] {
      assert [g][1..] == [];
    } else {
      assert (groups + [g])[1..] == groups[1..] + [g];
      FlattenAppend(groups[1..], g);
    }
  }

  /** The shape constraints of a greedy packing: every run non-empty, every run of two
      or more sentences within the limit, and each run after the first started only
      because the previous run plus its first sentence would exceed the limit. */
  ghost predicate Packed(groups: seq<seq<string>>, maxChunkSize: int)
  {
    && (forall k :: 0 <= k < |groups| ==> groups[k] != [])
    && (forall k :: 0 <= k < |groups| && |groups[k]| >= 2 ==> SumLen(groups[k]) <= maxChunkSize)
    && (forall k :: 0 < k < |groups| ==> StartsOnOverflow(groups, k, maxChunkSize))
  }

  /** Run `k` was started because the previous run plus its first sentence would
      exceed the limit. */
  ghost predicate StartsOnOverflow(groups: seq<seq<string>>, k: int, maxChunkSize: int)
    requires 0 < k < |groups|
  {
    groups[k] != [] ==> SumLen(groups[k - 1]) + |groups[k][0]| > maxChunkSize
  }

  /** `groups` is what the greedy loop makes of `sentences`: a packing of exactly
      those sentences, in order. */
  ghost predicate GreedyPacking(sentences: seq<string>, maxChunkSize: int, groups: seq<seq<string>>)
  {
    Flatten(groups) == sentences && Packed(groups, maxChunkSize)
  }

  /** Closing the run being built keeps the packing's shape. */
  lemma PackedAppend(groups: seq<seq<string>>, g: seq<string>, maxChunkSize: int)
    requires Packed(groups, maxChunkSize)
    requires g != [] && (|g| >= 2 ==> SumLen(g) <= maxChunkSize)
    requires groups != [] ==> SumLen(groups[|groups| - 1]) + |g[0]| > maxChunkSize
    ensures Packed(groups + [g], maxChunkSize)
  {
    var gs := groups + [g];
    forall k | 0 < k < |gs|
      ensures StartsOnOverflow(gs, k, maxChunkSize)
    {
      if k < |groups| {
        assert StartsOnOverflow(groups, k, maxChunkSize);
        assert gs[k - 1] == groups[k - 1] && gs[k] == groups[k];
      }
    }
  }

  /** The runs of a packing flatten to nothing exactly when there are none. */
  lemma {:induction false} FlattenEmpty(groups: seq<seq<string>>, maxChunkSize: int)
    requires Packed(groups, maxChunkSize)
    ensures Flatten(groups) == [] <==> groups == []
  {
    if groups != [] {
      assert groups[0] != [];
      assert |Flatten(groups)| >= |groups[0]|;
    }
  }

  /** The packing loop of `_split_text_into_chunks`. The ghost `groups` are the
      sentence runs that the chunks join with single spaces. */
  method PackSentences(sentences: seq<string>, maxChunkSize: int)
    returns (chunks: seq<string>, ghost groups: seq<seq<string>>)
    ensures GreedyPacking(sentences, maxChunkSize, groups)
    ensures chunks == JoinAll(groups)
    ensures |sentences| > 0 ==> |chunks| > 0
  {
    chunks := [];
    groups := [];
    ghost var done: seq<string> := [];
    var currentChunk: seq<string> := [];
    var currentSize := 0;
    for i := 0 to |sentences|
      invariant PackInvariant(sentences, i, maxChunkSize, chunks, groups, done, currentChunk, currentSize)
    {
      ghost var before := PackState(chunks, groups, done, currentChunk, currentSize);
      var sentence := sentences[i];
      var sentenceSize := |sentence|;
      if currentSize + sentenceSize > maxChunkSize && currentChunk != [] {
        chunks := chunks + [JoinSpace(currentChunk)];
        groups := groups + [currentChunk];
        done := done + currentChunk;
        currentChunk := [sentence];
        currentSize := sentenceSize;
      } else {
        currentChunk := currentChunk + [sentence];
        currentSize := currentSize + sentenceSize;
      }
      PackStep(sentences, i, maxChunkSize, before, PackState(chunks, groups, done, currentChunk, currentSize));
    }
    ghost var (closedChunks, closedGroups) := (chunks, groups);
    if currentChunk != [] {
      chunks := chunks + [JoinSpace(currentChunk)];
      groups := groups + [currentChunk];
    }
    FinishPacking(sentences, maxChunkSize, closedChunks, closedGroups, done, currentChunk, currentSize, chunks, groups);
  }

  /** The variables of the packing loop: the closed runs `groups` (flattening to
      `done`) with their joined `chunks`, and the run being built with its size. */
  datatype PackState = PackState(chunks: seq<string>, groups: seq<seq<string>>, done: seq<string>,
                                 current: seq<string>, size: int)

  /** The state of the packing loop after `i` sentences. */
  ghost predicate PackInvariant(sentences: seq<string>, i: int, maxChunkSize: int, chunks: seq<string>,
                                groups: seq<seq<string>>, done: seq<string>, current: seq<string>, size: int)
  {
    && 0 <= i <= |sentences|
    && chunks == JoinAll(groups)
    && done == Flatten(groups)
    && done + current == sentences[..i]
    && Packed(groups, maxChunkSize)
    && size == SumLen(current)
    && (|current| >= 2 ==> size <= maxChunkSize)
    && (i > 0 ==> current != [])
    && (groups != [] ==> current != [] && SumLen(groups[|groups| - 1]) + |current[0]| > maxChunkSize)
  }

  /** One iteration of the packing loop on sentence `i`: either the run being built
      overflows and is closed, the sentence starting a new run, or the sentence joins it. */
  ghost predicate PackTransition(sentences: seq<string>, i: nat, maxChunkSize: int, st: PackState, st': PackState)
    requires i < |sentences|
  {
    if st.size + |sentences[i]| > maxChunkSize && st.current != [] then
      st' == PackState(st.chunks + [JoinSpace(st.current)], st.groups + [st.current],
                       st.done + st.current, [sentences[i]], |sentences[i]|)
    else
      st' == st.(current := st.current + [sentences[i]], size := st.size + |sentences[i]|)
  }

  /** Each iteration keeps the loop invariant. */
  lemma PackStep(sentences: seq<string>, i: nat, maxChunkSize: int, st: PackState, st': PackState)
    requires i < |sentences|
    requires PackInvariant(sentences, i, maxChunkSize, st.chunks, st.groups, st.done, st.current, st.size)
    requires PackTransition(sentences, i, maxChunkSize, st, st')
    ensures PackInvariant(sentences, i + 1, maxChunkSize, st'.chunks, st'.groups, st'.done, st'.current, st'.size)
  {
    PrefixStep(sentences, i, st.done, st.current);
    if st.size + |sentences[i]| > maxChunkSize && st.current != [] {
      FlattenAppend(st.groups, st.current);
      PackedAppend(st.groups, st.current, maxChunkSize);
      assert (st.groups + [st.current])[..|st.groups|] == st.groups;
      assert SumLen([sentences[i]]) == SumLen([]) + |sentences[i]|;
    } else {
      assert (st.current + [sentences[i]])[..|st.current|] == st.current;
    }
  }

  /** After the loop: flushing the last run gives the greedy packing of all sentences. */
  lemma FinishPacking(sentences: seq<string>, maxChunkSize: int, chunks: seq<string>,
                      groups: seq<seq<string>>, done: seq<string>, current: seq<string>, size: int,
                      finalChunks: seq<string>, finalGroups: seq<seq<string>>)
    requires PackInvariant(sentences, |sentences|, maxChunkSize, chunks, groups, done, current, size)
    requires current != [] ==> finalChunks == chunks + [JoinSpace(current)] && finalGroups == groups + [current]
    requires current == [] ==> finalChunks == chunks && finalGroups == groups
    ensures GreedyPacking(sentences, maxChunkSize, finalGroups)
    ensures finalChunks == JoinAll(finalGroups)
    ensures |sentences| > 0 ==> |finalChunks| > 0
  {
    assert sentences[..|sentences|] == sentences;
    if current != [] {
      FlattenAppend(groups, current);
      PackedAppend(groups, current, maxChunkSize);
      assert (groups + [current])[..|groups|] == groups;
    }
    FlattenEmpty(finalGroups, maxChunkSize);
  }

  /** Every run joined with single spaces, in order. */
  ghost function JoinAll(groups: seq<seq<string>>): (chunks: seq<string>)
    ensures |chunks| == |groups|
  {
    if groups == [] then [] else JoinAll(groups[..|groups| - 1]) + [JoinSpace(groups[|groups| - 1])]
  }

  /** Chunk `k` is run `k` joined with single spaces. */
  lemma {:induction false} JoinAllAt(groups: seq<seq<string>>, k: nat)
    requires k < |groups|
    ensures JoinAll(groups)[k] == JoinSpace(groups[k])
  {
    if k < |groups| - 1 {
      var init := groups[..|groups| - 1];
      JoinAllAt(init, k);
      assert init[k] == groups[k];
    }
  }

  /** One sentence more: appended to the run being built, or after the closed runs. */
  lemma PrefixStep(sentences: seq<string>, i: nat, done: seq<string>, current: seq<string>)
    requires i < |sentences| && done + current == sentences[..i]
    ensures done + (current + [sentences[i]]) == sentences[..i + 1]
    ensures (done + current) + [sentences[i]] == sentences[..i + 1]
  {
    assert sentences[..i + 1] == sentences[..i] + [sentences[i]];
  }

  /** `_split_text_into_chunks(text, max_chunk_size)`; the limit defaults to 1000. */
  method SplitTextIntoChunks(text: string, maxChunkSize: int := 1000)
    returns (chunks: seq<string>, ghost groups: seq<seq<string>>)
    ensures chunks != []
    ensures |text| <= maxChunkSize ==> chunks == [text]
    ensures |text| > maxChunkSize ==>
      && GreedyPacking(SplitSentences(text), maxChunkSize, groups)
      && chunks == JoinAll(groups)
  {
    if |text| <= maxChunkSize {
      chunks := [text];
      groups := [[text]];
      return;
    }
    var sentences := SplitSentences(text);
    chunks, groups := PackSentences(sentences, maxChunkSize);
  }

  // ---------------------------------------------------------------------------
  // Properties of the packing

  /** What a chunk of the packing is: its run joined with single spaces, so a
      single-sentence chunk is that sentence (however long), and a chunk of two or
      more sentences is at most the limit plus one space per sentence boundary. */
  lemma ChunkShape(sentences: seq<string>, maxChunkSize: int, chunks: seq<string>,
                   groups: seq<seq<string>>, k: nat)
    requires GreedyPacking(sentences, maxChunkSize, groups) && chunks == JoinAll(groups)
    requires k < |groups|
    ensures chunks[k] == JoinSpace(groups[k])
    ensures |groups[k]| == 1 ==> chunks[k] == groups[k][0]
    ensures |groups[k]| >= 2 ==> |chunks[k]| <= maxChunkSize + |groups[k]| - 1
  {
    JoinAllAt(groups, k);
    JoinSpaceLength(groups[k]);
  }

  /** A greedy packing without its first run packs the remaining sentences greedily. */
  lemma TailIsGreedy(sentences: seq<string>, maxChunkSize: int, gs: seq<seq<string>>)
    requires GreedyPacking(sentences, maxChunkSize, gs) && gs != []
    ensures GreedyPacking(sentences[|gs[0]|..], maxChunkSize, gs[1..])
  {
    var tail := gs[1..];
    assert sentences == gs[0] + Flatten(tail);
    assert sentences[|gs[0]|..] == Flatten(tail);
    forall k | 0 < k < |tail|
      ensures StartsOnOverflow(tail, k, maxChunkSize)
    {
      assert StartsOnOverflow(gs, k + 1, maxChunkSize);
      assert tail[k - 1] == gs[k] && tail[k] == gs[k + 1];
    }
  }

  /** A run `h` of two or more sentences at the head of the list, within the limit,
      is no longer than the greedy first run: the sentence right after that run
      already overflowed. */
  lemma FirstRunIsLongest(sentences: seq<string>, maxChunkSize: int, gs: seq<seq<string>>, h: seq<string>)
    requires GreedyPacking(sentences, maxChunkSize, gs) && gs != []
    requires h <= sentences && |h| >= 2 && SumLen(h) <= maxChunkSize
    ensures |h| <= |gs[0]|
  {
    var g := gs[0];
    if |g| < |h| {
      assert sentences == g + Flatten(gs[1..]);
      assert |Flatten(gs[1..])| > 0;
      FlattenEmpty(gs[1..], maxChunkSize) by {
        TailIsGreedy(sentences, maxChunkSize, gs);
      }
      assert gs[1..][0] == gs[1];
      assert Flatten(gs[1..]) == gs[1] + Flatten(gs[2..]) by {
        assert gs[1..][1..] == gs[2..];
      }
      assert StartsOnOverflow(gs, 1, maxChunkSize);
      assert gs[1][0] == sentences[|g|] == h[|g|];
      var front := h[..|g| + 1];
      assert front[..|g|] == g;
      assert SumLen(front) == SumLen(g) + |gs[1][0]|;
      SumLenPrefix(h, |g| + 1);
      assert false;
    }
  }

  /** A prefix of a sentence list is no longer than the list. */
  lemma SumLenPrefix(parts: seq<string>, n: nat)
    requires n <= |parts|
    ensures SumLen(parts[..n]) <= SumLen(parts)
  {
    SumLenAppend(parts[..n], parts[n..]);
    assert parts[..n] + parts[n..] == parts;
  }

  /** The greedy packing of a sentence list is unique: the loop's result is
      determined by `GreedyPacking` alone. */
  lemma {:induction false} GreedyPackingUnique(sentences: seq<string>, maxChunkSize: int,
                                               gs: seq<seq<string>>, hs: seq<seq<string>>)
    requires GreedyPacking(sentences, maxChunkSize, gs)
    requires GreedyPacking(sentences, maxChunkSize, hs)
    ensures gs == hs
    decreases |sentences|
  {
    FlattenEmpty(gs, maxChunkSize);
    FlattenEmpty(hs, maxChunkSize);
    if sentences != [] {
      var g, h := gs[0], hs[0];
      assert sentences == g + Flatten(gs[1..]) == h + Flatten(hs[1..]);
      if |g| >= 2 {
        FirstRunIsLongest(sentences, maxChunkSize, hs, g);
      }
      if |h| >= 2 {
        FirstRunIsLongest(sentences, maxChunkSize, gs, h);
      }
      assert |g| == |h|;
      assert g == sentences[..|g|] == h;
      TailIsGreedy(sentences, maxChunkSize, gs);
      TailIsGreedy(sentences, maxChunkSize, hs);
      GreedyPackingUnique(sentences[|g|..], maxChunkSize, gs[1..], hs[1..]);
      assert gs == [g] + gs[1..] && hs == [h] + hs[1..];
    }
  }
}
