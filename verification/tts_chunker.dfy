/**
 * The text-panel chunker (`splitIntoChunks` of the text-to-speech panel):
 * sentences are packed verbatim into chunks of at most `max` characters, and a
 * sentence longer than `max` is cut at its last space, else just after its last
 * comma, else hard at `max`, with both halves trimmed.
 */
module TtsChunker {
  import opened Text
  import opened Sentences

  /** The chunk length the panel asks for. */
  const PanelChunkLength: nat := 150

  /** No `c` at any index in `lo..hi` (inclusive) that lies inside `s`. */
  predicate NoneIn(s: string, c: char, lo: int, hi: int)
  {
    forall k :: lo <= k <= hi && 0 <= k < |s| ==> s[k] != c
  }

  /** The `breakPoint` for the remaining text `rem`: the whole of it when it
      fits; otherwise the last space at or before `max` (not at 0), else just
      after the last comma at or before `max` (not at 0), else `max`. */
  function BreakPoint(rem: string, max: nat): (bp: nat)
    requires max >= 1 && rem != []
    ensures 1 <= bp <= |rem| && bp <= max + 1
    ensures |rem| <= max ==> bp == |rem|
    ensures bp == max + 1 ==> rem[max] == ','
  {
    var b := if max < |rem| then max else |rem|;
    if b < |rem| then
      var lastSpace := LastIndexOf(rem, ' ', b);
      var lastComma := LastIndexOf(rem, ',', b);
      if lastSpace > 0 then lastSpace
      else if lastComma > 0 then lastComma + 1
      else b
    else b
  }

  /** Which cut an over-long text gets: the last space at or before `max`
      (but not at 0), else just after the last comma at or before `max` (but
      not at 0), else hard at `max`. */
  lemma BreakPointCases(rem: string, max: nat)
    requires max >= 1 && |rem| > max
    ensures var bp := BreakPoint(rem, max);
      || (bp <= max && rem[bp] == ' ' && NoneIn(rem, ' ', bp + 1, max))
      || (NoneIn(rem, ' ', 1, max) && 1 < bp && rem[bp - 1] == ',' && NoneIn(rem, ',', bp, max))
      || (NoneIn(rem, ' ', 1, max) && NoneIn(rem, ',', 1, max) && bp == max)
  {
  }

  /** A chunk obeys the length bound: at most `max` characters, or one more
      when the cut fell just after a comma at index `max`. */
  predicate WithinBound(c: string, max: nat)
  {
    |c| <= max || (|c| == max + 1 && c[max] == ',')
  }

  predicate AllWithin(cs: seq<string>, max: nat)
  {
    forall k :: 0 <= k < |cs| ==> WithinBound(cs[k], max)
  }

  lemma AllWithinAppend(a: seq<string>, b: seq<string>, max: nat)
    requires AllWithin(a, max) && AllWithin(b, max)
    ensures AllWithin(a + b, max)
  {
    forall k | 0 <= k < |a + b|
      ensures WithinBound((a + b)[k], max)
    {
      if k >= |a| {
        assert (a + b)[k] == b[k - |a|];
      }
    }
  }

  /** The piece cut off at the break point stays within the bound. */
  lemma {:induction false} PieceWithin(rem: string, max: nat)
    requires max >= 1 && rem != []
    ensures WithinBound(Trim(rem[..BreakPoint(rem, max)]), max)
  {
    var bp := BreakPoint(rem, max);
    var x := rem[..bp];
    var p := Trim(x);
    if |p| > max {
      assert bp == max + 1 && |p| == |x|;
      assert p == x;
    }
  }

  /** The inner `while` loop: the pieces of an over-long sentence. */
  function SplitLong(rem: string, max: nat): (r: seq<string>)
    requires max >= 1
    ensures AllWithin(r, max)
    ensures forall k :: 0 <= k < |r| ==> IsTrimmed(r[k])
    ensures rem != [] ==> r != []
    decreases |rem|
  {
    if rem == [] then []
    else
      var bp := BreakPoint(rem, max);
      var piece := Trim(rem[..bp]);
      var tail := Trim(rem[bp..]);
      assert |tail| < |rem| by {
        assert |tail| <= |rem[bp..]|;
      }
      var rest := SplitLong(tail, max);
      PieceWithin(rem, max);
      SingleWithin(piece, max);
      AllWithinAppend([piece], rest, max);
      TrimmedCons(piece, rest);
      [piece] + rest
  }

  lemma TrimmedCons(c: string, cs: seq<string>)
    requires IsTrimmed(c) && forall k :: 0 <= k < |cs| ==> IsTrimmed(cs[k])
    ensures forall k :: 0 <= k < |[c] + cs| ==> IsTrimmed(([c] + cs)[k])
  {
    forall k | 0 <= k < |[c] + cs|
      ensures IsTrimmed(([c] + cs)[k])
    {
      if k > 0 {
        assert ([c] + cs)[k] == cs[k - 1];
      }
    }
  }

  lemma SingleWithin(c: string, max: nat)
    requires WithinBound(c, max)
    ensures AllWithin([c], max)
  {
  }

  /** Splitting loses no non-space character and reorders none. */
  lemma {:induction false} SplitLongContent(rem: string, max: nat)
    requires max >= 1
    ensures NonSpace(Flatten(SplitLong(rem, max))) == NonSpace(rem)
    decreases |rem|
  {
    if rem != [] {
      var bp := BreakPoint(rem, max);
      var x := Trim(rem[..bp]);
      var tail := Trim(rem[bp..]);
      var rest := SplitLong(tail, max);
      SplitLongContent(tail, max);
      SliceJoinTail(rem, 0, bp);
      assert rem[0..] == rem && rem[0..bp] == rem[..bp];
      StepContent(x, rem[..bp], rest, rem[bp..], rem);
    }
  }

  lemma StepContent(x: string, piece: string, rest: seq<string>, tail: string, whole: string)
    requires NonSpace(x) == NonSpace(piece) && NonSpace(Flatten(rest)) == NonSpace(tail)
    requires piece + tail == whole
    ensures NonSpace(Flatten([x] + rest)) == NonSpace(whole)
  {
    FlattenCons(x, rest);
    NonSpaceAppend(x, Flatten(rest));
    NonSpaceAppend(piece, tail);
  }

  /** An over-long sentence that opens with two spaces and has no other space
      within `max` characters yields an empty first piece, which the panel
      later refuses as an empty chunk. */
  lemma EmptyFirstPiece(rem: string, max: nat)
    requires 2 <= max < |rem| && rem[0] == ' ' && rem[1] == ' ' && NoneIn(rem, ' ', 2, max)
    ensures SplitLong(rem, max)[0] == []
  {
    assert BreakPoint(rem, max) == 1;
    assert rem[..1] == " ";
  }

  /** The loop state: the chunks pushed so far and `currentChunk`. */
  datatype Acc = Acc(chunks: seq<string>, current: string)

  /** Pushes `currentChunk` when it is non-empty. */
  function Flush(a: Acc): seq<string>
  {
    if a.current != [] then a.chunks + [a.current] else a.chunks
  }

  /** One iteration of the loop over the sentences. */
  function AddSentence(a: Acc, sentence: string, max: nat): Acc
    requires max >= 1
  {
    if |sentence| > max then Acc(Flush(a) + SplitLong(sentence, max), [])
    else if |a.current| + |sentence| > max then Acc(Flush(a), sentence)
    else Acc(a.chunks, a.current + sentence)
  }

  function Fold(a: Acc, sentences: seq<string>, max: nat): Acc
    requires max >= 1
    decreases |sentences|
  {
    if sentences == [] then a else Fold(AddSentence(a, sentences[0], max), sentences[1..], max)
  }

  /** `splitIntoChunks(text, max)`: no chunk for empty text and at least one
      otherwise, each within the bound, the content of the pattern's sentences
      kept in order, and, when no sentence is longer than `max`, the sentences
      packed greedily into chunks of whole consecutive sentences. */
  function SplitIntoChunks(text: string, max: nat): (r: seq<string>)
    requires max >= 1
    ensures text == [] <==> r == []
    ensures AllWithin(r, max)
    ensures NonSpace(Flatten(r)) == NonSpace(Flatten(SentencesOrWhole(text)))
    ensures var ss := SentencesOrWhole(text);
      text != [] && (forall k :: 0 <= k < |ss| ==> |ss[k]| <= max) ==>
        exists groups :: IsRuns(groups, ss) && PackedGreedily(r, groups, max)
  {
    if text == [] then []
    else
      var ss := SentencesOrWhole(text);
      ChunksOfSentences(ss, max);
      SentencesNonEmpty(text);
      FoldLeavesSomething(Acc([], []), ss, max);
      Flush(Fold(Acc([], []), ss, max))
  }

  predicate AccOk(a: Acc, max: nat)
  {
    AllWithin(a.chunks, max) && |a.current| <= max
  }

  /** Everything the loop state holds, in order. */
  function Held(a: Acc): string
  {
    Flatten(a.chunks) + a.current
  }

  lemma FlushOk(a: Acc, max: nat)
    requires AccOk(a, max)
    ensures AllWithin(Flush(a), max)
  {
    if a.current != [] {
      assert AllWithin([a.current], max);
      AllWithinAppend(a.chunks, [a.current], max);
    }
  }

  lemma FlushHeld(a: Acc)
    ensures Flatten(Flush(a)) == Held(a)
  {
    if a.current != [] {
      FlattenSnoc(a.chunks, a.current);
    } else {
      AppendNil(Flatten(a.chunks));
    }
  }

  lemma AddSentenceOk(a: Acc, sentence: string, max: nat)
    requires max >= 1 && AccOk(a, max)
    ensures AccOk(AddSentence(a, sentence, max), max)
  {
    FlushOk(a, max);
    if |sentence| > max {
      AllWithinAppend(Flush(a), SplitLong(sentence, max), max);
    }
  }

  /** A sentence that fits is held verbatim; an over-long one keeps its
      non-space content. */
  lemma {:induction false} AddSentenceHeld(a: Acc, sentence: string, max: nat)
    requires max >= 1
    ensures var b := AddSentence(a, sentence, max);
      && (|sentence| <= max ==> Held(b) == Held(a) + sentence)
      && NonSpace(Held(b)) == NonSpace(Held(a)) + NonSpace(sentence)
  {
    var b := AddSentence(a, sentence, max);
    if |sentence| > max {
      var parts := SplitLong(sentence, max);
      SplitLongContent(sentence, max);
      FlushHeld(a);
      FlattenAppend(Flush(a), parts);
      AppendNil(Flatten(Flush(a) + parts));
      NonSpaceAppend(Held(a), Flatten(parts));
    } else {
      if |a.current| + |sentence| > max {
        FlushHeld(a);
      } else {
        AppendAssoc(Flatten(a.chunks), a.current, sentence);
      }
      NonSpaceAppend(Held(a), sentence);
    }
  }

  lemma {:induction false} FoldHeld(a: Acc, sentences: seq<string>, max: nat)
    requires max >= 1 && AccOk(a, max)
    ensures AccOk(Fold(a, sentences, max), max)
    ensures NonSpace(Held(Fold(a, sentences, max))) == NonSpace(Held(a)) + NonSpace(Flatten(sentences))
    ensures (forall k :: 0 <= k < |sentences| ==> |sentences[k]| <= max) ==>
      Held(Fold(a, sentences, max)) == Held(a) + Flatten(sentences)
    decreases |sentences|
  {
    if sentences == [] {
      AppendNil(Held(a));
      AppendNil(NonSpace(Held(a)));
    } else {
      var s := sentences[0];
      var b := AddSentence(a, s, max);
      AddSentenceOk(a, s, max);
      AddSentenceHeld(a, s, max);
      FoldHeld(b, sentences[1..], max);
      NonSpaceAppend(s, Flatten(sentences[1..]));
      AppendAssoc(NonSpace(Held(a)), NonSpace(s), NonSpace(Flatten(sentences[1..])));
      AppendAssoc(Held(a), s, Flatten(sentences[1..]));
    }
  }

  /** A non-empty sentence leaves something behind: a pushed chunk or a
      non-empty `currentChunk`. */
  lemma {:induction false} FoldLeavesSomething(a: Acc, sentences: seq<string>, max: nat)
    requires max >= 1
    requires a.chunks != [] || a.current != [] || (sentences != [] && sentences[0] != [])
    ensures Flush(Fold(a, sentences, max)) != []
    decreases |sentences|
  {
    if sentences != [] {
      var b := AddSentence(a, sentences[0], max);
      assert b.chunks != [] || b.current != [];
      FoldLeavesSomething(b, sentences[1..], max);
    }
  }

  /** The chunks are the runs `groups` of sentences, each joined verbatim,
      and every chunk but the last was closed only because the first sentence
      of the next run would have taken it past `max`. */
  predicate PackedGreedily(r: seq<string>, groups: seq<seq<string>>, max: nat)
  {
    && |groups| == |r|
    && (forall k :: 0 <= k < |r| ==> groups[k] != [] && r[k] == Flatten(groups[k]))
    && (forall k :: 0 <= k < |r| - 1 ==> groups[k + 1] != [] && |r[k]| + |groups[k + 1][0]| > max)
  }

  /** What the loop has built from the sentences `done`: `groups` are the
      runs behind the pushed chunks and `currentChunk`, which is open as soon
      as any sentence has been seen. */
  predicate Packing(a: Acc, done: seq<string>, groups: seq<seq<string>>, max: nat)
  {
    && (a.current != [] || (a.chunks == [] && done == []))
    && IsRuns(groups, done)
    && PackedGreedily(Flush(a), groups, max)
  }

  /** A sentence that fits either joins the open chunk or, when it would
      overflow it, closes it and opens the next. */
  lemma {:induction false} AddSentencePacks(a: Acc, done: seq<string>, groups: seq<seq<string>>, s: string, max: nat)
      returns (next: seq<seq<string>>)
    requires max >= 1 && 0 < |s| <= max
    requires Packing(a, done, groups, max)
    ensures Packing(AddSentence(a, s, max), done + [s], next, max)
  {
    var r := Flush(a);
    var b := AddSentence(a, s, max);
    FlattenSingle(s);
    ConcatSingle([s]);
    if a.current == [] {
      next := [[s]];
      assert b == Acc([], s);
      assert done + [s] == [s];
    } else if |a.current| + |s| > max {
      next := groups + [[s]];
      ConcatAppend(groups, [[s]]);
      assert b == Acc(r, s);
      var r2 := r + [s];
      assert Flush(b) == r2;
      forall k | 0 <= k < |r2|
        ensures next[k] != [] && r2[k] == Flatten(next[k])
      {
        if k < |r| {
          assert next[k] == groups[k] && r2[k] == r[k];
        }
      }
      forall k | 0 <= k < |r2| - 1
        ensures next[k + 1] != [] && |r2[k]| + |next[k + 1][0]| > max
      {
        assert r2[k] == r[k];
        if k < |r| - 1 {
          assert next[k + 1] == groups[k + 1];
        }
      }
    } else {
      var n := |r|;
      var front := groups[..n - 1];
      var last := groups[n - 1] + [s];
      next := front + [last];
      assert groups == front + [groups[n - 1]];
      ConcatAppend(front, [groups[n - 1]]);
      ConcatAppend(front, [last]);
      ConcatSingle(groups[n - 1]);
      ConcatSingle(last);
      assert Concat(next) == done + [s];
      FlattenSnoc(groups[n - 1], s);
      var r2 := a.chunks + [a.current + s];
      assert Flush(b) == r2;
      forall k | 0 <= k < n
        ensures next[k] != [] && r2[k] == Flatten(next[k])
      {
        if k < n - 1 {
          assert next[k] == groups[k] && r2[k] == r[k];
        }
      }
      forall k | 0 <= k < n - 1
        ensures next[k + 1] != [] && |r2[k]| + |next[k + 1][0]| > max
      {
        assert r2[k] == r[k];
        if k + 1 < n - 1 {
          assert next[k + 1] == groups[k + 1];
        } else {
          assert next[k + 1][0] == groups[k + 1][0];
        }
      }
    }
  }

  lemma {:induction false} FoldPacks(a: Acc, done: seq<string>, groups: seq<seq<string>>, sentences: seq<string>, max: nat)
      returns (final: seq<seq<string>>)
    requires max >= 1 && forall k :: 0 <= k < |sentences| ==> 0 < |sentences[k]| <= max
    requires Packing(a, done, groups, max)
    ensures Packing(Fold(a, sentences, max), done + sentences, final, max)
    decreases |sentences|
  {
    if sentences == [] {
      assert done + sentences == done;
      final := groups;
    } else {
      var next := AddSentencePacks(a, done, groups, sentences[0], max);
      final := FoldPacks(AddSentence(a, sentences[0], max), done + [sentences[0]], next, sentences[1..], max);
      ShiftFirst(done, sentences);
    }
  }

  /** Every chunk is within the bound, and the chunks hold the non-space
      content of the sentences in order. When no sentence is empty or longer
      than `max`, the chunks are runs of whole consecutive sentences, joined
      verbatim and packed greedily: a chunk is closed only when the next
      sentence would not fit. */
  lemma ChunksOfSentences(sentences: seq<string>, max: nat)
    requires max >= 1
    ensures var r := Flush(Fold(Acc([], []), sentences, max));
      && AllWithin(r, max)
      && NonSpace(Flatten(r)) == NonSpace(Flatten(sentences))
      && ((forall k :: 0 <= k < |sentences| ==> |sentences[k]| <= max) ==> Flatten(r) == Flatten(sentences))
      && ((forall k :: 0 <= k < |sentences| ==> 0 < |sentences[k]| <= max) ==>
            exists groups :: IsRuns(groups, sentences) && PackedGreedily(r, groups, max))
  {
    var a := Fold(Acc([], []), sentences, max);
    FoldHeld(Acc([], []), sentences, max);
    FlushOk(a, max);
    FlushHeld(a);
    if forall k :: 0 <= k < |sentences| ==> 0 < |sentences[k]| <= max {
      assert Packing(Acc([], []), [], [], max);
      var groups := FoldPacks(Acc([], []), [], [], sentences, max);
      assert [] + sentences == sentences;
      assert IsRuns(groups, sentences) && PackedGreedily(Flush(a), groups, max);
    }
  }

  /** Every sentence the pattern finds in a non-empty text is non-empty. */
  lemma SentencesNonEmpty(text: string)
    requires text != []
    ensures forall k :: 0 <= k < |SentencesOrWhole(text)| ==> 0 < |SentencesOrWhole(text)[k]|
  {
    var ss := SentencesOrWhole(text);
    forall k | 0 <= k < |ss|
      ensures 0 < |ss[k]|
    {
      if Matches(text) != [] {
        assert IsSentence(ss[k]);
      }
    }
  }

  /** A text without a sentence end that fits in one chunk is its own only
      chunk, white space and all. */
  lemma ShortUnterminatedText(text: string, max: nat)
    requires max >= 1 && text != [] && |text| <= max && !HasSentenceEndFrom(text, 0)
    ensures SplitIntoChunks(text, max) == [text]
  {
    MatchesEmptyIff(text, 0);
    assert SentencesOrWhole(text) == [text];
    assert Fold(Acc([], []), [text], max) == Fold(Acc([], text), [], max);
  }
}
