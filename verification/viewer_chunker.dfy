/**
 * The page-reader chunker (`splitTextIntoChunks` of the PDF viewer): white
 * space is collapsed, a short text is one chunk, and a long text is cut at
 * sentence ends into chunks of about `MaxChunk` characters, with over-long
 * sentences split at spaces.
 */
module ViewerChunker {
  import opened Text
  import opened Sentences

  const MinChunk: nat := 100
  const MaxChunk: nat := 200
  /** `maxChunkSize * 1.5`: texts shorter than this are never split. */
  const ShortLimit: nat := 300

  /** Where the piece of an over-long sentence that starts at `start` ends:
      the whole rest when it fits in `MaxChunk` characters, else the last
      space within `MaxChunk` characters when it lies more than `MinChunk`
      characters in, otherwise a hard cut. */
  function NextCut(t: string, start: nat): (e: nat)
    requires start < |t|
    ensures start < e <= |t| && e <= start + MaxChunk
    ensures |t| <= start + MaxChunk ==> e == |t|
    ensures e < |t| ==>
      || (t[e] == ' ' && start + MinChunk < e)
      || (e == start + MaxChunk && forall k :: start + MinChunk < k <= e ==> t[k] != ' ')
    ensures forall k :: e < k <= start + MaxChunk && k < |t| ==> t[k] != ' '
  {
    var end := if start + MaxChunk < |t| then start + MaxChunk else |t|;
    if end < |t| then
      var space := LastIndexOf(t, ' ', end);
      if space > start + MinChunk then space else end
    else end
  }

  /** The `sentenceParts` of an over-long sentence, from position `start` on. */
  function Pieces(t: string, start: nat): (r: seq<string>)
    requires start <= |t|
    ensures forall k :: 0 <= k < |r| ==> PieceOk(r[k])
    ensures start < |t| ==> r != []
    decreases |t| - start
  {
    if start == |t| then []
    else
      var e := NextCut(t, start);
      var x := Trim(t[start..e]);
      var rest := Pieces(t, e);
      PieceCons(x, rest);
      [x] + rest
  }

  predicate PieceOk(p: string)
  {
    |p| <= MaxChunk && IsTrimmed(p)
  }

  lemma PieceCons(x: string, rest: seq<string>)
    requires PieceOk(x) && forall k :: 0 <= k < |rest| ==> PieceOk(rest[k])
    ensures forall k :: 0 <= k < |[x] + rest| ==> PieceOk(([x] + rest)[k])
  {
  }

  /** Splitting an over-long sentence loses no non-space character and
      reorders none. */
  lemma {:induction false} PiecesContent(t: string, start: nat)
    requires start <= |t|
    ensures NonSpace(Flatten(Pieces(t, start))) == NonSpace(t[start..])
    decreases |t| - start
  {
    if start < |t| {
      var e := NextCut(t, start);
      var x := Trim(t[start..e]);
      var rest := Pieces(t, e);
      assert Pieces(t, start) == [x] + rest;
      PiecesContent(t, e);
      SliceJoinTail(t, start, e);
      ContentCons(x, t[start..e], rest, t[e..], t[start..]);
    }
  }

  lemma ContentCons(x: string, piece: string, rest: seq<string>, tail: string, whole: string)
    requires NonSpace(x) == NonSpace(piece) && NonSpace(Flatten(rest)) == NonSpace(tail)
    requires piece + tail == whole
    ensures NonSpace(Flatten([x] + rest)) == NonSpace(whole)
  {
    FlattenCons(x, rest);
    NonSpaceAppend(x, Flatten(rest));
    NonSpaceAppend(piece, tail);
  }

  /** `parts.filter(part => part.length > 0)`. */
  function NonEmptyParts(parts: seq<string>): (r: seq<string>)
    ensures |r| <= |parts|
    ensures forall k :: 0 <= k < |r| ==> r[k] != [] && r[k] in parts
    ensures forall x :: x in parts && x != [] ==> x in r
    ensures Flatten(r) == Flatten(parts)
    decreases |parts|
  {
    if parts == [] then []
    else
      var rest := NonEmptyParts(parts[1..]);
      assert forall x :: x in parts ==> x == parts[0] || x in parts[1..];
      if parts[0] == [] then rest
      else
        FlattenCons(parts[0], rest);
        assert forall k :: 1 <= k < 1 + |rest| ==> ([parts[0]] + rest)[k] == rest[k - 1];
        [parts[0]] + rest
  }

  /** The loop state: the chunks pushed so far and `currentChunk`. */
  datatype Acc = Acc(chunks: seq<string>, current: string)

  /** Pushes `currentChunk.trim()` when `currentChunk` is non-empty. */
  function Flush(a: Acc): seq<string>
  {
    if a.current != [] then a.chunks + [Trim(a.current)] else a.chunks
  }

  /** One iteration of the loop over the sentences. */
  function AddSentence(a: Acc, sentence: string): Acc
  {
    var t := Trim(sentence);
    if t == [] then a
    else if |t| > MaxChunk then Acc(Flush(a) + NonEmptyParts(Pieces(t, 0)), [])
    else if a.current != [] && |a.current| + |t| > MaxChunk then Acc(a.chunks + [Trim(a.current)], t)
    else Acc(a.chunks, if a.current != [] then a.current + " " + t else t)
  }

  /** The whole loop, sentence by sentence from the first. */
  function Fold(a: Acc, sentences: seq<string>): Acc
    decreases |sentences|
  {
    if sentences == [] then a else Fold(AddSentence(a, sentences[0]), sentences[1..])
  }

  /** The final push of a non-blank `currentChunk`. */
  function Finish(a: Acc): seq<string>
  {
    if a.current != [] && Trim(a.current) != [] then a.chunks + [Trim(a.current)] else a.chunks
  }

  /** `splitTextIntoChunks`: on the long path every chunk is non-blank,
      trimmed and at most `MaxChunk + 1` long, the sentences' content is kept
      in order, and, when no trimmed sentence is longer than `MaxChunk`, the
      chunks are the trimmed sentences joined by single spaces and packed
      greedily. */
  function SplitTextIntoChunks(text: string): (r: seq<string>)
    ensures text == [] <==> r == []
    ensures |Normalize(text)| >= ShortLimit ==>
      && AllOk(r)
      && NonSpace(Flatten(r)) == NonSpace(Flatten(SentencesOrWhole(Normalize(text))))
    ensures var ss := SentencesOrWhole(Normalize(text));
      |Normalize(text)| >= ShortLimit && (forall k :: 0 <= k < |ss| ==> |Trim(ss[k])| <= MaxChunk) ==>
        exists groups :: IsRuns(groups, Kept(ss)) && PackedGreedily(r, groups)
  {
    if text == [] then []
    else
      var clean := Normalize(text);
      if |clean| < ShortLimit then [clean]
      else
        var ss := SentencesOrWhole(clean);
        ChunkSentences(ss);
        NonSpaceEmptyIff(clean);
        SentencesHaveContent(clean);
        Finish(Fold(Acc([], []), ss))
  }

  /** A chunk of the long path: non-blank, trimmed, and at most one character
      over `MaxChunk` (the joining space). */
  predicate ChunkOk(c: string)
  {
    0 < |c| <= MaxChunk + 1 && IsTrimmed(c)
  }

  predicate AllOk(cs: seq<string>)
  {
    forall k :: 0 <= k < |cs| ==> ChunkOk(cs[k])
  }

  predicate AccOk(a: Acc)
  {
    AllOk(a.chunks) && (a.current == [] || ChunkOk(a.current))
  }

  /** The non-space content held by the loop state, in order. */
  function Content(a: Acc): string
  {
    NonSpace(Flatten(a.chunks)) + NonSpace(a.current)
  }

  lemma AllOkAppend(a: seq<string>, b: seq<string>)
    requires AllOk(a) && AllOk(b)
    ensures AllOk(a + b)
  {
    forall k | 0 <= k < |a + b|
      ensures ChunkOk((a + b)[k])
    {
      if k >= |a| {
        assert (a + b)[k] == b[k - |a|];
      }
    }
  }

  lemma FlushOk(a: Acc)
    requires AccOk(a)
    ensures AllOk(Flush(a))
  {
    if a.current != [] {
      assert Trim(a.current) == a.current;
      assert AllOk([a.current]);
      AllOkAppend(a.chunks, [a.current]);
    }
  }

  lemma PartsOk(t: string)
    ensures AllOk(NonEmptyParts(Pieces(t, 0)))
  {
    var ps := Pieces(t, 0);
    var r := NonEmptyParts(ps);
    forall k | 0 <= k < |r|
      ensures ChunkOk(r[k])
    {
      var j :| 0 <= j < |ps| && ps[j] == r[k];
      assert PieceOk(ps[j]);
    }
  }

  /** Appending a trimmed sentence to a chunk with one space between. */
  lemma JoinOk(cur: string, t: string)
    requires ChunkOk(cur) && t != [] && IsTrimmed(t) && |cur| + |t| <= MaxChunk
    ensures ChunkOk(cur + " " + t)
  {
    var c := cur + " " + t;
    assert c[0] == cur[0] && c[|c| - 1] == t[|t| - 1];
  }

  lemma {:induction false} AddSentenceOk(a: Acc, sentence: string)
    requires AccOk(a)
    ensures AccOk(AddSentence(a, sentence))
  {
    var t := Trim(sentence);
    if t == [] {
    } else if |t| > MaxChunk {
      FlushOk(a);
      PartsOk(t);
      AllOkAppend(Flush(a), NonEmptyParts(Pieces(t, 0)));
    } else if a.current != [] && |a.current| + |t| > MaxChunk {
      FlushOk(a);
    } else if a.current != [] {
      JoinOk(a.current, t);
    }
  }

  lemma ContentAppend(f: seq<string>, p: seq<string>)
    ensures NonSpace(Flatten(f + p)) == NonSpace(Flatten(f)) + NonSpace(Flatten(p))
  {
    FlattenAppend(f, p);
    NonSpaceAppend(Flatten(f), Flatten(p));
  }

  lemma FlushContent(a: Acc)
    ensures NonSpace(Flatten(Flush(a))) == Content(a)
  {
    if a.current != [] {
      FlattenSnoc(a.chunks, Trim(a.current));
      NonSpaceAppend(Flatten(a.chunks), Trim(a.current));
    } else {
      AppendNil(NonSpace(Flatten(a.chunks)));
    }
  }

  lemma JoinContent(cur: string, t: string)
    ensures NonSpace(cur + " " + t) == NonSpace(cur) + NonSpace(t)
  {
    NonSpaceAppend(cur + " ", t);
    NonSpaceAppend(cur, " ");
    assert NonSpace(" ") == [];
    AppendNil(NonSpace(cur));
  }

  lemma {:induction false} AddSentenceContent(a: Acc, sentence: string)
    ensures Content(AddSentence(a, sentence)) == Content(a) + NonSpace(sentence)
  {
    var t := Trim(sentence);
    var c := Content(a);
    var x := NonSpace(sentence);
    assert NonSpace(t) == x;
    if t == [] {
      AppendNil(c);
    } else if |t| > MaxChunk {
      var p := NonEmptyParts(Pieces(t, 0));
      PiecesContent(t, 0);
      FlushContent(a);
      ContentAppend(Flush(a), p);
      AppendNil(c + x);
    } else if a.current != [] && |a.current| + |t| > MaxChunk {
      FlushContent(a);
    } else if a.current != [] {
      JoinContent(a.current, t);
      AppendAssoc(NonSpace(Flatten(a.chunks)), NonSpace(a.current), x);
    } else {
      AppendNil(NonSpace(Flatten(a.chunks)));
    }
  }

  lemma {:induction false} FoldInvariant(a: Acc, sentences: seq<string>)
    requires AccOk(a)
    ensures AccOk(Fold(a, sentences))
    ensures Content(Fold(a, sentences)) == Content(a) + NonSpace(Flatten(sentences))
    decreases |sentences|
  {
    if sentences == [] {
      AppendNil(Content(a));
    } else {
      var b := AddSentence(a, sentences[0]);
      AddSentenceOk(a, sentences[0]);
      AddSentenceContent(a, sentences[0]);
      FoldInvariant(b, sentences[1..]);
      NonSpaceAppend(sentences[0], Flatten(sentences[1..]));
      AppendAssoc(Content(a), NonSpace(sentences[0]), NonSpace(Flatten(sentences[1..])));
    }
  }

  lemma FinishInvariant(a: Acc)
    requires AccOk(a)
    ensures AllOk(Finish(a))
    ensures NonSpace(Flatten(Finish(a))) == Content(a)
  {
    if a.current != [] {
      assert Trim(a.current) == a.current;
      assert Finish(a) == Flush(a);
      FlushOk(a);
    } else {
      assert Finish(a) == Flush(a);
    }
    FlushContent(a);
  }

  /** The sentences the loop keeps, in order: each one trimmed, the blank
      ones dropped. */
  function Kept(sentences: seq<string>): (r: seq<string>)
    ensures forall k :: 0 <= k < |r| ==> r[k] != []
    decreases |sentences|
  {
    if sentences == [] then []
    else
      var front := Kept(sentences[..|sentences| - 1]);
      var t := Trim(sentences[|sentences| - 1]);
      if t == [] then front else front + [t]
  }

  lemma KeptSnoc(done: seq<string>, s: string)
    ensures Kept(done + [s]) == if Trim(s) == [] then Kept(done) else Kept(done) + [Trim(s)]
  {
    assert (done + [s])[..|done|] == done;
  }

  /** `parts.join(' ')`. */
  function JoinSpaced(parts: seq<string>): string
    decreases |parts|
  {
    if parts == [] then []
    else if |parts| == 1 then parts[0]
    else JoinSpaced(parts[..|parts| - 1]) + " " + parts[|parts| - 1]
  }

  lemma JoinSpacedSnoc(g: seq<string>, t: string)
    requires g != []
    ensures JoinSpaced(g + [t]) == JoinSpaced(g) + " " + t
  {
    assert (g + [t])[..|g|] == g;
  }

  /** The chunks are the runs `groups` of kept sentences, each joined with
      single spaces, and every chunk but the last was closed only because the
      first sentence of the next run would have taken it past `MaxChunk`
      (the joining space is not counted). */
  predicate PackedGreedily(r: seq<string>, groups: seq<seq<string>>)
  {
    && |groups| == |r|
    && (forall k :: 0 <= k < |r| ==> groups[k] != [] && r[k] == JoinSpaced(groups[k]))
    && (forall k :: 0 <= k < |r| - 1 ==> groups[k + 1] != [] && |r[k]| + |groups[k + 1][0]| > MaxChunk)
  }

  /** The pushed chunks followed by `currentChunk` when it is non-empty. */
  function Open(a: Acc): seq<string>
  {
    if a.current != [] then a.chunks + [a.current] else a.chunks
  }

  /** What the loop has built from the sentences `done`: `groups` are the
      runs of kept sentences behind the pushed chunks and `currentChunk`,
      which is open as soon as any sentence has been kept. */
  predicate Packing(a: Acc, done: seq<string>, groups: seq<seq<string>>)
  {
    && AccOk(a)
    && (a.current != [] || (a.chunks == [] && Kept(done) == []))
    && IsRuns(groups, Kept(done))
    && PackedGreedily(Open(a), groups)
  }

  /** Closing the last chunk because `t` would overflow it, and opening a
      chunk with `t`. */
  lemma {:induction false} PackOpen(r: seq<string>, groups: seq<seq<string>>, t: string)
    requires PackedGreedily(r, groups) && r != [] && t != []
    requires |r[|r| - 1]| + |t| > MaxChunk
    ensures PackedGreedily(r + [t], groups + [[t]])
    ensures Concat(groups + [[t]]) == Concat(groups) + [t]
  {
    var r2 := r + [t];
    var next := groups + [[t]];
    ConcatAppend(groups, [[t]]);
    ConcatSingle([t]);
    forall k | 0 <= k < |r2|
      ensures next[k] != [] && r2[k] == JoinSpaced(next[k])
    {
      if k < |r| {
        assert next[k] == groups[k] && r2[k] == r[k];
      }
    }
    forall k | 0 <= k < |r2| - 1
      ensures next[k + 1] != [] && |r2[k]| + |next[k + 1][0]| > MaxChunk
    {
      assert r2[k] == r[k];
      if k < |r| - 1 {
        assert next[k + 1] == groups[k + 1];
      }
    }
  }

  /** Adding `t` to the last chunk, after one space. */
  lemma {:induction false} PackJoin(front: seq<string>, cur: string, groups: seq<seq<string>>, t: string)
      returns (next: seq<seq<string>>)
    requires PackedGreedily(front + [cur], groups)
    ensures PackedGreedily(front + [cur + " " + t], next)
    ensures Concat(next) == Concat(groups) + [t]
  {
    var r := front + [cur];
    var n := |r|;
    var head := groups[..n - 1];
    var last := groups[n - 1] + [t];
    next := head + [last];
    assert groups == head + [groups[n - 1]];
    ConcatAppend(head, [groups[n - 1]]);
    ConcatAppend(head, [last]);
    ConcatSingle(groups[n - 1]);
    ConcatSingle(last);
    JoinSpacedSnoc(groups[n - 1], t);
    var r2 := front + [cur + " " + t];
    forall k | 0 <= k < n
      ensures next[k] != [] && r2[k] == JoinSpaced(next[k])
    {
      if k < n - 1 {
        assert next[k] == groups[k] && r2[k] == r[k];
      }
    }
    forall k | 0 <= k < n - 1
      ensures next[k + 1] != [] && |r2[k]| + |next[k + 1][0]| > MaxChunk
    {
      assert r2[k] == r[k];
      if k + 1 < n - 1 {
        assert next[k + 1] == groups[k + 1];
      } else {
        assert next[k + 1][0] == groups[k + 1][0];
      }
    }
  }

  /** The loop step for a sentence that is not over-long, case by case. */
  lemma AddSentenceFits(a: Acc, s: string)
    requires |Trim(s)| <= MaxChunk
    ensures var t := Trim(s);
      var b := AddSentence(a, s);
      && (t == [] ==> b == a)
      && (t != [] && a.current == [] ==> b == Acc(a.chunks, t))
      && (t != [] && a.current != [] && |a.current| + |t| > MaxChunk ==> b == Acc(a.chunks + [Trim(a.current)], t))
      && (t != [] && a.current != [] && |a.current| + |t| <= MaxChunk ==> b == Acc(a.chunks, a.current + " " + t))
  {
  }

  /** A blank sentence changes nothing; a kept one that fits joins the open
      chunk, or closes it and opens the next when it would overflow. */
  lemma {:induction false} AddSentencePacks(a: Acc, done: seq<string>, groups: seq<seq<string>>, s: string)
      returns (next: seq<seq<string>>)
    requires |Trim(s)| <= MaxChunk
    requires Packing(a, done, groups)
    ensures Packing(AddSentence(a, s), done + [s], next)
  {
    var t := Trim(s);
    KeptSnoc(done, s);
    AddSentenceFits(a, s);
    if t == [] {
      next := groups;
    } else if a.current == [] {
      next := [[t]];
      PackFirst(a, done, s);
    } else if |a.current| + |t| > MaxChunk {
      next := groups + [[t]];
      PackOverflow(a, done, groups, s);
    } else {
      next := PackAppend(a, done, groups, s);
    }
  }

  lemma {:induction false} PackFirst(a: Acc, done: seq<string>, s: string)
    requires Trim(s) != [] && |Trim(s)| <= MaxChunk
    requires Packing(a, done, []) && a.current == []
    ensures Packing(AddSentence(a, s), done + [s], [[Trim(s)]])
  {
    var t := Trim(s);
    KeptSnoc(done, s);
    AddSentenceFits(a, s);
    ConcatSingle([t]);
    PackSingle(t);
    var b := AddSentence(a, s);
    assert b == Acc([], t) && Open(b) == [t];
    assert AccOk(b);
  }

  lemma PackSingle(t: string)
    requires t != []
    ensures PackedGreedily([t], [[t]])
  {
    assert JoinSpaced([t]) == t;
  }

  lemma {:induction false} PackOverflow(a: Acc, done: seq<string>, groups: seq<seq<string>>, s: string)
    requires Trim(s) != [] && |Trim(s)| <= MaxChunk
    requires Packing(a, done, groups) && a.current != [] && |a.current| + |Trim(s)| > MaxChunk
    ensures Packing(AddSentence(a, s), done + [s], groups + [[Trim(s)]])
  {
    var t := Trim(s);
    KeptSnoc(done, s);
    AddSentenceFits(a, s);
    AddSentenceOk(a, s);
    var b := AddSentence(a, s);
    assert Trim(a.current) == a.current;
    assert Open(b) == Open(a) + [t];
    PackOpen(Open(a), groups, t);
  }

  lemma {:induction false} PackAppend(a: Acc, done: seq<string>, groups: seq<seq<string>>, s: string)
      returns (next: seq<seq<string>>)
    requires Trim(s) != [] && |Trim(s)| <= MaxChunk
    requires Packing(a, done, groups) && a.current != [] && |a.current| + |Trim(s)| <= MaxChunk
    ensures Packing(AddSentence(a, s), done + [s], next)
  {
    var t := Trim(s);
    KeptSnoc(done, s);
    AddSentenceFits(a, s);
    AddSentenceOk(a, s);
    var b := AddSentence(a, s);
    assert Open(a) == a.chunks + [a.current];
    assert Open(b) == a.chunks + [a.current + " " + t];
    next := PackJoin(a.chunks, a.current, groups, t);
  }

  lemma {:induction false} FoldPacks(a: Acc, done: seq<string>, groups: seq<seq<string>>, sentences: seq<string>)
      returns (final: seq<seq<string>>)
    requires forall k :: 0 <= k < |sentences| ==> |Trim(sentences[k])| <= MaxChunk
    requires Packing(a, done, groups)
    ensures Packing(Fold(a, sentences), done + sentences, final)
    decreases |sentences|
  {
    if sentences == [] {
      assert done + sentences == done;
      final := groups;
    } else {
      var next := AddSentencePacks(a, done, groups, sentences[0]);
      final := FoldPacks(AddSentence(a, sentences[0]), done + [sentences[0]], next, sentences[1..]);
      ShiftFirst(done, sentences);
    }
  }

  /** The sentence loop and the final push, over any list of sentences: every
      chunk is non-blank, trimmed and at most `MaxChunk + 1` characters long,
      and the chunks hold exactly the non-space content of the sentences, in
      order. When no trimmed sentence is longer than `MaxChunk`, each chunk is
      a run of consecutive kept sentences joined by single spaces, and a chunk
      is closed only when the next sentence would not fit. */
  lemma ChunkSentences(sentences: seq<string>)
    ensures AllOk(Finish(Fold(Acc([], []), sentences)))
    ensures NonSpace(Flatten(Finish(Fold(Acc([], []), sentences)))) == NonSpace(Flatten(sentences))
    ensures (forall k :: 0 <= k < |sentences| ==> |Trim(sentences[k])| <= MaxChunk) ==>
      exists groups :: IsRuns(groups, Kept(sentences)) && PackedGreedily(Finish(Fold(Acc([], []), sentences)), groups)
  {
    var a := Fold(Acc([], []), sentences);
    FoldInvariant(Acc([], []), sentences);
    FinishInvariant(a);
    if forall k :: 0 <= k < |sentences| ==> |Trim(sentences[k])| <= MaxChunk {
      var groups := SentencesPack(sentences);
    }
  }

  lemma SentencesPack(sentences: seq<string>) returns (groups: seq<seq<string>>)
    requires forall k :: 0 <= k < |sentences| ==> |Trim(sentences[k])| <= MaxChunk
    ensures IsRuns(groups, Kept(sentences)) && PackedGreedily(Finish(Fold(Acc([], []), sentences)), groups)
  {
    assert Packing(Acc([], []), [], []);
    groups := FoldPacks(Acc([], []), [], [], sentences);
    assert [] + sentences == sentences;
    var a := Fold(Acc([], []), sentences);
    assert Packing(a, sentences, groups);
    if a.current != [] {
      assert Trim(a.current) == a.current;
    }
    assert Finish(a) == Open(a);
  }

  /** An empty text yields no chunk; a text whose collapsed form is shorter
      than `ShortLimit` yields that collapsed form alone, so a blank text
      yields one empty chunk. */
  lemma ShortTextChunks(text: string)
    ensures text == [] ==> SplitTextIntoChunks(text) == []
    ensures text != [] && |Normalize(text)| < ShortLimit ==> SplitTextIntoChunks(text) == [Normalize(text)]
    ensures text != [] && AllSpace(text) ==> SplitTextIntoChunks(text) == [""]
  {
  }

  /** What the chunks of a long text hold: when the text has a sentence end,
      everything from the first sentence up to the last terminator, and the
      words after the last terminator are dropped; otherwise the whole text. */
  lemma LongTextCoverage(text: string)
    requires |Normalize(text)| >= ShortLimit
    ensures var clean := Normalize(text);
      var content := NonSpace(Flatten(SplitTextIntoChunks(text)));
      && (HasSentenceEndFrom(clean, 0) ==> content == NonSpace(clean[TermEnd(clean, 0)..TailStart(clean)]))
      && (!HasSentenceEndFrom(clean, 0) ==> content == NonSpace(text))
  {
    SentencesContent(Normalize(text));
  }

  /** A text with any non-space character yields at least one non-blank chunk. */
  lemma NonBlankTextHasChunks(text: string)
    requires !AllSpace(text)
    ensures SplitTextIntoChunks(text) != []
    ensures !AllSpace(SplitTextIntoChunks(text)[0])
  {
    var clean := Normalize(text);
    var r := SplitTextIntoChunks(text);
    if |clean| >= ShortLimit {
      SentencesHaveContent(clean);
      assert r != [];
      assert ChunkOk(r[0]);
    }
  }
}
