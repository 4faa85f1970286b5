/**
 * The sentence pattern `/[^.!?]+[.!?]+/g` shared by both chunkers, and the
 * `text.match(pattern) || [text]` fallback around it.
 *
 * A global match scans left to right. At a terminator no match can start, so
 * the scan moves on. At any other character the greedy `[^.!?]+` takes the
 * whole run of non-terminators; if a terminator follows, `[.!?]+` takes the
 * whole run of terminators and the scan resumes after it; if the run reaches
 * the end of the text, no match is possible any more.
 */
module Sentences {
  import opened Text

  /** A character of the class `[.!?]`. */
  predicate IsTerminator(c: char)
  {
    c == '.' || c == '!' || c == '?'
  }

  /** End of the run of non-terminators that starts at `i`. */
  function PlainEnd(s: string, i: nat): (j: nat)
    requires i <= |s|
    ensures i <= j <= |s|
    ensures forall k :: i <= k < j ==> !IsTerminator(s[k])
    ensures j < |s| ==> IsTerminator(s[j])
    decreases |s| - i
  {
    if i == |s| || IsTerminator(s[i]) then i else PlainEnd(s, i + 1)
  }

  /** End of the run of terminators that starts at `i`. */
  function TermEnd(s: string, i: nat): (j: nat)
    requires i <= |s|
    ensures i <= j <= |s|
    ensures forall k :: i <= k < j ==> IsTerminator(s[k])
    ensures j < |s| ==> !IsTerminator(s[j])
    decreases |s| - i
  {
    if i == |s| || !IsTerminator(s[i]) then i else TermEnd(s, i + 1)
  }

  /** Start of the unterminated tail of `s[..j]`: the largest `k <= j` that is
      0 or follows a terminator. */
  function TailStartAt(s: string, j: nat): (k: nat)
    requires j <= |s|
    ensures k <= j
    ensures k == 0 || IsTerminator(s[k - 1])
    ensures forall m :: k <= m < j ==> !IsTerminator(s[m])
    decreases j
  {
    if j == 0 || IsTerminator(s[j - 1]) then j else TailStartAt(s, j - 1)
  }

  /** Where the text that no match can cover begins: after the last terminator. */
  function TailStart(s: string): (k: nat)
    ensures k <= |s|
    ensures k == 0 || IsTerminator(s[k - 1])
    ensures forall m :: k <= m < |s| ==> !IsTerminator(s[m])
  {
    TailStartAt(s, |s|)
  }

  /** One match: a non-empty run of non-terminators followed by a non-empty
      run of terminators, and nothing else. */
  predicate IsSentence(x: string)
  {
    && 0 < PlainEnd(x, 0) < |x|
    && forall k :: PlainEnd(x, 0) <= k < |x| ==> IsTerminator(x[k])
  }

  /** Some non-terminator at or after `i` is immediately followed by a
      terminator: the condition under which the pattern matches at all. */
  predicate HasSentenceEndFrom(s: string, i: nat)
  {
    exists k :: i <= k < |s| - 1 && !IsTerminator(s[k]) && IsTerminator(s[k + 1])
  }

  /** The matches of the global pattern in `s`, scanning from `i`: each
      has the shape of a sentence. */
  function MatchesFrom(s: string, i: nat): (r: seq<string>)
    requires i <= |s|
    ensures forall k :: 0 <= k < |r| ==> IsSentence(r[k])
    decreases |s| - i
  {
    if i == |s| then []
    else if IsTerminator(s[i]) then MatchesFrom(s, i + 1)
    else
      var q := PlainEnd(s, i);
      if q == |s| then []
      else
        var e := TermEnd(s, q);
        MatchShape(s, i, q, e);
        SentenceCons(s[i..e], MatchesFrom(s, e));
        [s[i..e]] + MatchesFrom(s, e)
  }

  lemma SentenceCons(x: string, rest: seq<string>)
    requires IsSentence(x) && forall k :: 0 <= k < |rest| ==> IsSentence(rest[k])
    ensures forall k :: 0 <= k < |[x] + rest| ==> IsSentence(([x] + rest)[k])
  {
    forall k | 0 <= k < |[x] + rest|
      ensures IsSentence(([x] + rest)[k])
    {
      if k > 0 {
        assert ([x] + rest)[k] == rest[k - 1];
      }
    }
  }

  /** The list of matches of `/[^.!?]+[.!?]+/g` in `s` (empty where `match`
      returns `null`, which happens exactly when no non-terminator is
      directly followed by a terminator); every match is a sentence. */
  function Matches(s: string): (r: seq<string>)
    ensures forall k :: 0 <= k < |r| ==> IsSentence(r[k])
    ensures r == [] <==> !HasSentenceEndFrom(s, 0)
  {
    MatchesEmptyIff(s, 0);
    MatchesFrom(s, 0)
  }

  /** `text.match(/[^.!?]+[.!?]+/g) || [text]`. */
  function SentencesOrWhole(s: string): (r: seq<string>)
    ensures r != []
    ensures Matches(s) == [] ==> r == [s]
    ensures Matches(s) != [] ==> r == Matches(s)
  {
    var m := Matches(s);
    if m == [] then [s] else m
  }

  lemma {:induction false} PlainEndShift(s: string, i: nat, j: nat, m: string)
    requires i <= j <= |s| && j <= PlainEnd(s, i) < |s| && m == s[i..TermEnd(s, PlainEnd(s, i))]
    ensures PlainEnd(m, j - i) == PlainEnd(s, i) - i
    decreases PlainEnd(s, i) - j
  {
    assert m[j - i] == s[j];
    if j < PlainEnd(s, i) {
      PlainEndShift(s, i, j + 1, m);
    }
  }

  /** The match found at `i` is a sentence. */
  lemma {:induction false} MatchShape(s: string, i: nat, q: nat, e: nat)
    requires i < |s| && !IsTerminator(s[i])
    requires q == PlainEnd(s, i) < |s| && e == TermEnd(s, q)
    ensures IsSentence(s[i..e])
  {
    var m := s[i..e];
    PlainEndShift(s, i, i, m);
    assert forall k :: q - i <= k < |m| ==> m[k] == s[k + i];
  }

  /** The pattern yields no match exactly when no non-terminator is directly
      followed by a terminator. */
  lemma {:induction false} MatchesEmptyIff(s: string, i: nat)
    requires i <= |s|
    ensures MatchesFrom(s, i) == [] <==> !HasSentenceEndFrom(s, i)
    decreases |s| - i
  {
    if i == |s| {
    } else if IsTerminator(s[i]) {
      MatchesEmptyIff(s, i + 1);
      SentenceEndSkipTerminator(s, i);
    } else if PlainEnd(s, i) == |s| {
      NoSentenceEndInPlainTail(s, i);
    } else {
      var q := PlainEnd(s, i);
      assert MatchesFrom(s, i) != [];
      assert !IsTerminator(s[q - 1]) && IsTerminator(s[q]);
    }
  }

  lemma SentenceEndSkipTerminator(s: string, i: nat)
    requires i < |s| && IsTerminator(s[i])
    ensures HasSentenceEndFrom(s, i) <==> HasSentenceEndFrom(s, i + 1)
  {
    if HasSentenceEndFrom(s, i) {
      var k :| i <= k < |s| - 1 && !IsTerminator(s[k]) && IsTerminator(s[k + 1]);
      assert k > i;
    }
  }

  lemma NoSentenceEndInPlainTail(s: string, i: nat)
    requires i < |s| && PlainEnd(s, i) == |s|
    ensures !HasSentenceEndFrom(s, i)
  {
  }

  /** The matches, joined, are exactly the text from the end of the leading run
      of terminators up to the unterminated tail: nothing in between is dropped,
      reordered or duplicated. */
  lemma {:induction false} MatchesCoverFrom(s: string, i: nat)
    requires i <= |s| && (i == 0 || IsTerminator(s[i - 1]))
    ensures TermEnd(s, i) <= TailStart(s)
    ensures Flatten(MatchesFrom(s, i)) == s[TermEnd(s, i)..TailStart(s)]
    decreases |s| - i
  {
    var t := TailStart(s);
    if i == |s| {
    } else if IsTerminator(s[i]) {
      MatchesCoverFrom(s, i + 1);
    } else {
      var q := PlainEnd(s, i);
      if q == |s| {
        assert t == i;
      } else {
        var e := TermEnd(s, q);
        assert IsTerminator(s[e - 1]);
        MatchesCoverFrom(s, e);
        JoinMatch(s, i, e, t, MatchesFrom(s, e));
      }
    }
  }

  lemma {:induction false} JoinMatch(s: string, i: nat, e: nat, t: nat, r: seq<string>)
    requires i < e <= t <= |s|
    requires TermEnd(s, e) == e && Flatten(r) == s[TermEnd(s, e)..t]
    ensures Flatten([s[i..e]] + r) == s[i..t]
  {
    FlattenCons(s[i..e], r);
    assert s[i..e] + s[e..t] == s[i..t];
  }

  /** `Matches` over the whole text. */
  lemma MatchesCover(s: string)
    ensures TermEnd(s, 0) <= TailStart(s)
    ensures Flatten(Matches(s)) == s[TermEnd(s, 0)..TailStart(s)]
  {
    MatchesCoverFrom(s, 0);
  }

  /** The content the fallback list holds: the covered span when the text has
      a sentence end, otherwise the whole text. */
  lemma SentencesContent(s: string)
    ensures HasSentenceEndFrom(s, 0) ==> NonSpace(Flatten(SentencesOrWhole(s))) == NonSpace(s[TermEnd(s, 0)..TailStart(s)])
    ensures !HasSentenceEndFrom(s, 0) ==> Flatten(SentencesOrWhole(s)) == s
  {
    MatchesEmptyIff(s, 0);
    MatchesCover(s);
    FlattenSingle(s);
  }

  /** A text with a non-space character gives a list whose content is not blank. */
  lemma SentencesHaveContent(s: string)
    requires !AllSpace(s)
    ensures NonSpace(Flatten(SentencesOrWhole(s))) != []
  {
    var ms := SentencesOrWhole(s);
    if Matches(s) == [] {
      FlattenSingle(s);
      NonSpaceEmptyIff(s);
    } else {
      var x := ms[0];
      assert IsSentence(x);
      var j := PlainEnd(x, 0);
      assert IsTerminator(x[j]) && !IsSpace(x[j]);
      NonSpaceEmptyIff(x);
      assert Flatten(ms) == x + Flatten(ms[1..]);
      NonSpaceAppend(x, Flatten(ms[1..]));
    }
  }
}
