/**
 * String primitives of the JavaScript runtime that the chunkers and the speech
 * client rely on: the `\s` character class, `String.prototype.trim`,
 * `replace(/\s+/g, ' ')`, `lastIndexOf` with a position, and the decimal
 * rendering of a number inside a template string.
 */
module Text {

  /** The characters of JavaScript's `\s` class; `trim()` removes the same set. */
  const Spaces: set<char> := {' ', '\t', '\n', '\U{000B}', '\U{000C}', '\r', '\U{00A0}', '\U{1680}',
    '\U{2000}', '\U{2001}', '\U{2002}', '\U{2003}', '\U{2004}', '\U{2005}', '\U{2006}', '\U{2007}',
    '\U{2008}', '\U{2009}', '\U{200A}', '\U{2028}', '\U{2029}', '\U{202F}', '\U{205F}', '\U{3000}', '\U{FEFF}'}
  predicate IsSpace(c: char)
  {
    c in Spaces
  }

  predicate AllSpace(s: string)
  {
    forall i :: 0 <= i < |s| ==> IsSpace(s[i])
  }

  /** No white space at either end. */
  predicate IsTrimmed(s: string)
  {
    s == [] || (!IsSpace(s[0]) && !IsSpace(s[|s| - 1]))
  }

  /** Every white-space character is a plain space and no two of them are adjacent. */
  predicate SingleSpaced(s: string)
  {
    && (forall i :: 0 <= i < |s| && IsSpace(s[i]) ==> s[i] == ' ')
    && (forall i :: 0 <= i < |s| - 1 && IsSpace(s[i]) ==> !IsSpace(s[i + 1]))
  }

  /** The shape of `s.replace(/\s+/g, ' ').trim()`. */
  predicate IsNormal(s: string)
  {
    IsTrimmed(s) && SingleSpaced(s)
  }

  /** The non-white-space characters of `s`, in order: the content that trimming,
      collapsing and splitting at spaces must preserve. */
  function NonSpace(s: string): (r: string)
    ensures |r| <= |s|
    ensures forall i :: 0 <= i < |r| ==> !IsSpace(r[i])
  {
    if s == [] then []
    else if IsSpace(s[0]) then NonSpace(s[1..])
    else [s[0]] + NonSpace(s[1..])
  }

  lemma {:induction false} NonSpaceAppend(a: string, b: string)
    ensures NonSpace(a + b) == NonSpace(a) + NonSpace(b)
    decreases |a|
  {
    if a == [] {
      assert a + b == b;
    } else {
      assert (a + b)[1..] == a[1..] + b;
      NonSpaceAppend(a[1..], b);
    }
  }

  lemma {:induction false} NonSpaceEmptyIff(s: string)
    ensures NonSpace(s) == [] <==> AllSpace(s)
    decreases |s|
  {
    if s != [] {
      NonSpaceEmptyIff(s[1..]);
      if AllSpace(s[1..]) && IsSpace(s[0]) {
        forall i | 0 <= i < |s| ensures IsSpace(s[i]) {
          if i > 0 { assert s[i] == s[1..][i - 1]; }
        }
      }
      if AllSpace(s) {
        forall i | 0 <= i < |s| - 1 ensures IsSpace(s[1..][i]) {
          assert s[1..][i] == s[i + 1];
        }
      }
    }
  }

  /** A word: a non-empty run of characters none of which is white space. */
  predicate IsWord(w: string)
  {
    w != [] && forall i :: 0 <= i < |w| ==> !IsSpace(w[i])
  }

  /** The words of `s`: its maximal runs of non-white-space characters, in
      order. Two words are always separated by white space in `s`. */
  function Words(s: string): (r: seq<string>)
    ensures forall k :: 0 <= k < |r| ==> IsWord(r[k])
    ensures s != [] && !IsSpace(s[0]) ==> r != []
    decreases |s|
  {
    if s == [] then []
    else if IsSpace(s[0]) then Words(s[1..])
    else
      var ws := Words(s[1..]);
      if |s| == 1 || IsSpace(s[1]) then
        WordCons([s[0]], ws);
        [[s[0]]] + ws
      else
        var w := [s[0]] + ws[0];
        assert forall i :: 0 < i < |w| ==> w[i] == ws[0][i - 1];
        WordCons(w, ws[1..]);
        [w] + ws[1..]
  }

  lemma WordCons(w: string, ws: seq<string>)
    requires IsWord(w) && forall k :: 0 <= k < |ws| ==> IsWord(ws[k])
    ensures forall k :: 0 <= k < |[w] + ws| ==> IsWord(([w] + ws)[k])
  {
  }

  lemma {:induction false} WordsSpaceCons(c: string)
    ensures Words([' '] + c) == Words(c)
  {
    assert ([' '] + c)[1..] == c;
  }

  /** Two tails that agree on their words and on whether they start with
      white space give the same words behind one more character. */
  lemma {:induction false} WordsCharCons(x: char, c: string, t: string)
    requires !IsSpace(x) && Words(c) == Words(t) && (c == [] <==> t == [])
    requires c != [] ==> (IsSpace(c[0]) <==> IsSpace(t[0]))
    ensures Words([x] + c) == Words([x] + t)
  {
    assert ([x] + c)[1..] == c && ([x] + t)[1..] == t;
  }

  /** White space alone holds no word. */
  lemma {:induction false} WordsAllSpace(s: string)
    requires AllSpace(s)
    ensures Words(s) == []
    decreases |s|
  {
    if s != [] {
      assert AllSpace(s[1..]) by {
        assert forall i :: 0 <= i < |s| - 1 ==> s[1..][i] == s[i + 1];
      }
      WordsAllSpace(s[1..]);
    }
  }

  /** Trailing white space adds no word. */
  lemma {:induction false} WordsAppendSpace(a: string, b: string)
    requires AllSpace(b)
    ensures Words(a + b) == Words(a)
    decreases |a|
  {
    if a == [] {
      assert a + b == b;
      WordsAllSpace(b);
    } else {
      assert (a + b)[1..] == a[1..] + b;
      WordsAppendSpace(a[1..], b);
      if |a| == 1 && b != [] {
        assert (a + b)[1] == b[0];
        WordsAllSpace(b);
      }
    }
  }

  /** `s` with its leading white space removed. */
  function TrimStart(s: string): (r: string)
    ensures |r| <= |s| && r == s[|s| - |r|..]
    ensures r == [] || !IsSpace(r[0])
    ensures forall i :: 0 <= i < |s| - |r| ==> IsSpace(s[i])
    ensures NonSpace(r) == NonSpace(s)
    ensures s != [] && IsSpace(s[0]) ==> |r| < |s|
    ensures s != [] && !IsSpace(s[0]) ==> r == s
    decreases |s|
  {
    if s != [] && IsSpace(s[0]) then
      var r := TrimStart(s[1..]);
      DropOfDrop(s, 1, |s| - 1 - |r|);
      assert forall i :: 1 <= i < |s| ==> s[i] == s[1..][i - 1];
      r
    else s
  }

  /** `s` with its trailing white space removed. */
  function TrimEnd(s: string): (r: string)
    ensures |r| <= |s| && r == s[..|r|]
    ensures r == [] || !IsSpace(r[|r| - 1])
    ensures forall i :: |r| <= i < |s| ==> IsSpace(s[i])
    ensures NonSpace(r) == NonSpace(s)
    ensures s != [] && !IsSpace(s[|s| - 1]) ==> r == s
    decreases |s|
  {
    if s != [] && IsSpace(s[|s| - 1]) then
      var p := s[..|s| - 1];
      var r := TrimEnd(p);
      PrefixOfPrefix(s, |s| - 1, |r|);
      assert forall i :: 0 <= i < |p| ==> s[i] == p[i];
      SplitLast(s);
      NonSpaceAppend(p, [s[|s| - 1]]);
      r
    else s
  }

  /** Leading white space holds no word. */
  lemma {:induction false} WordsTrimStart(s: string)
    ensures Words(TrimStart(s)) == Words(s)
    decreases |s|
  {
    if s != [] && IsSpace(s[0]) {
      WordsTrimStart(s[1..]);
    }
  }

  /** `s` is white space, then `r`, then white space, the first run
      ending at `i`: `r` is `s` with white space removed at its ends only. */
  predicate StripsEnds(s: string, r: string, i: nat)
  {
    i + |r| <= |s| && s[i..i + |r|] == r && AllSpace(s[..i]) && AllSpace(s[i + |r|..])
  }

  /** `String.prototype.trim`. */
  function Trim(s: string): (r: string)
    ensures |r| <= |s|
    ensures IsTrimmed(r)
    ensures NonSpace(r) == NonSpace(s)
    ensures r == [] <==> AllSpace(s)
    ensures IsTrimmed(s) ==> r == s
    ensures |r| == |s| ==> r == s
  {
    var a := TrimStart(s);
    var r := TrimEnd(a);
    assert |a| == |s| ==> a == s[0..];
    NonSpaceEmptyIff(s);
    NonSpaceEmptyIff(r);
    assert r != [] ==> r[0] == a[0];
    assert IsTrimmed(r);
    r
  }

  /** Trimming removes white space at the two ends and nothing else: the
      input is white space, then the result, then white space. */
  lemma TrimStripsEnds(s: string)
    ensures exists i: nat :: StripsEnds(s, Trim(s), i)
  {
    var a := TrimStart(s);
    assert Trim(s) == TrimEnd(a);
    TrimStrips(s);
    var i := |s| - |a|;
    assert StripsEnds(s, Trim(s), i);
  }

  lemma {:induction false} TrimStrips(s: string)
    ensures var a := TrimStart(s);
      StripsEnds(s, TrimEnd(a), |s| - |a|)
  {
    var a := TrimStart(s);
    StripsEndsOf(s, a, TrimEnd(a), |s| - |a|);
  }

  /** White space up to `i`, then `a`, whose white space from `|r|` on
      follows its prefix `r`. */
  lemma {:induction false} StripsEndsOf(s: string, a: string, r: string, i: nat)
    requires i + |a| == |s| && a == s[i..] && |r| <= |a| && r == a[..|r|]
    requires forall j :: 0 <= j < i ==> IsSpace(s[j])
    requires forall j :: |r| <= j < |a| ==> IsSpace(a[j])
    ensures StripsEnds(s, r, i)
  {
    assert s[i..i + |r|] == r;
    AllSpacePrefix(s, i);
    AllSpaceSuffix(a, |r|);
    assert s[i + |r|..] == a[|r|..];
  }

  lemma {:induction false} AllSpacePrefix(s: string, n: nat)
    requires n <= |s| && forall j :: 0 <= j < n ==> IsSpace(s[j])
    ensures AllSpace(s[..n])
  {
    assert forall j :: 0 <= j < n ==> s[..n][j] == s[j];
  }

  lemma {:induction false} AllSpaceSuffix(s: string, n: nat)
    requires n <= |s| && forall j :: n <= j < |s| ==> IsSpace(s[j])
    ensures AllSpace(s[n..])
  {
    assert forall j :: 0 <= j < |s| - n ==> s[n..][j] == s[n + j];
  }

  /** Trimming drops no word. */
  lemma {:induction false} TrimKeepsWords(s: string)
    ensures Words(Trim(s)) == Words(s)
  {
    var a := TrimStart(s);
    var r := TrimEnd(a);
    assert Trim(s) == r;
    WordsTrimStart(s);
    assert r == a[..|r|];
    WordsDropTrailing(a, |r|);
  }

  /** Dropping trailing white space drops no word. */
  lemma {:induction false} WordsDropTrailing(a: string, n: nat)
    requires n <= |a| && forall j :: n <= j < |a| ==> IsSpace(a[j])
    ensures Words(a[..n]) == Words(a)
  {
    AllSpaceSuffix(a, n);
    assert a[..n] + a[n..] == a;
    WordsAppendSpace(a[..n], a[n..]);
  }

  lemma TrimIdempotent(s: string)
    ensures Trim(Trim(s)) == Trim(s)
  {
  }

  /** `s.replace(/\s+/g, ' ')`: every maximal run of white space becomes one space. */
  function Collapse(s: string): (r: string)
    ensures CollapsedFrom(s, r)
    decreases |s|
  {
    if s == [] then []
    else if IsSpace(s[0]) then
      var c := Collapse(TrimStart(s));
      CollapseSpaceStep(s, c);
      [' '] + c
    else
      var c := Collapse(s[1..]);
      CollapseCharStep(s, c);
      [s[0]] + c
  }

  /** A collapsed form of `t`: single-spaced, with the words and the
      content of `t`, and white space at either end exactly where `t` has
      it. */
  predicate CollapsedFrom(t: string, c: string)
  {
    && SingleSpaced(c) && NonSpace(c) == NonSpace(t) && Words(c) == Words(t)
    && (c == [] <==> t == [])
    && (t != [] ==> (IsSpace(c[0]) <==> IsSpace(t[0])) && (IsSpace(c[|c| - 1]) <==> IsSpace(t[|t| - 1])))
  }

  /** A run of white space at the front becomes one space. */
  lemma {:induction false} CollapseSpaceStep(s: string, c: string)
    requires s != [] && IsSpace(s[0]) && CollapsedFrom(TrimStart(s), c)
    ensures CollapsedFrom(s, [' '] + c)
  {
    var t := TrimStart(s);
    SingleSpacedCons(' ', c);
    WordsSpaceCons(c);
    WordsTrimStart(s);
    TrimStartLast(s);
    NonSpaceAppend([' '], c);
  }

  /** A character that is not white space is kept. */
  lemma {:induction false} CollapseCharStep(s: string, c: string)
    requires s != [] && !IsSpace(s[0]) && CollapsedFrom(s[1..], c)
    ensures CollapsedFrom(s, [s[0]] + c)
  {
    SingleSpacedCons(s[0], c);
    WordsCharCons(s[0], c, s[1..]);
    assert [s[0]] + s[1..] == s;
    NonSpaceAppend([s[0]], c);
    NonSpaceAppend([s[0]], s[1..]);
  }

  /** One more character in front of a single-spaced string: a space only
      before a character that is not white space. */
  lemma {:induction false} SingleSpacedCons(x: char, c: string)
    requires SingleSpaced(c) && (IsSpace(x) ==> x == ' ' && (c == [] || !IsSpace(c[0])))
    ensures var r := [x] + c;
      && SingleSpaced(r) && r[0] == x
      && (c != [] ==> r[|r| - 1] == c[|c| - 1])
  {
    var r := [x] + c;
    assert forall i :: 0 < i < |r| ==> r[i] == c[i - 1];
  }

  lemma {:induction false} TrimStartLast(s: string)
    ensures TrimStart(s) != [] ==> TrimStart(s)[|TrimStart(s)| - 1] == s[|s| - 1]
  {
  }

  /** `text.replace(/\s+/g, ' ').trim()`. */
  function Normalize(s: string): (r: string)
    ensures IsNormal(r)
    ensures NonSpace(r) == NonSpace(s)
    ensures Words(r) == Words(s)
    ensures r == [] <==> AllSpace(s)
  {
    var c := Collapse(s);
    TrimKeepsSingleSpaced(c);
    TrimKeepsWords(c);
    NonSpaceEmptyIff(s);
    NonSpaceEmptyIff(Trim(c));
    Trim(c)
  }

  lemma SingleSpacedInfix(s: string, i: nat, j: nat)
    requires SingleSpaced(s) && i <= j <= |s|
    ensures SingleSpaced(s[i..j])
  {
    assert forall k :: 0 <= k < j - i ==> s[i..j][k] == s[i + k];
  }

  lemma TrimKeepsSingleSpaced(s: string)
    requires SingleSpaced(s)
    ensures SingleSpaced(Trim(s))
  {
    var a := TrimStart(s);
    var r := TrimEnd(a);
    SingleSpacedInfix(s, |s| - |a|, |s|);
    SingleSpacedInfix(a, 0, |r|);
  }

  lemma {:induction false} CollapseSingleSpaced(s: string)
    requires SingleSpaced(s)
    ensures Collapse(s) == s
    decreases |s|
  {
    if s != [] {
      var t := s[1..];
      assert SingleSpaced(t) by {
        assert forall i :: 0 <= i < |t| ==> t[i] == s[i + 1];
      }
      CollapseSingleSpaced(t);
      assert [s[0]] + t == s;
      if IsSpace(s[0]) {
        if t != [] {
          assert !IsSpace(t[0]);
        }
        assert TrimStart(s) == t;
        assert s[0] == ' ';
      }
      assert Collapse(s) == [s[0]] + Collapse(t);
    }
  }

  /** Normalising is idempotent: a normal string is its own normal form. */
  lemma NormalizeFixesNormal(s: string)
    requires IsNormal(s)
    ensures Normalize(s) == s
  {
    CollapseSingleSpaced(s);
  }

  lemma NormalizeIdempotent(s: string)
    ensures Normalize(Normalize(s)) == Normalize(s)
  {
    NormalizeFixesNormal(Normalize(s));
  }

  /** The concatenation of a sequence of strings (`parts.join('')`). */
  function Flatten(parts: seq<string>): string
  {
    if parts == [] then [] else parts[0] + Flatten(parts[1..])
  }

  lemma {:induction false} FlattenAppend(a: seq<string>, b: seq<string>)
    ensures Flatten(a + b) == Flatten(a) + Flatten(b)
    decreases |a|
  {
    if a == [] {
      assert a + b == b;
    } else {
      assert (a + b)[1..] == a[1..] + b;
      FlattenAppend(a[1..], b);
    }
  }

  lemma FlattenCons(x: string, m: seq<string>)
    ensures Flatten([x] + m) == x + Flatten(m)
  {
    assert ([x] + m)[1..] == m;
  }

  lemma FlattenSnoc(a: seq<string>, x: string)
    ensures Flatten(a + [x]) == Flatten(a) + x
  {
    FlattenAppend(a, [x]);
    assert Flatten([x]) == x + Flatten([]);
  }

  /** The concatenation of a sequence of runs of strings. */
  function Concat(groups: seq<seq<string>>): seq<string>
  {
    if groups == [] then [] else groups[0] + Concat(groups[1..])
  }

  lemma {:induction false} ConcatAppend(a: seq<seq<string>>, b: seq<seq<string>>)
    ensures Concat(a + b) == Concat(a) + Concat(b)
    decreases |a|
  {
    if a == [] {
      assert a + b == b;
    } else {
      assert (a + b)[1..] == a[1..] + b;
      ConcatAppend(a[1..], b);
    }
  }

  lemma ConcatSingle(g: seq<string>)
    ensures Concat([g]) == g
  {
    assert Concat([g]) == g + Concat([]);
  }

  /** `groups` cuts `items` into consecutive non-empty runs: read in order,
      they are `items`, with nothing left out or repeated. */
  predicate IsRuns(groups: seq<seq<string>>, items: seq<string>)
  {
    Concat(groups) == items && forall k :: 0 <= k < |groups| ==> groups[k] != []
  }

  lemma AppendNil<T>(s: seq<T>)
    ensures s + [] == s
  {
  }

  lemma AppendAssoc<T>(a: seq<T>, b: seq<T>, c: seq<T>)
    ensures a + (b + c) == (a + b) + c
  {
  }

  lemma ShiftFirst<T>(done: seq<T>, s: seq<T>)
    requires s != []
    ensures (done + [s[0]]) + s[1..] == done + s
  {
  }

  lemma FlattenSingle(x: string)
    ensures Flatten([x]) == x
  {
    assert Flatten([x]) == x + Flatten([]);
  }

  lemma PrefixOfPrefix<T>(s: seq<T>, n: nat, m: nat)
    requires m <= n <= |s|
    ensures s[..n][..m] == s[..m]
  {
  }

  lemma DropOfDrop<T>(s: seq<T>, n: nat, m: nat)
    requires n + m <= |s|
    ensures s[n..][m..] == s[n + m..]
  {
  }

  lemma SplitLast<T>(s: seq<T>)
    requires s != []
    ensures s == s[..|s| - 1] + [s[|s| - 1]]
  {
  }

  /** Adjacent slices join into one. */
  lemma SliceJoin<T>(s: seq<T>, i: nat, j: nat, k: nat)
    requires i <= j <= k <= |s|
    ensures s[i..j] + s[j..k] == s[i..k]
  {
  }

  lemma SliceJoinTail<T>(s: seq<T>, i: nat, j: nat)
    requires i <= j <= |s|
    ensures s[i..j] + s[j..] == s[i..]
  {
  }

  /** The last index `k <= bound` with `s[k] == c`, or -1. */
  function LastAtOrBefore(s: string, c: char, bound: int): (r: int)
    requires -1 <= bound < |s|
    ensures -1 <= r <= bound
    ensures r >= 0 ==> s[r] == c
    ensures forall k :: r < k <= bound && 0 <= k ==> s[k] != c
    decreases bound + 1
  {
    if bound < 0 then -1
    else if s[bound] == c then bound
    else LastAtOrBefore(s, c, bound - 1)
  }

  /** `s.lastIndexOf(c, from)` for a one-character search string and a
      non-negative position: the search starts at `min(from, |s| - 1)`. */
  function LastIndexOf(s: string, c: char, from: nat): (r: int)
    ensures -1 <= r < |s| && r <= from
    ensures r >= 0 ==> s[r] == c
    ensures forall k :: r < k <= from && k < |s| ==> s[k] != c
  {
    LastAtOrBefore(s, c, if from < |s| then from else |s| - 1)
  }

  function DigitChar(d: nat): (c: char)
    requires d < 10
    ensures '0' <= c <= '9'
  {
    ['0', '1', '2', '3', '4', '5', '6', '7', '8', '9'][d]
  }

  predicate IsDigit(c: char)
  {
    '0' <= c <= '9'
  }

  /** The value of a string of decimal digits. */
  function DigitsValue(s: string): nat
    requires forall i :: 0 <= i < |s| ==> IsDigit(s[i])
  {
    if s == [] then 0
    else
      var d := s[|s| - 1];
      assert IsDigit(d);
      DigitsValue(s[..|s| - 1]) * 10 + ((d as int - '0' as int) as nat)
  }

  /** How a number appears inside a JavaScript template string (`${n}`) for a
      non-negative integer. */
  function Decimal(n: nat): (r: string)
    ensures r != []
    ensures forall i :: 0 <= i < |r| ==> IsDigit(r[i])
    ensures r[0] == '0' ==> r == "0"
  {
    if n < 10 then [DigitChar(n)]
    else Decimal(n / 10) + [DigitChar(n % 10)]
  }

  /** Reading the decimal rendering back gives the number. */
  lemma {:induction false} DecimalRoundTrip(n: nat)
    ensures DigitsValue(Decimal(n)) == n
    decreases n
  {
    if n >= 10 {
      var r := Decimal(n);
      DecimalRoundTrip(n / 10);
      assert r[..|r| - 1] == Decimal(n / 10);
    }
  }
}
