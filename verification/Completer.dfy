/** The emoji completer of emoji_suggestions.cpp. */
module Completing {
  import Ranking

  type Utf16 = c: int | 0 <= c < 0x1_0000
  type Text = seq<Utf16>

  datatype Replacement = Replacement(emoji: Text, replacement: Text, words: seq<Text>)

  /** A replacement and the number of its words that the query uses. */
  datatype Match = Match(item: Replacement, wordsUsed: int)

  /** One piece of the query: a non-empty prefix of a word. */
  datatype Piece = Piece(word: nat, length: nat)

  // ---------------------------------------------------------------- what it means to match

  /** The text of the pieces, joined. */
  function Joined(words: seq<Text>, pieces: seq<Piece>): Text
    requires forall i :: 0 <= i < |pieces| ==> pieces[i].word < |words| && pieces[i].length <= |words[pieces[i].word]|
  {
    if pieces == [] then [] else words[pieces[0].word][..pieces[0].length] + Joined(words, pieces[1..])
  }

  /** The query from p on is the concatenation of non-empty prefixes of distinct unused words. */
  ghost predicate Splits(query: Text, words: seq<Text>, used: set<nat>, p: nat, pieces: seq<Piece>)
    requires p <= |query|
  {
    && (forall i :: 0 <= i < |pieces| ==>
          && pieces[i].word < |words| && pieces[i].word !in used
          && 0 < pieces[i].length <= |words[pieces[i].word]|)
    && (forall i, j :: 0 <= i < j < |pieces| ==> pieces[i].word != pieces[j].word)
    && Joined(words, pieces) == query[p..]
  }

  ghost predicate Splittable(query: Text, words: seq<Text>, used: set<nat>, p: nat)
    requires p <= |query|
  {
    exists pieces: seq<Piece> :: Splits(query, words, used, p, pieces)
  }

  /** Splitting off the first piece. */
  lemma SplitsTail(query: Text, words: seq<Text>, used: set<nat>, p: nat, pieces: seq<Piece>)
    requires p <= |query| && pieces != [] && Splits(query, words, used, p, pieces)
    ensures var Piece(w, n) := pieces[0];
            && p + n <= |query| && query[p..p + n] == words[w][..n]
            && Splits(query, words, used + {w}, p + n, pieces[1..])
  {
    var Piece(w, n) := pieces[0];
    var tail := Joined(words, pieces[1..]);
    assert query[p..] == words[w][..n] + tail;
    assert |query| - p == n + |tail|;
    assert query[p..][..n] == query[p..p + n] && query[p..][n..] == query[p + n..];
  }

  lemma SplitsCons(query: Text, words: seq<Text>, used: set<nat>, p: nat, w: nat, n: nat, rest: seq<Piece>)
    requires w < |words| && w !in used && 0 < n <= |words[w]| && p + n <= |query|
    requires query[p..p + n] == words[w][..n] && Splits(query, words, used + {w}, p + n, rest)
    ensures Splits(query, words, used, p, [Piece(w, n)] + rest)
  {
    var pieces := [Piece(w, n)] + rest;
    assert pieces[1..] == rest;
    assert query[p..] == query[p..p + n] + query[p + n..];
  }

  /** The query from p on splits into n pieces. */
  ghost predicate SplitsInto(query: Text, words: seq<Text>, used: set<nat>, p: nat, n: int)
    requires p <= |query|
  {
    exists pieces: seq<Piece> :: Splits(query, words, used, p, pieces) && |pieces| == n
  }

  lemma SplitsIntoCons(query: Text, words: seq<Text>, used: set<nat>, p: nat, w: nat, length: nat, n: int)
    requires w < |words| && w !in used && 0 < length <= |words[w]| && p + length <= |query|
    requires query[p..p + length] == words[w][..length] && SplitsInto(query, words, used + {w}, p + length, n)
    ensures SplitsInto(query, words, used, p, n + 1)
  {
    var rest: seq<Piece> :| Splits(query, words, used + {w}, p + length, rest) && |rest| == n;
    SplitsCons(query, words, used, p, w, length, rest);
  }

  /** With one word, a non-empty query is a concatenation of prefixes just if it is a prefix itself. */
  lemma OneWordSplits(query: Text, words: seq<Text>)
    requires query != [] && |words| == 1
    ensures Splittable(query, words, {}, 0) <==> query <= words[0]
  {
    if Splittable(query, words, {}, 0) {
      var pieces: seq<Piece> :| Splits(query, words, {}, 0, pieces);
      assert pieces != [];
      assert |pieces| > 1 ==> pieces[0].word != pieces[1].word;
      SplitsTail(query, words, {}, 0, pieces);
      assert query == query[0..pieces[0].length];
    }
    if query <= words[0] {
      assert Splits(query, words, {0}, |query|, []);
      SplitsCons(query, words, {}, 0, 0, |query|, []);
    }
  }

  // ---------------------------------------------------------------- the split that is found

  /** The length of the longest common prefix of the word and the query from p on. */
  function Common(word: Text, query: Text, p: nat): (n: nat)
    requires p <= |query|
    ensures n <= |word| && p + n <= |query| && word[..n] == query[p..p + n]
    ensures n == |word| || p + n == |query| || word[n] != query[p + n]
    decreases |word|
  {
    if word == [] || p == |query| || word[0] != query[p] then 0
    else
      var rest := Common(word[1..], query, p + 1);
      assert word[..rest + 1] == [word[0]] + word[1..][..rest];
      assert query[p..p + (rest + 1)] == [query[p]] + query[p + 1..p + 1 + rest];
      1 + rest
  }

  lemma AgreeAt(word: Text, query: Text, p: nat, n: nat, i: nat)
    requires i < n <= |word| && p + n <= |query| && word[..n] == query[p..p + n]
    ensures word[i] == query[p + i]
  {
    assert word[i] == word[..n][i] && query[p..p + n][i] == query[p + i];
  }

  lemma {:induction false} CommonIsLongest(word: Text, query: Text, p: nat, n: nat)
    requires n <= |word| && p + n <= |query| && word[..n] == query[p..p + n]
    ensures n <= Common(word, query, p)
    decreases n
  {
    if n > 0 {
      AgreeAt(word, query, p, n, 0);
      var tail := word[1..];
      assert tail[..n - 1] == word[..n][1..] && query[p + 1..p + 1 + (n - 1)] == query[p..p + n][1..];
      CommonIsLongest(tail, query, p + 1, n - 1);
    }
  }

  lemma CommonIs(word: Text, query: Text, p: nat, n: nat)
    requires p + n <= |query| && n <= |word| && word[..n] == query[p..p + n]
    requires n == |word| || p + n == |query| || word[n] != query[p + n]
    ensures n == Common(word, query, p)
  {
    var m := Common(word, query, p);
    if n < m {
      AgreeAt(word, query, p, m, n);
    } else if m < n {
      AgreeAt(word, query, p, n, m);
    }
  }

  /** The number of pieces of the split that the matcher finds, or -1: it takes the first word that leads to one, and
      of this word the longest prefix. */
  function Found(query: Text, words: seq<Text>, used: set<nat>, p: nat): int
    requires p <= |query|
    decreases |query| - p, 2, 0
  {
    if p == |query| then 0 else FoundFromWord(query, words, used, p, 0)
  }

  /** Trying the words from word w on. */
  function FoundFromWord(query: Text, words: seq<Text>, used: set<nat>, p: nat, w: nat): int
    requires p < |query| && w <= |words|
    decreases |query| - p, 1, |words| - w
  {
    if w == |words| then -1
    else
      var longest := if w in used then 0 else Common(words[w], query, p);
      var rest := FoundAfterPrefix(query, words, used + {w}, p, longest);
      if rest >= 0 then rest + 1 else FoundFromWord(query, words, used, p, w + 1)
  }

  /** Trying the prefixes of length n and shorter of one word, which counts as used. */
  function FoundAfterPrefix(query: Text, words: seq<Text>, used: set<nat>, p: nat, n: nat): int
    requires p + n <= |query|
    decreases |query| - p, 0, n
  {
    if n == 0 then -1
    else
      var rest := Found(query, words, used, p + n);
      if rest >= 0 then rest else FoundAfterPrefix(query, words, used, p, n - 1)
  }

  /** The matcher's search is complete: it finds a split if and only if there is one, and what it counts are its
      pieces. */
  lemma {:induction false} FoundIsSplit(query: Text, words: seq<Text>, used: set<nat>, p: nat)
    requires p <= |query|
    ensures Found(query, words, used, p) >= 0 <==> Splittable(query, words, used, p)
    ensures Found(query, words, used, p) >= 0 ==> SplitsInto(query, words, used, p, Found(query, words, used, p))
    decreases |query| - p, 2, 0
  {
    if p == |query| {
      assert Splits(query, words, used, p, []);
    } else {
      FoundFromWordIsSplit(query, words, used, p, 0);
      if Splittable(query, words, used, p) {
        SomeWordStarts(query, words, used, p);
      }
    }
  }

  lemma {:induction false} FoundFromWordIsSplit(query: Text, words: seq<Text>, used: set<nat>, p: nat, w: nat)
    requires p < |query| && w <= |words|
    ensures var n := FoundFromWord(query, words, used, p, w);
            if n >= 0 then SplitsInto(query, words, used, p, n)
            else forall v :: w <= v < |words| ==> NoneStartsWith(query, words, used, p, v)
    decreases |query| - p, 1, |words| - w
  {
    if w < |words| {
      var longest := if w in used then 0 else Common(words[w], query, p);
      var rest := FoundAfterPrefix(query, words, used + {w}, p, longest);
      var length := FoundAfterPrefixIsSplit(query, words, used + {w}, p, longest);
      if rest >= 0 {
        Shorter(words[w], query, p, longest, length);
        SplitsIntoCons(query, words, used, p, w, length, rest);
      } else {
        if w !in used {
          NoPieceFits(query, words, used, p, w, p + longest);
        } else {
          UsedWordStartsNone(query, words, used, p, w);
        }
        FoundFromWordIsSplit(query, words, used, p, w + 1);
      }
    }
  }

  lemma {:induction false} FoundAfterPrefixIsSplit(query: Text, words: seq<Text>, used: set<nat>, p: nat, n: nat)
    returns (length: nat)
    requires p + n <= |query|
    ensures var rest := FoundAfterPrefix(query, words, used, p, n);
            if rest >= 0 then 0 < length <= n && SplitsInto(query, words, used, p + length, rest)
            else forall q :: p < q <= p + n ==> !Splittable(query, words, used, q)
    decreases |query| - p, 0, n
  {
    length := 0;
    if n > 0 {
      FoundIsSplit(query, words, used, p + n);
      if Found(query, words, used, p + n) >= 0 {
        length := n;
      } else {
        length := FoundAfterPrefixIsSplit(query, words, used, p, n - 1);
      }
    }
  }

  /** a comes before b or is b: at their first difference a has the earlier word or the longer prefix. */
  predicate NoLater(a: seq<Piece>, b: seq<Piece>) {
    if a == [] || b == [] then true
    else if a[0].word != b[0].word then a[0].word < b[0].word
    else if a[0].length != b[0].length then a[0].length > b[0].length
    else NoLater(a[1..], b[1..])
  }

  /** The split that is found is the first of all: word by word the earliest, and of it the longest prefix. */
  lemma {:induction false} FoundIsFirst(query: Text, words: seq<Text>, used: set<nat>,
      p: nat) returns (pieces: seq<Piece>)
    requires p <= |query| && Found(query, words, used, p) >= 0
    ensures Splits(query, words, used, p, pieces) && |pieces| == Found(query, words, used, p)
    ensures forall other: seq<Piece> :: Splits(query, words, used, p, other) ==> NoLater(pieces, other)
    decreases |query| - p, 2, 0
  {
    if p == |query| {
      pieces := [];
    } else {
      pieces := FoundFromWordIsFirst(query, words, used, p, 0);
      forall other: seq<Piece> | Splits(query, words, used, p, other) ensures NoLater(pieces, other) {
        assert other != [] ==> 0 <= other[0].word;
      }
    }
  }

  lemma {:induction false} FoundFromWordIsFirst(query: Text, words: seq<Text>, used: set<nat>, p: nat, w: nat)
    returns (pieces: seq<Piece>)
    requires p < |query| && w <= |words| && FoundFromWord(query, words, used, p, w) >= 0
    ensures Splits(query, words, used, p, pieces) && |pieces| == FoundFromWord(query, words, used, p, w)
    ensures forall other: seq<Piece> :: Splits(query, words, used, p, other) && (other == [] || w <= other[0].word) ==>
              NoLater(pieces, other)
    decreases |query| - p, 1, |words| - w
  {
    var longest := if w in used then 0 else Common(words[w], query, p);
    if FoundAfterPrefix(query, words, used + {w}, p, longest) >= 0 {
      var length, tail := FoundAfterPrefixIsFirst(query, words, used + {w}, p, longest);
      Shorter(words[w], query, p, longest, length);
      SplitsCons(query, words, used, p, w, length, tail);
      pieces := [Piece(w, length)] + tail;
      forall other: seq<Piece> | Splits(query, words, used, p, other) && (other == [] || w <= other[0].word)
        ensures NoLater(pieces, other)
      {
        if other != [] && other[0].word == w {
          SameWordNoLater(query, words, used, p, w, longest, length, tail, other);
        }
      }
    } else {
      var length := FoundAfterPrefixIsSplit(query, words, used + {w}, p, longest);
      if w !in used {
        NoPieceFits(query, words, used, p, w, p + longest);
      } else {
        UsedWordStartsNone(query, words, used, p, w);
      }
      pieces := FoundFromWordIsFirst(query, words, used, p, w + 1);
    }
  }

  /** Of the splits that start with the same word, none has a longer first piece, and none a better rest. */
  lemma SameWordNoLater(query: Text, words: seq<Text>, used: set<nat>, p: nat, w: nat, longest: nat, length: nat,
      tail: seq<Piece>, other: seq<Piece>)
    requires p < |query| && w < |words| && w !in used && longest == Common(words[w], query, p) && 0 < length <= longest
    requires forall q :: p + length < q <= p + longest ==> !Splittable(query, words, used + {w}, q)
    requires forall rest: seq<Piece> :: Splits(query, words, used + {w}, p + length, rest) ==> NoLater(tail, rest)
    requires Splits(query, words, used, p, other) && other != [] && other[0].word == w
    ensures NoLater([Piece(w, length)] + tail, other)
  {
    SplitsTail(query, words, used, p, other);
    var q := p + other[0].length;
    CommonIsLongest(words[w], query, p, other[0].length);
    assert Splittable(query, words, used + {w}, q);
    assert ([Piece(w, length)] + tail)[1..] == tail;
  }

  lemma {:induction false} FoundAfterPrefixIsFirst(query: Text, words: seq<Text>, used: set<nat>, p: nat, n: nat)
    returns (length: nat, tail: seq<Piece>)
    requires p + n <= |query| && FoundAfterPrefix(query, words, used, p, n) >= 0
    ensures 0 < length <= n && Splits(query, words, used, p + length, tail)
    ensures |tail| == FoundAfterPrefix(query, words, used, p, n)
    ensures forall q :: p + length < q <= p + n ==> !Splittable(query, words, used, q)
    ensures forall rest: seq<Piece> :: Splits(query, words, used, p + length, rest) ==> NoLater(tail, rest)
    decreases |query| - p, 0, n
  {
    FoundIsSplit(query, words, used, p + n);
    if Found(query, words, used, p + n) >= 0 {
      length := n;
      tail := FoundIsFirst(query, words, used, p + n);
    } else {
      length, tail := FoundAfterPrefixIsFirst(query, words, used, p, n - 1);
    }
  }

  lemma WordTried(query: Text, words: seq<Text>, used: set<nat>, p: nat, w: nat)
    requires p < |query| && w < |words|
    ensures var rest := FoundAfterPrefix(query, words, used + {w}, p, Common(words[w], query, p));
            FoundFromWord(query, words, used, p, w)
            == if w !in used && rest >= 0 then rest + 1 else FoundFromWord(query, words, used, p, w + 1)
  {
  }

  lemma PrefixTried(query: Text, words: seq<Text>, used: set<nat>, p: nat, n: nat)
    requires 0 < n && p + n <= |query|
    ensures var rest := Found(query, words, used, p + n);
            FoundAfterPrefix(query, words, used, p, n)
            == if rest >= 0 then rest else FoundAfterPrefix(query, words, used, p, n - 1)
  {
  }

  lemma Shorter(word: Text, query: Text, p: nat, longest: nat, n: nat)
    requires n <= longest <= |word| && p + longest <= |query| && word[..longest] == query[p..p + longest]
    ensures word[..n] == query[p..p + n]
  {
    assert word[..longest][..n] == word[..n] && query[p..p + longest][..n] == query[p..p + n];
  }

  ghost predicate NoneStartsWith(query: Text, words: seq<Text>, used: set<nat>, p: nat, w: nat)
    requires p <= |query|
  {
    forall pieces: seq<Piece> :: Splits(query, words, used, p, pieces) ==> pieces == [] || pieces[0].word != w
  }

  lemma UsedWordStartsNone(query: Text, words: seq<Text>, used: set<nat>, p: nat, w: nat)
    requires p <= |query| && w in used
    ensures NoneStartsWith(query, words, used, p, w)
  {
  }

  /** No split can start with this word: no longer prefix agrees with the query, and no shorter one leaves a split. */
  lemma NoPieceFits(query: Text, words: seq<Text>, used: set<nat>, p: nat, w: nat, last: nat)
    requires p <= last <= |query| && w < |words| && w !in used && last - p <= |words[w]|
    requires last - p == |words[w]| || last == |query| || words[w][last - p] != query[last]
    requires forall q :: p < q <= last ==> !Splittable(query, words, used + {w}, q)
    ensures NoneStartsWith(query, words, used, p, w)
  {
    forall pieces: seq<Piece> | Splits(query, words, used, p, pieces) ensures pieces == [] || pieces[0].word != w {
      if pieces != [] {
        SplitsTail(query, words, used, p, pieces);
        var q := p + pieces[0].length;
        assert last < q ==> query[p..q][last - p] == words[pieces[0].word][..q - p][last - p];
        assert pieces[0].word == w ==> Splittable(query, words, used + {w}, q);
      }
    }
  }

  lemma SomeWordStarts(query: Text, words: seq<Text>, used: set<nat>, p: nat)
    requires p < |query| && Splittable(query, words, used, p)
    ensures exists v :: 0 <= v < |words| && !NoneStartsWith(query, words, used, p, v)
  {
    var pieces: seq<Piece> :| Splits(query, words, used, p, pieces);
    assert pieces != [];
    assert !NoneStartsWith(query, words, used, p, pieces[0].word);
  }

  /** Words that share no prefix with the query are passed over. */
  lemma {:induction false} WordsPassedOver(query: Text, words: seq<Text>, used: set<nat>, p: nat, from: nat, to: nat)
    requires p < |query| && from <= to <= |words|
    requires forall w :: from <= w < to ==> w in used || words[w] == [] || words[w][0] != query[p]
    ensures FoundFromWord(query, words, used, p, from) == FoundFromWord(query, words, used, p, to)
    decreases |words| - from
  {
    if from < to {
      WordsPassedOver(query, words, used, p, from + 1, to);
    }
  }

  ghost predicate SortedWords(words: seq<Text>) {
    && (forall i :: 0 <= i < |words| ==> words[i] != [])
    && (forall i, j :: 0 <= i < j < |words| ==> words[i][0] <= words[j][0])
  }

  // ---------------------------------------------------------------- searching

  /** std::lower_bound on the first characters. */
  method LowerBound(words: seq<Text>, ch: Utf16) returns (k: nat)
    requires SortedWords(words)
    ensures k <= |words|
    ensures forall i :: 0 <= i < |words| ==> (words[i][0] < ch <==> i < k)
  {
    k := 0;
    var count := |words|;
    while count > 0
      invariant 0 <= k <= k + count <= |words|
      invariant forall i :: 0 <= i < k ==> words[i][0] < ch
      invariant forall i :: k + count <= i < |words| ==> words[i][0] >= ch
    {
      var step := count / 2;
      if words[k + step][0] < ch {
        k := k + step + 1;
        count := count - (step + 1);
      } else {
        count := step;
      }
    }
  }

  /** std::upper_bound on the first characters. */
  method UpperBound(words: seq<Text>, ch: Utf16) returns (k: nat)
    requires SortedWords(words)
    ensures k <= |words|
    ensures forall i :: 0 <= i < |words| ==> (words[i][0] <= ch <==> i < k)
  {
    k := 0;
    var count := |words|;
    while count > 0
      invariant 0 <= k <= k + count <= |words|
      invariant forall i :: 0 <= i < k ==> words[i][0] <= ch
      invariant forall i :: k + count <= i < |words| ==> words[i][0] > ch
    {
      var step := count / 2;
      if !(ch < words[k + step][0]) {
        k := k + step + 1;
        count := count - (step + 1);
      } else {
        count := step;
      }
    }
  }

  /** The words from begin to end are exactly those that start with ch. */
  method FindWordsStartingWith(words: seq<Text>, ch: Utf16) returns (begin: nat, end: nat)
    requires SortedWords(words)
    ensures begin <= end <= |words|
    ensures forall i :: 0 <= i < |words| ==> (begin <= i < end <==> words[i][0] == ch)
  {
    begin := LowerBound(words, ch);
    end := UpperBound(words, ch);
    assert end < |words| ==> words[end][0] > ch;
  }

  /** The longest common prefix of the word and the query from position on, given that they start alike. */
  method FindEqualCharsCount(query: Text, position: nat, word: Text) returns (n: nat)
    requires position < |query| && word != [] && word[0] == query[position]
    ensures 0 < n == Common(word, query, position)
  {
    var charsLeft := |query| - position;
    var possible := if charsLeft > |word| then |word| else charsLeft;
    n := 1;
    while n != possible
      invariant 1 <= n <= possible
      invariant word[..n] == query[position..position + n]
      decreases possible - n
    {
      if word[n] != query[position + n] {
        CommonIs(word, query, position, n);
        return;
      }
      PrefixGrows(word, query, position, n);
      n := n + 1;
    }
    CommonIs(word, query, position, n);
  }

  lemma PrefixGrows(word: Text, query: Text, p: nat, n: nat)
    requires n < |word| && p + n < |query| && word[..n] == query[p..p + n] && word[n] == query[p + n]
    ensures word[..n + 1] == query[p..p + (n + 1)]
  {
    assert word[..n + 1] == word[..n] + [word[n]];
    assert query[p..p + (n + 1)] == query[p..p + n] + [query[p + n]];
  }

  /** The words that the map marks as used. */
  function Used(usedMap: seq<bool>): set<nat> {
    set w: nat | w < |usedMap| && usedMap[w]
  }

  lemma MarkUsed(usedMap: seq<bool>, w: nat)
    requires w < |usedMap| && !usedMap[w]
    ensures Used(usedMap[w := true]) == Used(usedMap) + {w} && usedMap[w := true][w := false] == usedMap
  {
  }

  class Completer {
    const initialQuery: Text
    const query: Text
    var words: seq<Text>       // _currentItemWords
    var usedMap: seq<bool>     // _currentItemWordsUsedMap
    var usedCount: int         // _currentItemWordsUsedCount
    var result: seq<Match>     // _result

    /** The matcher works on the normalized query; exact matches are told by the query as it was typed. */
    constructor (initialQuery: Text)
      ensures this.initialQuery == initialQuery && query == Normalized(initialQuery, 0) && result == []
    {
      var normalized := NormalizeQuery(initialQuery);
      this.initialQuery, query := initialQuery, normalized;
      words, usedMap, usedCount, result := [], [], 0, [];
    }

    /** The backtracking matcher.  It answers whether the rest of the query splits over the unused words; it always
        leaves the map of used words as it was, and raises the counter by the number of pieces of the split that it
        finds. */
    method MatchQueryTailStartingFrom(position: nat) returns (ok: bool)
      requires position <= |query| && |words| <= |usedMap| && SortedWords(words)
      modifies `usedMap, `usedCount
      ensures usedMap == old(usedMap)
      ensures ok <==> Splittable(query, words, Used(usedMap), position)
      ensures ok ==> SplitsInto(query, words, Used(usedMap), position, usedCount - old(usedCount))
      ensures var found := Found(query, words, Used(usedMap), position);
              (ok <==> found >= 0) && usedCount == old(usedCount) + if ok then found else 0
      decreases |query| - position, 3
    {
      FoundIsSplit(query, words, Used(usedMap), position);
      if |query| - position == 0 {
        return true;
      }
      ok := TryWords(position);
    }

    /** The matcher's loop over the words that start right. */
    method TryWords(position: nat) returns (ok: bool)
      requires position < |query| && |words| <= |usedMap| && SortedWords(words)
      modifies `usedMap, `usedCount
      ensures usedMap == old(usedMap)
      ensures var found := FoundFromWord(query, words, Used(usedMap), position, 0);
              (ok <==> found >= 0) && usedCount == old(usedCount) + if ok then found else 0
      decreases |query| - position, 2
    {
      ghost var used := Used(usedMap);
      ghost var found := FoundFromWord(query, words, used, position, 0);
      var begin, end := FindWordsStartingWith(words, query[position]);
      WordsPassedOver(query, words, used, position, 0, begin);
      for index := begin to end
        invariant usedMap == old(usedMap) && usedCount == old(usedCount)
        invariant found == FoundFromWord(query, words, used, position, index)
      {
        WordTried(query, words, used, position, index);
        assert usedMap[index] <==> index in used;
        if !usedMap[index] {
          ok := TryWord(position, index);
          if ok {
            return true;
          }
        }
      }
      WordsPassedOver(query, words, used, position, end, |words|);
      return false;
    }

    /** The body of the matcher's loop: try the prefixes of one word, longest first, with the word marked as used. */
    method TryWord(position: nat, index: nat) returns (ok: bool)
      requires position < |query| && index < |words| <= |usedMap| && SortedWords(words)
      requires !usedMap[index] && words[index][0] == query[position]
      modifies `usedMap, `usedCount
      ensures usedMap == old(usedMap)
      ensures var longest := Common(words[index], query, position);
              var rest := FoundAfterPrefix(query, words, Used(usedMap) + {index}, position, longest);
              (ok <==> rest >= 0) && usedCount == old(usedCount) + if ok then rest + 1 else 0
      decreases |query| - position, 1
    {
      MarkUsed(usedMap, index);
      usedMap := usedMap[index := true];
      usedCount := usedCount + 1;
      var check := FindEqualCharsCount(query, position, words[index]);
      ok := TryPrefixes(position, check);
      if !ok {
        usedCount := usedCount - 1;
      }
      usedMap := usedMap[index := false];
    }

    /** The inner loop: try the prefixes that agree with the query, longest first. */
    method TryPrefixes(position: nat, longest: nat) returns (ok: bool)
      requires position < |query| && position + longest <= |query| && |words| <= |usedMap| && SortedWords(words)
      modifies `usedMap, `usedCount
      ensures usedMap == old(usedMap)
      ensures var rest := FoundAfterPrefix(query, words, Used(usedMap), position, longest);
              (ok <==> rest >= 0) && usedCount == old(usedCount) + if ok then rest else 0
      decreases |query| - position, 0
    {
      var check := longest;
      ghost var used := Used(usedMap);
      ghost var found := FoundAfterPrefix(query, words, used, position, check);
      while check != 0
        invariant 0 <= check && position + check <= |query|
        invariant usedMap == old(usedMap) && usedCount == old(usedCount)
        invariant found == FoundAfterPrefix(query, words, used, position, check)
      {
        PrefixTried(query, words, used, position, check);
        var rest := MatchQueryTailStartingFrom(position + check);
        if rest {
          return true;
        }
        check := check - 1;
      }
      return false;
    }

    method StartsWithQuery(word: Text) returns (ok: bool)
      ensures ok <==> query <= word
    {
      if |word| < |query| {
        return false;
      }
      for i := 0 to |query|
        invariant query[..i] == word[..i]
      {
        if word[i] != query[i] {
          return false;
        }
      }
      return true;
    }

    /** An item with one word matches if the word starts with the query; this shortcut gives the matcher's answer, but
        it leaves the counter alone. */
    method MatchQueryForCurrentItem() returns (ok: bool)
      requires query != [] && words != [] && |words| <= |usedMap| && SortedWords(words) && AllUnused(usedMap)
      modifies `usedMap, `usedCount
      ensures usedMap == old(usedMap)
      ensures ok <==> Matches(query, words)
      ensures usedCount == old(usedCount) + if ok then WordsUsed(query, words) - 1 else 0
    {
      assert Used(usedMap) == {};
      if |words| < 2 {
        OneWordSplits(query, words);
        ok := StartsWithQuery(words[0]);
        return;
      }
      ok := MatchQueryTailStartingFrom(0);
    }

    method AddResult(item: Replacement)
      requires query != [] && |item.replacement| >= 2 && AllNamed(result)
      modifies `result
      ensures result == AddMatch(query, old(result), Match(item, usedCount)) && AllNamed(result)
    {
      if result == [] || result[|result| - 1].item.emoji != item.emoji {
        result := result + [Match(item, usedCount)];
      } else if IsBetter(query, result[|result| - 1], Match(item, usedCount)) {
        result := result[|result| - 1 := Match(item, usedCount)];
      }
    }

    method InitWordsTracking(list: seq<Replacement>)
      modifies `usedMap
      ensures AllUnused(usedMap)
      ensures forall i :: 0 <= i < |list| ==> |list[i].words| <= |usedMap|
    {
      var maxWordsCount := 0;
      for i := 0 to |list|
        invariant 0 <= maxWordsCount && forall k :: 0 <= k < i ==> |list[k].words| <= maxWordsCount
      {
        if maxWordsCount < |list[i].words| {
          maxWordsCount := |list[i].words|;
        }
      }
      usedMap := seq(maxWordsCount, _ => false);
    }

    /** One item of the list: it goes through AddResult if it matches. */
    method FilterItem(item: Replacement) returns (ok: bool)
      requires query != [] && |item.replacement| >= 2 && item.words != [] && SortedWords(item.words)
      requires |item.words| <= |usedMap| && AllUnused(usedMap) && AllNamed(result)
      modifies this
      ensures usedMap == old(usedMap) && AllNamed(result)
      ensures ok <==> Matches(query, item.words)
      ensures result == if ok then AddMatch(query, old(result), Hit(query, item)) else old(result)
    {
      words := item.words;
      usedCount := 1;
      ok := MatchQueryForCurrentItem();
      if ok {
        AddResult(item);
      }
      usedCount := 0;
    }

    /** The items that match the query, in the order of the list, go through AddResult one by one. */
    method FilterInitialList(list: seq<Replacement>)
      requires query != [] && Searchable(list) && result == []
      modifies this
      ensures result == Collapse(query, Hits(query, list)) && AllNamed(result)
    {
      InitWordsTracking(list);
      for i := 0 to |list|
        invariant AllUnused(usedMap) && forall k :: 0 <= k < |list| ==> |list[k].words| <= |usedMap|
        invariant result == Collapse(query, Hits(query, list[..i])) && AllNamed(result)
      {
        var ok := FilterItem(list[i]);
        NextHit(query, list, i);
      }
      assert list[..|list|] == list;
    }

    method ProcessInitialList(list: seq<Replacement>)
      requires query != [] && Searchable(list) && result == []
      modifies this
      ensures result == Collapse(query, Candidates(query, list)) && AllNamed(result)
    {
      if |query| > 1 {
        FilterInitialList(list);
      } else {
        usedCount := 1;
        ghost var all := Candidates(query, list);
        for i := 0 to |list|
          invariant usedCount == 1 && result == Collapse(query, all[..i]) && AllNamed(result)
        {
          assert all[..i + 1][..i] == all[..i];
          AddResult(list[i]);
        }
        assert all[..|list|] == all;
      }
    }

    method IsExactMatch(replacement: Text) returns (ok: bool)
      ensures ok <==> ExactMatch(initialQuery, replacement)
    {
      if |replacement| != |initialQuery| + 1 {
        return false;
      }
      for i := 0 to |initialQuery|
        invariant replacement[..i] == initialQuery[..i]
      {
        if replacement[i] != initialQuery[i] {
          return false;
        }
      }
      return true;
    }

    /** The four partitions are one stable sort of the results by the rank keys. */
    method PrepareResult() returns (suggestions: seq<Replacement>, ghost ranked: seq<(Match, nat)>)
      requires query != [] && AllNamed(result)
      modifies `result
      ensures Ranking.StablySorted(old(result), RankKeys(initialQuery, query[0]), result, ranked)
      ensures multiset(result) == multiset(old(result))
      ensures |suggestions| == |result| && forall i :: 0 <= i < |result| ==> suggestions[i] == result[i].item
    {
      ghost var keys := RankKeys(initialQuery, query[0]);
      ranked := Ranking.PartitionsAreStableSort(result, keys);
      PartitionsInTurn(result, initialQuery, query[0]);
      result := Ranking.StablePartition(result, FirstCharMatches(query[0]));
      result := Ranking.StablePartition(result, UsesFewerThan(2));
      result := Ranking.StablePartition(result, UsesFewerThan(3));
      result := Ranking.StablePartition(result, IsExact(initialQuery));
      suggestions := seq(|result|, i requires 0 <= i < |result| reads this => result[i].item);
    }

    /** The suggestions for a query: list is the list of candidates for its first character, if there is one. */
    method Resolve(list: seq<Replacement>) returns (suggestions: seq<Replacement>, ghost ranked: seq<(Match, nat)>)
      requires Searchable(list) && result == []
      modifies this
      ensures query == [] || list == [] ==> suggestions == []
      ensures query != [] ==>
                var keys := RankKeys(initialQuery, query[0]);
                Ranking.StablySorted(Collapse(query, Candidates(query, list)), keys, result, ranked)
      ensures |suggestions| == |result| && forall i :: 0 <= i < |result| ==> suggestions[i] == result[i].item
      ensures forall i, j :: 0 <= i < j < |suggestions| ==>
                var ri, rj := suggestions[i].replacement, suggestions[j].replacement;
                (|rj| == |initialQuery| + 1 && initialQuery <= rj) ==> |ri| == |initialQuery| + 1 && initialQuery <= ri
    {
      if query == [] {
        return [], [];
      }
      ProcessInitialList(list);
      suggestions, ranked := PrepareResult();
      ghost var hits := Collapse(query, Candidates(query, list));
      forall i, j | 0 <= i < j < |suggestions| &&
                    |suggestions[j].replacement| == |initialQuery| + 1 && initialQuery <= suggestions[j].replacement
        ensures |suggestions[i].replacement| == |initialQuery| + 1 && initialQuery <= suggestions[i].replacement
      {
        ExactMatchesFirst(initialQuery, query[0], hits, result, ranked, i, j);
      }
      assert list == [] ==> Candidates(query, list) == [];
      assert list == [] ==> |ranked| == |multiset(ranked)| == 0;
    }
  }

  // ---------------------------------------------------------------- the matches of an item

  ghost predicate AllUnused(used: seq<bool>) {
    forall i :: 0 <= i < |used| ==> !used[i]
  }

  /** The whole query is a concatenation of prefixes of distinct words of the item. */
  ghost predicate Matches(query: Text, words: seq<Text>) {
    Splittable(query, words, {}, 0)
  }

  /** The count of used words of an item that matches: one more than the number of pieces, except that an item with one
      word counts one. */
  function WordsUsed(query: Text, words: seq<Text>): int {
    if |words| < 2 then 1 else Found(query, words, {}, 0) + 1
  }

  /** Of the items with several words, none that matches a non-empty query counts fewer than two words. */
  lemma SeveralWordsCountTwo(query: Text, words: seq<Text>)
    requires query != [] && |words| >= 2 && Matches(query, words)
    ensures WordsUsed(query, words) >= 2 && SplitsInto(query, words, {}, 0, WordsUsed(query, words) - 1)
  {
    FoundIsSplit(query, words, {}, 0);
    var n := Found(query, words, {}, 0);
    var pieces: seq<Piece> :| Splits(query, words, {}, 0, pieces) && |pieces| == n;
    assert Joined(words, []) == [] && query[0..] == query;
  }

  ghost predicate Searchable(list: seq<Replacement>) {
    forall i :: 0 <= i < |list| ==> |list[i].replacement| >= 2 && list[i].words != [] && SortedWords(list[i].words)
  }

  function Hit(query: Text, item: Replacement): Match {
    Match(item, WordsUsed(query, item.words))
  }

  /** The items of the list that match, in order, each with its count of used words. */
  ghost function Hits(query: Text, list: seq<Replacement>): seq<Match> {
    if list == [] then []
    else
      var item := list[|list| - 1];
      Hits(query, list[..|list| - 1]) + if Matches(query, item.words) then [Hit(query, item)] else []
  }

  /** The hits are the matching items in the order of the list; one with several words counts one word more than the
      pieces of a split, one with a single word counts one. */
  lemma {:induction false} HitsAre(query: Text, list: seq<Replacement>) returns (at: seq<nat>)
    requires query != []
    ensures HoldsHits(query, list, Hits(query, list), at)
  {
    at := [];
    if list != [] {
      var n := |list| - 1;
      at := HitsAre(query, list[..n]);
      if Matches(query, list[n].words) {
        if |list[n].words| >= 2 {
          SeveralWordsCountTwo(query, list[n].words);
        }
        HitOneMore(query, list, Hits(query, list[..n]), at, Hit(query, list[n]));
        at := at + [n];
      } else {
        assert Hits(query, list) == Hits(query, list[..n]);
      }
    }
  }

  ghost predicate HoldsHits(query: Text, list: seq<Replacement>, hits: seq<Match>, at: seq<nat>) {
    && |at| == |hits|
    && (forall k, l :: 0 <= k < l < |at| ==> at[k] < at[l])
    && (forall k :: 0 <= k < |at| ==> at[k] < |list| && hits[k].item == list[at[k]] && CountsWords(query, hits[k]))
    && (forall i :: 0 <= i < |list| ==> (i in at <==> Matches(query, list[i].words)))
  }

  lemma HitOneMore(query: Text, list: seq<Replacement>, hits: seq<Match>, at: seq<nat>, hit: Match)
    requires list != [] && HoldsHits(query, list[..|list| - 1], hits, at)
    requires var n := |list| - 1; Matches(query, list[n].words) && hit.item == list[n] && CountsWords(query, hit)
    ensures HoldsHits(query, list, hits + [hit], at + [|list| - 1])
  {
    var n, more := |list| - 1, at + [|list| - 1];
    forall i | 0 <= i < |list| ensures i in more <==> Matches(query, list[i].words) {
      assert i in more <==> i == n || i in at;
      assert i < n ==> list[..n][i] == list[i];
    }
  }

  ghost predicate CountsWords(query: Text, m: Match) {
    if |m.item.words| < 2 then m.wordsUsed == 1 else SplitsInto(query, m.item.words, {}, 0, m.wordsUsed - 1)
  }

  lemma OneCharacterTakesAll(query: Text, list: seq<Replacement>)
    requires |query| == 1
    ensures |Candidates(query, list)| == |list|
    ensures forall i :: 0 <= i < |list| ==> Candidates(query, list)[i] == Match(list[i], 1)
  {
  }

  /** A query of one character takes every item of its list. */
  ghost function Candidates(query: Text, list: seq<Replacement>): seq<Match> {
    if |query| > 1 then Hits(query, list) else seq(|list|, i requires 0 <= i < |list| => Match(list[i], 1))
  }

  // ---------------------------------------------------------------- collapsing duplicates

  ghost predicate AllNamed(result: seq<Match>) {
    forall i :: 0 <= i < |result| ==> |result[i].item.replacement| >= 2
  }

  predicate IsBetter(query: Text, last: Match, current: Match)
    requires query != [] && |last.item.replacement| >= 2 && |current.item.replacement| >= 2
  {
    || current.wordsUsed < last.wordsUsed
    || (last.item.replacement[1] != query[0] && current.item.replacement[1] == query[0])
  }

  function AddMatch(query: Text, result: seq<Match>, m: Match): seq<Match>
    requires query != []
  {
    if result == [] || result[|result| - 1].item.emoji != m.item.emoji then result + [m]
    else
      var last := result[|result| - 1];
      if |last.item.replacement| >= 2 && |m.item.replacement| >= 2 && IsBetter(query, last, m)
      then result[|result| - 1 := m]
      else result
  }

  function Collapse(query: Text, hits: seq<Match>): seq<Match>
    requires query != []
  {
    if hits == [] then [] else AddMatch(query, Collapse(query, hits[..|hits| - 1]), hits[|hits| - 1])
  }

  ghost predicate HasEmoji(r: seq<Match>, emoji: Text) {
    exists k :: 0 <= k < |r| && r[k].item.emoji == emoji
  }

  /** r represents the hits: it holds hits only, never two neighbours with one emoji, and no emoji is lost. */
  ghost predicate Represents(r: seq<Match>, hits: seq<Match>) {
    && (forall k :: 0 <= k < |r| ==> r[k] in hits)
    && (forall k :: 0 < k < |r| ==> r[k - 1].item.emoji != r[k].item.emoji)
    && (forall i :: 0 <= i < |hits| ==> HasEmoji(r, hits[i].item.emoji))
  }

  lemma AddMatchKeepsEmoji(query: Text, r: seq<Match>, m: Match, emoji: Text)
    requires query != [] && HasEmoji(r, emoji)
    ensures HasEmoji(AddMatch(query, r, m), emoji)
  {
    var k :| 0 <= k < |r| && r[k].item.emoji == emoji;
    assert AddMatch(query, r, m)[k].item.emoji == emoji;
  }

  lemma AddMatchHasEmoji(query: Text, r: seq<Match>, m: Match)
    requires query != []
    ensures HasEmoji(AddMatch(query, r, m), m.item.emoji)
  {
    var r' := AddMatch(query, r, m);
    assert r'[|r'| - 1].item.emoji == m.item.emoji;
  }

  lemma NextRepresents(query: Text, r: seq<Match>, hits: seq<Match>, n: nat)
    requires query != [] && n == |hits| - 1 && Represents(r, hits[..n])
    ensures Represents(AddMatch(query, r, hits[n]), hits)
  {
    var r' := AddMatch(query, r, hits[n]);
    forall k | 0 <= k < |r'| ensures r'[k] in hits {
      assert k < |r| ==> r[k] in hits[..n];
      assert r'[k] == hits[n] || (k < |r| && r'[k] == r[k]);
    }
    forall i | 0 <= i < |hits| ensures HasEmoji(r', hits[i].item.emoji) {
      if i < n {
        assert hits[..n][i] == hits[i];
        AddMatchKeepsEmoji(query, r, hits[n], hits[i].item.emoji);
      } else {
        AddMatchHasEmoji(query, r, hits[n]);
      }
    }
  }

  /** Collapsing the hits gives a list that represents them. */
  lemma {:induction false} CollapseRepresents(query: Text, hits: seq<Match>)
    requires query != []
    ensures Represents(Collapse(query, hits), hits)
  {
    if hits != [] {
      var n := |hits| - 1;
      CollapseRepresents(query, hits[..n]);
      NextRepresents(query, Collapse(query, hits[..n]), hits, n);
    }
  }

  /** All hits from i to j are of one emoji. */
  predicate OneRun(hits: seq<Match>, i: nat, j: nat)
    requires i <= j < |hits|
  {
    forall m :: i <= m <= j ==> hits[m].item.emoji == hits[i].item.emoji
  }

  /** kept lists those of the first n hits that survive, in their order; of the hits that follow in the same run,
      none is better. */
  ghost predicate Survive(query: Text, hits: seq<Match>, n: nat, r: seq<Match>, kept: seq<nat>)
    requires query != [] && AllNamed(hits) && n <= |hits|
  {
    && |kept| == |r|
    && (forall k :: 0 <= k < |r| ==> kept[k] < n && r[k] == hits[kept[k]])
    && (forall k :: 0 < k < |r| ==> kept[k - 1] < kept[k])
    && (forall k {:trigger BestOfRun(query, hits, n, kept[k])} :: 0 <= k < |r| ==> BestOfRun(query, hits, n, kept[k]))
  }

  predicate BestOfRun(query: Text, hits: seq<Match>, n: nat, i: nat)
    requires query != [] && AllNamed(hits) && i < n <= |hits|
  {
    forall j {:trigger OneRun(hits, i, j)} :: i <= j < n && OneRun(hits, i, j) ==> !IsBetter(query, hits[i], hits[j])
  }

  ghost predicate Alternates(r: seq<Match>) {
    forall k :: 0 < k < |r| ==> r[k - 1].item.emoji != r[k].item.emoji
  }

  /** Among hits of one emoji, the later one replaces the earlier one if it uses fewer words, or if only its second
      character is the query's first. */
  lemma ReplacesIff(query: Text, r: seq<Match>, m: Match)
    requires query != [] && r != [] && r[|r| - 1].item.emoji == m.item.emoji && AllNamed(r) && |m.item.replacement| >= 2
    ensures var last, n := r[|r| - 1], |r| - 1;
            AddMatch(query, r, m)
            == if m.wordsUsed < last.wordsUsed
                  || (last.item.replacement[1] != query[0] && m.item.replacement[1] == query[0])
               then r[n := m] else r
  {
  }

  /** Of the hits that follow a survivor in its run, none uses fewer words, and none starts like the query unless the
      survivor does. */
  lemma SurvivorsAreBest(query: Text, hits: seq<Match>) returns (kept: seq<nat>)
    requires query != [] && AllNamed(hits)
    ensures var r := Collapse(query, hits);
            && |kept| == |r|
            && (forall k :: 0 <= k < |r| ==> kept[k] < |hits| && r[k] == hits[kept[k]])
            && (forall k :: 0 < k < |r| ==> kept[k - 1] < kept[k])
            && (forall k, j :: 0 <= k < |r| && kept[k] <= j < |hits| && OneRun(hits, kept[k], j) ==>
                  && r[k].wordsUsed <= hits[j].wordsUsed
                  && (hits[j].item.replacement[1] == query[0] ==> r[k].item.replacement[1] == query[0]))
  {
    kept := BestSurvive(query, hits, |hits|);
    assert hits[..|hits|] == hits;
    var r := Collapse(query, hits);
    forall k, j | 0 <= k < |r| && kept[k] <= j < |hits| && OneRun(hits, kept[k], j)
      ensures r[k].wordsUsed <= hits[j].wordsUsed
      ensures hits[j].item.replacement[1] == query[0] ==> r[k].item.replacement[1] == query[0]
    {
      assert BestOfRun(query, hits, |hits|, kept[k]);
    }
  }

  /** Which of the hits survive: in each run one, and no later hit of the run is better. */
  lemma {:induction false} BestSurvive(query: Text, hits: seq<Match>, n: nat) returns (kept: seq<nat>)
    requires query != [] && AllNamed(hits) && n <= |hits|
    ensures Survive(query, hits, n, Collapse(query, hits[..n]), kept) && Alternates(Collapse(query, hits[..n]))
  {
    CollapseRepresents(query, hits[..n]);
    kept := [];
    if n > 0 {
      assert hits[..n][..n - 1] == hits[..n - 1];
      CollapseRepresents(query, hits[..n - 1]);
      kept := BestSurvive(query, hits, n - 1);
      kept := NextSurvives(query, hits, n - 1, Collapse(query, hits[..n - 1]), kept);
    }
  }

  lemma NextSurvives(query: Text, hits: seq<Match>, n: nat, r: seq<Match>, kept0: seq<nat>) returns (kept: seq<nat>)
    requires query != [] && AllNamed(hits) && n < |hits| && Survive(query, hits, n, r, kept0) && Alternates(r)
    ensures Survive(query, hits, n + 1, AddMatch(query, r, hits[n]), kept)
  {
    if r == [] || r[|r| - 1].item.emoji != hits[n].item.emoji {
      NextIsAdded(query, hits, n, r, kept0);
      kept := kept0 + [n];
    } else if IsBetter(query, r[|r| - 1], hits[n]) {
      NextReplaces(query, hits, n, r, kept0);
      kept := kept0[|r| - 1 := n];
    } else {
      NextIsDropped(query, hits, n, r, kept0);
      kept := kept0;
    }
  }

  /** All survivors stay the best of their runs, if the next hit is no better than the last or of another emoji. */
  lemma AllStillBest(query: Text, hits: seq<Match>, n: nat, r: seq<Match>, kept: seq<nat>, m: nat)
    requires query != [] && AllNamed(hits) && n < |hits| && Survive(query, hits, n, r, kept) && Alternates(r)
    requires m <= |r|
    requires m == |r| && r != [] ==>
               r[|r| - 1].item.emoji != hits[n].item.emoji || !IsBetter(query, r[|r| - 1], hits[n])
    ensures forall k :: 0 <= k < m ==> BestOfRun(query, hits, n + 1, kept[k])
  {
    forall k | 0 <= k < m ensures BestOfRun(query, hits, n + 1, kept[k]) {
      StillBest(query, hits, n, r, kept, k);
    }
  }

  lemma NextIsAdded(query: Text, hits: seq<Match>, n: nat, r: seq<Match>, kept: seq<nat>)
    requires query != [] && AllNamed(hits) && n < |hits| && Survive(query, hits, n, r, kept) && Alternates(r)
    requires r == [] || r[|r| - 1].item.emoji != hits[n].item.emoji
    ensures Survive(query, hits, n + 1, r + [hits[n]], kept + [n])
  {
    OneMore(query, hits, n, n);
    AllStillBest(query, hits, n, r, kept, |r|);
  }

  lemma NextReplaces(query: Text, hits: seq<Match>, n: nat, r: seq<Match>, kept: seq<nat>)
    requires query != [] && AllNamed(hits) && n < |hits| && Survive(query, hits, n, r, kept) && Alternates(r) && r != []
    ensures Survive(query, hits, n + 1, r[|r| - 1 := hits[n]], kept[|r| - 1 := n])
  {
    OneMore(query, hits, n, n);
    AllStillBest(query, hits, n, r, kept, |r| - 1);
  }

  lemma NextIsDropped(query: Text, hits: seq<Match>, n: nat, r: seq<Match>, kept: seq<nat>)
    requires query != [] && AllNamed(hits) && n < |hits| && Survive(query, hits, n, r, kept) && Alternates(r) && r != []
    requires !IsBetter(query, r[|r| - 1], hits[n])
    ensures Survive(query, hits, n + 1, r, kept)
  {
    AllStillBest(query, hits, n, r, kept, |r|);
  }

  /** A survivor stays the best of its run, if the run is over or the next hit is no better. */
  lemma StillBest(query: Text, hits: seq<Match>, n: nat, r: seq<Match>, kept: seq<nat>, k: nat)
    requires query != [] && AllNamed(hits) && n < |hits| && Survive(query, hits, n, r, kept) && Alternates(r) && k < |r|
    requires k == |r| - 1 ==> r[k].item.emoji != hits[n].item.emoji || !IsBetter(query, r[k], hits[n])
    ensures BestOfRun(query, hits, n + 1, kept[k])
  {
    if k < |r| - 1 {
      var next := k + 1;
      assert kept[next - 1] < kept[next] && r[next - 1].item.emoji != r[next].item.emoji;
      RunIsOver(hits, kept[k], kept[next], n);
    } else if r[k].item.emoji != hits[n].item.emoji {
      RunIsOver(hits, kept[k], n, n);
    }
    OneMore(query, hits, n, kept[k]);
  }

  lemma RunIsOver(hits: seq<Match>, i: nat, m: nat, j: nat)
    requires i <= m <= j < |hits| && hits[m].item.emoji != hits[i].item.emoji
    ensures !OneRun(hits, i, j)
  {
  }

  /** One more hit is no better, or of another run. */
  lemma OneMore(query: Text, hits: seq<Match>, n: nat, i: nat)
    requires query != [] && AllNamed(hits) && i <= n < |hits| && (i < n ==> BestOfRun(query, hits, n, i))
    requires OneRun(hits, i, n) ==> !IsBetter(query, hits[i], hits[n])
    ensures BestOfRun(query, hits, n + 1, i)
  {
  }

  lemma NextHit(query: Text, list: seq<Replacement>, i: nat)
    requires query != [] && i < |list|
    ensures var before := Collapse(query, Hits(query, list[..i]));
            Collapse(query, Hits(query, list[..i + 1]))
            == if Matches(query, list[i].words) then AddMatch(query, before, Hit(query, list[i])) else before
  {
    var hits, hit := Hits(query, list[..i]), Hit(query, list[i]);
    assert list[..i + 1][..i] == list[..i];
    assert (hits + [hit])[..|hits|] == hits && hits + [] == hits;
  }

  // ---------------------------------------------------------------- ranking

  predicate ExactMatch(initialQuery: Text, replacement: Text) {
    |replacement| == |initialQuery| + 1 && initialQuery <= replacement
  }

  function FirstCharMatches(ch: Utf16): Match -> bool {
    (m: Match) => |m.item.replacement| >= 2 && m.item.replacement[1] == ch
  }

  function UsesFewerThan(n: int): Match -> bool {
    (m: Match) => m.wordsUsed < n
  }

  function IsExact(initialQuery: Text): Match -> bool {
    (m: Match) => ExactMatch(initialQuery, m.item.replacement)
  }

  /** The rank keys, the least significant first. */
  function RankKeys(initialQuery: Text, ch: Utf16): seq<Match -> bool> {
    [FirstCharMatches(ch), UsesFewerThan(2), UsesFewerThan(3), IsExact(initialQuery)]
  }

  lemma PartitionsInTurn(s: seq<Match>, initialQuery: Text, ch: Utf16)
    ensures Ranking.Partitions(s, RankKeys(initialQuery, ch))
         == Ranking.StablePartition(Ranking.StablePartition(Ranking.StablePartition(Ranking.StablePartition(s,
              FirstCharMatches(ch)), UsesFewerThan(2)), UsesFewerThan(3)), IsExact(initialQuery))
  {
    var k4 := RankKeys(initialQuery, ch);
    var k1, k2, k3 := [k4[0]], [k4[0], k4[1]], [k4[0], k4[1], k4[2]];
    assert k4[..3] == k3 && k3[..2] == k2 && k2[..1] == k1 && k1[..0] == [];
    assert Ranking.Partitions(s, k1) == Ranking.StablePartition(s, k4[0]);
    assert Ranking.Partitions(s, k2) == Ranking.StablePartition(Ranking.Partitions(s, k1), k4[1]);
    assert Ranking.Partitions(s, k3) == Ranking.StablePartition(Ranking.Partitions(s, k2), k4[2]);
  }

  /** The order that the rank keys define: exact matches first; then fewer than three words used; then fewer than two;
      then a matching first character; then the order before ranking. */
  lemma RankOrder(initialQuery: Text, ch: Utf16, a: (Match, nat), b: (Match, nat))
    ensures var ra, rb := a.0.item.replacement, b.0.item.replacement;
            var exactA := |ra| == |initialQuery| + 1 && initialQuery <= ra;
            var exactB := |rb| == |initialQuery| + 1 && initialQuery <= rb;
            var firstA, firstB := |ra| >= 2 && ra[1] == ch, |rb| >= 2 && rb[1] == ch;
            Ranking.Before(a, b, RankKeys(initialQuery, ch)) <==>
              if exactA != exactB then exactA
              else if (a.0.wordsUsed < 3) != (b.0.wordsUsed < 3) then a.0.wordsUsed < 3
              else if (a.0.wordsUsed < 2) != (b.0.wordsUsed < 2) then a.0.wordsUsed < 2
              else if firstA != firstB then firstA
              else a.1 < b.1
  {
    var k4 := RankKeys(initialQuery, ch);
    var k1, k2, k3 := [k4[0]], [k4[0], k4[1]], [k4[0], k4[1], k4[2]];
    assert k4[..3] == k3 && k3[..2] == k2 && k2[..1] == k1 && k1[..0] == [];
    assert Ranking.Before(a, b, k1) <==> if k4[0](a.0) != k4[0](b.0) then k4[0](a.0) else a.1 < b.1;
    assert Ranking.Before(a, b, k2) <==> if k4[1](a.0) != k4[1](b.0) then k4[1](a.0) else Ranking.Before(a, b, k1);
    assert Ranking.Before(a, b, k3) <==> if k4[2](a.0) != k4[2](b.0) then k4[2](a.0) else Ranking.Before(a, b, k2);
  }

  /** In a ranked list no exact match stands behind another suggestion. */
  lemma ExactMatchesFirst(initialQuery: Text, ch: Utf16, s: seq<Match>, out: seq<Match>, t: seq<(Match, nat)>, i: nat,
      j: nat)
    requires Ranking.StablySorted(s, RankKeys(initialQuery, ch), out, t) && i < j < |out|
    requires var r := out[j].item.replacement; |r| == |initialQuery| + 1 && initialQuery <= r
    ensures var r := out[i].item.replacement; |r| == |initialQuery| + 1 && initialQuery <= r
  {
    assert Ranking.Before(t[i], t[j], RankKeys(initialQuery, ch));
    RankOrder(initialQuery, ch, t[i], t[j]);
    assert out[i] == t[i].0 && out[j] == t[j].0;
  }

  // ---------------------------------------------------------------- normalizing the query

  predicate IsNumber(ch: Utf16) {
    '0' as int <= ch <= '9' as int
  }

  predicate IsLetterOrNumber(ch: Utf16) {
    'a' as int <= ch <= 'z' as int || IsNumber(ch)
  }

  predicate IsSign(ch: Utf16) {
    ch == '-' as int || ch == '+' as int
  }

  /** A letter or number stays; a sign stays if a number follows or nothing does. */
  predicate Kept(q: Text, i: nat)
    requires i < |q|
  {
    IsLetterOrNumber(q[i]) || (IsSign(q[i]) && (i + 1 == |q| || IsNumber(q[i + 1])))
  }

  function Normalized(q: Text, i: nat): Text
    requires i <= |q|
    decreases |q| - i
  {
    if i == |q| then [] else (if Kept(q, i) then [q[i]] else []) + Normalized(q, i + 1)
  }

  lemma {:induction false} KeptRun(q: Text, i: nat, j: nat)
    requires i <= j <= |q| && forall k :: i <= k < j ==> Kept(q, k)
    ensures Normalized(q, i) == q[i..j] + Normalized(q, j)
    decreases j - i
  {
    if i < j {
      KeptRun(q, i + 1, j);
      Regroup([q[i]], q[i + 1..j], Normalized(q, j));
      assert q[i..j] == [q[i]] + q[i + 1..j];
    }
  }

  lemma KeptTail(q: Text, i: nat)
    requires i <= |q| && forall k :: i <= k < |q| ==> Kept(q, k)
    ensures Normalized(q, i) == q[i..]
  {
    KeptRun(q, i, |q|);
    var tail := q[i..|q|];
    assert Normalized(q, |q|) == [] && tail + [] == tail == q[i..];
  }

  lemma Regroup(a: Text, b: Text, c: Text)
    ensures a + (b + c) == (a + b) + c
  {
  }

  /** Before position i: result and the run from copyFrom on account for everything kept so far. */
  ghost predicate Copying(q: Text, result: Text, copyFrom: nat, i: nat) {
    && copyFrom <= i <= |q|
    && (forall k :: copyFrom <= k < i ==> Kept(q, k))
    && result + Normalized(q, copyFrom) == Normalized(q, 0)
  }

  lemma CopyingKeeps(q: Text, result: Text, copyFrom: nat, i: nat)
    requires i < |q| && Copying(q, result, copyFrom, i) && Kept(q, i)
    ensures Copying(q, result, copyFrom, i + 1)
  {
  }

  /** A dropped character: the run before it is copied. */
  lemma CopyingDrops(q: Text, result: Text, copyFrom: nat, i: nat)
    requires i < |q| && Copying(q, result, copyFrom, i) && !Kept(q, i)
    ensures Copying(q, result + q[copyFrom..i], i + 1, i + 1)
    ensures i == copyFrom ==> result + q[copyFrom..i] == result
  {
    KeptRun(q, copyFrom, i);
    assert Normalized(q, i) == Normalized(q, i + 1);
    Regroup(result, q[copyFrom..i], Normalized(q, i + 1));
  }

  lemma CopyingDone(q: Text, result: Text, copyFrom: nat)
    requires Copying(q, result, copyFrom, |q|)
    ensures result + q[copyFrom..] == Normalized(q, 0)
    ensures copyFrom == |q| ==> result + q[copyFrom..] == result
  {
    KeptTail(q, copyFrom);
  }

  /** Copies the runs of kept characters; the result is the query without the others. */
  method NormalizeQuery(q: Text) returns (result: Text)
    ensures result == Normalized(q, 0)
  {
    result := [];
    var copyFrom := 0;
    for i := 0 to |q|
      invariant Copying(q, result, copyFrom, i)
    {
      if IsLetterOrNumber(q[i]) {
        CopyingKeeps(q, result, copyFrom, i);
        continue;
      } else if IsSign(q[i]) {
        if i + 1 == |q| || IsNumber(q[i + 1]) {
          CopyingKeeps(q, result, copyFrom, i);
          continue;
        }
      }
      CopyingDrops(q, result, copyFrom, i);
      if i > copyFrom {
        result := result + q[copyFrom..i];
      }
      copyFrom := i + 1;
    }
    CopyingDone(q, result, copyFrom);
    if |q| > copyFrom {
      result := result + q[copyFrom..];
    }
  }

  lemma {:induction false} NormalizedIsKept(q: Text, i: nat)
    requires i <= |q|
    ensures var t := Normalized(q, i);
            && (forall k :: 0 <= k < |t| ==> Kept(t, k))
            && (i < |q| && IsNumber(q[i]) ==> t != [] && t[0] == q[i])
    decreases |q| - i
  {
    if i < |q| {
      NormalizedIsKept(q, i + 1);
      var t, rest := Normalized(q, i), Normalized(q, i + 1);
      if Kept(q, i) {
        forall k | 0 <= k < |t| ensures Kept(t, k) {
          if k > 0 {
            assert Kept(rest, k - 1) && t[k] == rest[k - 1];
          }
        }
      } else {
        assert t == rest;
      }
    }
  }

  /** Normalizing a normalized query changes nothing. */
  lemma NormalizeTwice(q: Text)
    ensures Normalized(Normalized(q, 0), 0) == Normalized(q, 0)
  {
    var t := Normalized(q, 0);
    NormalizedIsKept(q, 0);
    KeptRun(t, 0, |t|);
  }

  /** The characters that are kept: the small letters and the digits, and a plus or minus before a digit or at the
      end. */
  lemma KeptIs(q: Text, i: nat)
    requires i < |q|
    ensures Kept(q, i) <==>
              || 97 <= q[i] <= 122 || 48 <= q[i] <= 57
              || ((q[i] == 43 || q[i] == 45) && (i == |q| - 1 || 48 <= q[i + 1] <= 57))
  {
  }

  /** at lists the kept characters from i on, in their order, and t holds them. */
  ghost predicate HoldsKept(q: Text, i: nat, t: Text, at: seq<nat>) {
    && |at| == |t|
    && (forall k, l :: 0 <= k < l < |at| ==> at[k] < at[l])
    && (forall k :: 0 <= k < |at| ==> i <= at[k] < |q| && t[k] == q[at[k]])
    && (forall m :: i <= m < |q| ==> (m in at <==> Kept(q, m)))
  }

  /** The normalized query holds exactly the kept characters, in their order. */
  lemma {:induction false} NormalizedHolds(q: Text, i: nat) returns (at: seq<nat>)
    requires i <= |q|
    ensures HoldsKept(q, i, Normalized(q, i), at)
    decreases |q| - i
  {
    at := [];
    if i < |q| {
      at := NormalizedHolds(q, i + 1);
      if Kept(q, i) {
        KeepOneMore(q, i, Normalized(q, i + 1), at);
        at := [i] + at;
      } else {
        assert [] + Normalized(q, i + 1) == Normalized(q, i + 1);
      }
    }
  }

  lemma KeepOneMore(q: Text, i: nat, t: Text, at: seq<nat>)
    requires i < |q| && Kept(q, i) && HoldsKept(q, i + 1, t, at)
    ensures HoldsKept(q, i, [q[i]] + t, [i] + at)
  {
    var more := [i] + at;
    forall m | i <= m < |q| ensures m in more <==> Kept(q, m) {
      assert m in more <==> m == i || m in at;
    }
  }
}
