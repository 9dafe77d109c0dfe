/**
 * What `tokensFromTextAndLetters` guarantees about the tokens it returns:
 * one rest per `/`, fixed durations, nothing for a snippet with no letter
 * and no `/`, and letters consumed from the entry list in order, each at
 * most once, starting at `startAt`.
 */
module TokenizerLaws {
  import opened JsText
  import opened Letters
  import opened Tokenizer

  function RestCount(tokens: seq<Token>): nat
  {
    if tokens == [] then 0 else (if tokens[0].Rest? then 1 else 0) + RestCount(tokens[1..])
  }

  /** Rests last REST_DUR; every other token is a letter or chord of BASE_DUR with at least one letter. */
  predicate DurationsAsDeclared(tokens: seq<Token>) {
    forall k :: 0 <= k < |tokens| ==>
      if tokens[k].Rest? then tokens[k].dur == REST_DUR
      else tokens[k].dur == BASE_DUR && |tokens[k].letters| >= 1
  }

  lemma {:induction false} TokenizeRawsRests(raws: seq<Raw>, entries: seq<Entry>, cursor: nat)
    ensures RestCount(TokenizeRaws(raws, entries, cursor)) == SlashCount(raws)
    ensures DurationsAsDeclared(TokenizeRaws(raws, entries, cursor))
    decreases |raws|
  {
    if raws != [] {
      var out := TokenizeRaws(raws, entries, cursor);
      match raws[0]
      case Slash =>
        TokenizeRawsRests(raws[1..], entries, cursor);
        assert out[1..] == TokenizeRaws(raws[1..], entries, cursor);
      case Word(w) =>
        var wt := WordToken(w, entries, cursor);
        TokenizeRawsRests(raws[1..], entries, wt.1);
        if wt.0.Some? {
          assert out[1..] == TokenizeRaws(raws[1..], entries, wt.1);
          assert !out[0].Rest?;
        } else {
          assert out == TokenizeRaws(raws[1..], entries, wt.1);
        }
    }
  }

  /**
   * The number of rest tokens is the number of `/` in the snippet; rests
   * last REST_DUR and every other token is a letter or chord of BASE_DUR.
   */
  lemma TokenizeRests(snippet: string, entries: seq<Entry>, startAt: nat)
    ensures RestCount(Tokenize(snippet, entries, startAt)) == CountChar(snippet, '/')
    ensures DurationsAsDeclared(Tokenize(snippet, entries, startAt))
  {
    SplitFromFacts(snippet, []);
    TokenizeRawsRests(SplitRaw(snippet), entries, startAt);
  }

  lemma {:induction false} TokenizeRawsSilent(raws: seq<Raw>, entries: seq<Entry>, cursor: nat)
    requires SlashCount(raws) == 0 && WordLetters(raws) == 0
    ensures TokenizeRaws(raws, entries, cursor) == []
    decreases |raws|
  {
    if raws != [] {
      TokenizeRawsSilent(raws[1..], entries, cursor);
    }
  }

  /** An empty snippet, or one with no letter and no `/`, yields no token at all. */
  lemma TokenizeLetterless(snippet: string, entries: seq<Entry>, startAt: nat)
    requires CountLetters(snippet) == 0 && '/' !in snippet
    ensures Tokenize(snippet, entries, startAt) == []
  {
    SplitFromFacts(snippet, []);
    CountCharAbsent(snippet, '/');
    TokenizeRawsSilent(SplitRaw(snippet), entries, startAt);
  }

  // ---------------------------------------------------------------------
  // Letter consumption
  // ---------------------------------------------------------------------

  /** The letter entries from position `cursor` on, in order. */
  function LetterStream(entries: seq<Entry>, cursor: nat): seq<Entry>
    decreases |entries| - cursor
  {
    if cursor >= |entries| then []
    else (if IsLetter(entries[cursor].ch) then [entries[cursor]] else []) + LetterStream(entries, cursor + 1)
  }

  /** All letters sounded by the tokens, token after token. */
  function Flat(tokens: seq<Token>): seq<TokenLetter>
  {
    if tokens == [] then []
    else (if tokens[0].Rest? then [] else tokens[0].letters) + Flat(tokens[1..])
  }

  /** A sounded letter comes from that entry: same index and style, and its character or `?`. */
  predicate Agrees(l: TokenLetter, e: Entry) {
    l.letterIndex == e.letterIndex && l.style == e.style && (l.ch == e.ch || l.ch == '?')
  }

  /** The sounded letters are, one for one, a prefix of the letter stream. */
  predicate ConsumedInOrder(flat: seq<TokenLetter>, stream: seq<Entry>) {
    |flat| <= |stream| && forall i :: 0 <= i < |flat| ==> Agrees(flat[i], stream[i])
  }

  lemma {:induction false} NextLetterStream(entries: seq<Entry>, cursor: nat)
    ensures NextLetter(entries, cursor).0.Some? ==>
      LetterStream(entries, cursor) ==
        [NextLetter(entries, cursor).0.value] + LetterStream(entries, NextLetter(entries, cursor).1)
    ensures NextLetter(entries, cursor).0.None? ==>
      LetterStream(entries, cursor) == [] && LetterStream(entries, NextLetter(entries, cursor).1) == []
    decreases |entries| - cursor
  {
    if cursor < |entries| && !IsLetter(entries[cursor].ch) {
      NextLetterStream(entries, cursor + 1);
    }
  }

  lemma {:induction false} TakeLettersStream(entries: seq<Entry>, cursor: nat, n: nat)
    ensures LetterStream(entries, cursor) ==
      TakeLetters(entries, cursor, n).0 + LetterStream(entries, TakeLetters(entries, cursor, n).1)
    decreases n
  {
    NextLetterStream(entries, cursor);
    var next := NextLetter(entries, cursor);
    if n == 0 {
      assert TakeLetters(entries, cursor, n) == ([], cursor);
    } else if next.0.None? {
      assert TakeLetters(entries, cursor, n) == ([], next.1);
    } else {
      var rest := TakeLetters(entries, next.1, n - 1);
      TakeLettersStream(entries, next.1, n - 1);
      assert TakeLetters(entries, cursor, n) == ([next.0.value] + rest.0, rest.1);
      assert LetterStream(entries, cursor) == [next.0.value] + (rest.0 + LetterStream(entries, rest.1));
    }
  }

  lemma {:induction false} SoundedAgrees(es: seq<Entry>, random: bool)
    ensures forall i :: 0 <= i < |es| ==> Agrees(SoundedAll(es, random)[i], es[i])
  {
    SoundedAllAt(es, random);
  }

  lemma ConsumedPrepend(m: seq<TokenLetter>, t: seq<Entry>, a: seq<TokenLetter>, b: seq<Entry>)
    requires |m| == |t| && forall i :: 0 <= i < |m| ==> Agrees(m[i], t[i])
    requires ConsumedInOrder(a, b)
    ensures ConsumedInOrder(m + a, t + b)
  {
    forall i | 0 <= i < |m + a|
      ensures Agrees((m + a)[i], (t + b)[i])
    {
      if i >= |m| {
        assert (m + a)[i] == a[i - |m|] && (t + b)[i] == b[i - |m|];
      }
    }
  }

  lemma {:induction false} TokenizeRawsConsumes(raws: seq<Raw>, entries: seq<Entry>, cursor: nat)
    ensures ConsumedInOrder(Flat(TokenizeRaws(raws, entries, cursor)), LetterStream(entries, cursor))
    decreases |raws|
  {
    if raws != [] {
      var out := TokenizeRaws(raws, entries, cursor);
      match raws[0]
      case Slash =>
        TokenizeRawsConsumes(raws[1..], entries, cursor);
        assert out[1..] == TokenizeRaws(raws[1..], entries, cursor);
        assert Flat(out) == Flat(TokenizeRaws(raws[1..], entries, cursor));
      case Word(w) =>
        var wt := WordToken(w, entries, cursor);
        var rest := TokenizeRaws(raws[1..], entries, wt.1);
        TokenizeRawsConsumes(raws[1..], entries, wt.1);
        var n := |LettersOnly(w)|;
        if n == 0 {
          assert out == rest;
        } else {
          var taken := TakeLetters(entries, cursor, n);
          TakeLettersStream(entries, cursor, n);
          assert wt.1 == taken.1;
          if taken.0 == [] {
            assert out == rest;
          } else {
            var letters := SoundedAll(taken.0, '?' in w);
            assert wt.0.value.letters == letters;
            assert out == [wt.0.value] + rest;
            assert out[1..] == rest;
            assert Flat(out) == letters + Flat(rest);
            SoundedAgrees(taken.0, '?' in w);
            ConsumedPrepend(letters, taken.0, Flat(rest), LetterStream(entries, wt.1));
          }
        }
    }
  }

  /**
   * Letters are consumed in order from `startAt`: the letters the tokens
   * sound are the next letter entries, one for one, none skipped and none
   * taken twice, each with its entry's index and style, and its entry's
   * character or `?`.
   */
  lemma TokenizeConsumesInOrder(snippet: string, entries: seq<Entry>, startAt: nat)
    ensures ConsumedInOrder(Flat(Tokenize(snippet, entries, startAt)), LetterStream(entries, startAt))
  {
    TokenizeRawsConsumes(SplitRaw(snippet), entries, startAt);
  }

  /** The stream from `cursor` holds letters with indices above those of every letter before `cursor`. */
  lemma {:induction false} LetterStreamAbove(entries: seq<Entry>, cursor: nat)
    requires WellIndexed(entries)
    ensures forall i :: 0 <= i < |LetterStream(entries, cursor)| ==>
      IsLetter(LetterStream(entries, cursor)[i].ch) && LetterStream(entries, cursor)[i].letterIndex.Some?
    ensures forall p, i :: 0 <= p < cursor && p < |entries| && IsLetter(entries[p].ch) &&
                           0 <= i < |LetterStream(entries, cursor)| ==>
      entries[p].letterIndex.value < LetterStream(entries, cursor)[i].letterIndex.value
    decreases |entries| - cursor
  {
    if cursor < |entries| {
      LetterStreamAbove(entries, cursor + 1);
      var s := LetterStream(entries, cursor);
      var tail := LetterStream(entries, cursor + 1);
      if IsLetter(entries[cursor].ch) {
        assert s == [entries[cursor]] + tail;
        assert forall i :: 1 <= i < |s| ==> s[i] == tail[i - 1];
      } else {
        assert s == tail;
      }
    }
  }

  /** Every entry carries a letter index. */
  predicate Indexed(s: seq<Entry>) {
    forall i :: 0 <= i < |s| ==> s[i].letterIndex.Some?
  }

  /** The letter indices strictly increase along the list. */
  predicate Increasing(s: seq<Entry>)
    requires Indexed(s)
  {
    forall i, j :: 0 <= i < j < |s| ==> s[i].letterIndex.value < s[j].letterIndex.value
  }

  lemma ConsIncreasing(x: Entry, tail: seq<Entry>)
    requires x.letterIndex.Some? && Indexed(tail) && Increasing(tail)
    requires forall i :: 0 <= i < |tail| ==> x.letterIndex.value < tail[i].letterIndex.value
    ensures Indexed([x] + tail) && Increasing([x] + tail)
  {
    var s := [x] + tail;
    forall i, j | 0 <= i < j < |s|
      ensures s[i].letterIndex.value < s[j].letterIndex.value
    {
      assert s[j] == tail[j - 1];
      if i > 0 {
        assert s[i] == tail[i - 1];
      }
    }
  }

  /** Along the stream, letter indices are present and strictly increase. */
  lemma {:induction false} LetterStreamIncreasing(entries: seq<Entry>, cursor: nat)
    requires WellIndexed(entries)
    ensures Indexed(LetterStream(entries, cursor))
    ensures Increasing(LetterStream(entries, cursor))
    decreases |entries| - cursor
  {
    if cursor < |entries| {
      LetterStreamIncreasing(entries, cursor + 1);
      var tail := LetterStream(entries, cursor + 1);
      if IsLetter(entries[cursor].ch) {
        LetterStreamAbove(entries, cursor + 1);
        assert forall i :: 0 <= i < |tail| ==> entries[cursor].letterIndex.value < tail[i].letterIndex.value;
        ConsIncreasing(entries[cursor], tail);
        assert LetterStream(entries, cursor) == [entries[cursor]] + tail;
      } else {
        assert LetterStream(entries, cursor) == tail;
      }
    }
  }

  /**
   * When the entries come from `buildLetterEntries`, every sounded letter
   * has an index, and the indices strictly increase across all tokens.
   */
  lemma TokenizeIndicesIncrease(snippet: string, runs: seq<Run>, startAt: nat)
    ensures var flat := Flat(Tokenize(snippet, Entries(runs), startAt));
      && (forall i :: 0 <= i < |flat| ==> flat[i].letterIndex.Some?)
      && (forall i, j :: 0 <= i < j < |flat| ==> flat[i].letterIndex.value < flat[j].letterIndex.value)
  {
    var entries := Entries(runs);
    EntriesWellIndexed(runs);
    TokenizeConsumesInOrder(snippet, entries, startAt);
    LetterStreamIncreasing(entries, startAt);
    var flat := Flat(Tokenize(snippet, entries, startAt));
    var stream := LetterStream(entries, startAt);
    forall i, j | 0 <= i < j < |flat|
      ensures flat[i].letterIndex.value < flat[j].letterIndex.value
    {
      assert Agrees(flat[i], stream[i]) && Agrees(flat[j], stream[j]);
    }
    forall i | 0 <= i < |flat|
      ensures flat[i].letterIndex.Some?
    {
      assert Agrees(flat[i], stream[i]);
    }
  }
}
