/**
 * `tokensFromTextAndLetters` (script.js lines 329-391): split a snippet
 * into words and `/` rests; each word takes its accent and random flags
 * from `!` and `?` and consumes, through a cursor that only moves forward,
 * as many styled letters from the entry list as it has letters itself.
 * The sounded characters and styles come from the entries, not from the
 * snippet.
 *
 * Durations are in centiseconds: BASE_DUR 0.34 s is 34, REST_DUR 2.0 s is 200.
 */
module Tokenizer {
  import opened JsText
  import opened Letters

  const BASE_DUR: nat := 34
  const REST_DUR: nat := 200

  // ---------------------------------------------------------------------
  // snippet.split(/(\s+|\/)/).filter((t) => t.trim() !== "" || t === "/")
  // ---------------------------------------------------------------------

  /** A piece that survives the split and the filter: a `/`, or a non-empty word. */
  datatype Raw = Slash | Word(w: string)

  function Flush(cur: string): seq<Raw>
  {
    if cur == [] then [] else [Word(cur)]
  }

  /**
   * The split keeps its separators: a run of `\s` (dropped by the filter)
   * or a single `/` (kept). What lies between separators is a word; the
   * empty ones are dropped by the filter. `cur` is the word being read.
   */
  function SplitFrom(s: string, cur: string): seq<Raw>
    decreases |s|
  {
    if s == [] then Flush(cur)
    else if s[0] == '/' then Flush(cur) + [Slash] + SplitFrom(s[1..], [])
    else if IsSpace(s[0]) then Flush(cur) + SplitFrom(s[1..], [])
    else SplitFrom(s[1..], cur + [s[0]])
  }

  function SplitRaw(snippet: string): seq<Raw>
  {
    SplitFrom(snippet, [])
  }

  /** A word as the split produces it: non-empty, with no `\s` and no `/`. */
  predicate PlainWord(w: string) {
    w != [] && forall k :: 0 <= k < |w| ==> !IsSpace(w[k]) && w[k] != '/'
  }

  function SlashCount(raws: seq<Raw>): nat
  {
    if raws == [] then 0 else (if raws[0].Slash? then 1 else 0) + SlashCount(raws[1..])
  }

  /** Total number of letters over the words. */
  function WordLetters(raws: seq<Raw>): nat
  {
    if raws == [] then 0
    else (if raws[0].Word? then CountLetters(raws[0].w) else 0) + WordLetters(raws[1..])
  }

  lemma {:induction false} SlashCountAppend(a: seq<Raw>, b: seq<Raw>)
    ensures SlashCount(a + b) == SlashCount(a) + SlashCount(b)
    ensures WordLetters(a + b) == WordLetters(a) + WordLetters(b)
  {
    if a == [] {
      assert a + b == b;
    } else {
      assert (a + b)[1..] == a[1..] + b;
      SlashCountAppend(a[1..], b);
    }
  }

  lemma FlushCounts(cur: string)
    ensures SlashCount(Flush(cur)) == 0 && WordLetters(Flush(cur)) == CountLetters(cur)
  {
    if cur != [] {
      assert Flush(cur)[1..] == [];
    }
  }

  /** The split yields one Slash per `/`. */
  lemma {:induction false} SplitFromSlashes(s: string, cur: string)
    ensures SlashCount(SplitFrom(s, cur)) == CountChar(s, '/')
    decreases |s|
  {
    FlushCounts(cur);
    if s != [] {
      if s[0] == '/' {
        SplitFromSlashes(s[1..], []);
        SlashCountAppend(Flush(cur) + [Slash], SplitFrom(s[1..], []));
        SlashCountAppend(Flush(cur), [Slash]);
      } else if IsSpace(s[0]) {
        SplitFromSlashes(s[1..], []);
        SlashCountAppend(Flush(cur), SplitFrom(s[1..], []));
      } else {
        SplitFromSlashes(s[1..], cur + [s[0]]);
      }
    }
  }

  /** Every letter of the snippet, and of the word being read, ends up inside some word. */
  lemma {:induction false} SplitFromLetters(s: string, cur: string)
    ensures WordLetters(SplitFrom(s, cur)) == CountLetters(cur) + CountLetters(s)
    decreases |s|
  {
    FlushCounts(cur);
    if s != [] {
      assert s == [s[0]] + s[1..];
      CountLettersAppend([s[0]], s[1..]);
      assert [s[0]][..0] == [];
      if s[0] == '/' {
        SplitFromLetters(s[1..], []);
        SlashCountAppend(Flush(cur) + [Slash], SplitFrom(s[1..], []));
        SlashCountAppend(Flush(cur), [Slash]);
      } else if IsSpace(s[0]) {
        SplitFromLetters(s[1..], []);
        SlashCountAppend(Flush(cur), SplitFrom(s[1..], []));
      } else {
        var cur' := cur + [s[0]];
        assert cur'[..|cur'| - 1] == cur;
        SplitFromLetters(s[1..], cur');
      }
    }
  }

  /** Every word of the split is plain. */
  lemma {:induction false} SplitFromWords(s: string, cur: string)
    requires cur == [] || PlainWord(cur)
    ensures forall k :: 0 <= k < |SplitFrom(s, cur)| && SplitFrom(s, cur)[k].Word? ==>
      PlainWord(SplitFrom(s, cur)[k].w)
    decreases |s|
  {
    if s != [] {
      if s[0] == '/' || IsSpace(s[0]) {
        SplitFromWords(s[1..], []);
      } else {
        SplitFromWords(s[1..], cur + [s[0]]);
      }
    }
  }

  /**
   * The split yields one Slash per `/`, only plain words, and every letter
   * of the snippet inside some word.
   */
  lemma SplitFromFacts(s: string, cur: string)
    requires cur == [] || PlainWord(cur)
    ensures SlashCount(SplitFrom(s, cur)) == CountChar(s, '/')
    ensures WordLetters(SplitFrom(s, cur)) == CountLetters(cur) + CountLetters(s)
    ensures forall k :: 0 <= k < |SplitFrom(s, cur)| && SplitFrom(s, cur)[k].Word? ==>
      PlainWord(SplitFrom(s, cur)[k].w)
  {
    SplitFromSlashes(s, cur);
    SplitFromLetters(s, cur);
    SplitFromWords(s, cur);
  }

  /** A separator of the split: a `\s` character or a `/`. */
  predicate IsSeparator(c: char) {
    IsSpace(c) || c == '/'
  }

  /** Text with no separator only extends the word being read. */
  lemma {:induction false} SplitFromPlain(s: string, cur: string)
    requires forall k :: 0 <= k < |s| ==> !IsSeparator(s[k])
    ensures SplitFrom(s, cur) == Flush(cur + s)
    decreases |s|
  {
    if s == [] {
      assert cur + s == cur;
    } else {
      assert !IsSeparator(s[0]);
      assert (cur + [s[0]]) + s[1..] == cur + s;
      SplitFromPlain(s[1..], cur + [s[0]]);
    }
  }

  /** A plain word splits into exactly itself. */
  lemma SplitRawPlain(w: string)
    requires PlainWord(w)
    ensures SplitRaw(w) == [Word(w)]
  {
    SplitFromPlain(w, []);
    assert [] + w == w;
  }

  /**
   * Splitting at a separator: what comes before it, then a Slash when it
   * is a `/`, then what comes after it, split afresh.
   */
  lemma {:induction false} SplitFromSeparator(a: string, c: char, b: string, cur: string)
    requires IsSeparator(c)
    ensures SplitFrom(a + [c] + b, cur)
         == SplitFrom(a, cur) + (if c == '/' then [Slash] else []) + SplitFrom(b, [])
    decreases |a|
  {
    var s := a + [c] + b;
    if a == [] {
      assert s == [c] + b && s[0] == c && s[1..] == b;
    } else {
      assert s[0] == a[0] && s[1..] == a[1..] + [c] + b;
      if a[0] == '/' || IsSpace(a[0]) {
        SplitFromSeparator(a[1..], c, b, []);
      } else {
        SplitFromSeparator(a[1..], c, b, cur + [a[0]]);
      }
    }
  }

  /**
   * The split of a snippet is fixed piece by piece: the pieces around a
   * separator are the splits of the text on each side, so `ab` is one word
   * and `a b` two.
   */
  lemma SplitRawSeparator(a: string, c: char, b: string)
    requires IsSeparator(c)
    ensures SplitRaw(a + [c] + b) == SplitRaw(a) + (if c == '/' then [Slash] else []) + SplitRaw(b)
  {
    SplitFromSeparator(a, c, b, []);
  }

  /**
   * `raw.replace(/[^a-zA-Z]/g, "")`: a letter is kept, anything else is
   * dropped; with `LettersOnlyAppend` this fixes the result of every word.
   */
  function LettersOnly(w: string): (r: string)
    ensures |r| == CountLetters(w)
    ensures forall k :: 0 <= k < |r| ==> IsLetter(r[k])
    ensures |w| == 1 ==> r == (if IsLetter(w[0]) then w else [])
  {
    if w == [] then []
    else LettersOnly(w[..|w| - 1]) + (if IsLetter(w[|w| - 1]) then [w[|w| - 1]] else [])
  }

  /** The replacement works character by character, so it distributes over concatenation. */
  lemma {:induction false} LettersOnlyAppend(a: string, b: string)
    ensures LettersOnly(a + b) == LettersOnly(a) + LettersOnly(b)
    decreases |b|
  {
    if b == [] {
      assert a + b == a;
    } else {
      var b' := b[..|b| - 1];
      assert (a + b)[..|a + b| - 1] == a + b';
      assert (a + b)[|a + b| - 1] == b[|b| - 1];
      LettersOnlyAppend(a, b');
    }
  }

  // ---------------------------------------------------------------------
  // Tokens
  // ---------------------------------------------------------------------

  /** `{ ch, letterIndex, style }` of one sounded letter. */
  datatype TokenLetter = TokenLetter(ch: char, letterIndex: Option<nat>, style: Style)

  datatype Token =
    | Rest(dur: nat)
    | Letter(letters: seq<TokenLetter>, accent: bool, random: bool, dur: nat)
    | Chord(letters: seq<TokenLetter>, accent: bool, random: bool, dur: nat)

  /**
   * `nextStyledLetter`: from the cursor, skip entries until one is a
   * letter and return it with the cursor just past it; when none is left,
   * `null` with the cursor at the end of the list (or where it was, if
   * already past it).
   */
  function NextLetter(entries: seq<Entry>, cursor: nat): (r: (Option<Entry>, nat))
    ensures r.0.Some? ==> cursor < r.1 <= |entries| && r.0.value == entries[r.1 - 1] && IsLetter(r.0.value.ch)
    ensures r.0.None? ==> r.1 == if cursor < |entries| then |entries| else cursor
    decreases |entries| - cursor
  {
    if cursor >= |entries| then (None, cursor)
    else if IsLetter(entries[cursor].ch) then (Some(entries[cursor]), cursor + 1)
    else NextLetter(entries, cursor + 1)
  }

  /** Up to `n` calls of `nextStyledLetter`, stopping at the first `null`. */
  function TakeLetters(entries: seq<Entry>, cursor: nat, n: nat): (r: (seq<Entry>, nat))
    ensures |r.0| <= n
    ensures cursor <= r.1
    decreases n
  {
    if n == 0 then ([], cursor)
    else
      var next := NextLetter(entries, cursor);
      if next.0.None? then ([], next.1)
      else
        var rest := TakeLetters(entries, next.1, n - 1);
        ([next.0.value] + rest.0, rest.1)
  }

  /**
   * Exactly `n` letters are taken unless the list runs out of letters, and
   * none are taken only when no letter is left at the cursor.
   */
  lemma {:induction false} TakeLettersComplete(entries: seq<Entry>, cursor: nat, n: nat)
    ensures var r := TakeLetters(entries, cursor, n);
            |r.0| == n || NextLetter(entries, r.1).0.None?
    ensures n > 0 && TakeLetters(entries, cursor, n).0 == [] ==> NextLetter(entries, cursor).0.None?
    decreases n
  {
    if n > 0 {
      var next := NextLetter(entries, cursor);
      if next.0.Some? {
        TakeLettersComplete(entries, next.1, n - 1);
      }
    }
  }

  function Sounded(e: Entry, random: bool): TokenLetter
  {
    TokenLetter(if random then '?' else e.ch, e.letterIndex, e.style)
  }

  function SoundedAll(es: seq<Entry>, random: bool): (r: seq<TokenLetter>)
    ensures |r| == |es|
  {
    if es == [] then [] else [Sounded(es[0], random)] + SoundedAll(es[1..], random)
  }

  /**
   * One word: its flags, and the Letter or Chord token built from the
   * letters it consumes, if it consumes any; and the cursor afterwards.
   */
  function WordToken(w: string, entries: seq<Entry>, cursor: nat): (r: (Option<Token>, nat))
    ensures cursor <= r.1
    ensures CountLetters(w) == 0 ==> r == (None, cursor)
    ensures r.0.Some? ==> && (r.0.value.Letter? || r.0.value.Chord?)
                          && 1 <= |r.0.value.letters| <= CountLetters(w)
                          && (r.0.value.Letter? <==> CountLetters(w) == 1)
                          && r.0.value.dur == BASE_DUR
                          && r.0.value.accent == ('!' in w)
                          && r.0.value.random == ('?' in w)
    ensures r.0.Some? && '?' in w ==> forall k :: 0 <= k < |r.0.value.letters| ==> r.0.value.letters[k].ch == '?'
  {
    var accent := '!' in w;
    var random := '?' in w;
    var n := |LettersOnly(w)|;
    if n == 0 then (None, cursor)
    else
      var taken := TakeLetters(entries, cursor, n);
      if taken.0 == [] then (None, taken.1)
      else
        var letters := SoundedAll(taken.0, random);
        assert random ==> forall k :: 0 <= k < |letters| ==> letters[k].ch == '?' by {
          SoundedAllAt(taken.0, random);
        }
        (Some(if n == 1 then Letter(letters, accent, random, BASE_DUR)
              else Chord(letters, accent, random, BASE_DUR)), taken.1)
  }

  /**
   * A word with letters takes as many as it has unless the list runs out,
   * and yields no token only when no letter is left at the cursor.
   */
  lemma WordTokenComplete(w: string, entries: seq<Entry>, cursor: nat)
    ensures var r := WordToken(w, entries, cursor);
            r.0.Some? ==> |r.0.value.letters| == CountLetters(w) || NextLetter(entries, r.1).0.None?
    ensures CountLetters(w) > 0 && WordToken(w, entries, cursor).0.None? ==> NextLetter(entries, cursor).0.None?
  {
    var n := |LettersOnly(w)|;
    TakeLettersComplete(entries, cursor, n);
  }

  lemma {:induction false} SoundedAllAt(es: seq<Entry>, random: bool)
    ensures forall k :: 0 <= k < |es| ==> SoundedAll(es, random)[k] == Sounded(es[k], random)
  {
    if es != [] {
      SoundedAllAt(es[1..], random);
    }
  }

  /** The loop over the raw pieces, with the letter cursor threaded through. */
  function TokenizeRaws(raws: seq<Raw>, entries: seq<Entry>, cursor: nat): seq<Token>
    decreases |raws|
  {
    if raws == [] then []
    else match raws[0]
      case Slash => [Rest(REST_DUR)] + TokenizeRaws(raws[1..], entries, cursor)
      case Word(w) =>
        var wt := WordToken(w, entries, cursor);
        (if wt.0.Some? then [wt.0.value] else []) + TokenizeRaws(raws[1..], entries, wt.1)
  }

  /** What `tokensFromTextAndLetters(snippet, letterEntries, startAt)` returns. */
  function Tokenize(snippet: string, entries: seq<Entry>, startAt: nat): seq<Token>
  {
    TokenizeRaws(SplitRaw(snippet), entries, startAt)
  }

  /** `nextStyledLetter`, the closure that advances `iLetter`. */
  method NextStyledLetter(entries: seq<Entry>, iLetter: nat) returns (le: Option<Entry>, next: nat)
    ensures (le, next) == NextLetter(entries, iLetter)
  {
    next := iLetter;
    while next < |entries|
      invariant iLetter <= next
      invariant NextLetter(entries, iLetter) == NextLetter(entries, next)
      decreases |entries| - next
    {
      var e := entries[next];
      next := next + 1;
      if IsLetter(e.ch) {
        return Some(e), next;
      }
    }
    le := None;
  }

  /** Taking `m > 0` letters when one is left: that letter, then `m - 1` more after it. */
  lemma TakeOneMore(entries: seq<Entry>, cursor: nat, m: nat, random: bool)
    requires m > 0 && NextLetter(entries, cursor).0.Some?
    ensures var nx := NextLetter(entries, cursor);
            var rest := TakeLetters(entries, nx.1, m - 1);
            && SoundedAll(TakeLetters(entries, cursor, m).0, random)
               == [Sounded(nx.0.value, random)] + SoundedAll(rest.0, random)
            && TakeLetters(entries, cursor, m).1 == rest.1
  {
    var nx := NextLetter(entries, cursor);
    var rest := TakeLetters(entries, nx.1, m - 1).0;
    assert ([nx.0.value] + rest)[1..] == rest;
  }

  /** The chord branch: `nextStyledLetter` up to `n` times, stopping at the first `null`. */
  method ChordLetters(letterEntries: seq<Entry>, iLetter: nat, n: nat, random: bool)
    returns (chordLetters: seq<TokenLetter>, next: nat)
    ensures chordLetters == SoundedAll(TakeLetters(letterEntries, iLetter, n).0, random)
    ensures next == TakeLetters(letterEntries, iLetter, n).1
  {
    next := iLetter;
    chordLetters := [];
    var k := 0;
    while k < n
      invariant k <= n
      invariant SoundedAll(TakeLetters(letterEntries, iLetter, n).0, random)
             == chordLetters + SoundedAll(TakeLetters(letterEntries, next, n - k).0, random)
      invariant TakeLetters(letterEntries, iLetter, n).1 == TakeLetters(letterEntries, next, n - k).1
    {
      var src, after := NextStyledLetter(letterEntries, next);
      if src.None? {
        next := after;
        return;
      }
      TakeOneMore(letterEntries, next, n - k, random);
      chordLetters := chordLetters + [Sounded(src.value, random)];
      next := after;
      k := k + 1;
    }
  }

  /** The body of the loop for one word: flags, letters consumed, token pushed or not. */
  method WordStep(w: string, letterEntries: seq<Entry>, iLetter: nat) returns (tok: Option<Token>, next: nat)
    ensures (tok, next) == WordToken(w, letterEntries, iLetter)
  {
    var accent := '!' in w;
    var random := '?' in w;
    var lettersOnly := LettersOnly(w);
    next := iLetter;
    tok := None;
    if |lettersOnly| == 0 {
      return;
    }
    if |lettersOnly| == 1 {
      var src;
      src, next := NextStyledLetter(letterEntries, iLetter);
      if src.None? {
        return;
      }
      assert TakeLetters(letterEntries, next, 0) == ([], next);
      assert [src.value] + [] == [src.value] && [src.value][1..] == [];
      assert TakeLetters(letterEntries, iLetter, 1) == ([src.value], next);
      assert SoundedAll([src.value], random) == [Sounded(src.value, random)];
      tok := Some(Letter([Sounded(src.value, random)], accent, random, BASE_DUR));
    } else {
      var chordLetters;
      chordLetters, next := ChordLetters(letterEntries, iLetter, |lettersOnly|, random);
      if |chordLetters| > 0 {
        tok := Some(Chord(chordLetters, accent, random, BASE_DUR));
      }
    }
  }

  /** `tokensFromTextAndLetters`. */
  method TokensFromTextAndLetters(snippet: string, letterEntries: seq<Entry>, startAt: nat)
    returns (tokens: seq<Token>)
    ensures tokens == Tokenize(snippet, letterEntries, startAt)
  {
    tokens := [];
    var iLetter := startAt;
    var rawTokens := SplitRaw(snippet);
    var i := 0;
    while i < |rawTokens|
      invariant i <= |rawTokens|
      invariant tokens + TokenizeRaws(rawTokens[i..], letterEntries, iLetter)
             == TokenizeRaws(rawTokens, letterEntries, startAt)
    {
      var raw := rawTokens[i];
      ghost var here := TokenizeRaws(rawTokens[i..], letterEntries, iLetter);
      assert rawTokens[i..][0] == raw && rawTokens[i..][1..] == rawTokens[i + 1..];
      if raw == Slash {
        assert here == [Rest(REST_DUR)] + TokenizeRaws(rawTokens[i + 1..], letterEntries, iLetter);
        tokens := tokens + [Rest(REST_DUR)];
        i := i + 1;
        continue;
      }
      var tok, next := WordStep(raw.w, letterEntries, iLetter);
      ghost var rest := TokenizeRaws(rawTokens[i + 1..], letterEntries, next);
      assert here == (if tok.Some? then [tok.value] else []) + rest;
      if tok.Some? {
        assert tokens + here == (tokens + [tok.value]) + rest;
        tokens := tokens + [tok.value];
      } else {
        assert here == rest;
      }
      iLetter := next;
      i := i + 1;
    }
  }
}
