/**
 * The two text pre-passes of the notation engine (script.js lines
 * 274-285): `stripQuoted`, the global replace of every `"…"` span by one
 * space, and `findLoopBlocks`, the `exec` loop over the non-greedy pattern
 * `/\[(.*?)\]/g`.
 */
module Parsing {
  import opened JsText

  // ---------------------------------------------------------------------
  // stripQuoted: text.replace(/"[^"]*"/g, " ")
  // ---------------------------------------------------------------------

  /**
   * The global replace scans left to right: a `"` that has a later `"`
   * opens a span that ends at the first such quote and becomes one space;
   * a `"` with no later quote is left as it is, and so is everything after
   * it.
   */
  function StripQuoted(s: string): (r: string)
    ensures |r| <= |s|
    decreases |s|
  {
    if s == [] then []
    else if s[0] != '"' then [s[0]] + StripQuoted(s[1..])
    else
      var j := FirstFrom(s, '"', 1);
      if j == |s| then s else [' '] + StripQuoted(s[j + 1..])
  }

  /** From inside a complete span up to its closing quote, exactly that one quote is counted. */
  lemma {:induction false} CountToClosingQuote(s: string, k: nat, j: nat)
    requires k <= j < |s| && s[j] == '"'
    requires forall t :: k <= t < j ==> s[t] != '"'
    ensures CountChar(s[k..], '"') == 1 + CountChar(s[j + 1..], '"')
    decreases j - k
  {
    assert s[k..][1..] == s[k + 1..];
    if k < j {
      CountToClosingQuote(s, k + 1, j);
    }
  }

  /** No quote from `k` on: nothing is counted. */
  lemma {:induction false} CountNoQuoteFrom(s: string, k: nat)
    requires k <= |s|
    requires forall t :: k <= t < |s| ==> s[t] != '"'
    ensures CountChar(s[k..], '"') == 0
    decreases |s| - k
  {
    if k < |s| {
      assert s[k..][1..] == s[k + 1..];
      CountNoQuoteFrom(s, k + 1);
    }
  }

  /** A string with at most one `"` has no complete span and is kept as it is. */
  lemma {:induction false} StripQuotedKeepsUnquoted(s: string)
    requires CountChar(s, '"') <= 1
    ensures StripQuoted(s) == s
  {
    if s != [] {
      if s[0] != '"' {
        StripQuotedKeepsUnquoted(s[1..]);
      } else {
        var j := FirstFrom(s, '"', 1);
        if j < |s| {
          CountToClosingQuote(s, 1, j);
          assert false;
        }
      }
    }
  }

  /**
   * One complete span, the first in the text, becomes exactly one space;
   * what precedes it is kept and the replace carries on after it.
   */
  lemma {:induction false} StripQuotedSpan(a: string, m: string, b: string)
    requires '"' !in a && '"' !in m
    ensures StripQuoted(a + ['"'] + m + ['"'] + b) == a + [' '] + StripQuoted(b)
  {
    var s := a + ['"'] + m + ['"'] + b;
    if a == [] {
      assert s == ['"'] + m + ['"'] + b;
      assert s[|m| + 1] == '"';
      assert forall t :: 1 <= t < |m| + 1 ==> s[t] == m[t - 1];
      var j := FirstFrom(s, '"', 1);
      assert j == |m| + 1;
      assert s[j + 1..] == b;
    } else {
      assert s[0] == a[0] && s[0] != '"';
      assert s[1..] == a[1..] + ['"'] + m + ['"'] + b;
      StripQuotedSpan(a[1..], m, b);
      assert a == [a[0]] + a[1..];
    }
  }

  /** Complete spans remove their quotes in pairs: the parity of the quote count survives. */
  lemma {:induction false} StripQuotedQuoteParity(s: string)
    ensures CountChar(StripQuoted(s), '"') == CountChar(s, '"') % 2
    decreases |s|
  {
    if s == [] {
    } else if s[0] != '"' {
      StripQuotedQuoteParity(s[1..]);
    } else {
      var j := FirstFrom(s, '"', 1);
      if j == |s| {
        CountNoQuoteFrom(s, 1);
      } else {
        var rest := s[j + 1..];
        CountToClosingQuote(s, 1, j);
        StripQuotedQuoteParity(rest);
        var r := StripQuoted(rest);
        assert StripQuoted(s) == [' '] + r;
        assert ([' '] + r)[1..] == r;
      }
    }
  }

  /** At most one `"` survives, and stripping again changes nothing. */
  lemma StripQuotedIdempotent(s: string)
    ensures CountChar(StripQuoted(s), '"') <= 1
    ensures StripQuoted(StripQuoted(s)) == StripQuoted(s)
  {
    StripQuotedQuoteParity(s);
    StripQuotedKeepsUnquoted(StripQuoted(s));
  }

  // ---------------------------------------------------------------------
  // findLoopBlocks: while ((m = re.exec(text))) with re = /\[(.*?)\]/g
  // ---------------------------------------------------------------------

  /** `{ full: m[0], inside: m[1] }`. */
  datatype LoopBlock = LoopBlock(full: string, inside: string)

  /** Positions of the `[` and of the `]` of one match. */
  datatype Span = Span(open: nat, close: nat)

  /**
   * The lazy `.*?` followed by `\]`, tried from position `k`: the first `]`
   * ends the match, unless a line terminator (which `.` refuses) comes first.
   */
  function CloseFrom(s: string, k: nat): (r: Option<nat>)
    ensures r.Some? ==> k <= r.value < |s| && s[r.value] == ']'
    ensures r.None? ==> forall t :: k <= t < |s| && s[t] == ']' ==>
      exists u :: k <= u < t && IsLineTerminator(s[u])
    decreases |s| - k
  {
    if k >= |s| then None
    else if s[k] == ']' then Some(k)
    else if IsLineTerminator(s[k]) then None
    else CloseFrom(s, k + 1)
  }

  /** Between `k` and the `]` that CloseFrom finds there is no `]` and no line terminator. */
  lemma {:induction false} CloseFromScansPlainText(s: string, k: nat)
    requires CloseFrom(s, k).Some?
    ensures forall t :: k <= t < CloseFrom(s, k).value ==> s[t] != ']' && !IsLineTerminator(s[t])
    decreases |s| - k
  {
    if s[k] != ']' {
      CloseFromScansPlainText(s, k + 1);
    }
  }

  /** The pattern matches when started at `p`. */
  predicate Matchable(s: string, p: nat) {
    p < |s| && s[p] == '[' && CloseFrom(s, p + 1).Some?
  }

  /** A well-formed match: a `[`, then no `]` and no line terminator, then a `]`. */
  predicate ValidSpan(s: string, sp: Span) {
    && sp.open < sp.close < |s|
    && s[sp.open] == '[' && s[sp.close] == ']'
    && forall t :: sp.open < t < sp.close ==> s[t] != ']' && !IsLineTerminator(s[t])
  }

  /** One `exec` from `lastIndex`: the leftmost position at or after it where the pattern matches. */
  function NextMatch(s: string, from: nat): (r: Option<Span>)
    ensures r.Some? ==> from <= r.value.open < r.value.close < |s|
    decreases |s| - from
  {
    if from >= |s| then None
    else if Matchable(s, from) then Some(Span(from, CloseFrom(s, from + 1).value))
    else NextMatch(s, from + 1)
  }

  /** A match starts where the pattern matches and ends at the `]` found from there. */
  lemma {:induction false} NextMatchFound(s: string, from: nat)
    ensures NextMatch(s, from).Some? ==>
      Matchable(s, NextMatch(s, from).value.open) &&
      CloseFrom(s, NextMatch(s, from).value.open + 1) == Some(NextMatch(s, from).value.close)
    decreases |s| - from
  {
    if from < |s| && !Matchable(s, from) {
      NextMatchFound(s, from + 1);
    }
  }

  /** `exec` returns a well-formed match, and the leftmost one. */
  lemma {:induction false} NextMatchLeftmost(s: string, from: nat)
    ensures NextMatch(s, from).Some? ==> ValidSpan(s, NextMatch(s, from).value)
    ensures NextMatch(s, from).Some? ==>
      forall p :: from <= p < NextMatch(s, from).value.open ==> !Matchable(s, p)
    ensures NextMatch(s, from).None? ==> forall p :: from <= p ==> !Matchable(s, p)
    decreases |s| - from
  {
    if from < |s| && !Matchable(s, from) {
      NextMatchLeftmost(s, from + 1);
    }
    NextMatchFound(s, from);
    if NextMatch(s, from).Some? {
      CloseFromScansPlainText(s, NextMatch(s, from).value.open + 1);
    }
  }

  /** The spans that successive `exec` calls return, each one resuming after the previous match. */
  function MatchSpans(s: string, from: nat): seq<Span>
    decreases |s| - from
  {
    match NextMatch(s, from)
    case None => []
    case Some(sp) => [sp] + MatchSpans(s, sp.close + 1)
  }

  /** The spans lie at or after `from`, in order, without overlapping. */
  lemma {:induction false} MatchSpansOrdered(s: string, from: nat)
    ensures forall k :: 0 <= k < |MatchSpans(s, from)| ==>
      from <= MatchSpans(s, from)[k].open < MatchSpans(s, from)[k].close < |s|
    ensures forall k :: 0 <= k < |MatchSpans(s, from)| - 1 ==>
      MatchSpans(s, from)[k].close < MatchSpans(s, from)[k + 1].open
    decreases |s| - from
  {
    match NextMatch(s, from)
    case None =>
    case Some(sp) =>
      MatchSpansOrdered(s, sp.close + 1);
      var tail := MatchSpans(s, sp.close + 1);
      var r := MatchSpans(s, from);
      assert r == [sp] + tail;
      assert forall k :: 1 <= k < |r| ==> r[k] == tail[k - 1];
  }

  /** Every span of the `exec` loop is a well-formed match. */
  lemma {:induction false} MatchSpansValid(s: string, from: nat)
    ensures forall k :: 0 <= k < |MatchSpans(s, from)| ==> ValidSpan(s, MatchSpans(s, from)[k])
    decreases |s| - from
  {
    NextMatchLeftmost(s, from);
    match NextMatch(s, from)
    case None =>
    case Some(sp) =>
      MatchSpansValid(s, sp.close + 1);
      var tail := MatchSpans(s, sp.close + 1);
      var r := MatchSpans(s, from);
      assert r == [sp] + tail;
      assert forall k :: 1 <= k < |r| ==> r[k] == tail[k - 1];
  }

  function BlockOf(s: string, sp: Span): LoopBlock
    requires sp.open < sp.close < |s|
  {
    LoopBlock(s[sp.open..sp.close + 1], s[sp.open + 1..sp.close])
  }

  /** The blocks pushed by the `exec` loop once `lastIndex` is `from`. */
  function LoopBlocksFrom(s: string, from: nat): seq<LoopBlock>
    decreases |s| - from
  {
    match NextMatch(s, from)
    case None => []
    case Some(sp) => [BlockOf(s, sp)] + LoopBlocksFrom(s, sp.close + 1)
  }

  /** The `k`-th block is cut out of the text at the `k`-th span. */
  lemma {:induction false} LoopBlocksFromAt(s: string, from: nat, k: nat)
    requires k < |MatchSpans(s, from)|
    ensures k < |LoopBlocksFrom(s, from)|
    ensures MatchSpans(s, from)[k].open < MatchSpans(s, from)[k].close < |s|
    ensures LoopBlocksFrom(s, from)[k] == BlockOf(s, MatchSpans(s, from)[k])
    decreases k
  {
    MatchSpansStep(s, from);
    LoopBlocksFromStep(s, from);
    var sp := NextMatch(s, from).value;
    var spans, blocks := MatchSpans(s, from), LoopBlocksFrom(s, from);
    if k == 0 {
      assert spans[0] == sp && blocks[0] == BlockOf(s, sp);
    } else {
      var next := sp.close + 1;
      LoopBlocksFromAt(s, next, k - 1);
      assert spans[k] == MatchSpans(s, next)[k - 1];
      assert blocks[k] == LoopBlocksFrom(s, next)[k - 1];
    }
  }

  lemma {:induction false} LoopBlocksFromLength(s: string, from: nat)
    ensures |LoopBlocksFrom(s, from)| == |MatchSpans(s, from)|
    decreases |s| - from
  {
    if NextMatch(s, from).Some? {
      MatchSpansStep(s, from);
      LoopBlocksFromStep(s, from);
      LoopBlocksFromLength(s, NextMatch(s, from).value.close + 1);
    }
  }

  /** One block per span, cut out of the text at that span. */
  lemma LoopBlocksFromSpans(s: string, from: nat)
    ensures |LoopBlocksFrom(s, from)| == |MatchSpans(s, from)|
    ensures forall k :: 0 <= k < |MatchSpans(s, from)| ==>
      MatchSpans(s, from)[k].open < MatchSpans(s, from)[k].close < |s|
    ensures forall k :: 0 <= k < |LoopBlocksFrom(s, from)| ==>
      LoopBlocksFrom(s, from)[k] == BlockOf(s, MatchSpans(s, from)[k])
  {
    LoopBlocksFromLength(s, from);
    forall k | 0 <= k < |MatchSpans(s, from)|
      ensures MatchSpans(s, from)[k].open < MatchSpans(s, from)[k].close < |s|
      ensures LoopBlocksFrom(s, from)[k] == BlockOf(s, MatchSpans(s, from)[k])
    {
      LoopBlocksFromAt(s, from, k);
    }
  }

  lemma MatchSpansStep(s: string, from: nat)
    requires NextMatch(s, from).Some?
    ensures MatchSpans(s, from) == [NextMatch(s, from).value] + MatchSpans(s, NextMatch(s, from).value.close + 1)
  {
  }

  lemma LoopBlocksFromStep(s: string, from: nat)
    requires NextMatch(s, from).Some?
    ensures LoopBlocksFrom(s, from)
         == [BlockOf(s, NextMatch(s, from).value)] + LoopBlocksFrom(s, NextMatch(s, from).value.close + 1)
  {
  }

  /** What `findLoopBlocks(text)` returns. */
  function LoopBlocks(s: string): seq<LoopBlock>
  {
    LoopBlocksFrom(s, 0)
  }

  /** `re.exec(text)` with `re.lastIndex == lastIndex`, as a scan. */
  method Exec(s: string, lastIndex: nat) returns (m: Option<Span>)
    ensures m == NextMatch(s, lastIndex)
  {
    var p := lastIndex;
    while p < |s|
      invariant lastIndex <= p
      invariant NextMatch(s, lastIndex) == NextMatch(s, p)
      decreases |s| - p
    {
      if s[p] == '[' {
        var j := p + 1;
        while j < |s| && s[j] != ']' && !IsLineTerminator(s[j])
          invariant p + 1 <= j <= |s|
          invariant CloseFrom(s, p + 1) == CloseFrom(s, j)
          decreases |s| - j
        {
          j := j + 1;
        }
        if j < |s| && s[j] == ']' {
          return Some(Span(p, j));
        }
      }
      p := p + 1;
    }
    return None;
  }

  /** `findLoopBlocks`: push one block per successful `exec`. */
  method FindLoopBlocks(text: string) returns (out: seq<LoopBlock>)
    ensures out == LoopBlocks(text)
  {
    out := [];
    var lastIndex := 0;
    var m := Exec(text, lastIndex);
    while m.Some?
      invariant lastIndex <= |text| + 1
      invariant m == NextMatch(text, lastIndex)
      invariant out + LoopBlocksFrom(text, lastIndex) == LoopBlocks(text)
      decreases |text| + 1 - lastIndex
    {
      var sp := m.value;
      var block := BlockOf(text, sp);
      ghost var rest := LoopBlocksFrom(text, sp.close + 1);
      LoopBlocksFromStep(text, lastIndex);
      assert out + ([block] + rest) == (out + [block]) + rest;
      out := out + [block];
      lastIndex := sp.close + 1;
      m := Exec(text, lastIndex);
    }
    assert LoopBlocksFrom(text, lastIndex) == [];
  }

  /** A block as the pattern produces it: `[`, an inside free of `]` and of line breaks, `]`. */
  predicate WellFormedBlock(b: LoopBlock) {
    && b.full == ['['] + b.inside + [']']
    && forall i :: 0 <= i < |b.inside| ==> b.inside[i] != ']' && !IsLineTerminator(b.inside[i])
  }

  lemma BlockOfWellFormed(s: string, sp: Span)
    requires ValidSpan(s, sp)
    ensures WellFormedBlock(BlockOf(s, sp))
  {
    assert s[sp.open..sp.close + 1] == [s[sp.open]] + s[sp.open + 1..sp.close] + [s[sp.close]];
    var inside := s[sp.open + 1..sp.close];
    assert forall i :: 0 <= i < |inside| ==> inside[i] == s[sp.open + 1 + i];
  }

  /** Every block `findLoopBlocks` returns is well formed. */
  lemma LoopBlocksShape(s: string)
    ensures forall k :: 0 <= k < |LoopBlocks(s)| ==> WellFormedBlock(LoopBlocks(s)[k])
  {
    var spans := MatchSpans(s, 0);
    MatchSpansValid(s, 0);
    LoopBlocksFromSpans(s, 0);
    forall k | 0 <= k < |spans|
      ensures WellFormedBlock(LoopBlocks(s)[k])
    {
      BlockOfWellFormed(s, spans[k]);
    }
  }

  /** Matches come out left to right and never overlap. */
  lemma LoopBlocksOrdered(s: string)
    ensures forall k :: 0 <= k < |MatchSpans(s, 0)| - 1 ==>
      MatchSpans(s, 0)[k].close < MatchSpans(s, 0)[k + 1].open
    ensures |LoopBlocks(s)| == |MatchSpans(s, 0)|
  {
    MatchSpansOrdered(s, 0);
    LoopBlocksFromSpans(s, 0);
  }

  /** Every position where the pattern could start lies within one of the matches found. */
  lemma {:induction false} MatchSpansComplete(s: string, from: nat, p: nat)
    requires from <= p && Matchable(s, p)
    ensures exists k :: 0 <= k < |MatchSpans(s, from)| &&
                        MatchSpans(s, from)[k].open <= p <= MatchSpans(s, from)[k].close
    decreases |s| - from
  {
    NextMatchLeftmost(s, from);
    match NextMatch(s, from)
    case None =>
      assert false;
    case Some(sp) =>
      var r := MatchSpans(s, from);
      assert r == [sp] + MatchSpans(s, sp.close + 1);
      if p <= sp.close {
        assert r[0].open <= p <= r[0].close;
      } else {
        MatchSpansComplete(s, sp.close + 1, p);
        var k :| 0 <= k < |MatchSpans(s, sp.close + 1)| &&
          MatchSpans(s, sp.close + 1)[k].open <= p <= MatchSpans(s, sp.close + 1)[k].close;
        assert r[k + 1] == MatchSpans(s, sp.close + 1)[k];
      }
  }

  /** An unmatched `[` or `]` yields no block: without both brackets there is nothing. */
  lemma LoopBlocksNeedBothBrackets(s: string)
    requires '[' !in s || ']' !in s
    ensures LoopBlocks(s) == []
  {
    MatchHasBothBrackets(s);
  }

  lemma MatchHasBothBrackets(s: string)
    ensures NextMatch(s, 0).Some? ==> '[' in s && ']' in s
  {
    if NextMatch(s, 0).Some? {
      NextMatchLeftmost(s, 0);
      var sp := NextMatch(s, 0).value;
      assert s[sp.open] == '[' && s[sp.close] == ']';
    }
  }

  /** The lazy pattern is not a bracket matcher: in `[a[b]c]` the first `]` closes the match. */
  lemma NestedBracketsCloseAtFirst()
    ensures LoopBlocks("[a[b]c]") == [LoopBlock("[a[b]", "a[b")]
  {
    var s := "[a[b]c]";
    assert CloseFrom(s, 4) == Some(4);
    assert CloseFrom(s, 3) == Some(4);
    assert CloseFrom(s, 2) == Some(4);
    assert CloseFrom(s, 1) == Some(4);
    assert Matchable(s, 0);
    assert NextMatch(s, 0) == Some(Span(0, 4));
    assert !Matchable(s, 5) && !Matchable(s, 6);
    assert NextMatch(s, 7) == None;
    assert NextMatch(s, 6) == None;
    assert NextMatch(s, 5) == None;
    assert MatchSpans(s, 5) == [];
    assert MatchSpans(s, 0) == [Span(0, 4)];
    assert s[0..5] == "[a[b]" && s[1..4] == "a[b";
  }
}
