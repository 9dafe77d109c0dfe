/**
 * The loop table (script.js lines 428-527): `activeLoops` maps a
 * paragraph index to the loops running for it, each identified by the
 * `full` text of its `[...]` block and holding an interval handle.
 *
 * `setInterval` hands out fresh integer handles from a counter and
 * registers a timer; `clearInterval` removes it from the registry. A
 * timer keeps the paragraph index it was started for, the tokens it
 * replays and its period in milliseconds. Synth calls go to an event log.
 * This module states each step of the table's life as a function on a
 * `Table` value and proves what holds across them.
 */
module Loops {
  import opened JsText
  import opened Letters
  import opened Parsing
  import opened Tokenizer
  import opened TokenizerLaws
  import opened Timeline

  /** A paragraph element as the engine reads it: its `innerText` and the text runs of its tree walk. */
  datatype Paragraph = Paragraph(innerText: string, runs: seq<Run>)

  /** `{ text, interval }` of one running loop. */
  datatype LoopEntry = LoopEntry(text: string, interval: nat)

  /** A live interval: the paragraph it was started for, the tokens it replays, its period. */
  datatype Timer = Timer(para: nat, tokens: seq<Token>, periodMs: nat)

  /** `activeLoops`, the live timers, the next free handle and the synth's event log. */
  datatype Table = Table(loops: map<nat, seq<LoopEntry>>, timers: map<nat, Timer>, next: nat, log: seq<Event>)

  /** The `|| 0.2` fallback of the loop length, in centiseconds. */
  const LOOP_FALLBACK: nat := 20

  const Empty := Table(map[], map[], 0, [])

  function Trimmed(p: Paragraph): string
  {
    Trim(p.innerText)
  }

  /** A paragraph plays only when its trimmed text ends with `.`. */
  predicate IsActive(p: Paragraph) {
    EndsWith(Trimmed(p), '.')
  }

  /** The tokens of `playParagraphOnce`: the stripped paragraph text against all its letters. */
  function OneShotTokens(p: Paragraph): seq<Token>
  {
    Tokenize(StripQuoted(Trimmed(p)), Entries(p.runs), 0)
  }

  /** The tokens of one loop block: its stripped inside, consuming the paragraph's letters from 0. */
  function LoopTokens(p: Paragraph, b: LoopBlock): seq<Token>
  {
    Tokenize(StripQuoted(b.inside), Entries(p.runs), 0)
  }

  /** A paragraph is active exactly when its last non-whitespace character is `.`. */
  lemma IsActiveLastDot(p: Paragraph)
    ensures IsActive(p) <==> exists k :: LastNonSpaceAt(p.innerText, k) && p.innerText[k] == '.'
  {
    TrimEndsWith(p.innerText, '.');
  }

  /**
   * The one-shot tokens sound the paragraph's letters in order from its
   * first letter, quoted ones included, with one rest per `/` left after
   * the quotes are stripped.
   */
  lemma OneShotTokensFacts(p: Paragraph)
    ensures ConsumedInOrder(Flat(OneShotTokens(p)), LetterStream(Entries(p.runs), 0))
    ensures RestCount(OneShotTokens(p)) == CountChar(StripQuoted(Trimmed(p)), '/')
    ensures DurationsAsDeclared(OneShotTokens(p))
  {
    TokenizeConsumesInOrder(StripQuoted(Trimmed(p)), Entries(p.runs), 0);
    TokenizeRests(StripQuoted(Trimmed(p)), Entries(p.runs), 0);
  }

  /**
   * A block's tokens also sound the paragraph's letters in order from its
   * first letter, not the letters inside the brackets, with one rest per
   * `/` of the block's stripped inside.
   */
  lemma LoopTokensFacts(p: Paragraph, b: LoopBlock)
    ensures ConsumedInOrder(Flat(LoopTokens(p, b)), LetterStream(Entries(p.runs), 0))
    ensures RestCount(LoopTokens(p, b)) == CountChar(StripQuoted(b.inside), '/')
    ensures DurationsAsDeclared(LoopTokens(p, b))
  {
    TokenizeConsumesInOrder(StripQuoted(b.inside), Entries(p.runs), 0);
    TokenizeRests(StripQuoted(b.inside), Entries(p.runs), 0);
  }

  /** `loopDur`, in centiseconds. */
  function LoopDur(tokens: seq<Token>): nat
  {
    if TotalDur(tokens) == 0 then LOOP_FALLBACK else TotalDur(tokens)
  }

  /** The `setInterval` delay, `loopDur * 1000` milliseconds, in exact arithmetic. */
  function PeriodMs(tokens: seq<Token>): nat
  {
    LoopDur(tokens) * 10
  }

  /** The timer started for block `b` of paragraph `p` at index `idx`. */
  function NewTimer(idx: nat, p: Paragraph, b: LoopBlock): Timer
  {
    Timer(idx, LoopTokens(p, b), PeriodMs(LoopTokens(p, b)))
  }

  /** Tokenizer output can be scheduled, and a non-empty list lasts a positive time, so the fallback never applies. */
  lemma TokensPlayable(snippet: string, entries: seq<Entry>, startAt: nat)
    ensures Schedulable(Tokenize(snippet, entries, startAt))
    ensures Tokenize(snippet, entries, startAt) != [] ==>
      TotalDur(Tokenize(snippet, entries, startAt)) > 0 &&
      LoopDur(Tokenize(snippet, entries, startAt)) == TotalDur(Tokenize(snippet, entries, startAt))
  {
    var tokens := Tokenize(snippet, entries, startAt);
    TokenizeRests(snippet, entries, startAt);
    assert DurationsAsDeclared(tokens);
    if tokens != [] {
      var last := tokens[|tokens| - 1];
      assert Dur(last) > 0;
    }
  }

  /** The events of `playParagraphOnce(p)` started at `now`. */
  function PlayOnceEvents(p: Paragraph, now: int): seq<Event>
  {
    var tokens := OneShotTokens(p);
    if tokens == [] then []
    else
      TokensPlayable(StripQuoted(Trimmed(p)), Entries(p.runs), 0);
      Schedule(tokens, now)
  }

  /**
   * `playParagraphOnce` schedules the stripped paragraph's tokens from
   * `now`: nothing for a paragraph without tokens, otherwise spaced
   * triggers inside `[now, now + total)`.
   */
  lemma PlayOnceTimes(p: Paragraph, now: int)
    ensures OneShotTokens(p) == [] ==> PlayOnceEvents(p, now) == []
    ensures OneShotTokens(p) != [] ==> PlayOnceEvents(p, now) == Schedule(OneShotTokens(p), now)
    ensures Within(PlayOnceEvents(p, now), now, now + TotalDur(OneShotTokens(p)))
    ensures Spaced(PlayOnceEvents(p, now))
  {
    ScheduleTimes(OneShotTokens(p), now);
  }

  // ---------------------------------------------------------------------
  // The steps of `updateParagraphs`, `stopAll` and a timer callback
  // ---------------------------------------------------------------------

  function Handles(es: seq<LoopEntry>): set<nat>
  {
    set e | e in es :: e.interval
  }

  function Texts(es: seq<LoopEntry>): set<string>
  {
    set e | e in es :: e.text
  }

  function Fulls(blocks: seq<LoopBlock>): set<string>
  {
    set b | b in blocks :: b.full
  }

  /** A paragraph that stopped ending in `.`: its intervals are cleared and its entry deleted. */
  function Deactivate(t: Table, idx: nat): Table
  {
    if idx in t.loops then t.(loops := t.loops - {idx}, timers := t.timers - Handles(t.loops[idx]))
    else t
  }

  /** First activation: an empty entry, and the paragraph played once. */
  function Activate(t: Table, idx: nat, p: Paragraph, now: int): Table
  {
    t.(loops := t.loops[idx := []], log := t.log + PlayOnceEvents(p, now))
  }

  /** The entries the `filter` keeps: those whose text is still a block's `full`. */
  function Kept(es: seq<LoopEntry>, fulls: set<string>): seq<LoopEntry>
  {
    if es == [] then []
    else Kept(es[..|es| - 1], fulls) + (if es[|es| - 1].text in fulls then [es[|es| - 1]] else [])
  }

  /** The handles the `filter` clears. */
  function Dropped(es: seq<LoopEntry>, fulls: set<string>): set<nat>
  {
    set e | e in es && e.text !in fulls :: e.interval
  }

  function Prune(t: Table, idx: nat, fulls: set<string>): (r: Table)
    requires idx in t.loops
    ensures idx in r.loops && r.loops.Keys == t.loops.Keys
  {
    var es := t.loops[idx];
    t.(loops := t.loops[idx := Kept(es, fulls)], timers := t.timers - Dropped(es, fulls))
  }

  /** `setInterval` with the next handle, and the entry `{ text, interval }` pushed at `idx`. */
  function AddLoop(t: Table, idx: nat, text: string, tm: Timer): (r: Table)
    requires idx in t.loops
    ensures idx in r.loops && r.loops.Keys == t.loops.Keys
  {
    t.(loops := t.loops[idx := t.loops[idx] + [LoopEntry(text, t.next)]],
       timers := t.timers[t.next := tm],
       next := t.next + 1)
  }

  /** One iteration of `loops.forEach`: skip a block already running or with no tokens, else start it. */
  function StartOne(t: Table, idx: nat, p: Paragraph, b: LoopBlock): (r: Table)
    requires idx in t.loops
    ensures idx in r.loops && r.loops.Keys == t.loops.Keys
  {
    if b.full in Texts(t.loops[idx]) || LoopTokens(p, b) == [] then t
    else AddLoop(t, idx, b.full, NewTimer(idx, p, b))
  }

  function StartAll(t: Table, idx: nat, p: Paragraph, blocks: seq<LoopBlock>): (r: Table)
    requires idx in t.loops
    ensures idx in r.loops && r.loops.Keys == t.loops.Keys
  {
    if blocks == [] then t
    else StartOne(StartAll(t, idx, p, blocks[..|blocks| - 1]), idx, p, blocks[|blocks| - 1])
  }

  /** An active paragraph: activated first if it had no entry. */
  function Begin(t: Table, idx: nat, p: Paragraph, now: int): (r: Table)
    ensures idx in r.loops
  {
    if idx in t.loops then t else Activate(t, idx, p, now)
  }

  /** The body of `paras.forEach` for paragraph `p` at index `idx`. */
  function Tick(t: Table, idx: nat, p: Paragraph, now: int): Table
  {
    if !IsActive(p) then Deactivate(t, idx)
    else
      var blocks := LoopBlocks(Trimmed(p));
      StartAll(Prune(Begin(t, idx, p, now), idx, Fulls(blocks)), idx, p, blocks)
  }

  /** `updateParagraphs` over the paragraph list. */
  function Update(t: Table, paras: seq<Paragraph>, now: int): Table
  {
    if paras == [] then t
    else Tick(Update(t, paras[..|paras| - 1], now), |paras| - 1, paras[|paras| - 1], now)
  }

  /** The handles stored under the indices in `keys`. */
  function HandlesIn(loops: map<nat, seq<LoopEntry>>, keys: set<nat>): set<nat>
  {
    set i, e | i in keys && i in loops && e in loops[i] :: e.interval
  }

  function StoredHandles(loops: map<nat, seq<LoopEntry>>): set<nat>
  {
    HandlesIn(loops, loops.Keys)
  }

  /** `stopAll`: clear every stored interval, empty the table, release the synth. */
  function Stop(t: Table): Table
  {
    t.(loops := map[], timers := t.timers - StoredHandles(t.loops), log := t.log + [ReleaseAll])
  }

  /** An interval callback at time `now`: replay the cached tokens; a cleared handle never fires. */
  function Fire(t: Table, h: nat, now: int): Table
  {
    if h in t.timers then t.(log := t.log + Schedule(t.timers[h].tokens, now)) else t
  }

  // ---------------------------------------------------------------------
  // The table invariant
  // ---------------------------------------------------------------------

  /** No two entries of a list share a text or a handle. */
  predicate Distinct(es: seq<LoopEntry>)
  {
    es == [] ||
    (var init := es[..|es| - 1]; var last := es[|es| - 1];
     Distinct(init) && last.text !in Texts(init) && last.interval !in Handles(init))
  }

  /** Every stored handle is a live timer started for that paragraph. */
  predicate StoredAreLive(t: Table) {
    forall i, e :: i in t.loops && e in t.loops[i] ==> e.interval in t.timers && t.timers[e.interval].para == i
  }

  /** Every live timer is below the handle counter and stored under its paragraph. */
  predicate LiveAreStored(t: Table) {
    forall h :: h in t.timers ==>
      h < t.next && t.timers[h].para in t.loops && h in Handles(t.loops[t.timers[h].para])
  }

  predicate Playable(tm: Timer) {
    tm.tokens != [] && Schedulable(tm.tokens) && TotalDur(tm.tokens) > 0 && tm.periodMs == 10 * TotalDur(tm.tokens)
  }

  predicate AllDistinct(t: Table) {
    forall i :: i in t.loops ==> Distinct(t.loops[i])
  }

  predicate AllPlayable(t: Table) {
    forall h :: h in t.timers ==> Playable(t.timers[h])
  }

  predicate Inv(t: Table) {
    StoredAreLive(t) && LiveAreStored(t) && AllDistinct(t) && AllPlayable(t)
  }

  lemma EmptyInv()
    ensures Inv(Empty)
  {
  }

  /** No leak: under the invariant the live timers are exactly the stored handles. */
  lemma LiveIsStored(t: Table)
    requires Inv(t)
    ensures t.timers.Keys == StoredHandles(t.loops)
  {
    forall h | h in t.timers
      ensures h in StoredHandles(t.loops)
    {
      var i := t.timers[h].para;
      var e :| e in t.loops[i] && e.interval == h;
    }
  }

  // ---------------------------------------------------------------------
  // Facts about lists
  // ---------------------------------------------------------------------

  lemma HandlesAppend(es: seq<LoopEntry>, x: LoopEntry)
    ensures Handles(es + [x]) == Handles(es) + {x.interval}
    ensures Texts(es + [x]) == Texts(es) + {x.text}
    ensures (es + [x])[..|es|] == es
  {
    assert forall e :: e in es + [x] <==> e in es || e == x;
  }

  lemma HandlesInAdd(loops: map<nat, seq<LoopEntry>>, keys: set<nat>, i: nat)
    requires i in loops
    ensures HandlesIn(loops, keys + {i}) == HandlesIn(loops, keys) + Handles(loops[i])
  {
  }

  lemma RemoveTwice(m: map<nat, Timer>, a: set<nat>, b: set<nat>)
    ensures (m - a) - b == m - (a + b)
  {
  }

  lemma DroppedAppend(es: seq<LoopEntry>, x: LoopEntry, fulls: set<string>)
    ensures Dropped(es + [x], fulls) == Dropped(es, fulls) + (if x.text in fulls then {} else {x.interval})
    ensures Kept(es + [x], fulls) == Kept(es, fulls) + (if x.text in fulls then [x] else [])
  {
    assert (es + [x])[..|es|] == es;
    assert forall e :: e in es + [x] <==> e in es || e == x;
  }

  /** In a distinct list a handle identifies its entry. */
  lemma {:induction false} DistinctUnique(es: seq<LoopEntry>, a: LoopEntry, b: LoopEntry)
    requires Distinct(es) && a in es && b in es
    ensures a.interval == b.interval ==> a == b
    ensures a.text == b.text ==> a == b
  {
    if es != [] {
      var init := es[..|es| - 1];
      var last := es[|es| - 1];
      assert es == init + [last];
      if a in init && b in init {
        DistinctUnique(init, a, b);
      } else if a in init {
        assert b == last;
      } else if b in init {
        assert a == last;
      }
    }
  }

  /** Positionally: no two entries share a text or a handle. */
  lemma DistinctAt(es: seq<LoopEntry>)
    requires Distinct(es)
    ensures forall a, b :: 0 <= a < b < |es| ==> es[a].text != es[b].text && es[a].interval != es[b].interval
  {
    forall a, b | 0 <= a < b < |es|
      ensures es[a].text != es[b].text && es[a].interval != es[b].interval
    {
      DistinctPositions(es, a, b);
    }
  }

  lemma {:induction false} DistinctPositions(es: seq<LoopEntry>, a: nat, b: nat)
    requires Distinct(es) && a < b < |es|
    ensures es[a].text != es[b].text && es[a].interval != es[b].interval
  {
    var init := es[..|es| - 1];
    if b == |es| - 1 {
      assert es[a] == init[a] && init[a] in init;
    } else {
      DistinctPositions(init, a, b);
    }
  }

  lemma {:induction false} KeptFacts(es: seq<LoopEntry>, fulls: set<string>)
    ensures forall e :: e in Kept(es, fulls) <==> e in es && e.text in fulls
    ensures Distinct(es) ==> Distinct(Kept(es, fulls))
  {
    if es != [] {
      var init := es[..|es| - 1];
      var last := es[|es| - 1];
      assert es == init + [last];
      KeptFacts(init, fulls);
      var k := Kept(init, fulls);
      if last.text in fulls {
        HandlesAppend(k, last);
        assert Kept(es, fulls) == k + [last];
        assert Texts(k) <= Texts(init) && Handles(k) <= Handles(init);
      } else {
        assert Kept(es, fulls) == k;
      }
    }
  }

  // ---------------------------------------------------------------------
  // Each step keeps the invariant
  // ---------------------------------------------------------------------

  /** Every live handle stored under `idx` belongs to a timer started for `idx`. */
  lemma OwnTimers(t: Table, idx: nat)
    requires Inv(t) && idx in t.loops
    ensures forall h :: h in t.timers && h in Handles(t.loops[idx]) ==> t.timers[h].para == idx
  {
    forall h | h in t.timers && h in Handles(t.loops[idx])
      ensures t.timers[h].para == idx
    {
      var e :| e in t.loops[idx] && e.interval == h;
    }
  }

  lemma DeactivateLive(t: Table, idx: nat)
    requires Inv(t)
    ensures LiveAreStored(Deactivate(t, idx))
  {
    if idx in t.loops {
      OwnTimers(t, idx);
    }
  }

  lemma DeactivateInv(t: Table, idx: nat)
    requires Inv(t)
    ensures Inv(Deactivate(t, idx))
    ensures idx !in Deactivate(t, idx).loops
    ensures forall h :: h in Deactivate(t, idx).timers ==> Deactivate(t, idx).timers[h].para != idx
    ensures forall h :: h in t.timers && t.timers[h].para != idx ==>
      h in Deactivate(t, idx).timers && Deactivate(t, idx).timers[h] == t.timers[h]
  {
    DeactivateLive(t, idx);
    if idx in t.loops {
      OwnTimers(t, idx);
      var r := Deactivate(t, idx);
      assert StoredAreLive(r);
    }
  }

  lemma ActivateInv(t: Table, idx: nat, p: Paragraph, now: int)
    requires Inv(t) && idx !in t.loops
    ensures Inv(Activate(t, idx, p, now))
  {
    var r := Activate(t, idx, p, now);
    assert StoredAreLive(r);
    assert LiveAreStored(r);
  }

  /** Activation adds an empty list and the one-shot events, and touches nothing else. */
  lemma BeginInv(t: Table, idx: nat, p: Paragraph, now: int)
    requires Inv(t)
    ensures var r := Begin(t, idx, p, now);
      && Inv(r)
      && SameElsewhere(t, r, idx)
      && r.timers == t.timers && r.next == t.next
      && r.loops[idx] == (if idx in t.loops then t.loops[idx] else [])
      && r.log == t.log + (if idx in t.loops then [] else PlayOnceEvents(p, now))
  {
    if idx !in t.loops {
      ActivateInv(t, idx, p, now);
    }
  }

  /** The handles the `filter` drops are live timers of this paragraph, and no kept entry holds one. */
  lemma PruneDropsOwn(t: Table, idx: nat, fulls: set<string>)
    requires Inv(t) && idx in t.loops
    ensures forall h :: h in Dropped(t.loops[idx], fulls) ==>
      h in t.timers && t.timers[h].para == idx && h !in Handles(Kept(t.loops[idx], fulls))
  {
    var es := t.loops[idx];
    KeptFacts(es, fulls);
    forall h | h in Dropped(es, fulls)
      ensures h in t.timers && t.timers[h].para == idx && h !in Handles(Kept(es, fulls))
    {
      var e' :| e' in es && e'.text !in fulls && e'.interval == h;
      forall e | e in Kept(es, fulls)
        ensures e.interval != h
      {
        DistinctUnique(es, e, e');
      }
    }
  }

  lemma PruneStored(t: Table, idx: nat, fulls: set<string>)
    requires Inv(t) && idx in t.loops
    ensures StoredAreLive(Prune(t, idx, fulls))
  {
    var r := Prune(t, idx, fulls);
    PruneDropsOwn(t, idx, fulls);
    KeptFacts(t.loops[idx], fulls);
    forall i, e | i in r.loops && e in r.loops[i]
      ensures e.interval in r.timers && r.timers[e.interval].para == i
    {
      assert e in t.loops[i];
      assert i == idx ==> e.interval in Handles(Kept(t.loops[idx], fulls));
    }
  }

  lemma PruneLive(t: Table, idx: nat, fulls: set<string>)
    requires Inv(t) && idx in t.loops
    ensures LiveAreStored(Prune(t, idx, fulls))
  {
    var r := Prune(t, idx, fulls);
    var es := t.loops[idx];
    KeptFacts(es, fulls);
    forall h | h in r.timers
      ensures h < r.next && r.timers[h].para in r.loops && h in Handles(r.loops[r.timers[h].para])
    {
      if t.timers[h].para == idx {
        var e :| e in es && e.interval == h;
        assert e in r.loops[idx];
      }
    }
  }

  /** Timers of other paragraphs, and of loops the `filter` keeps, survive unchanged. */
  lemma PruneKeeps(t: Table, idx: nat, fulls: set<string>)
    requires Inv(t) && idx in t.loops
    ensures var r := Prune(t, idx, fulls);
      forall h :: h in t.timers && (t.timers[h].para != idx || h in Handles(r.loops[idx])) ==>
        h in r.timers && r.timers[h] == t.timers[h]
  {
    var r := Prune(t, idx, fulls);
    PruneDropsOwn(t, idx, fulls);
  }

  lemma PruneInv(t: Table, idx: nat, fulls: set<string>)
    requires Inv(t) && idx in t.loops
    ensures var r := Prune(t, idx, fulls);
      && Inv(r)
      && (forall e :: e in r.loops[idx] <==> e in t.loops[idx] && e.text in fulls)
      && r.next == t.next && r.log == t.log
      && (forall h :: h in t.timers && (t.timers[h].para != idx || h in Handles(r.loops[idx])) ==>
           h in r.timers && r.timers[h] == t.timers[h])
  {
    KeptFacts(t.loops[idx], fulls);
    PruneStored(t, idx, fulls);
    PruneLive(t, idx, fulls);
    PruneKeeps(t, idx, fulls);
  }

  /** `r` is `t` with only entries appended at `idx` and only timers added; nothing else changes. */
  predicate Extends(t: Table, r: Table, idx: nat)
    requires idx in t.loops && idx in r.loops
  {
    && r.loops.Keys == t.loops.Keys
    && (forall j :: j in t.loops && j != idx ==> r.loops[j] == t.loops[j])
    && (forall h :: h in t.timers ==> h in r.timers && r.timers[h] == t.timers[h])
    && (forall h :: h in r.timers && h !in t.timers ==> t.next <= h)
    && t.next <= r.next
    && r.log == t.log
    && (forall e :: e in t.loops[idx] ==> e in r.loops[idx])
  }

  lemma ExtendsTrans(a: Table, b: Table, c: Table, idx: nat)
    requires idx in a.loops && idx in b.loops && idx in c.loops
    requires Extends(a, b, idx) && Extends(b, c, idx)
    ensures Extends(a, c, idx)
  {
  }

  lemma NextIsFresh(t: Table, idx: nat)
    requires Inv(t) && idx in t.loops
    ensures t.next !in Handles(t.loops[idx]) && t.next !in t.timers
  {
    forall e | e in t.loops[idx]
      ensures e.interval != t.next
    {
      assert e.interval in t.timers;
    }
  }

  /** The new entry's handle is fresh, so adding it keeps the list distinct. */
  lemma AddLoopDistinct(t: Table, idx: nat, text: string, tm: Timer)
    requires Inv(t) && idx in t.loops && text !in Texts(t.loops[idx])
    ensures AllDistinct(AddLoop(t, idx, text, tm))
  {
    NextIsFresh(t, idx);
    HandlesAppend(t.loops[idx], LoopEntry(text, t.next));
  }

  lemma AddLoopExtends(t: Table, idx: nat, text: string, tm: Timer)
    requires Inv(t) && idx in t.loops
    ensures Extends(t, AddLoop(t, idx, text, tm), idx)
  {
    NextIsFresh(t, idx);
  }

  lemma AddLoopLive(t: Table, idx: nat, text: string, tm: Timer)
    requires Inv(t) && idx in t.loops && tm.para == idx
    ensures LiveAreStored(AddLoop(t, idx, text, tm))
  {
    var r := AddLoop(t, idx, text, tm);
    HandlesAppend(t.loops[idx], LoopEntry(text, t.next));
    forall h | h in r.timers
      ensures h < r.next && r.timers[h].para in r.loops && h in Handles(r.loops[r.timers[h].para])
    {
      if h != t.next {
        var i := t.timers[h].para;
        assert h in Handles(t.loops[i]);
      }
    }
  }

  lemma AddLoopStored(t: Table, idx: nat, text: string, tm: Timer)
    requires Inv(t) && idx in t.loops && tm.para == idx
    ensures StoredAreLive(AddLoop(t, idx, text, tm))
  {
    var r := AddLoop(t, idx, text, tm);
    var x := LoopEntry(text, t.next);
    NextIsFresh(t, idx);
    forall i, e | i in r.loops && e in r.loops[i]
      ensures e.interval in r.timers && r.timers[e.interval].para == i
    {
      if e != x || i != idx {
        assert e in t.loops[i];
        assert e.interval in t.timers;
      }
    }
  }

  /** Starting a loop for a text not yet running, with a playable timer of this paragraph, keeps the invariant. */
  lemma AddLoopInv(t: Table, idx: nat, text: string, tm: Timer)
    requires Inv(t) && idx in t.loops && text !in Texts(t.loops[idx])
    requires tm.para == idx && Playable(tm)
    ensures Inv(AddLoop(t, idx, text, tm))
    ensures Extends(t, AddLoop(t, idx, text, tm), idx)
  {
    AddLoopDistinct(t, idx, text, tm);
    AddLoopExtends(t, idx, text, tm);
    AddLoopLive(t, idx, text, tm);
    AddLoopStored(t, idx, text, tm);
  }

  lemma StartOneInv(t: Table, idx: nat, p: Paragraph, b: LoopBlock)
    requires Inv(t) && idx in t.loops
    ensures Inv(StartOne(t, idx, p, b))
    ensures Extends(t, StartOne(t, idx, p, b), idx)
  {
    if !(b.full in Texts(t.loops[idx]) || LoopTokens(p, b) == []) {
      TokensPlayable(StripQuoted(b.inside), Entries(p.runs), 0);
      AddLoopInv(t, idx, b.full, NewTimer(idx, p, b));
    }
  }

  /** One block: an entry it adds is for that block, and a block with tokens ends up running. */
  lemma StartOneEntries(t: Table, idx: nat, p: Paragraph, b: LoopBlock)
    requires Inv(t) && idx in t.loops
    ensures forall e :: e in StartOne(t, idx, p, b).loops[idx] ==>
      e in t.loops[idx] ||
      (e.text == b.full && e.interval in StartOne(t, idx, p, b).timers && StartOne(t, idx, p, b).timers[e.interval] == NewTimer(idx, p, b))
    ensures LoopTokens(p, b) != [] ==> b.full in Texts(StartOne(t, idx, p, b).loops[idx])
    ensures Texts(t.loops[idx]) <= Texts(StartOne(t, idx, p, b).loops[idx])
  {
    if !(b.full in Texts(t.loops[idx]) || LoopTokens(p, b) == []) {
      HandlesAppend(t.loops[idx], LoopEntry(b.full, t.next));
    }
  }

  lemma {:induction false} StartAllInv(t: Table, idx: nat, p: Paragraph, blocks: seq<LoopBlock>)
    requires Inv(t) && idx in t.loops
    ensures Inv(StartAll(t, idx, p, blocks))
    ensures Extends(t, StartAll(t, idx, p, blocks), idx)
  {
    if blocks != [] {
      var init := blocks[..|blocks| - 1];
      StartAllInv(t, idx, p, init);
      var m := StartAll(t, idx, p, init);
      StartOneInv(m, idx, p, blocks[|blocks| - 1]);
      ExtendsTrans(t, m, StartAll(t, idx, p, blocks), idx);
    }
  }

  /** Starting the blocks: every added entry is one block's loop, and every block with tokens runs. */
  lemma {:induction false} StartAllEntries(t: Table, idx: nat, p: Paragraph, blocks: seq<LoopBlock>)
    requires Inv(t) && idx in t.loops
    ensures forall e :: e in StartAll(t, idx, p, blocks).loops[idx] ==>
      e in t.loops[idx] ||
      exists b :: b in blocks && e.text == b.full &&
        e.interval in StartAll(t, idx, p, blocks).timers && StartAll(t, idx, p, blocks).timers[e.interval] == NewTimer(idx, p, b)
    ensures forall b :: b in blocks && LoopTokens(p, b) != [] ==> b.full in Texts(StartAll(t, idx, p, blocks).loops[idx])
  {
    if blocks != [] {
      var init := blocks[..|blocks| - 1];
      var last := blocks[|blocks| - 1];
      StartAllEntries(t, idx, p, init);
      StartAllInv(t, idx, p, init);
      var m := StartAll(t, idx, p, init);
      StartOneInv(m, idx, p, last);
      StartOneEntries(m, idx, p, last);
      var r := StartAll(t, idx, p, blocks);
      assert r == StartOne(m, idx, p, last);
      forall e | e in r.loops[idx] && e !in t.loops[idx]
        ensures exists b :: b in blocks && e.text == b.full && e.interval in r.timers && r.timers[e.interval] == NewTimer(idx, p, b)
      {
        if e in m.loops[idx] {
          var b :| b in init && e.text == b.full && e.interval in m.timers && m.timers[e.interval] == NewTimer(idx, p, b);
          assert e.interval in m.timers;
          assert b in blocks;
        } else {
          assert last in blocks;
        }
      }
      forall b | b in blocks && LoopTokens(p, b) != []
        ensures b.full in Texts(r.loops[idx])
      {
        if b != last {
          assert b in init;
        }
      }
    }
  }

  /** Everything `Tick` promises about the invariant and the log. */
  lemma TickInv(t: Table, idx: nat, p: Paragraph, now: int)
    requires Inv(t)
    ensures Inv(Tick(t, idx, p, now))
  {
    if !IsActive(p) {
      DeactivateInv(t, idx);
    } else {
      var t1 := Begin(t, idx, p, now);
      BeginInv(t, idx, p, now);
      var fulls := Fulls(LoopBlocks(Trimmed(p)));
      PruneInv(t1, idx, fulls);
      StartAllInv(Prune(t1, idx, fulls), idx, p, LoopBlocks(Trimmed(p)));
    }
  }

  lemma {:induction false} UpdateInv(t: Table, paras: seq<Paragraph>, now: int)
    requires Inv(t)
    ensures Inv(Update(t, paras, now))
  {
    if paras != [] {
      UpdateInv(t, paras[..|paras| - 1], now);
      TickInv(Update(t, paras[..|paras| - 1], now), |paras| - 1, paras[|paras| - 1], now);
    }
  }

  lemma StopInv(t: Table)
    requires Inv(t)
    ensures Inv(Stop(t))
    ensures Stop(t).loops == map[] && Stop(t).timers == map[]
  {
    LiveIsStored(t);
  }

  lemma FireInv(t: Table, h: nat, now: int)
    requires Inv(t)
    ensures Inv(Fire(t, h, now))
  {
  }

  // ---------------------------------------------------------------------
  // What a tick, an update, a stop and a timer callback do
  // ---------------------------------------------------------------------

  /**
   * A paragraph's loop list is reconciled with its text: every entry is
   * a current block, no two entries share a text or a handle, and every
   * block that yields tokens is running.
   */
  predicate Reconciled(es: seq<LoopEntry>, p: Paragraph) {
    && (forall e :: e in es ==> e.text in Fulls(LoopBlocks(Trimmed(p))))
    && Distinct(es)
    && (forall b :: b in LoopBlocks(Trimmed(p)) && LoopTokens(p, b) != [] ==> b.full in Texts(es))
  }

  /** A paragraph not ending in `.` leaves the tick with no entry and none of its intervals live. */
  lemma TickInactive(t: Table, idx: nat, p: Paragraph, now: int)
    requires Inv(t) && !IsActive(p)
    ensures idx !in Tick(t, idx, p, now).loops
    ensures forall h :: h in Tick(t, idx, p, now).timers ==> Tick(t, idx, p, now).timers[h].para != idx
    ensures Tick(t, idx, p, now).log == t.log
  {
    DeactivateInv(t, idx);
  }

  /**
   * A paragraph ending in `.` leaves the tick reconciled: loops whose
   * block is still there keep their handle and timer, loops whose block
   * is gone are cleared, and every other loop was just started for one
   * of the current blocks with freshly tokenized contents.
   */
  lemma TickActive(t: Table, idx: nat, p: Paragraph, now: int)
    requires Inv(t) && IsActive(p)
    ensures idx in Tick(t, idx, p, now).loops
    ensures Reconciled(Tick(t, idx, p, now).loops[idx], p)
    ensures idx in t.loops ==> forall e :: e in t.loops[idx] && e.text in Fulls(LoopBlocks(Trimmed(p))) ==>
      e in Tick(t, idx, p, now).loops[idx] &&
      e.interval in Tick(t, idx, p, now).timers && Tick(t, idx, p, now).timers[e.interval] == t.timers[e.interval]
    ensures idx in t.loops ==> forall e :: e in t.loops[idx] && e.text !in Fulls(LoopBlocks(Trimmed(p))) ==>
      e.interval !in Tick(t, idx, p, now).timers
    ensures forall e :: e in Tick(t, idx, p, now).loops[idx] ==>
      (idx in t.loops && e in t.loops[idx]) ||
      exists b :: b in LoopBlocks(Trimmed(p)) && e.text == b.full &&
        e.interval in Tick(t, idx, p, now).timers && Tick(t, idx, p, now).timers[e.interval] == NewTimer(idx, p, b)
  {
    var blocks := LoopBlocks(Trimmed(p));
    var fulls := Fulls(blocks);
    var t1 := Begin(t, idx, p, now);
    BeginInv(t, idx, p, now);
    var t2 := Prune(t1, idx, fulls);
    PruneInv(t1, idx, fulls);
    StartAllInv(t2, idx, p, blocks);
    StartAllEntries(t2, idx, p, blocks);
    var r := Tick(t, idx, p, now);
    assert r == StartAll(t2, idx, p, blocks);
    forall e | e in r.loops[idx]
      ensures e.text in fulls
    {
      if e !in t2.loops[idx] {
        var b :| b in blocks && e.text == b.full && e.interval in r.timers && r.timers[e.interval] == NewTimer(idx, p, b);
      }
    }
    if idx in t.loops {
      forall e | e in t.loops[idx] && e.text in fulls
        ensures e.interval in r.timers && r.timers[e.interval] == t.timers[e.interval]
      {
        assert e in t2.loops[idx];
        assert e.interval in Handles(t2.loops[idx]);
        assert e.interval in t.timers;
      }
      forall e | e in t.loops[idx] && e.text !in fulls
        ensures e.interval !in r.timers
      {
        assert e.interval in Dropped(t.loops[idx], fulls);
        assert e.interval in t.timers;
      }
    }
  }

  /**
   * The tick logs the one-shot playback exactly when the paragraph ends
   * in `.` and had no entry yet; otherwise it sounds nothing.
   */
  lemma TickLog(t: Table, idx: nat, p: Paragraph, now: int)
    requires Inv(t)
    ensures Tick(t, idx, p, now).log ==
      t.log + (if IsActive(p) && idx !in t.loops then PlayOnceEvents(p, now) else [])
  {
    if IsActive(p) {
      var fulls := Fulls(LoopBlocks(Trimmed(p)));
      var t1 := Begin(t, idx, p, now);
      BeginInv(t, idx, p, now);
      PruneInv(t1, idx, fulls);
      StartAllInv(Prune(t1, idx, fulls), idx, p, LoopBlocks(Trimmed(p)));
    }
  }

  /** Other paragraphs keep their entries, and timers started for them stay as they were. */
  ghost predicate SameElsewhere(t: Table, r: Table, idx: nat) {
    && (forall j :: j != idx ==> (j in r.loops <==> j in t.loops))
    && (forall j :: j != idx && j in t.loops ==> r.loops[j] == t.loops[j])
    && (forall h :: h in t.timers && t.timers[h].para != idx ==> h in r.timers && r.timers[h] == t.timers[h])
  }

  /** `r` differs from `t` only at paragraph `idx`: its list and the timers started for it. */
  ghost predicate OnlyAt(t: Table, r: Table, idx: nat) {
    && SameElsewhere(t, r, idx)
    && (forall h :: h in r.timers && h !in t.timers ==> r.timers[h].para == idx)
  }

  lemma SameElsewhereTrans(a: Table, b: Table, c: Table, idx: nat)
    requires SameElsewhere(a, b, idx) && SameElsewhere(b, c, idx)
    ensures SameElsewhere(a, c, idx)
  {
  }

  /** Between two tables that keep the invariant, a timer new in `r` is stored, hence under `idx`. */
  lemma InvOnlyAt(t: Table, r: Table, idx: nat)
    requires Inv(t) && Inv(r) && SameElsewhere(t, r, idx)
    ensures OnlyAt(t, r, idx)
  {
  }

  lemma ActiveOnlyAt(t: Table, idx: nat, p: Paragraph, now: int)
    requires Inv(t) && IsActive(p)
    ensures OnlyAt(t, Tick(t, idx, p, now), idx)
  {
    var blocks := LoopBlocks(Trimmed(p));
    var fulls := Fulls(blocks);
    var t1 := Begin(t, idx, p, now);
    BeginInv(t, idx, p, now);
    var t2 := Prune(t1, idx, fulls);
    PruneInv(t1, idx, fulls);
    assert SameElsewhere(t1, t2, idx);
    var r := StartAll(t2, idx, p, blocks);
    StartAllInv(t2, idx, p, blocks);
    assert SameElsewhere(t2, r, idx);
    SameElsewhereTrans(t, t1, t2, idx);
    SameElsewhereTrans(t, t2, r, idx);
    TickInv(t, idx, p, now);
    assert r == Tick(t, idx, p, now);
    InvOnlyAt(t, r, idx);
  }

  /** A tick leaves the entries and timers of every other paragraph as they were; new timers are its own. */
  lemma TickOthers(t: Table, idx: nat, p: Paragraph, now: int)
    requires Inv(t)
    ensures OnlyAt(t, Tick(t, idx, p, now), idx)
  {
    if !IsActive(p) {
      DeactivateInv(t, idx);
    } else {
      ActiveOnlyAt(t, idx, p, now);
    }
  }

  /**
   * After `updateParagraphs`, paragraph `j` has an entry exactly when its
   * text ends in `.`, and then its loops are reconciled with its blocks;
   * entries at indices beyond the paragraph list are left as they were,
   * and so are their timers.
   */
  lemma {:induction false} UpdateReconciles(t: Table, paras: seq<Paragraph>, now: int)
    requires Inv(t)
    ensures forall j :: 0 <= j < |paras| ==> (j in Update(t, paras, now).loops <==> IsActive(paras[j]))
    ensures forall j :: 0 <= j < |paras| && IsActive(paras[j]) ==> Reconciled(Update(t, paras, now).loops[j], paras[j])
    ensures forall j :: j >= |paras| ==> (j in Update(t, paras, now).loops <==> j in t.loops)
    ensures forall j :: j >= |paras| && j in t.loops ==> Update(t, paras, now).loops[j] == t.loops[j]
    ensures forall h :: h in t.timers && t.timers[h].para >= |paras| ==>
      h in Update(t, paras, now).timers && Update(t, paras, now).timers[h] == t.timers[h]
  {
    if paras != [] {
      var n := |paras| - 1;
      var init := paras[..n];
      var m := Update(t, init, now);
      UpdateReconciles(t, init, now);
      UpdateInv(t, init, now);
      TickOthers(m, n, paras[n], now);
      var r := Update(t, paras, now);
      assert r == Tick(m, n, paras[n], now);
      if IsActive(paras[n]) {
        TickActive(m, n, paras[n], now);
      } else {
        TickInactive(m, n, paras[n], now);
      }
      forall j | 0 <= j < n
        ensures (j in r.loops <==> IsActive(paras[j]))
        ensures IsActive(paras[j]) ==> Reconciled(r.loops[j], paras[j])
      {
        assert init[j] == paras[j];
      }
    }
  }

  /** `stopAll` empties the table and, under the invariant, leaves no timer live; it releases the synth. */
  lemma StopEmpties(t: Table)
    requires Inv(t)
    ensures Stop(t).loops == map[] && Stop(t).timers == map[]
    ensures Stop(t).log == t.log + [ReleaseAll]
  {
    StopInv(t);
  }

  /** Stopping twice leaves the table and the timers as stopping once. */
  lemma StopIdempotent(t: Table)
    ensures Stop(Stop(t)).loops == Stop(t).loops
    ensures Stop(Stop(t)).timers == Stop(t).timers
    ensures Stop(Stop(t)).next == Stop(t).next
  {
    assert StoredHandles(Stop(t).loops) == {};
  }

  /** After `stopAll`, the next tick of a paragraph ending in `.` plays it once again. */
  lemma StopThenTickReplays(t: Table, idx: nat, p: Paragraph, now: int)
    requires Inv(t) && IsActive(p)
    ensures Tick(Stop(t), idx, p, now).log == t.log + [ReleaseAll] + PlayOnceEvents(p, now)
  {
    StopInv(t);
    TickLog(Stop(t), idx, p, now);
  }

  /**
   * A timer callback replays the tokens cached when the loop started,
   * within one period from `now`, and changes nothing else; a cleared
   * handle never fires.
   */
  lemma FireReplays(t: Table, h: nat, now: int)
    requires Inv(t)
    ensures h !in t.timers ==> Fire(t, h, now) == t
    ensures h in t.timers ==>
      var tm := t.timers[h];
      && Schedulable(tm.tokens)
      && Fire(t, h, now) == t.(log := t.log + Schedule(tm.tokens, now))
      && Within(Schedule(tm.tokens, now), now, now + tm.periodMs / 10)
      && Spaced(Schedule(tm.tokens, now))
  {
    if h in t.timers {
      ScheduleTimes(t.timers[h].tokens, now);
    }
  }
}
