/**
 * The mutable side of the loop table: `activeLoops` and the interval
 * registry as fields, and `updateParagraphs`, `playParagraphOnce`,
 * `stopAll` and the interval callback as methods that update them in
 * place (script.js lines 428-527). Each method is proved to take the
 * table to the state the matching function of `Loops` describes, and
 * to keep the table invariant.
 */
module Playback {
  import opened JsText
  import opened Letters
  import opened Parsing
  import opened Tokenizer
  import opened Timeline
  import opened Loops

  /** `loops.some((lb) => lb.full === text)`. */
  method SomeFull(blocks: seq<LoopBlock>, text: string) returns (found: bool)
    ensures found <==> text in Fulls(blocks)
  {
    found := false;
    for k := 0 to |blocks|
      invariant found <==> exists j :: 0 <= j < k && blocks[j].full == text
    {
      if blocks[k].full == text {
        found := true;
      }
    }
    if text in Fulls(blocks) {
      var b :| b in blocks && b.full == text;
      var j :| 0 <= j < |blocks| && blocks[j] == b;
    }
  }

  /** `activeLoops[idx].some((l) => l.text === text)`. */
  method SomeText(es: seq<LoopEntry>, text: string) returns (found: bool)
    ensures found <==> text in Texts(es)
  {
    found := false;
    for k := 0 to |es|
      invariant found <==> exists j :: 0 <= j < k && es[j].text == text
    {
      if es[k].text == text {
        found := true;
      }
    }
    if text in Texts(es) {
      var e :| e in es && e.text == text;
      var j :| 0 <= j < |es| && es[j] == e;
    }
  }

  /** The `reduce` computing `loopDur`, with its `|| 0.2` fallback. */
  method LoopLength(tokens: seq<Token>) returns (d: nat)
    ensures d == LoopDur(tokens)
  {
    var acc := 0;
    for k := 0 to |tokens|
      invariant acc == TotalDur(tokens[..k])
    {
      assert tokens[..k + 1][..k] == tokens[..k];
      acc := acc + (if tokens[k].Rest? then tokens[k].dur else BASE_DUR);
    }
    assert tokens[..|tokens|] == tokens;
    d := if acc == 0 then LOOP_FALLBACK else acc;
  }

  class Player {
    var activeLoops: map<nat, seq<LoopEntry>>
    var timers: map<nat, Timer>
    var nextHandle: nat
    var log: seq<Event>

    function State(): Table
      reads this
    {
      Table(activeLoops, timers, nextHandle, log)
    }

    ghost predicate Valid()
      reads this
    {
      Inv(State())
    }

    constructor()
      ensures State() == Empty && Valid()
    {
      activeLoops := map[];
      timers := map[];
      nextHandle := 0;
      log := [];
      EmptyInv();
    }

    /** `setInterval`: register a timer under a fresh handle. */
    method SetInterval(para: nat, tokens: seq<Token>, periodMs: nat) returns (h: nat)
      modifies this
      ensures h == old(nextHandle)
      ensures State() == old(State()).(timers := old(timers)[h := Timer(para, tokens, periodMs)], next := h + 1)
    {
      h := nextHandle;
      timers := timers[h := Timer(para, tokens, periodMs)];
      nextHandle := nextHandle + 1;
    }

    /** `clearInterval`: the handle is no longer live. */
    method ClearInterval(h: nat)
      modifies this
      ensures State() == old(State()).(timers := old(timers) - {h})
    {
      timers := timers - {h};
    }

    /** `forEach((l) => clearInterval(l.interval))` over one list. */
    method ClearEach(es: seq<LoopEntry>)
      modifies this
      ensures State() == old(State()).(timers := old(timers) - Handles(es))
    {
      for k := 0 to |es|
        invariant State() == old(State()).(timers := old(timers) - Handles(es[..k]))
      {
        HandlesAppend(es[..k], es[k]);
        assert es[..k + 1] == es[..k] + [es[k]];
        ClearInterval(es[k].interval);
      }
      assert es[..|es|] == es;
    }

    /** `playParagraphOnce`. */
    method PlayParagraphOnce(p: Paragraph, now: int)
      modifies this
      ensures State() == old(State()).(log := old(log) + PlayOnceEvents(p, now))
    {
      var txt := Trim(p.innerText);
      var letterEntries := BuildLetterEntries(p.runs);
      var playable := StripQuoted(txt);
      var tokens := TokensFromTextAndLetters(playable, letterEntries, 0);
      if |tokens| == 0 {
        return;
      }
      TokensPlayable(playable, letterEntries, 0);
      var _, events := ScheduleTokens(tokens, now);
      log := log + events;
    }

    /** `stopAll`. */
    method StopAll()
      requires Valid()
      modifies this
      ensures State() == Stop(old(State()))
      ensures Valid()
    {
      var keys := activeLoops.Keys;
      ghost var done: set<nat> := {};
      while keys != {}
        invariant keys + done == old(activeLoops).Keys && keys !! done
        invariant activeLoops == old(activeLoops) && nextHandle == old(nextHandle) && log == old(log)
        invariant timers == old(timers) - HandlesIn(old(activeLoops), done)
        decreases keys
      {
        var i :| i in keys;
        ClearEach(activeLoops[i]);
        HandlesInAdd(old(activeLoops), done, i);
        RemoveTwice(old(timers), HandlesIn(old(activeLoops), done), Handles(old(activeLoops)[i]));
        keys := keys - {i};
        done := done + {i};
      }
      assert done == old(activeLoops).Keys;
      activeLoops := map[];
      log := log + [ReleaseAll];
      StopInv(old(State()));
    }

    /** An interval callback: replay the cached tokens. */
    method Fire(h: nat, now: int)
      requires Valid()
      modifies this
      ensures State() == Loops.Fire(old(State()), h, now)
      ensures Valid()
    {
      if h in timers {
        var tokens := timers[h].tokens;
        var _, events := ScheduleTokens(tokens, now);
        log := log + events;
      }
      FireInv(old(State()), h, now);
    }

    /** The `filter` callback: keep a loop whose block is still there, else clear its interval. */
    method KeepOrClear(loopObj: LoopEntry, blocks: seq<LoopBlock>) returns (still: bool)
      modifies this
      ensures still <==> loopObj.text in Fulls(blocks)
      ensures State() == old(State()).(timers := old(timers) - (if still then {} else {loopObj.interval}))
    {
      still := SomeFull(blocks, loopObj.text);
      if !still {
        ClearInterval(loopObj.interval);
      }
    }

    /** The `filter` of `activeLoops[idx]`, clearing the intervals of blocks that are gone. */
    method PruneLoops(idx: nat, blocks: seq<LoopBlock>)
      requires idx in activeLoops
      modifies this
      ensures State() == Prune(old(State()), idx, Fulls(blocks))
    {
      var es := activeLoops[idx];
      ghost var fulls := Fulls(blocks);
      var kept := [];
      for k := 0 to |es|
        invariant kept == Kept(es[..k], fulls)
        invariant activeLoops == old(activeLoops) && nextHandle == old(nextHandle) && log == old(log)
        invariant timers == old(timers) - Dropped(es[..k], fulls)
      {
        var loopObj := es[k];
        DroppedAppend(es[..k], loopObj, fulls);
        assert es[..k + 1] == es[..k] + [loopObj];
        var still := KeepOrClear(loopObj, blocks);
        if still {
          kept := kept + [loopObj];
        }
      }
      assert es[..|es|] == es;
      activeLoops := activeLoops[idx := kept];
    }

    /** One iteration of `loops.forEach`. */
    method StartLoop(idx: nat, p: Paragraph, lb: LoopBlock)
      requires idx in activeLoops
      modifies this
      ensures State() == StartOne(old(State()), idx, p, lb)
    {
      var running := SomeText(activeLoops[idx], lb.full);
      if running {
        return;
      }
      var letters := BuildLetterEntries(p.runs);
      var inside := StripQuoted(lb.inside);
      var tokens := TokensFromTextAndLetters(inside, letters, 0);
      if |tokens| == 0 {
        return;
      }
      var loopDur := LoopLength(tokens);
      var interval := SetInterval(idx, tokens, loopDur * 10);
      activeLoops := activeLoops[idx := activeLoops[idx] + [LoopEntry(lb.full, interval)]];
    }

    /** `loops.forEach`: start every block not yet running whose tokens are not empty. */
    method StartLoops(idx: nat, p: Paragraph, blocks: seq<LoopBlock>)
      requires idx in activeLoops
      modifies this
      ensures State() == StartAll(old(State()), idx, p, blocks)
    {
      for k := 0 to |blocks|
        invariant idx in activeLoops
        invariant State() == StartAll(old(State()), idx, p, blocks[..k])
      {
        assert blocks[..k + 1][..k] == blocks[..k];
        StartLoop(idx, p, blocks[k]);
      }
      assert blocks[..|blocks|] == blocks;
    }

    /** The body of `paras.forEach` for the paragraph at `idx`. */
    method TickParagraph(idx: nat, p: Paragraph, now: int)
      requires Valid()
      modifies this
      ensures State() == Tick(old(State()), idx, p, now)
      ensures Valid()
    {
      TickInv(State(), idx, p, now);
      var trimmed := Trim(p.innerText);
      if !EndsWith(trimmed, '.') {
        if idx in activeLoops {
          ClearEach(activeLoops[idx]);
          activeLoops := activeLoops - {idx};
        }
        return;
      }
      if idx !in activeLoops {
        activeLoops := activeLoops[idx := []];
        PlayParagraphOnce(p, now);
      }
      var loops := FindLoopBlocks(trimmed);
      PruneLoops(idx, loops);
      StartLoops(idx, p, loops);
    }

    /** `updateParagraphs`. */
    method UpdateParagraphs(paras: seq<Paragraph>, now: int)
      requires Valid()
      modifies this
      ensures State() == Update(old(State()), paras, now)
      ensures Valid()
    {
      for i := 0 to |paras|
        invariant State() == Update(old(State()), paras[..i], now)
        invariant Valid()
      {
        assert paras[..i + 1][..i] == paras[..i];
        TickParagraph(i, paras[i], now);
      }
      assert paras[..|paras|] == paras;
    }
  }
}
