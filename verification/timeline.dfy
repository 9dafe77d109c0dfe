/**
 * `scheduleTokens` (script.js lines 392-425): walk the tokens with a time
 * accumulator, trigger one synth event per letter or chord token and
 * return the total time taken.
 *
 * Times are integers in centiseconds. The synthesiser is an event log:
 * each trigger records its pitches, the style `applyStyleToSound` was
 * handed just before the trigger was scheduled, its start time and its
 * length. Velocity and the letter highlighting are not part of the event.
 * The style is applied to the one shared synth at scheduling time, so the
 * log records what was applied, not what is heard when the note sounds.
 */
module Timeline {
  import opened JsText
  import opened Notes
  import opened Letters
  import opened Tokenizer

  /** A note name from the pool, or `randomNote()`, an unspecified element of the pool. */
  datatype Pitch = Named(note: string) | Random

  /**
   * One `triggerAttackRelease` call, with the style `applyStyleToSound`
   * configured the synth from just before it; or one `releaseAll` call.
   */
  datatype Event =
    | Trigger(notes: seq<Pitch>, style: Style, time: int, dur: nat)
    | ReleaseAll

  /** How far a token moves the accumulator: its own `dur` for a rest, BASE_DUR otherwise. */
  function Dur(tok: Token): nat
  {
    if tok.Rest? then tok.dur else BASE_DUR
  }

  /** The loop length at lines 512-516, before its `|| 0.2` fallback. */
  function TotalDur(tokens: seq<Token>): nat
  {
    if tokens == [] then 0 else TotalDur(tokens[..|tokens| - 1]) + Dur(tokens[|tokens| - 1])
  }

  /** The pitch of one sounded letter: random for a `?` word or a `?` character. */
  function PitchOf(l: TokenLetter, random: bool): Pitch
  {
    if random || l.ch == '?' then Random else Named(LetterToNote(l.ch))
  }

  function PitchesOf(letters: seq<TokenLetter>, random: bool): (r: seq<Pitch>)
    ensures |r| == |letters|
  {
    if letters == [] then [] else [PitchOf(letters[0], random)] + PitchesOf(letters[1..], random)
  }

  /**
   * Every letter or chord token has a first letter, which `scheduleTokens`
   * reads; the tokenizer only produces such lists.
   */
  predicate Schedulable(tokens: seq<Token>) {
    forall k :: 0 <= k < |tokens| ==> tokens[k].Rest? || |tokens[k].letters| >= 1
  }

  /** The `{}` fallback: no colour, not bold, not italic, not underlined. */
  const NO_STYLE := Style(false, false, false, "", "")

  /** `tok.letters[0]?.style || {}`, the style handed to `applyStyleToSound`. */
  function StyleOf(tok: Token): Style
    requires !tok.Rest?
  {
    if tok.letters == [] then NO_STYLE else tok.letters[0].style
  }

  /** The oscillator and drive that a trigger's recorded style selects. */
  function ToneOf(e: Event): Tone
    requires e.Trigger?
  {
    ColorToTone(e.style.color)
  }

  /**
   * The trigger of a letter or chord token at time `t`. A letter token
   * sounds its first letter; one without letters, which the code would
   * fail on and the tokenizer never makes, sounds nothing here.
   */
  function EventOf(tok: Token, t: int): Event
    requires !tok.Rest?
  {
    var notes :=
      if tok.Letter? && tok.letters != [] then [PitchOf(tok.letters[0], tok.random)]
      else PitchesOf(tok.letters, tok.random);
    Trigger(notes, StyleOf(tok), t, BASE_DUR)
  }

  /** The events `scheduleTokens(tokens, start)` triggers, in order. */
  function Schedule(tokens: seq<Token>, start: int): seq<Event>
  {
    if tokens == [] then []
    else
      var init := tokens[..|tokens| - 1];
      var last := tokens[|tokens| - 1];
      Schedule(init, start) + (if last.Rest? then [] else [EventOf(last, start + TotalDur(init))])
  }

  /** `scheduleTokens`: its return value and the triggers it makes. */
  method ScheduleTokens(tokens: seq<Token>, startTime: int) returns (elapsed: int, events: seq<Event>)
    ensures elapsed == TotalDur(tokens)
    ensures events == Schedule(tokens, startTime)
  {
    var t := startTime;
    events := [];
    for i := 0 to |tokens|
      invariant t == startTime + TotalDur(tokens[..i])
      invariant events == Schedule(tokens[..i], startTime)
    {
      var tok := tokens[i];
      assert tokens[..i + 1][..i] == tokens[..i];
      if tok.Rest? {
        t := t + tok.dur;
        continue;
      }
      events := events + [EventOf(tok, t)];
      t := t + BASE_DUR;
    }
    assert tokens[..|tokens|] == tokens;
    elapsed := t - startTime;
  }

  // ---------------------------------------------------------------------
  // Properties
  // ---------------------------------------------------------------------

  function SoundCount(tokens: seq<Token>): nat
  {
    if tokens == [] then 0 else SoundCount(tokens[..|tokens| - 1]) + (if tokens[|tokens| - 1].Rest? then 0 else 1)
  }

  /** Scheduling a prefix of the tokens gives a prefix of the events. */
  lemma {:induction false} SchedulePrefix(tokens: seq<Token>, start: int, j: nat)
    requires j <= |tokens|
    ensures |Schedule(tokens[..j], start)| <= |Schedule(tokens, start)|
    ensures Schedule(tokens, start)[..|Schedule(tokens[..j], start)|] == Schedule(tokens[..j], start)
    decreases |tokens|
  {
    if j == |tokens| {
      assert tokens[..j] == tokens;
    } else {
      var init := tokens[..|tokens| - 1];
      SchedulePrefix(init, start, j);
      assert init[..j] == tokens[..j];
      var s := Schedule(tokens, start);
      var si := Schedule(init, start);
      assert s[..|si|] == si;
    }
  }

  /**
   * Each letter or chord token triggers exactly once, and rests trigger
   * nothing: the `k`-th token, when it sounds, is the event numbered by
   * the sounding tokens before it, at `start` plus the durations of all
   * tokens before it.
   */
  lemma ScheduleAt(tokens: seq<Token>, start: int, k: nat)
    requires k < |tokens| && !tokens[k].Rest?
    ensures |Schedule(tokens, start)| == SoundCount(tokens)
    ensures SoundCount(tokens[..k]) < |Schedule(tokens, start)|
    ensures Schedule(tokens, start)[SoundCount(tokens[..k])] == EventOf(tokens[k], start + TotalDur(tokens[..k]))
  {
    ScheduleLength(tokens, start);
    ScheduleLength(tokens[..k], start);
    SchedulePrefix(tokens, start, k + 1);
    ScheduleSounding(tokens, start, k);
    var s := Schedule(tokens, start);
    var p := Schedule(tokens[..k + 1], start);
    var q := Schedule(tokens[..k], start);
    assert s[|q|] == p[|q|];
  }

  /** Appending a token appends its trigger, if it sounds, at the end of the time taken so far. */
  lemma ScheduleSnoc(init: seq<Token>, last: Token, start: int)
    ensures Schedule(init + [last], start)
         == Schedule(init, start) + (if last.Rest? then [] else [EventOf(last, start + TotalDur(init))])
  {
    assert (init + [last])[..|init|] == init;
  }

  /** The prefix ending in a sounding token schedules one more event than the prefix before it. */
  lemma ScheduleSounding(tokens: seq<Token>, start: int, k: nat)
    requires k < |tokens| && !tokens[k].Rest?
    ensures Schedule(tokens[..k + 1], start)
         == Schedule(tokens[..k], start) + [EventOf(tokens[k], start + TotalDur(tokens[..k]))]
  {
    assert tokens[..k + 1] == tokens[..k] + [tokens[k]];
    ScheduleSnoc(tokens[..k], tokens[k], start);
  }

  lemma {:induction false} ScheduleLength(tokens: seq<Token>, start: int)
    ensures |Schedule(tokens, start)| == SoundCount(tokens)
  {
    if tokens != [] {
      ScheduleLength(tokens[..|tokens| - 1], start);
    }
  }

  lemma {:induction false} TotalDurPrefix(tokens: seq<Token>, i: nat, j: nat)
    requires i <= j <= |tokens|
    ensures TotalDur(tokens[..i]) <= TotalDur(tokens[..j])
    ensures i < j && !tokens[i].Rest? ==> TotalDur(tokens[..i]) + BASE_DUR <= TotalDur(tokens[..j])
    decreases j
  {
    if i < j {
      TotalDurPrefix(tokens, i, j - 1);
      assert tokens[..j][..j - 1] == tokens[..j - 1];
      if i == j - 1 {
        assert tokens[..j][j - 1] == tokens[i];
      }
    }
  }

  /** Every event is a trigger of BASE_DUR starting in `[lo, hi - BASE_DUR]`. */
  predicate Within(events: seq<Event>, lo: int, hi: int) {
    forall e :: e in events ==> e.Trigger? && e.dur == BASE_DUR && lo <= e.time && e.time + BASE_DUR <= hi
  }

  /** Triggers in order, each starting at least BASE_DUR after the one before. */
  predicate Spaced(events: seq<Event>) {
    forall i, j :: 0 <= i < j < |events| ==>
      events[i].Trigger? && events[j].Trigger? && events[i].time + BASE_DUR <= events[j].time
  }

  /**
   * Triggers fall inside the span the call reports, `[start, start +
   * TotalDur)`, and their times strictly increase, BASE_DUR apart at least.
   */
  lemma {:induction false} ScheduleTimes(tokens: seq<Token>, start: int)
    ensures Within(Schedule(tokens, start), start, start + TotalDur(tokens))
    ensures Spaced(Schedule(tokens, start))
  {
    if tokens != [] {
      var n := |tokens| - 1;
      var init := tokens[..n];
      ScheduleTimes(init, start);
      var s := Schedule(tokens, start);
      var si := Schedule(init, start);
      if !tokens[n].Rest? {
        var last := EventOf(tokens[n], start + TotalDur(init));
        assert s == si + [last];
        AppendSpaced(si, last, start + TotalDur(init));
      } else {
        assert s == si;
      }
    } else {
      assert Schedule(tokens, start) == [];
    }
  }

  lemma AppendSpaced(events: seq<Event>, last: Event, t: int)
    requires Spaced(events) && last.Trigger? && last.time == t
    requires forall e :: e in events ==> e.Trigger? && e.time + BASE_DUR <= t
    ensures Spaced(events + [last])
  {
    var s := events + [last];
    forall i, j | 0 <= i < j < |s|
      ensures s[i].Trigger? && s[j].Trigger? && s[i].time + BASE_DUR <= s[j].time
    {
      if j < |events| {
        assert s[i] == events[i] && s[j] == events[j];
      } else {
        assert s[i] == events[i] && events[i] in events;
      }
    }
  }

  /** The pitches of a token's trigger: one per letter, random exactly where the code asks for it. */
  lemma {:induction false} PitchesOfLetters(letters: seq<TokenLetter>, random: bool)
    ensures forall k :: 0 <= k < |letters| ==>
      PitchesOf(letters, random)[k] == if random || letters[k].ch == '?' then Random else Named(LetterToNote(letters[k].ch))
  {
    if letters != [] {
      PitchesOfLetters(letters[1..], random);
    }
  }

  /**
   * A letter token sounds its first letter's pitch, a chord one pitch per
   * letter in order; every named pitch is in NOTE_POOL, a random token
   * sounds random pitches only, and the event records the first letter's
   * style, so the tone its style selects is that colour's.
   */
  lemma EventPitches(tok: Token, t: int)
    requires !tok.Rest? && |tok.letters| >= 1
    ensures |EventOf(tok, t).notes| == if tok.Letter? then 1 else |tok.letters|
    ensures tok.Letter? ==> EventOf(tok, t).notes[0] == PitchOf(tok.letters[0], tok.random)
    ensures tok.Chord? ==> forall k :: 0 <= k < |tok.letters| ==> EventOf(tok, t).notes[k] == PitchOf(tok.letters[k], tok.random)
    ensures EventOf(tok, t).style == tok.letters[0].style
    ensures ToneOf(EventOf(tok, t)) == ColorToTone(tok.letters[0].style.color)
    ensures forall p :: p in EventOf(tok, t).notes && p.Named? ==> p.note in NOTE_POOL
    ensures tok.random ==> forall p :: p in EventOf(tok, t).notes ==> p == Random
  {
    PitchesOfLetters(tok.letters, tok.random);
    var notes := EventOf(tok, t).notes;
    forall p | p in notes && p.Named?
      ensures p.note in NOTE_POOL
    {
      var k :| 0 <= k < |notes| && notes[k] == p;
      LetterToNoteInPool(tok.letters[k].ch);
    }
  }
}
