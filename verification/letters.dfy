/**
 * `buildLetterEntries` (script.js lines 286-328): flatten a paragraph's
 * text nodes, in document order, into one entry per character; every
 * `[a-zA-Z]` character gets the next consecutive letter index, every
 * other character gets `null`.
 *
 * The tree walk and `getComputedStyle` are abstracted: a paragraph is
 * given as its sequence of text runs, each with the style its parent
 * element resolves to.
 */
module Letters {
  import opened JsText

  /** The style object built per text node; the engine only passes it along. */
  datatype Style = Style(isBold: bool, isItalic: bool, isUnder: bool, color: string, fontSize: string)

  /** One text node of the walk and the resolved style of its parent element. */
  datatype Run = Run(text: string, style: Style)

  /** `{ char, style, letterIndex }` of one character. */
  datatype Entry = Entry(ch: char, style: Style, letterIndex: Option<nat>)

  /** The characters of all runs, in walk order. */
  function Text(runs: seq<Run>): string
  {
    if runs == [] then [] else Text(runs[..|runs| - 1]) + runs[|runs| - 1].text
  }

  /** The entry for the character at `offset` of a run whose text starts after `before` letters. */
  function EntryAt(run: Run, offset: nat, before: nat): Entry
    requires offset < |run.text|
  {
    var ch := run.text[offset];
    Entry(ch, run.style, if IsLetter(ch) then Some(before + CountLetters(run.text[..offset])) else None)
  }

  /** The entries of the first `i` characters of one run. */
  function RunEntries(run: Run, before: nat, i: nat): seq<Entry>
    requires i <= |run.text|
  {
    if i == 0 then [] else RunEntries(run, before, i - 1) + [EntryAt(run, i - 1, before)]
  }

  /** What `buildLetterEntries` returns for the runs. */
  function Entries(runs: seq<Run>): seq<Entry>
  {
    if runs == [] then []
    else
      var init := runs[..|runs| - 1];
      var last := runs[|runs| - 1];
      Entries(init) + RunEntries(last, CountLetters(Text(init)), |last.text|)
  }

  /** The runs so far followed by one more: its entries start after the letters before it. */
  lemma EntriesSnoc(runs: seq<Run>, r: nat)
    requires r < |runs|
    ensures Text(runs[..r + 1]) == Text(runs[..r]) + runs[r].text
    ensures Entries(runs[..r + 1])
         == Entries(runs[..r]) + RunEntries(runs[r], CountLetters(Text(runs[..r])), |runs[r].text|)
  {
    assert runs[..r + 1][..r] == runs[..r];
  }

  /** The inner loop of `buildLetterEntries`: one entry per character of a text node. */
  method PushRun(letters: seq<Entry>, run: Run, globalIdx: nat) returns (out: seq<Entry>, idx: nat)
    ensures out == letters + RunEntries(run, globalIdx, |run.text|)
    ensures idx == globalIdx + CountLetters(run.text)
  {
    var text := run.text;
    out, idx := letters, globalIdx;
    var i := 0;
    while i < |text|
      invariant i <= |text|
      invariant out == letters + RunEntries(run, globalIdx, i)
      invariant idx == globalIdx + CountLetters(text[..i])
    {
      var ch := text[i];
      assert text[..i + 1][..i] == text[..i];
      if IsLetter(ch) {
        out := out + [Entry(ch, run.style, Some(idx))];
        idx := idx + 1;
      } else {
        out := out + [Entry(ch, run.style, None)];
      }
      i := i + 1;
    }
    assert text[..i] == text;
  }

  /** `buildLetterEntries`, with its `globalIdx` counter and its pushes. */
  method BuildLetterEntries(runs: seq<Run>) returns (letters: seq<Entry>)
    ensures letters == Entries(runs)
  {
    letters := [];
    var globalIdx := 0;
    var r := 0;
    while r < |runs|
      invariant r <= |runs|
      invariant letters == Entries(runs[..r])
      invariant globalIdx == CountLetters(Text(runs[..r]))
    {
      EntriesSnoc(runs, r);
      CountLettersAppend(Text(runs[..r]), runs[r].text);
      letters, globalIdx := PushRun(letters, runs[r], globalIdx);
      r := r + 1;
    }
    assert runs[..r] == runs;
  }

  lemma {:induction false} RunEntriesIndexed(run: Run, before: nat, i: nat)
    requires i <= |run.text|
    ensures |RunEntries(run, before, i)| == i
    ensures forall k :: 0 <= k < i ==> RunEntries(run, before, i)[k] == EntryAt(run, k, before)
  {
    if i > 0 {
      RunEntriesIndexed(run, before, i - 1);
    }
  }

  /** Entry `e` is the one for position `k` of the paragraph text `t`. */
  predicate IndexedAt(e: Entry, t: string, k: nat)
    requires k < |t|
  {
    && e.ch == t[k]
    && e.letterIndex == (if IsLetter(t[k]) then Some(CountLetters(t[..k])) else None)
  }

  lemma LastRunIndexed(init: seq<Run>, last: Run, k: nat)
    requires |Text(init)| <= k < |Text(init)| + |last.text|
    ensures IndexedAt(EntryAt(last, k - |Text(init)|, CountLetters(Text(init))), Text(init) + last.text, k)
  {
    var t := Text(init) + last.text;
    var o := k - |Text(init)|;
    assert t[..k] == Text(init) + last.text[..o];
    CountLettersAppend(Text(init), last.text[..o]);
  }

  /**
   * Entry `k` carries the `k`-th character of the paragraph and, when that
   * character is a letter, the number of letters before it: letter indices
   * are consecutive from 0 and the other characters get `null`.
   */
  lemma {:induction false} EntriesIndexed(runs: seq<Run>)
    ensures |Entries(runs)| == |Text(runs)|
    ensures forall k :: 0 <= k < |Text(runs)| ==> IndexedAt(Entries(runs)[k], Text(runs), k)
  {
    if runs != [] {
      var init := runs[..|runs| - 1];
      var last := runs[|runs| - 1];
      var before := CountLetters(Text(init));
      EntriesIndexed(init);
      RunEntriesIndexed(last, before, |last.text|);
      var t := Text(runs);
      assert t == Text(init) + last.text;
      var e := Entries(runs);
      assert e == Entries(init) + RunEntries(last, before, |last.text|);
      forall k | 0 <= k < |t|
        ensures IndexedAt(e[k], t, k)
      {
        if k < |Text(init)| {
          assert t[..k] == Text(init)[..k];
          assert IndexedAt(Entries(init)[k], Text(init), k);
        } else {
          LastRunIndexed(init, last, k);
        }
      }
    }
  }

  /**
   * The character at offset `o` of run `r` has its entry at its position in
   * the paragraph text, and that entry carries the run's character and style.
   */
  lemma {:induction false} EntriesStyled(runs: seq<Run>, r: nat, o: nat)
    requires r < |runs| && o < |runs[r].text|
    ensures |Text(runs[..r])| + o < |Entries(runs)|
    ensures Entries(runs)[|Text(runs[..r])| + o].ch == runs[r].text[o]
    ensures Entries(runs)[|Text(runs[..r])| + o].style == runs[r].style
    decreases |runs|
  {
    var init := runs[..|runs| - 1];
    var last := runs[|runs| - 1];
    var before := CountLetters(Text(init));
    EntriesIndexed(init);
    RunEntriesIndexed(last, before, |last.text|);
    assert Entries(runs) == Entries(init) + RunEntries(last, before, |last.text|);
    if r == |runs| - 1 {
      assert runs[..r] == init;
    } else {
      assert runs[..r] == init[..r] && runs[r] == init[r];
      EntriesStyled(init, r, o);
      EntriesIndexed(init);
    }
  }

  /** Letter entries have indices, and they strictly increase along the paragraph. */
  predicate WellIndexed(entries: seq<Entry>) {
    && (forall k :: 0 <= k < |entries| && IsLetter(entries[k].ch) ==> entries[k].letterIndex.Some?)
    && (forall i, j :: 0 <= i < j < |entries| && IsLetter(entries[i].ch) && IsLetter(entries[j].ch) ==>
          entries[i].letterIndex.value < entries[j].letterIndex.value)
  }

  lemma EntriesWellIndexed(runs: seq<Run>)
    ensures WellIndexed(Entries(runs))
  {
    EntriesIndexed(runs);
    var e, t := Entries(runs), Text(runs);
    forall k | 0 <= k < |e| && IsLetter(e[k].ch)
      ensures e[k].letterIndex.Some?
    {
      assert IndexedAt(e[k], t, k);
    }
    forall i, j | 0 <= i < j < |e| && IsLetter(e[i].ch) && IsLetter(e[j].ch)
      ensures e[i].letterIndex.value < e[j].letterIndex.value
    {
      assert IndexedAt(e[i], t, i) && IndexedAt(e[j], t, j);
      CountLettersPrefix(t, i, j);
    }
  }
}
