/**
 * Live typing (script.js lines 536-585): a key pressed while the caret
 * sits inside an open `(` sounds at once. The selection and the text
 * before the caret are inputs here; the decision is a pure function.
 */
module Live {
  import opened JsText
  import opened Notes
  import opened Letters
  import opened Timeline

  /** `isInsideParens`: the last `(` before the caret comes after the last `)`. */
  predicate IsInsideParens(textBefore: string) {
    LastIndexOf(textBefore, '(') > LastIndexOf(textBefore, ')')
  }

  /** The caret is inside parentheses exactly when some `(` before it has no `)` after it. */
  lemma IsInsideParensMeansOpenParen(s: string)
    ensures IsInsideParens(s) <==>
      exists i :: 0 <= i < |s| && s[i] == '(' && forall j :: i < j < |s| ==> s[j] != ')'
  {
    var a := LastIndexOf(s, '(');
    var b := LastIndexOf(s, ')');
    if IsInsideParens(s) {
      assert 0 <= a < |s| && s[a] == '(';
      assert forall j :: a < j < |s| ==> s[j] != ')';
    }
    if exists i :: 0 <= i < |s| && s[i] == '(' && forall j :: i < j < |s| ==> s[j] != ')' {
      var i :| 0 <= i < |s| && s[i] == '(' && forall j :: i < j < |s| ==> s[j] != ')';
      assert i <= a;
      if b >= 0 {
        assert s[b] == ')';
        assert b < i;
      }
    }
  }

  /** The selection when the key goes down: the text before the caret and the style at the caret. */
  datatype Caret = Caret(textBefore: string, style: Style)

  /** What the keydown handler does; both actions carry the style handed to `applyStyleToSound` first. */
  datatype KeyAction =
    | Ignore
    | Silence(style: Style)
    | Play(pitch: Pitch, style: Style)

  /** `/^[a-zA-Z?]$/.test(k) || k === "/"`. */
  predicate IsLiveKey(key: string) {
    |key| == 1 && (IsLetter(key[0]) || key[0] == '?' || key[0] == '/')
  }

  /**
   * The keydown handler. `caret` is `None` when there is no selection or
   * no anchor node. Ignored unless the key is a letter, `?` or `/` and the
   * caret is inside parentheses. Then the style at the caret is handed
   * to `applyStyleToSound`, and `/` releases every note, `?` plays a
   * random note and a letter its `letterToNote`.
   */
  function Decide(key: string, caret: Option<Caret>): (r: KeyAction)
    ensures r != Ignore <==> IsLiveKey(key) && caret.Some? && IsInsideParens(caret.value.textBefore)
    ensures r.Silence? <==> r != Ignore && key == "/"
    ensures r != Ignore ==> r.style == caret.value.style
    ensures r.Play? && r.pitch == Random <==> r != Ignore && key == "?"
    ensures r.Play? && r.pitch.Named? ==> IsLetter(key[0]) && r.pitch.note == LetterToNote(key[0]) && r.pitch.note in NOTE_POOL
  {
    if !IsLiveKey(key) then Ignore
    else if caret.None? then Ignore
    else if !IsInsideParens(caret.value.textBefore) then Ignore
    else
      var style := caret.value.style;
      if key == "/" then Silence(style)
      else if key == "?" then Play(Random, style)
      else
        LetterToNoteInPool(key[0]);
        Play(Named(LetterToNote(key[0])), style)
  }

  /** Upper and lower case of a letter play the same note. */
  lemma DecideIgnoresCase(c: char, caret: Option<Caret>)
    requires 'A' <= c <= 'Z'
    ensures Decide([c], caret) == Decide([LowerAscii(c)], caret)
  {
    LetterToNoteIgnoresCase(c);
  }

  /** Nothing sounds or stops unless some `(` before the caret is still open. */
  lemma LiveNeedsOpenParen(key: string, caret: Caret)
    requires Decide(key, Some(caret)) != Ignore
    ensures exists i :: 0 <= i < |caret.textBefore| && caret.textBefore[i] == '(' &&
                        (forall j :: i < j < |caret.textBefore| ==> caret.textBefore[j] != ')')
  {
    IsInsideParensMeansOpenParen(caret.textBefore);
  }
}
