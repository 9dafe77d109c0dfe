/**
 * Note and timbre lookup (script.js lines 37-87): the 21-note pool, the
 * letter-to-note table and the colour classification that picks an
 * oscillator and an extra-drive flag.
 */
module Notes {
  import opened JsText

  const NOTE_POOL: seq<string> := [
    "C3", "D3", "E3", "F3", "G3", "A3", "B3",
    "C4", "D4", "E4", "F4", "G4", "A4", "B4",
    "C5", "D5", "E5", "F5", "G5", "A5", "B5"
  ]

  /** JavaScript's `%`: the remainder truncates toward zero, so it takes the sign of `a`. */
  function JsRem(a: int, b: int): (r: int)
    requires b > 0
    ensures (a - r) % b == 0
    ensures a >= 0 ==> 0 <= r < b && r == a % b
    ensures a < 0 ==> -b < r <= 0
  {
    RemDiffers(a, b);
    if a >= 0 then a % b else -((-a) % b)
  }

  /** A multiple of `b` leaves no remainder. */
  lemma RemOfMultiple(k: int, b: int)
    requires b > 0
    ensures (k * b) % b == 0
  {
    var q := (k * b) / b;
    var r := (k * b) % b;
    assert k * b == b * q + r;
    var d := k - q;
    assert r == b * d;
    assert d >= 1 ==> b * d >= b;
    assert d <= -1 ==> b * d <= -b;
  }

  /** Both branches of `JsRem` differ from `a` by a multiple of `b`. */
  lemma RemDiffers(a: int, b: int)
    requires b > 0
    ensures (a - a % b) % b == 0
    ensures (a + (-a) % b) % b == 0
  {
    assert a == b * (a / b) + a % b;
    assert a - a % b == (a / b) * b;
    RemOfMultiple(a / b, b);
    var q := (-a) / b;
    assert -a == b * q + (-a) % b;
    assert a + (-a) % b == (-q) * b;
    RemOfMultiple(-q, b);
  }

  /**
   * Index into NOTE_POOL chosen by `letterToNote`: the lower-cased code
   * unit minus 97, taken modulo 21 with JavaScript's `%`, then clamped
   * to 0..20.
   */
  function NoteIndex(c: char): nat
  {
    var idx := JsRem(LowerAscii(c) as int - 97, |NOTE_POOL|);
    var clamped := if idx > |NOTE_POOL| - 1 then |NOTE_POOL| - 1 else idx;
    if clamped < 0 then 0 else clamped
  }

  /**
   * `a`..`u` pick the notes in order, `v`..`z` wrap round to the start,
   * and every code unit below `a` once lower-cased clamps to the first.
   */
  lemma NoteIndexBounds(c: char)
    ensures NoteIndex(c) < |NOTE_POOL|
    ensures 'a' <= c <= 'u' ==> NoteIndex(c) == c as int - 'a' as int
    ensures 'v' <= c <= 'z' ==> NoteIndex(c) == c as int - 'v' as int
    ensures LowerAscii(c) < 'a' ==> NoteIndex(c) == 0
  {
  }

  /** `letterToNote`. */
  function LetterToNote(c: char): string
  {
    NoteIndexBounds(c);
    NOTE_POOL[NoteIndex(c)]
  }

  /** `letterToNote` always names a note of the pool. */
  lemma LetterToNoteInPool(c: char)
    ensures LetterToNote(c) in NOTE_POOL
  {
    NoteIndexBounds(c);
  }

  /** Upper- and lower-case forms of a letter give the same note. */
  lemma LetterToNoteIgnoresCase(c: char)
    requires 'A' <= c <= 'Z'
    ensures LetterToNote(c) == LetterToNote(LowerAscii(c))
    ensures NoteIndex(c) == c as int - 'A' as int || NoteIndex(c) == c as int - 'V' as int
  {
    var l := LowerAscii(c);
    assert LowerAscii(l) == l;
    assert NoteIndex(c) == NoteIndex(l);
    NoteIndexBounds(l);
  }

  /** Every code unit below 'a' once lower-cased clamps to the first note. */
  lemma LowCodesClampToFirstNote(c: char)
    requires LowerAscii(c) as int < 97
    ensures LetterToNote(c) == "C3"
  {
    NoteIndexBounds(c);
  }

  datatype Oscillator = Sine | Square | Triangle

  /** What `colorToTone` hands to the synthesiser: a waveform and whether to add drive. */
  datatype Tone = Tone(osc: Oscillator, extraDrive: bool)

  /**
   * `.replace(/\s/g, "")`: a whitespace character is dropped, any other is
   * kept; with `RemoveSpacesAppend` this fixes the result of every string.
   */
  function RemoveSpaces(s: string): (r: string)
    ensures |r| <= |s|
    ensures forall k :: 0 <= k < |r| ==> !IsSpace(r[k])
    ensures |s| == 1 ==> r == (if IsSpace(s[0]) then [] else s)
  {
    if s == [] then []
    else if IsSpace(s[0]) then RemoveSpaces(s[1..])
    else [s[0]] + RemoveSpaces(s[1..])
  }

  /** The replacement works character by character, so it distributes over concatenation. */
  lemma {:induction false} RemoveSpacesAppend(a: string, b: string)
    ensures RemoveSpaces(a + b) == RemoveSpaces(a) + RemoveSpaces(b)
  {
    if a == [] {
      assert a + b == b;
    } else {
      assert (a + b)[0] == a[0];
      assert (a + b)[1..] == a[1..] + b;
      RemoveSpacesAppend(a[1..], b);
    }
  }

  /** The colour string as `colorToTone` inspects it: lower-cased, every `\s` removed. */
  function NormalizeColor(css: string): string
  {
    RemoveSpaces(Lower(css))
  }

  predicate IsBlue(c: string) { Contains(c, "0,0,255") || Contains(c, "blue") }
  predicate IsGreen(c: string) { Contains(c, "0,128,0") || Contains(c, "green") }
  predicate IsRed(c: string) { Contains(c, "255,0,0") || Contains(c, "red") }

  /**
   * `colorToTone`: blue wins over green, green over red; only the red
   * bucket adds drive; anything else is a plain triangle.
   */
  function ColorToTone(css: string): (r: Tone)
    ensures r.extraDrive ==> r.osc == Triangle
    ensures r.osc == Sine <==> IsBlue(NormalizeColor(css))
    ensures r.osc == Square <==> !IsBlue(NormalizeColor(css)) && IsGreen(NormalizeColor(css))
    ensures r.extraDrive <==>
      !IsBlue(NormalizeColor(css)) && !IsGreen(NormalizeColor(css)) && IsRed(NormalizeColor(css))
  {
    var c := NormalizeColor(css);
    if IsBlue(c) then Tone(Sine, false)
    else if IsGreen(c) then Tone(Square, false)
    else if IsRed(c) then Tone(Triangle, true)
    else Tone(Triangle, false)
  }

  lemma {:induction false} LowerIdempotent(s: string)
    ensures Lower(Lower(s)) == Lower(s)
  {
    if s != [] {
      LowerIdempotent(s[1..]);
    }
  }

  lemma {:induction false} RemoveSpacesOfSpaceFree(s: string)
    requires forall k :: 0 <= k < |s| ==> !IsSpace(s[k])
    ensures RemoveSpaces(s) == s
  {
    if s != [] {
      RemoveSpacesOfSpaceFree(s[1..]);
    }
  }

  lemma {:induction false} LowerRemoveSpaces(s: string)
    ensures Lower(RemoveSpaces(s)) == RemoveSpaces(Lower(s))
  {
    if s != [] {
      LowerRemoveSpaces(s[1..]);
      assert Lower(s)[1..] == Lower(s[1..]);
      if IsSpace(s[0]) {
        assert Lower(s)[0] == s[0];
      } else {
        assert !IsSpace(LowerAscii(s[0]));
        assert Lower([s[0]] + RemoveSpaces(s[1..])) == [LowerAscii(s[0])] + Lower(RemoveSpaces(s[1..]));
      }
    }
  }

  /** Normalising twice is normalising once. */
  lemma NormalizeIdempotent(css: string)
    ensures NormalizeColor(NormalizeColor(css)) == NormalizeColor(css)
  {
    var n := NormalizeColor(css);
    LowerRemoveSpaces(Lower(css));
    LowerIdempotent(css);
    RemoveSpacesOfSpaceFree(n);
  }

  /**
   * The classification sees only the normalised colour: changing letter
   * case or adding whitespace anywhere never changes the tone.
   */
  lemma ColorToToneIgnoresCaseAndSpacing(css: string)
    ensures ColorToTone(NormalizeColor(css)) == ColorToTone(css)
  {
    NormalizeIdempotent(css);
  }
}
