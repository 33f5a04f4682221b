/** A text buffer that records, out of band, the byte offsets at which the
    terminal foreground colour changes, and renders the text with ANSI
    "Select Graphic Rendition" escapes spliced in at those offsets.
    Text is modelled as a sequence of ASCII characters, so byte offsets and
    character offsets coincide. */
module ColoredStrings {

  datatype Option<T> = None | Some(value: T)

  /** The eight non-bright terminal foreground colours and their fixed codes. */
  datatype Color = BLACK | RED | GREEN | YELLOW | BLUE | MAGENTA | CYAN | WHITE
  {
    /** The integer value of the colour, the SGR palette index 30 + code selects. */
    function Code(): (c: nat)
      ensures c < 8
    {
      match this
      case BLACK => 0
      case RED => 1
      case GREEN => 2
      case YELLOW => 3
      case BLUE => 4
      case MAGENTA => 5
      case CYAN => 6
      case WHITE => 7
    }
  }

  /** The colour whose code is `n`: the inverse of `Color.Code`. */
  function ColorOfCode(n: nat): (c: Color)
    requires n < 8
    ensures c.Code() == n
  {
    if n == 0 then BLACK
    else if n == 1 then RED
    else if n == 2 then GREEN
    else if n == 3 then YELLOW
    else if n == 4 then BLUE
    else if n == 5 then MAGENTA
    else if n == 6 then CYAN
    else WHITE
  }

  /** The offset in the plain text at which foreground colour `fg` starts. */
  datatype ColorMarker = ColorMarker(index: nat, fg: Color)

  /** The escape character, 0x1B. */
  const Esc: char := '\U{1B}'

  /** Prefix of a non-bright foreground SGR escape: ESC '[' '3'. */
  const EscapeStart: string := [Esc, '[', '3']
  /** Terminator of an SGR escape. */
  const EscapeEnd: string := "m"
  /** Length of every escape: prefix, one colour digit, terminator. */
  const EscapeLen: nat := |EscapeStart| + 1 + |EscapeEnd|

  function DigitChar(d: nat): (c: char)
    requires d < 10
    ensures '0' <= c <= '9' && c as int - '0' as int == d
  {
    ('0' as int + d) as char
  }

  /** The decimal representation of `n`, as integer `to_string` writes it. */
  function DecimalString(n: nat): (r: string)
    ensures r != []
    ensures forall i :: 0 <= i < |r| ==> '0' <= r[i] <= '9'
    decreases n
  {
    if n < 10 then [DigitChar(n)] else DecimalString(n / 10) + [DigitChar(n % 10)]
  }

  /** A number is written with a single digit exactly when it is below ten. */
  lemma DecimalStringIsOneDigit(n: nat)
    ensures |DecimalString(n)| == 1 <==> n < 10
    ensures n < 10 ==> DecimalString(n)[0] as int - '0' as int == n
  {
    if n >= 10 {
      assert |DecimalString(n / 10)| >= 1;
    }
  }

  /** The escape that switches the foreground to `fg`. */
  function Escape(fg: Color): (r: string)
    ensures |r| == |EscapeStart| + 1 + |EscapeEnd| == EscapeLen
    ensures r[..|EscapeStart|] == EscapeStart && r[|EscapeStart| + 1..] == EscapeEnd
  {
    DecimalStringIsOneDigit(fg.Code());
    EscapeStart + DecimalString(fg.Code()) + EscapeEnd
  }

  /** How a terminal reads an escape of this shape back as a colour. */
  function ParseEscape(s: string): (c: Option<Color>)
    ensures c.Some? ==> |s| == EscapeLen && s[..|EscapeStart|] == EscapeStart
  {
    if |s| == EscapeLen && s[..|EscapeStart|] == EscapeStart
       && s[|EscapeStart| + 1..] == EscapeEnd
       && '0' <= s[|EscapeStart|] <= '7'
    then Some(ColorOfCode(s[|EscapeStart|] as int - '0' as int))
    else None
  }

  /** Reading an escape back gives the colour it was built from. */
  lemma EscapeRoundTrip(fg: Color)
    ensures ParseEscape(Escape(fg)) == Some(fg)
  {
    DecimalStringIsOneDigit(fg.Code());
  }

  /** Distinct colours give distinct escapes. */
  lemma {:induction false} EscapeInjective(a: Color, b: Color)
    ensures Escape(a) == Escape(b) <==> a == b
  {
    if Escape(a) == Escape(b) {
      EscapeRoundTrip(a);
      EscapeRoundTrip(b);
      assert Some(a) == ParseEscape(Escape(a)) == ParseEscape(Escape(b)) == Some(b);
    }
  }

  /** ECMA-48 "Select Graphic Rendition" setting the non-bright foreground to
      palette entry `n`: CSI (ESC '['), parameter 3n, final byte 'm'. */
  predicate IsSgrForeground(s: string, n: nat)
  {
    n < 8 && s == [Esc, '[', '3', DigitChar(n), 'm']
  }

  /** The escape used by the model is the SGR sequence for the colour's code. */
  lemma EscapeIsSgrForeground(fg: Color)
    ensures IsSgrForeground(Escape(fg), fg.Code())
  {
    DecimalStringIsOneDigit(fg.Code());
  }

  /** The prefix as the source's string literal spells it: `\x00` takes two
      hex digits, so the literal is U+0000 followed by the four characters
      "33[3". */
  const WrittenEscapeStart: string := ['\0', '3', '3', '[', '3']

  /** The escape length the source's constants evaluate to. */
  const WrittenEscapeLen: nat := |WrittenEscapeStart| + 1 + |EscapeEnd|

  /** The corrected escape is five characters; the one as written is seven. */
  lemma EscapeLengths()
    ensures EscapeLen == 5 && WrittenEscapeLen == 7
  {
  }

  /** The escape built from the prefix as written. */
  function WrittenEscape(fg: Color): (r: string)
    ensures |r| == WrittenEscapeLen
    ensures r[..|WrittenEscapeStart|] == WrittenEscapeStart
  {
    DecimalStringIsOneDigit(fg.Code());
    WrittenEscapeStart + DecimalString(fg.Code()) + EscapeEnd
  }

  /** The escape as written is no SGR sequence: it starts with NUL, not ESC,
      and is seven characters long, so a terminal prints "33[3<digit>m". */
  lemma WrittenEscapeIsNotSgr(fg: Color, n: nat)
    ensures WrittenEscape(fg)[0] == '\0'
    ensures !IsSgrForeground(WrittenEscape(fg), n)
  {
    assert WrittenEscape(fg)[0] == WrittenEscape(fg)[..|WrittenEscapeStart|][0] == '\0';
  }

  /** The buffer invariant, stated along the list: each offset lies between
      the one before it (`lo` for the first) and the text length `hi`. */
  ghost predicate MarkersWithin(ms: seq<ColorMarker>, lo: nat, hi: nat)
    decreases |ms|
  {
    ms == [] || (lo <= ms[0].index <= hi && MarkersWithin(ms[1..], ms[0].index, hi))
  }

  /** The invariant says exactly that every offset lies in [lo, hi] and that
      offsets never decrease in list order. */
  lemma {:induction false} MarkersWithinIsOrdered(ms: seq<ColorMarker>, lo: nat, hi: nat)
    ensures MarkersWithin(ms, lo, hi)
            <==> && (forall i :: 0 <= i < |ms| ==> lo <= ms[i].index <= hi)
                 && (forall i, j :: 0 <= i < j < |ms| ==> ms[i].index <= ms[j].index)
    decreases |ms|
  {
    if ms != [] {
      var m, tail := ms[0], ms[1..];
      MarkersWithinIsOrdered(tail, m.index, hi);
      if MarkersWithin(ms, lo, hi) {
        forall i | 0 <= i < |ms| ensures lo <= ms[i].index <= hi {
          if i > 0 { assert ms[i] == tail[i - 1]; }
        }
        forall i, j | 0 <= i < j < |ms| ensures ms[i].index <= ms[j].index {
          assert ms[j] == tail[j - 1];
          if i > 0 { assert ms[i] == tail[i - 1]; }
        }
      }
      if && (forall i :: 0 <= i < |ms| ==> lo <= ms[i].index <= hi)
         && (forall i, j :: 0 <= i < j < |ms| ==> ms[i].index <= ms[j].index)
      {
        forall i | 0 <= i < |tail| ensures m.index <= tail[i].index <= hi {
          assert tail[i] == ms[i + 1];
        }
        forall i, j | 0 <= i < j < |tail| ensures tail[i].index <= tail[j].index {
          assert tail[i] == ms[i + 1] && tail[j] == ms[j + 1];
        }
      }
    }
  }

  /** Total length of `n` escapes. */
  function EscapesLen(n: nat): nat
  {
    if n == 0 then 0 else EscapesLen(n - 1) + EscapeLen
  }

  lemma {:induction false} EscapesLenIsProduct(n: nat)
    ensures EscapesLen(n) == n * EscapeLen
  {
    if n > 0 {
      EscapesLenIsProduct(n - 1);
    }
  }

  /** The rendering of `raw[start..]` with the escapes of `ms` spliced in. */
  ghost function RenderFrom(raw: string, ms: seq<ColorMarker>, start: nat): (r: string)
    requires start <= |raw| && MarkersWithin(ms, start, |raw|)
    ensures |r| == |raw| - start + EscapesLen(|ms|)
    decreases |ms|
  {
    if ms == [] then raw[start..]
    else raw[start..ms[0].index] + Escape(ms[0].fg) + RenderFrom(raw, ms[1..], ms[0].index)
  }

  /** The whole rendered text of a buffer with contents `raw` and markers `ms`. */
  ghost function Render(raw: string, ms: seq<ColorMarker>): (r: string)
    requires MarkersWithin(ms, 0, |raw|)
    ensures |r| == |raw| + EscapesLen(|ms|)
  {
    RenderFrom(raw, ms, 0)
  }

  /** Number of markers whose offset is at most `k`: the escapes emitted
      before the character at offset `k`. */
  function CountUpTo(ms: seq<ColorMarker>, k: nat): (n: nat)
    ensures n <= |ms|
  {
    if ms == [] then 0
    else (if ms[0].index <= k then 1 else 0) + CountUpTo(ms[1..], k)
  }

  lemma {:induction false} CountUpToNone(ms: seq<ColorMarker>, k: nat, lo: nat, hi: nat)
    requires MarkersWithin(ms, lo, hi) && k < lo
    ensures CountUpTo(ms, k) == 0
    decreases |ms|
  {
    if ms != [] {
      CountUpToNone(ms[1..], k, ms[0].index, hi);
    }
  }

  /** With no markers the rendered text is the plain text verbatim. */
  lemma RenderNoMarkers(raw: string)
    ensures MarkersWithin([], 0, |raw|) && Render(raw, []) == raw
  {
  }

  /** Each character of the plain text appears in the rendering, shifted by
      the escapes of the markers at or before its offset. */
  lemma {:induction false} RenderTextAt(raw: string, ms: seq<ColorMarker>, start: nat, k: nat)
    requires start <= k < |raw| && MarkersWithin(ms, start, |raw|)
    ensures k - start + EscapesLen(CountUpTo(ms, k)) < |RenderFrom(raw, ms, start)|
    ensures RenderFrom(raw, ms, start)[k - start + EscapesLen(CountUpTo(ms, k))] == raw[k]
    decreases |ms|
  {
    if ms == [] {
    } else {
      var m := ms[0];
      var head := raw[start..m.index] + Escape(m.fg);
      assert RenderFrom(raw, ms, start) == head + RenderFrom(raw, ms[1..], m.index);
      if k < m.index {
        CountUpToNone(ms, k, m.index, |raw|);
      } else {
        RenderTextAt(raw, ms[1..], m.index, k);
        assert CountUpTo(ms, k) == 1 + CountUpTo(ms[1..], k);
        assert k - start + EscapesLen(CountUpTo(ms, k))
            == |head| + (k - m.index + EscapesLen(CountUpTo(ms[1..], k)));
      }
    }
  }

  lemma SliceAfterPrefix<T>(a: seq<T>, b: seq<T>, lo: nat, hi: nat)
    requires lo <= hi <= |b|
    ensures (a + b)[|a| + lo .. |a| + hi] == b[lo..hi]
  {
  }

  lemma AppendAssoc<T>(a: seq<T>, b: seq<T>, c: seq<T>)
    ensures a + (b + c) == (a + b) + c
  {
  }

  lemma SliceMiddle<T>(a: seq<T>, b: seq<T>, c: seq<T>)
    ensures (a + b + c)[|a| .. |a| + |b|] == b
  {
  }

  lemma SliceSplit<T>(s: seq<T>, lo: nat, mid: nat, hi: nat)
    requires lo <= mid <= hi <= |s|
    ensures s[lo..hi] == s[lo..mid] + s[mid..hi]
  {
  }

  /** The escape of `fg` occupies `r[p..p + EscapeLen]`. */
  predicate EscapeAt(r: string, p: nat, fg: Color) {
    p + EscapeLen <= |r| && r[p..p + EscapeLen] == Escape(fg)
  }

  lemma EscapeAtMiddle(r: string, text: string, fg: Color, rest: string, p: nat)
    requires r == text + Escape(fg) + rest && p == |text|
    ensures EscapeAt(r, p, fg)
  {
    SliceMiddle(text, Escape(fg), rest);
  }

  lemma EscapeAtShift(r: string, head: string, rest: string, lo: nat, p: nat, fg: Color)
    requires r == head + rest && p == |head| + lo && EscapeAt(rest, lo, fg)
    ensures EscapeAt(r, p, fg)
  {
    SliceAfterPrefix(head, rest, lo, lo + EscapeLen);
  }

  /** The escape of marker `i` appears in the rendering right after the text
      before its offset and the escapes of the `i` markers before it. */
  lemma {:induction false} RenderEscapeAt(raw: string, ms: seq<ColorMarker>, start: nat, i: nat)
    requires start <= |raw| && MarkersWithin(ms, start, |raw|) && i < |ms|
    ensures start <= ms[i].index <= |raw|
    ensures EscapeAt(RenderFrom(raw, ms, start), ms[i].index - start + EscapesLen(i), ms[i].fg)
    decreases |ms|
  {
    var m := ms[0];
    var text := raw[start..m.index];
    var rest := RenderFrom(raw, ms[1..], m.index);
    var r := RenderFrom(raw, ms, start);
    assert r == text + Escape(m.fg) + rest;
    if i == 0 {
      EscapeAtMiddle(r, text, m.fg, rest, ms[i].index - start + EscapesLen(i));
    } else {
      RenderEscapeAt(raw, ms[1..], m.index, i - 1);
      assert ms[1..][i - 1] == ms[i];
      var lo := ms[i].index - m.index + EscapesLen(i - 1);
      assert EscapesLen(i) == EscapesLen(i - 1) + EscapeLen;
      EscapeAtShift(r, text + Escape(m.fg), rest, lo, ms[i].index - start + EscapesLen(i), ms[i].fg);
    }
  }

  /** Two markers recorded at the same offset give back-to-back escapes with
      no text between them. */
  lemma SameOffsetBackToBack(raw: string, ms: seq<ColorMarker>, i: nat)
    requires MarkersWithin(ms, 0, |raw|) && i + 1 < |ms| && ms[i].index == ms[i + 1].index
    ensures ms[i].index + EscapesLen(i) + EscapeLen + EscapeLen <= |Render(raw, ms)|
    ensures Render(raw, ms)[ms[i].index + EscapesLen(i) .. ms[i].index + EscapesLen(i) + EscapeLen + EscapeLen]
            == Escape(ms[i].fg) + Escape(ms[i + 1].fg)
  {
    var r := RenderFrom(raw, ms, 0);
    var p := ms[i].index + EscapesLen(i);
    RenderEscapeAt(raw, ms, 0, i);
    RenderEscapeAt(raw, ms, 0, i + 1);
    assert EscapesLen(i + 1) == EscapesLen(i) + EscapeLen;
    SliceSplit(r, p, p + EscapeLen, p + EscapeLen + EscapeLen);
  }

  /** Growing the text keeps the invariant: `push` and `push_str` preserve it. */
  lemma {:induction false} MarkersWithinGrow(ms: seq<ColorMarker>, lo: nat, hi: nat, hi': nat)
    requires MarkersWithin(ms, lo, hi) && hi <= hi'
    ensures MarkersWithin(ms, lo, hi')
    decreases |ms|
  {
    if ms != [] {
      MarkersWithinGrow(ms[1..], ms[0].index, hi, hi');
    }
  }

  /** A marker at the current end of the text keeps the invariant:
      `set_fg_color` preserves it. */
  lemma {:induction false} MarkersWithinAppend(ms: seq<ColorMarker>, lo: nat, hi: nat, fg: Color)
    requires lo <= hi && MarkersWithin(ms, lo, hi)
    ensures MarkersWithin(ms + [ColorMarker(hi, fg)], lo, hi)
    decreases |ms|
  {
    var ms' := ms + [ColorMarker(hi, fg)];
    if ms == [] {
      assert ms'[1..] == [];
    } else {
      assert ms'[0] == ms[0] && ms'[1..] == ms[1..] + [ColorMarker(hi, fg)];
      MarkersWithinAppend(ms[1..], ms[0].index, hi, fg);
    }
  }

  /** Appending text after every marker extends the rendering by that text. */
  lemma {:induction false} RenderAppendText(raw: string, t: string, ms: seq<ColorMarker>, start: nat)
    requires start <= |raw| && MarkersWithin(ms, start, |raw|)
    ensures MarkersWithin(ms, start, |raw + t|)
    ensures RenderFrom(raw + t, ms, start) == RenderFrom(raw, ms, start) + t
    decreases |ms|
  {
    MarkersWithinGrow(ms, start, |raw|, |raw + t|);
    if ms == [] {
      assert (raw + t)[start..] == raw[start..] + t;
    } else {
      var m := ms[0];
      RenderAppendText(raw, t, ms[1..], m.index);
      assert (raw + t)[start..m.index] == raw[start..m.index];
    }
  }

  /** Recording a marker at the end of the text extends the rendering by
      that marker's escape. */
  lemma {:induction false} RenderAppendMarker(raw: string, ms: seq<ColorMarker>, fg: Color, start: nat)
    requires start <= |raw| && MarkersWithin(ms, start, |raw|)
    ensures MarkersWithin(ms + [ColorMarker(|raw|, fg)], start, |raw|)
    ensures RenderFrom(raw, ms + [ColorMarker(|raw|, fg)], start)
            == RenderFrom(raw, ms, start) + Escape(fg)
    decreases |ms|
  {
    var ms' := ms + [ColorMarker(|raw|, fg)];
    MarkersWithinAppend(ms, start, |raw|, fg);
    if ms == [] {
      assert ms'[1..] == [];
      assert RenderFrom(raw, ms', start) == raw[start..] + Escape(fg) + raw[|raw|..];
      assert raw[|raw|..] == [];
    } else {
      var m := ms[0];
      var head := raw[start..m.index] + Escape(m.fg);
      assert ms'[0] == m && ms'[1..] == ms[1..] + [ColorMarker(|raw|, fg)];
      RenderAppendMarker(raw, ms[1..], fg, m.index);
      assert RenderFrom(raw, ms', start) == head + (RenderFrom(raw, ms[1..], m.index) + Escape(fg));
      AppendAssoc(head, RenderFrom(raw, ms[1..], m.index), Escape(fg));
    }
  }

  /** Text `a`, a colour change to `fg`, then text `b`: the rendering grows
      by `a`, the escape and `b`, in that order. */
  lemma RenderTextColorText(raw: string, ms: seq<ColorMarker>, a: string, fg: Color, b: string)
    requires MarkersWithin(ms, 0, |raw|)
    ensures MarkersWithin(ms + [ColorMarker(|raw| + |a|, fg)], 0, |raw + a + b|)
    ensures Render(raw + a + b, ms + [ColorMarker(|raw| + |a|, fg)])
            == Render(raw, ms) + a + Escape(fg) + b
  {
    var mid := raw + a;
    RenderAppendText(raw, a, ms, 0);
    RenderAppendMarker(mid, ms, fg, 0);
    RenderAppendText(mid, b, ms + [ColorMarker(|mid|, fg)], 0);
  }

  /** The output buffer of one status line. */
  class ColoredString {
    var raw: string
    var markers: seq<ColorMarker>

    ghost predicate Valid()
      reads this
    {
      MarkersWithin(markers, 0, |raw|)
    }

    constructor ()
      ensures Valid() && raw == [] && markers == []
    {
      raw := [];
      markers := [];
    }

    /** Capacity is only a reservation hint: the new buffer is the same as
        an empty one. */
    constructor WithCapacity(capacity: nat)
      ensures Valid() && raw == [] && markers == []
    {
      raw := [];
      markers := [];
    }

    method SetFgColor(fg: Color)
      requires Valid()
      modifies this
      ensures Valid()
      ensures raw == old(raw)
      ensures markers == old(markers) + [ColorMarker(|old(raw)|, fg)]
    {
      MarkersWithinAppend(markers, 0, |raw|, fg);
      markers := markers + [ColorMarker(|raw|, fg)];
    }

    method Push(ch: char)
      requires Valid()
      modifies this
      ensures Valid()
      ensures raw == old(raw) + [ch]
      ensures markers == old(markers)
    {
      MarkersWithinGrow(markers, 0, |raw|, |raw| + 1);
      raw := raw + [ch];
    }

    method PushStr(s: string)
      requires Valid()
      modifies this
      ensures Valid()
      ensures raw == old(raw) + s
      ensures markers == old(markers)
    {
      MarkersWithinGrow(markers, 0, |raw|, |raw + s|);
      raw := raw + s;
    }

    /** The text with each marker's escape inserted at its offset, in list
        order. Every slice it takes is in bounds because of `Valid()`. */
    method Colored() returns (r: string)
      requires Valid()
      ensures r == Render(raw, markers)
      ensures markers == [] ==> r == raw
      ensures |r| == |raw| + |markers| * EscapeLen
    {
      var index: nat := 0;
      r := [];
      for i := 0 to |markers|
        invariant index <= |raw|
        invariant MarkersWithin(markers[i..], index, |raw|)
        invariant r + RenderFrom(raw, markers[i..], index) == Render(raw, markers)
      {
        var m := markers[i];
        assert markers[i..][1..] == markers[i + 1..];
        r := r + raw[index..m.index] + Escape(m.fg);
        index := m.index;
      }
      r := r + raw[index..|raw|];
      EscapesLenIsProduct(|markers|);
    }
  }

  /** The rendering of "abc", RED, "def", BLUE, "ghi". */
  lemma ThreeColorRender()
    ensures MarkersWithin([ColorMarker(3, RED), ColorMarker(6, BLUE)], 0, 9)
    ensures Render("abcdefghi", [ColorMarker(3, RED), ColorMarker(6, BLUE)])
            == "abc" + Escape(RED) + "def" + Escape(BLUE) + "ghi"
  {
    RenderNoMarkers("");
    RenderTextColorText("", [], "abc", RED, "def");
    assert "" + "abc" + "def" == "abcdef";
    RenderTextColorText("abcdef", [ColorMarker(3, RED)], "", BLUE, "ghi");
    assert "abcdef" + "" + "ghi" == "abcdefghi";
  }

  /** The same rendering, byte by byte. */
  lemma ThreeColorBytes()
    ensures "abc" + Escape(RED) + "def" + Escape(BLUE) + "ghi" == "abc\U{1B}[31mdef\U{1B}[34mghi"
  {
    EscapeIsSgrForeground(RED);
    EscapeIsSgrForeground(BLUE);
  }

  /** Text, a colour change, more text, another change, more text: the escapes
      land between the pieces, in order. */
  method ThreeColorScenario() returns (r: string)
    ensures r == "abc" + Escape(RED) + "def" + Escape(BLUE) + "ghi"
    ensures r == "abc\U{1B}[31mdef\U{1B}[34mghi"
  {
    var c := new ColoredString();
    c.PushStr("abc");
    c.SetFgColor(RED);
    c.PushStr("def");
    c.SetFgColor(BLUE);
    c.PushStr("ghi");
    assert c.raw == "abcdefghi" && c.markers == [ColorMarker(3, RED), ColorMarker(6, BLUE)];
    r := c.Colored();
    ThreeColorRender();
    ThreeColorBytes();
  }

  /** A colour set on an empty buffer renders as its escape alone. */
  method LoneColorScenario() returns (r: string)
    ensures r == "\U{1B}[32m"
  {
    var c := new ColoredString();
    c.SetFgColor(GREEN);
    r := c.Colored();
    RenderNoMarkers("");
    RenderTextColorText("", [], "", GREEN, "");
    EscapeIsSgrForeground(GREEN);
  }

  /** The capacity hint has no effect on the output. */
  method CapacityScenario() returns (r: string)
    ensures r == "x"
  {
    var c := new ColoredString.WithCapacity(100);
    c.Push('x');
    r := c.Colored();
  }
}
