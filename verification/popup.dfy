/**
 * The popup bound to each earthquake feature (`onEachFeature` in
 * static/js/logic.js): place, date and magnitude spliced into fixed HTML
 * fragments by plain string concatenation, with no escaping. The date is the
 * host's rendering of `new Date(time)` and the magnitude the host's rendering
 * of a number; both enter this model as opaque strings.
 */
module Popup {

  import opened Wrappers

  /** The three values a popup shows. */
  datatype Fields = Fields(place: string, date: string, magnitude: string)

  /** The fixed markup around the three values: before the place, before the date, before the magnitude, at the end. */
  datatype Frame = Frame(open: string, dateOpen: string, magnitudeOpen: string, close: string)

  /** The markup the source writes. */
  const SourceFrame: Frame :=
    Frame("<h4>Location: ", "</h4><hr><p>Date: ", "</p><hr><p>Magnitude: ", "</p>")

  /** A frame whose two inner separators each begin with a tag, so a tag-free value ends where one starts. */
  predicate Separated(fr: Frame)
  {
    |fr.dateOpen| > 0 && fr.dateOpen[0] == '<' && |fr.magnitudeOpen| > 0 && fr.magnitudeOpen[0] == '<'
  }

  lemma SourceFrameSeparated()
    ensures Separated(SourceFrame)
  {
  }

  /** The values spliced into a frame. */
  function Render(fr: Frame, f: Fields): string
  {
    fr.open + f.place + fr.dateOpen + f.date + fr.magnitudeOpen + f.magnitude + fr.close
  }

  /** Each value appears verbatim in the rendering, in the order place, date, magnitude, between the frame's markup. */
  lemma RenderPositions(fr: Frame, f: Fields)
    ensures var s := Render(fr, f);
      var d := |fr.open| + |f.place| + |fr.dateOpen|;
      var m := d + |f.date| + |fr.magnitudeOpen|;
      |s| == m + |f.magnitude| + |fr.close| &&
      s[..|fr.open|] == fr.open &&
      s[|fr.open|..|fr.open| + |f.place|] == f.place &&
      s[|fr.open| + |f.place|..d] == fr.dateOpen &&
      s[d..d + |f.date|] == f.date &&
      s[d + |f.date|..m] == fr.magnitudeOpen &&
      s[m..m + |f.magnitude|] == f.magnitude &&
      s[m + |f.magnitude|..] == fr.close
  {
  }

  /** The popup HTML the source binds to a feature. */
  function PopupText(f: Fields): string
  {
    Render(SourceFrame, f)
  }

  /**
   * The popup reads, in order: the "Location: " caption, the place, the
   * "Date: " caption, the date, the "Magnitude: " caption, the magnitude and
   * the closing `</p>`, each value verbatim.
   */
  lemma PopupPositions(f: Fields)
    ensures var s := PopupText(f);
      var location, date, magnitude, close := "<h4>Location: ", "</h4><hr><p>Date: ", "</p><hr><p>Magnitude: ", "</p>";
      var p := |location| + |f.place|;
      var d := p + |date|;
      var m := d + |f.date| + |magnitude|;
      |s| == m + |f.magnitude| + |close| &&
      s[..|location|] == location &&
      s[|location|..p] == f.place &&
      s[p..d] == date &&
      s[d..d + |f.date|] == f.date &&
      s[d + |f.date|..m] == magnitude &&
      s[m..m + |f.magnitude|] == f.magnitude &&
      s[m + |f.magnitude|..] == close
  {
    RenderPositions(SourceFrame, f);
  }

  /** Index of the first `<` in `s`, or `|s|` when there is none. */
  function FirstTag(s: string): (k: nat)
    ensures k <= |s|
    ensures forall i :: 0 <= i < k ==> s[i] != '<'
    ensures k < |s| ==> s[k] == '<'
  {
    if |s| == 0 || s[0] == '<' then 0
    else
      var k := FirstTag(s[1..]);
      assert forall i :: 1 <= i < k + 1 ==> s[i] == s[1..][i - 1];
      1 + k
  }

  /** Splits `s` at its first `<`: the text before it and the rest. */
  function TakeField(s: string): (string, string)
  {
    var k := FirstTag(s);
    (s[..k], s[k..])
  }

  /**
   * Recovers the fields from a string in frame `fr`, reading the place and
   * the date up to the next `<` and the magnitude up to the closing markup;
   * `None` when `s` does not have the frame's shape.
   */
  function Parse(fr: Frame, s: string): Option<Fields>
  {
    if fr.open <= s then ParsePlace(fr, s[|fr.open|..]) else None
  }

  /** Parsing resumed just after the opening markup. */
  function ParsePlace(fr: Frame, r: string): Option<Fields>
  {
    var (place, rest) := TakeField(r);
    if fr.dateOpen <= rest then ParseDate(fr, place, rest[|fr.dateOpen|..]) else None
  }

  /** Parsing resumed just after the date's markup. */
  function ParseDate(fr: Frame, place: string, r: string): Option<Fields>
  {
    var (date, rest) := TakeField(r);
    if fr.magnitudeOpen <= rest then ParseMagnitude(fr, place, date, rest[|fr.magnitudeOpen|..]) else None
  }

  /** Parsing resumed just after the magnitude's markup: the magnitude runs to the closing markup. */
  function ParseMagnitude(fr: Frame, place: string, date: string, r: string): Option<Fields>
  {
    if |fr.close| <= |r| && r[|r| - |fr.close|..] == fr.close
    then Some(Fields(place, date, r[..|r| - |fr.close|]))
    else None
  }

  /** Reads the fields back out of a popup. */
  function Decode(s: string): Option<Fields>
  {
    Parse(SourceFrame, s)
  }

  /** A value is readable back out of a popup when it holds no `<`. */
  predicate TagFree(s: string)
  {
    forall i :: 0 <= i < |s| ==> s[i] != '<'
  }

  /** Splitting `a + b` at its first `<` gives `a` and `b` when `a` has none and `b` starts with one. */
  lemma TakeFieldSplits(a: string, b: string)
    requires TagFree(a) && |b| > 0 && b[0] == '<'
    ensures TakeField(a + b) == (a, b)
  {
    assert (a + b)[|a|] == '<';
    assert forall i :: 0 <= i < |a| ==> (a + b)[i] == a[i];
    assert FirstTag(a + b) == |a|;
    assert (a + b)[..|a|] == a;
    assert (a + b)[|a|..] == b;
  }

  /** The text in front of the first `<` is tag-free and `TakeField` loses nothing. */
  lemma TakeFieldJoins(s: string)
    ensures TagFree(TakeField(s).0) && TakeField(s).0 + TakeField(s).1 == s
  {
  }

  lemma ParseMagnitudeOfRender(fr: Frame, f: Fields)
    ensures ParseMagnitude(fr, f.place, f.date, f.magnitude + fr.close) == Some(f)
  {
    var r := f.magnitude + fr.close;
    assert r[..|r| - |fr.close|] == f.magnitude;
    assert r[|r| - |fr.close|..] == fr.close;
  }

  lemma ParseDateOfRender(fr: Frame, f: Fields)
    requires Separated(fr) && TagFree(f.date)
    ensures ParseDate(fr, f.place, f.date + (fr.magnitudeOpen + (f.magnitude + fr.close))) == Some(f)
  {
    ParseMagnitudeOfRender(fr, f);
    var rest := fr.magnitudeOpen + (f.magnitude + fr.close);
    TakeFieldSplits(f.date, rest);
    assert rest[|fr.magnitudeOpen|..] == f.magnitude + fr.close;
  }

  lemma ParsePlaceOfRender(fr: Frame, f: Fields)
    requires Separated(fr) && TagFree(f.place) && TagFree(f.date)
    ensures ParsePlace(fr, f.place + (fr.dateOpen + (f.date + (fr.magnitudeOpen + (f.magnitude + fr.close))))) == Some(f)
  {
    ParseDateOfRender(fr, f);
    var rest := fr.dateOpen + (f.date + (fr.magnitudeOpen + (f.magnitude + fr.close)));
    TakeFieldSplits(f.place, rest);
    assert rest[|fr.dateOpen|..] == f.date + (fr.magnitudeOpen + (f.magnitude + fr.close));
  }

  /** The rendering, associated to the right. */
  lemma RenderNested(fr: Frame, f: Fields)
    ensures Render(fr, f) == fr.open + (f.place + (fr.dateOpen + (f.date + (fr.magnitudeOpen + (f.magnitude + fr.close)))))
  {
  }

  lemma ParseAfterOpen(fr: Frame, rest: string)
    ensures Parse(fr, fr.open + rest) == ParsePlace(fr, rest)
  {
    assert (fr.open + rest)[|fr.open|..] == rest;
  }

  /** In a separated frame, parsing the rendering of tag-free place and date gives back the fields. */
  lemma ParseRender(fr: Frame, f: Fields)
    requires Separated(fr) && TagFree(f.place) && TagFree(f.date)
    ensures Parse(fr, Render(fr, f)) == Some(f)
  {
    ParsePlaceOfRender(fr, f);
    RenderNested(fr, f);
    ParseAfterOpen(fr, f.place + (fr.dateOpen + (f.date + (fr.magnitudeOpen + (f.magnitude + fr.close)))));
  }

  lemma ParseMagnitudeSound(fr: Frame, place: string, date: string, r: string)
    ensures ParseMagnitude(fr, place, date, r).Some? ==>
      ParseMagnitude(fr, place, date, r).value.place == place &&
      ParseMagnitude(fr, place, date, r).value.date == date &&
      ParseMagnitude(fr, place, date, r).value.magnitude + fr.close == r
  {
  }

  lemma ParseDateSound(fr: Frame, place: string, r: string)
    ensures ParseDate(fr, place, r).Some? ==>
      var f := ParseDate(fr, place, r).value;
      f.place == place && TagFree(f.date) && f.date + (fr.magnitudeOpen + (f.magnitude + fr.close)) == r
  {
    if ParseDate(fr, place, r).Some? {
      var (date, rest) := TakeField(r);
      TakeFieldJoins(r);
      ParseMagnitudeSound(fr, place, date, rest[|fr.magnitudeOpen|..]);
      assert rest == fr.magnitudeOpen + rest[|fr.magnitudeOpen|..];
    }
  }

  lemma ParsePlaceSound(fr: Frame, r: string)
    ensures ParsePlace(fr, r).Some? ==>
      var f := ParsePlace(fr, r).value;
      TagFree(f.place) && TagFree(f.date) &&
      f.place + (fr.dateOpen + (f.date + (fr.magnitudeOpen + (f.magnitude + fr.close)))) == r
  {
    if ParsePlace(fr, r).Some? {
      var (place, rest) := TakeField(r);
      TakeFieldJoins(r);
      ParseDateSound(fr, place, rest[|fr.dateOpen|..]);
      assert rest == fr.dateOpen + rest[|fr.dateOpen|..];
    }
  }

  /** Whatever parses is exactly the rendering of the parsed fields, and those fields' place and date are tag-free. */
  lemma ParseSound(fr: Frame, s: string)
    ensures Parse(fr, s).Some? ==>
      Render(fr, Parse(fr, s).value) == s && TagFree(Parse(fr, s).value.place) && TagFree(Parse(fr, s).value.date)
  {
    if Parse(fr, s).Some? {
      var rest := s[|fr.open|..];
      assert s == fr.open + rest;
      ParseAfterOpen(fr, rest);
      ParsePlaceSound(fr, rest);
      RenderNested(fr, Parse(fr, s).value);
    }
  }

  /** Decoding a popup whose place and date hold no `<` gives back its fields. */
  lemma DecodeRoundTrip(f: Fields)
    requires TagFree(f.place) && TagFree(f.date)
    ensures Decode(PopupText(f)) == Some(f)
  {
    SourceFrameSeparated();
    ParseRender(SourceFrame, f);
  }

  /** Whatever decodes is exactly the popup of the decoded fields. */
  lemma DecodeSound(s: string)
    ensures Decode(s).Some? ==> PopupText(Decode(s).value) == s
  {
    ParseSound(SourceFrame, s);
  }

  /**
   * Nothing is escaped: a place that itself contains the date markup yields
   * the same popup as a different place and date, so the popup does not
   * determine its fields.
   */
  lemma PopupNotInjective()
    ensures PopupText(Fields("A" + SourceFrame.dateOpen + "B", "C", "4.5"))
         == PopupText(Fields("A", "B" + SourceFrame.dateOpen + "C", "4.5"))
    ensures Fields("A" + SourceFrame.dateOpen + "B", "C", "4.5") != Fields("A", "B" + SourceFrame.dateOpen + "C", "4.5")
  {
    var fr := SourceFrame;
    assert |"A" + fr.dateOpen + "B"| != |"A"|;
    assert fr.open + ("A" + fr.dateOpen + "B") + fr.dateOpen + "C" + fr.magnitudeOpen + "4.5" + fr.close
        == fr.open + "A" + fr.dateOpen + ("B" + fr.dateOpen + "C") + fr.magnitudeOpen + "4.5" + fr.close;
  }
}
