/**
 * The depth legend of static/js/logic.js (`legend.onAdd`): one row per entry
 * of the breakpoint array, each with a swatch coloured by `chooseColor` one
 * kilometre above the breakpoint and a range label.
 */
module Legend {

  import opened Wrappers
  import opened Encoding
  import opened Numeral

  /** The breakpoint array the legend walks. */
  const Depths: seq<int> := [-10, 10, 30, 50, 70, 90]

  /** One legend row: the swatch colour and the text written after it. */
  datatype Row = Row(swatch: Colour, text: string)

  /**
   * JavaScript truthiness of `depth[i + 1]`: the element past the end is
   * `undefined`, and the number 0 is falsy too.
   */
  predicate Truthy(next: Option<int>)
  {
    next.Some? && next.value != 0
  }

  /** The label of an interior row: `low&ndash;high<br>`. */
  function RangeLabel(low: int, high: int): string
  {
    IntToString(low) + "&ndash;" + IntToString(high) + "<br>"
  }

  /** The label of a row with no truthy successor: `low+`. */
  function OpenLabel(low: int): string
  {
    IntToString(low) + "+"
  }

  /** The label text of a row whose breakpoint is `low` and whose following entry is `next`. */
  function Label(low: int, next: Option<int>): string
  {
    if Truthy(next) then RangeLabel(low, next.value) else OpenLabel(low)
  }

  /**
   * A label starts with the numeral of its breakpoint and ends in `+` exactly
   * when the following entry is not truthy.
   */
  lemma LabelShape(low: int, next: Option<int>)
    ensures IntToString(low) <= Label(low, next)
    ensures var s := Label(low, next); s[|s| - 1] == '+' <==> !Truthy(next)
  {
  }

  /** The entry after position `i`, or `None` past the end of the array. */
  function Next(bps: seq<int>, i: nat): Option<int>
    requires i < |bps|
  {
    if i + 1 < |bps| then Some(bps[i + 1]) else None
  }

  /** The swatch for breakpoint `b`: the colour of the bucket holding depth `b + 1`. */
  function Swatch(b: int): (c: Colour)
    ensures InBucket(c, (b + 1) as real)
  {
    BucketsPartition((b + 1) as real, ChooseColor((b + 1) as real));
    ChooseColor((b + 1) as real)
  }

  /** The rows the legend loop emits for a breakpoint array, built front to back. */
  function Rows(bps: seq<int>): (rows: seq<Row>)
    ensures |rows| == |bps|
  {
    if |bps| == 0 then []
    else [Row(Swatch(bps[0]), Label(bps[0], Next(bps, 0)))] + Rows(bps[1..])
  }

  /**
   * Row `i` is the swatch sampled one above breakpoint `i`, with the label
   * built from breakpoint `i` and the entry after it.
   */
  lemma {:induction false} RowsAt(bps: seq<int>, i: nat)
    requires i < |bps|
    ensures Rows(bps)[i] == Row(Swatch(bps[i]), Label(bps[i], Next(bps, i)))
  {
    if i > 0 {
      RowsAt(bps[1..], i - 1);
      assert Next(bps, i) == Next(bps[1..], i - 1);
    }
  }

  /**
   * For an integer breakpoint the swatch sampled at `b + 1` speaks for the
   * whole unit interval above `b`, because every threshold is an integer.
   */
  lemma SwatchCoversUnitInterval(b: int, d: real)
    requires (b as real) < d <= (b + 1) as real
    ensures ChooseColor(d) == Swatch(b)
  {
  }

  /** The legend has one row per breakpoint, six in all. */
  lemma LegendHasSixRows()
    ensures |Rows(Depths)| == |Depths| == 6
  {
  }

  /** The decimal forms of the source's breakpoints. */
  lemma BreakpointNumerals()
    ensures IntToString(-10) == "-10" && IntToString(10) == "10" && IntToString(30) == "30"
    ensures IntToString(50) == "50" && IntToString(70) == "70" && IntToString(90) == "90"
  {
    assert NatToString(10) == NatToString(1) + [DigitChar(0)];
    assert NatToString(30) == NatToString(3) + [DigitChar(0)];
    assert NatToString(50) == NatToString(5) + [DigitChar(0)];
    assert NatToString(70) == NatToString(7) + [DigitChar(0)];
    assert NatToString(90) == NatToString(9) + [DigitChar(0)];
  }

  /**
   * The six rows of the source's legend, written out: lime to red, ranges
   * from -10 to 90, the last one open-ended.
   */
  lemma LegendRowsExact()
    ensures Rows(Depths) == [
      Row(Lime, RangeLabel(-10, 10)), Row(GreenYellow, RangeLabel(10, 30)), Row(Gold, RangeLabel(30, 50)),
      Row(Orange, RangeLabel(50, 70)), Row(OrangeRed, RangeLabel(70, 90)), Row(Red, OpenLabel(90))]
  {
    var rows := Rows(Depths);
    assert rows == [rows[0], rows[1], rows[2], rows[3], rows[4], rows[5]];
    RowsAt(Depths, 0);
    RowsAt(Depths, 1);
    RowsAt(Depths, 2);
    RowsAt(Depths, 3);
    RowsAt(Depths, 4);
    RowsAt(Depths, 5);
  }

  /**
   * Each row's swatch is the colour of the bucket whose exclusive lower bound
   * is that row's breakpoint: the first row is lime (no lower bound) and row
   * `i` has tier `i`, so the six colours are distinct and ascend.
   */
  lemma LegendSwatchesFollowTiers()
    ensures forall i :: 0 <= i < 6 ==> Tier(Rows(Depths)[i].swatch) == i
    ensures Rows(Depths)[0].swatch == Lime
    ensures forall i :: 1 <= i < 6 ==> LowerBound(Rows(Depths)[i].swatch) == Some(Depths[i] as real)
    ensures forall i, j :: 0 <= i < j < 6 ==> Tier(Rows(Depths)[i].swatch) < Tier(Rows(Depths)[j].swatch)
  {
    LegendRowsExact();
    var rows := Rows(Depths);
    assert Tier(rows[0].swatch) == 0 && Tier(rows[1].swatch) == 1 && Tier(rows[2].swatch) == 2;
    assert Tier(rows[3].swatch) == 3 && Tier(rows[4].swatch) == 4 && Tier(rows[5].swatch) == 5;
  }

  /**
   * The legend agrees with the classifier: every depth in the range a row
   * announces gets that row's colour, every depth above the last breakpoint
   * gets the last row's colour, and every depth at or below the first
   * breakpoint gets the first row's.
   */
  lemma LegendAgreesWithClassifier(d: real)
    ensures forall i :: 0 <= i < 5 && (Depths[i] as real) < d <= (Depths[i + 1] as real) ==>
              ChooseColor(d) == Rows(Depths)[i].swatch
    ensures d > (Depths[5] as real) ==> ChooseColor(d) == Rows(Depths)[5].swatch
    ensures d <= (Depths[0] as real) ==> ChooseColor(d) == Rows(Depths)[0].swatch
  {
    LegendRowsExact();
  }

  /**
   * Rows 0 to 4 read `low&ndash;high<br>` with the next breakpoint as `high`;
   * only the last row reads `90+`.
   */
  lemma LegendLabels()
    ensures forall i :: 0 <= i < 5 ==>
              Rows(Depths)[i].text == IntToString(Depths[i]) + "&ndash;" + IntToString(Depths[i + 1]) + "<br>"
    ensures Rows(Depths)[5].text == IntToString(90) + "+"
    ensures Rows(Depths)[5].text == "90+"
  {
    LegendRowsExact();
    BreakpointNumerals();
  }

  /**
   * The label test is truthiness, not a bounds check: a breakpoint array with
   * a 0 after its first entry would end the first row's label with `+`.
   */
  lemma ZeroBreakpointEndsRange()
    ensures Rows([-10, 0, 10])[0].text == "-10+"
  {
    RowsAt([-10, 0, 10], 0);
    BreakpointNumerals();
  }

  /** The panel heading written before the rows. */
  const Heading: string := "<h3 style='text-align: center'>Depth</h3>"

  /**
   * The fixed pieces of a row's markup around its colour: the swatch element's
   * opening, up to the colour, and its close with the space before the label.
   * `RowHtml` spells them out and `RowHtmlShape` names them.
   */
  const SwatchOpen: string := "<i class=\"cirlce\" style=\"background:"

  const SwatchClose: string := "\"></i> "

  /**
   * The markup of one row: an `<i>` swatch element whose background is the
   * colour's name, a space, then the label. The literal repeats `SwatchOpen`
   * and `SwatchClose` because the named constants here make the proofs about
   * lists of rows far more expensive.
   */
  function RowHtml(r: Row): string
  {
    "<i class=\"cirlce\" style=\"background:" + Name(r.swatch) + "\"></i> " + r.text
  }

  /**
   * A row's markup reads, in order, the swatch element's opening, the colour's
   * name, the element's close, then the label. Stated apart from `RowHtml` so
   * that proofs about whole lists of rows do not carry it.
   */
  lemma RowHtmlShape(r: Row)
    ensures var s, c := RowHtml(r), |SwatchOpen| + |Name(r.swatch)|;
      |s| == c + |SwatchClose| + |r.text| &&
      s[..|SwatchOpen|] == SwatchOpen &&
      s[|SwatchOpen|..c] == Name(r.swatch) &&
      s[c..c + |SwatchClose|] == SwatchClose &&
      s[c + |SwatchClose|..] == r.text
  {
  }

  /** The markup of the rows in order, as the loop appends them one after another. */
  function RowsHtml(rows: seq<Row>): string
  {
    if |rows| == 0 then "" else RowHtml(rows[0]) + RowsHtml(rows[1..])
  }

  /**
   * The markup the legend loop appends to the panel for a breakpoint array:
   * the heading, then each row's markup.
   */
  function LegendHtml(bps: seq<int>): (html: string)
    ensures Heading <= html
  {
    Heading + RowsHtml(Rows(bps))
  }

  /** Markup of a list of rows splits at any point into the markup of its two parts. */
  lemma {:induction false} RowsHtmlAppend(a: seq<Row>, b: seq<Row>)
    ensures RowsHtml(a + b) == RowsHtml(a) + RowsHtml(b)
  {
    if |a| == 0 {
      assert a + b == b;
    } else {
      assert (a + b)[1..] == a[1..] + b;
      RowsHtmlAppend(a[1..], b);
    }
  }

  /** Row `k`'s markup sits between the markup of the rows before it and the rows after it. */
  lemma RowsHtmlSplit(rows: seq<Row>, k: nat)
    requires k < |rows|
    ensures RowsHtml(rows) == RowsHtml(rows[..k]) + (RowHtml(rows[k]) + RowsHtml(rows[k + 1..]))
  {
    assert rows == rows[..k] + rows[k..];
    RowsHtmlAppend(rows[..k], rows[k..]);
    assert rows[k..][1..] == rows[k + 1..];
  }

  /**
   * The appended markup is the heading followed by the rows' markup in breakpoint
   * order: row `k`'s markup comes after that of every earlier row and before
   * that of every later one.
   */
  lemma LegendHtmlInRowOrder(bps: seq<int>, k: nat)
    requires k < |bps|
    ensures var rows := Rows(bps);
      LegendHtml(bps) == Heading + (RowsHtml(rows[..k]) + (RowHtml(rows[k]) + RowsHtml(rows[k + 1..])))
  {
    RowsHtmlSplit(Rows(bps), k);
  }
}
