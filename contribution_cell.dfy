/** One square of the heatmap (src/components/ContributionsGraph/ContributionCell.tsx):
    its colour band, its size and tooltip offset per view, the tooltip text,
    and whether the tooltip is showing. */
module ContributionCell {
  import opened ContributionsUtils
  import opened Text

  /** `getContributionLevel`: the background class for a count, one of the
      theme's four colours. */
  function ContributionLevel(count: int, darkMode: bool): (level: string)
    ensures level in Palette(darkMode)
  {
    if darkMode then
      if count == 0 then "bg-gray-800"
      else if count < 5 then "bg-green-900"
      else if count < 10 then "bg-green-700"
      else "bg-green-500"
    else
      if count == 0 then "bg-gray-100"
      else if count < 5 then "bg-green-200"
      else if count < 10 then "bg-green-300"
      else "bg-green-500"
  }

  /** The four colours of a theme, from no activity to the most. */
  function Palette(darkMode: bool): (colours: seq<string>)
    ensures |colours| == 4
  {
    if darkMode then ["bg-gray-800", "bg-green-900", "bg-green-700", "bg-green-500"]
    else ["bg-gray-100", "bg-green-200", "bg-green-300", "bg-green-500"]
  }

  /** The band of a count: how many of the thresholds 1, 5 and 10 it
      reaches; a negative count is not 0, so it lands in the first band. */
  function Band(count: int): (band: nat)
    ensures band <= 3
    ensures count > 0 ==> band >= 1
  {
    if count < 0 then 1
    else (if count >= 1 then 1 else 0) + (if count >= 5 then 1 else 0) + (if count >= 10 then 1 else 0)
  }

  /** The class chosen is the band's colour in the theme's palette. */
  lemma ContributionLevelIsBandColour(count: int, darkMode: bool)
    ensures ContributionLevel(count, darkMode) == Palette(darkMode)[Band(count)]
  {
  }

  /** The bands: 0 is the empty colour, 1 to 4 the first green, 5 to 9 the
      second, 10 and more `bg-green-500` in both themes, and a negative count
      the first green. */
  lemma ColourBands(count: int, darkMode: bool)
    ensures count == 0 ==> ContributionLevel(count, darkMode) == (if darkMode then "bg-gray-800" else "bg-gray-100")
    ensures 1 <= count <= 4 ==> ContributionLevel(count, darkMode) == (if darkMode then "bg-green-900" else "bg-green-200")
    ensures 5 <= count <= 9 ==> ContributionLevel(count, darkMode) == (if darkMode then "bg-green-700" else "bg-green-300")
    ensures count >= 10 ==> ContributionLevel(count, darkMode) == "bg-green-500"
    ensures count < 0 ==> ContributionLevel(count, darkMode) == ContributionLevel(1, darkMode)
  {
  }

  /** Among counts that are not negative, more activity never gets a lighter
      band. */
  lemma BandMonotone(a: int, b: int)
    requires 0 <= a <= b
    ensures Band(a) <= Band(b)
  {
  }

  /** Two counts get the same colour exactly when they are in the same band:
      the four colours of a theme are distinct. */
  lemma SameColourSameBand(a: int, b: int, darkMode: bool)
    ensures ContributionLevel(a, darkMode) == ContributionLevel(b, darkMode) <==> Band(a) == Band(b)
  {
    var p := Palette(darkMode);
    ContributionLevelIsBandColour(a, darkMode);
    ContributionLevelIsBandColour(b, darkMode);
    assert forall i, j :: 0 <= i < j < 4 ==> p[i] != p[j] by {
      assert p[0][5] != p[1][5] && p[0][5] != p[2][5] && p[0][5] != p[3][5];
      assert p[1][9] != p[2][9] && p[1][9] != p[3][9] && p[2][9] != p[3][9];
    }
  }

  /** The Tailwind size value shared by a cell's width and height classes. */
  function SizeValue(view: View): string {
    match view
    case Week => "12"
    case Month => "8"
    case Year => "[" + "1.05875" + "rem]"
  }

  /** `getSizeClasses`: large cells for the week, medium for the month, small
      otherwise. The width class comes first and the height class repeats
      its value, so every cell is square. */
  function SizeClasses(view: View): (classes: string)
    ensures BeforeFirst(classes, ' ') == "w-" + SizeValue(view)
    ensures var n := |SizeValue(view)|;
      |classes| >= 2 * n + 5 && classes[n + 2..2 * n + 5] == " h-" + SizeValue(view)
  {
    var size := SizeValue(view);
    var w, h := "w-" + size, " h-" + size;
    var rest := " rounded-" + (match view case Week => "lg" case Month => "md" case Year => "[0.242rem]");
    BeforeFirstOfJoin(w, h + rest, ' ');
    assert w + h + rest == w + (h + rest);
    assert (w + h + rest)[|w|..|w| + |h|] == h;
    w + h + rest
  }

  /** The width a Tailwind `w-` class gives, in hundred-thousandths of a rem:
      `w-N` is N quarter rems, and `w-[I.Frem]` is I.F rem. */
  function WidthOf(widthClass: string): int {
    if |widthClass| < 2 || widthClass[..2] != "w-" then 0
    else
      var v := widthClass[2..];
      if |v| >= 5 && v[0] == '[' && v[|v| - 4..] == "rem]" then RemValue(v[1..|v| - 4])
      else 25000 * ParseNat(v)
  }

  /** The value of a decimal `I.F`, in hundred-thousandths. */
  function RemValue(d: string): int {
    var whole := BeforeFirst(d, '.');
    var fraction := if |whole| < |d| then d[|whole| + 1..] else "";
    100000 * ParseNat(whole) + FractionValue(fraction)
  }

  /** The digits after the point, in hundred-thousandths (up to five places). */
  function FractionValue(digits: string): int
    decreases 5 - |digits|
  {
    if |digits| >= 5 then ParseNat(digits[..5]) else 10 * FractionValue(digits + "0")
  }

  /** The widths the size classes read as: 3rem for the week, 2rem for the
      month and 1.05875rem for the year, so the cells shrink as the view
      covers more days. */
  lemma CellWidthByView()
    ensures var week, month, year := SizeClasses(Week), SizeClasses(Month), SizeClasses(Year);
      WidthOf(BeforeFirst(week, ' ')) > WidthOf(BeforeFirst(month, ' ')) > WidthOf(BeforeFirst(year, ' '))
    ensures WidthOf(BeforeFirst(SizeClasses(Week), ' ')) == 300000
    ensures WidthOf(BeforeFirst(SizeClasses(Month), ' ')) == 200000
    ensures WidthOf(BeforeFirst(SizeClasses(Year), ' ')) == 105875
  {
    assert ("w-" + "12")[2..] == "12" && "12"[..1] == "1";
    assert ("w-" + "8")[2..] == "8";
    YearWidth();
  }

  lemma YearWidth()
    ensures WidthOf("w-" + SizeValue(Year)) == 105875
  {
    var w := "w-" + SizeValue(Year);
    var v := w[2..];
    assert w[..2] == "w-" && v == "[" + "1.05875" + "rem]";
    assert v[0] == '[' && v[|v| - 4..] == "rem]";
    var d := v[1..|v| - 4];
    assert d == "1.05875" == "1" + ".05875";
    BeforeFirstOfJoin("1", ".05875", '.');
    assert d[2..] == ".05875"[1..] == "05875";
    assert "05875"[..5] == "05875";
    assert ParseNat("1") == 1;
    assert "05"[..1] == "0";
    assert "058"[..2] == "05";
    assert "0587"[..3] == "058";
    assert "05875"[..4] == "0587";
    assert ParseNat("05875") == 5875;
    assert FractionValue(d[2..]) == 5875;
    assert RemValue(d) == 105875;
  }

  /** The gap in pixels between a cell and its tooltip. */
  function TooltipOffsetPx(view: View): nat {
    match view
    case Week => 12
    case Month => 10
    case Year => 8
  }

  /** `getTooltipOffset`: the CSS `bottom` of the tooltip, a fixed distance
      above the top of the cell. */
  function TooltipOffset(view: View): (offset: string)
    ensures |offset| > 15 && offset[..12] == "calc(100% + " && offset[|offset| - 3..] == "px)"
  {
    "calc(100% + " + NatToString(TooltipOffsetPx(view)) + "px)"
  }

  /** Bigger cells get a bigger offset: 12, 10 and 8 pixels. */
  lemma TooltipOffsetByView()
    ensures TooltipOffsetPx(Week) > TooltipOffsetPx(Month) > TooltipOffsetPx(Year)
    ensures TooltipOffset(Week) == "calc(100% + 12px)"
    ensures TooltipOffset(Month) == "calc(100% + 10px)"
    ensures TooltipOffset(Year) == "calc(100% + 8px)"
  {
    assert NatToString(1) == "1";
    assert NatToString(12) == NatToString(1) + "2";
    assert NatToString(10) == NatToString(1) + "0";
  }

  /** The offset string carries the pixel count in decimal between the
      fixed `calc(100% + ` and `px)`. */
  lemma TooltipOffsetParses(view: View)
    ensures var s := TooltipOffset(view); ParseNat(s[12..|s| - 3]) == TooltipOffsetPx(view)
  {
    var digits := NatToString(TooltipOffsetPx(view));
    var s := TooltipOffset(view);
    assert s[12..|s| - 3] == digits;
    NatRoundTrip(TooltipOffsetPx(view));
  }

  /** The tooltip text; `dayLabel` is the day as `format(day, "MMM d")`
      prints it, and the text ends with " on " and that label. */
  function TooltipText(count: int, dayLabel: string): (text: string)
    ensures |text| >= |dayLabel| + 4
    ensures text[|text| - |dayLabel| - 4..] == " on " + dayLabel
  {
    IntToString(count) + " contribution" + (if count != 1 then "s" else "") + " on " + dayLabel
  }

  /** The text starts with the count as a numeral up to the first space, and
      the noun after it takes an "s" exactly when the count is not 1. */
  lemma TooltipPlural(count: int, dayLabel: string)
    ensures var text, k := TooltipText(count, dayLabel), |IntToString(count)|;
      && k + 14 <= |text|
      && text[k] == ' '
      && (forall j :: 0 <= j < k ==> text[j] != ' ')
      && ParseInt(text[..k]) == count
      && text[k + 1..k + 13] == "contribution"
      && (text[k + 13] == 's' <==> count != 1)
  {
    var num := IntToString(count);
    var rest := " contribution" + (if count != 1 then "s" else "") + " on " + dayLabel;
    var text, k := TooltipText(count, dayLabel), |num|;
    assert text == num + rest;
    assert text[..k] == num;
    assert text[k..] == rest;
    assert rest[..13] == " contribution";
    assert rest[13] == (if count != 1 then 's' else ' ');
    assert text[k + 1..k + 13] == rest[1..13] == "contribution";
    assert text[k + 13] == rest[13];
    IntRoundTrip(count);
  }

  /** The `showTooltip` state of one cell. */
  class Tooltip {
    var visible: bool

    /** `useState(false)`: hidden at first. */
    constructor ()
      ensures !visible
    {
      visible := false;
    }

    /** `onMouseEnter`: show the tooltip. */
    method MouseEnter()
      modifies this
      ensures visible
    {
      visible := true;
    }

    /** `onMouseLeave`: hide it again. */
    method MouseLeave()
      modifies this
      ensures !visible
    {
      visible := false;
    }
  }
}
