/**
 * The Plotline component: a straight line across an XY chart at one value of one axis,
 * drawn with a dash pattern chosen from a preset table or given as lengths.
 */
module PlotlineComponent {
  import opened Wrappers
  import opened JsStrings

  /** The eleven dash presets of the `lineStyle` option. */
  datatype LineStylePreset =
    | Solid | ShortDash | ShortDot | ShortDashDot | ShortDashDotDot | Dot | Dash
    | LongDash | DashDot | LongDashDot | LongDashDotDot

  datatype LegendPosition = TopLeft | Top | TopRight | Right | BottomRight | Bottom | BottomLeft | Left

  datatype LegendOrientation = Horizontal | Vertical

  /**
   * A `lineStyle` as it reaches the renderer: any string (a preset's name or not), an array
   * of dash lengths, or anything else, including an absent value.
   */
  datatype LineStyle = StyleName(name: string) | StyleArray(lengths: seq<int>) | StyleOther

  /** `value: number | null | undefined`. */
  datatype PlotValue = Number(n: int) | Null | Undefined

  datatype PlotlineConfig = PlotlineConfig(
    color: Option<string>,
    lineWidth: Option<int>,
    axis: string,
    value: PlotValue,
    lineStyle: LineStyle,
    labelText: Option<string>,
    labelPosition: LegendPosition,
    labelOffsetX: int,
    labelOffsetY: int,
    labelOrientation: LegendOrientation,
    labelColor: Option<string>,
    labelSize: Option<int>)

  /** The defaults of the component's own options. */
  function DefaultConfig(): (c: PlotlineConfig)
    ensures c.lineWidth == Some(2) && c.axis == "y" && c.value == Number(0) && c.color.None?
    ensures c.lineStyle == StyleName(PresetName(Solid))
    ensures c.labelPosition == TopRight && c.labelOffsetX == 14 && c.labelOffsetY == 14
    ensures c.labelOrientation == Horizontal
  {
    PlotlineConfig(None, Some(2), "y", Number(0), StyleName("solid"), None, TopRight, 14, 14, Horizontal, None, None)
  }

  /** The name a preset is written with. */
  function PresetName(p: LineStylePreset): string
  {
    match p
    case Solid => "solid"
    case ShortDash => "shortDash"
    case ShortDot => "shortDot"
    case ShortDashDot => "shortDashDot"
    case ShortDashDotDot => "shortDashDotDot"
    case Dot => "dot"
    case Dash => "dash"
    case LongDash => "longDash"
    case DashDot => "dashDot"
    case LongDashDot => "longDashDot"
    case LongDashDotDot => "longDashDotDot"
  }

  /** Looking a string up in the dash table: a name outside the table finds nothing. */
  function PresetDashArray(name: string): Option<string>
  {
    if name == "solid" then Some("none")
    else if name == "shortDash" then Some("6,2")
    else if name == "shortDot" then Some("2,2")
    else if name == "shortDashDot" then Some("6,2,2,2")
    else if name == "shortDashDotDot" then Some("6,2,2,2,2,2")
    else if name == "dot" then Some("2,6")
    else if name == "dash" then Some("8,6")
    else if name == "longDash" then Some("16,6")
    else if name == "dashDot" then Some("8,6,2,6")
    else if name == "longDashDot" then Some("16,6,2,6")
    else if name == "longDashDotDot" then Some("16,6,2,6,2,6")
    else None
  }

  /** The dash lengths a preset stands for; `solid` has none. */
  function PresetLengths(p: LineStylePreset): seq<int>
  {
    match p
    case Solid => []
    case ShortDash => [6, 2]
    case ShortDot => [2, 2]
    case ShortDashDot => [6, 2, 2, 2]
    case ShortDashDotDot => [6, 2, 2, 2, 2, 2]
    case Dot => [2, 6]
    case Dash => [8, 6]
    case LongDash => [16, 6]
    case DashDot => [8, 6, 2, 6]
    case LongDashDot => [16, 6, 2, 6]
    case LongDashDotDot => [16, 6, 2, 6, 2, 6]
  }

  /** `lengths.join(',')` for integer lengths. */
  function JoinLengths(lengths: seq<int>): string
  {
    Join(LengthStrings(lengths), ",")
  }

  /** Each length written as a decimal integer. */
  function LengthStrings(lengths: seq<int>): (r: seq<string>)
    ensures |r| == |lengths|
    ensures forall i :: 0 <= i < |lengths| ==> r[i] == IntToString(lengths[i])
  {
    seq(|lengths|, i requires 0 <= i < |lengths| => IntToString(lengths[i]))
  }

  /**
   * The `stroke-dasharray` the renderer sets: the table entry of a string, the joined lengths
   * of an array, `none` otherwise. `None` stands for the `undefined` an unknown string finds.
   */
  function StrokeDashArray(style: LineStyle): Option<string>
  {
    match style
    case StyleName(name) => PresetDashArray(name)
    case StyleArray(lengths) => Some(JoinLengths(lengths))
    case StyleOther => Some("none")
  }

  /** The attributes `_render` gives the line element. */
  datatype RenderAttrs = RenderAttrs(
    strokeOpacity: int,
    strokeWidth: Option<int>,
    strokeDashArray: Option<string>,
    stroke: Option<string>,
    x1: int,
    x2: int,
    y1: int,
    y2: int)

  /**
   * What `_render` computes from a config, the component's size and its scales: on axis `y` a
   * line across the whole width at the scaled value, on any other axis one across the whole height.
   */
  function Attributes(c: PlotlineConfig, width: int, height: int, xScale: PlotValue -> int, yScale: PlotValue -> int): RenderAttrs
  {
    var dash := StrokeDashArray(c.lineStyle);
    if c.axis == "y" then
      RenderAttrs(1, c.lineWidth, dash, c.color, 0, width, yScale(c.value), yScale(c.value))
    else
      RenderAttrs(1, c.lineWidth, dash, c.color, xScale(c.value), xScale(c.value), 0, height)
  }

  class Plotline {
    var config: PlotlineConfig
    /** The value the line was last drawn at; `undefined` until the first render. */
    var value: PlotValue

    /** Starts from the defaults and applies a config only when one is given. */
    constructor (config: Option<PlotlineConfig>)
      ensures this.config == if config.Some? then config.value else DefaultConfig()
      ensures value == Undefined
    {
      this.config := DefaultConfig();
      this.value := Undefined;
      if config.Some? {
        this.config := config.value;
      }
    }

    method SetConfig(c: PlotlineConfig)
      modifies this
      ensures config == c && value == old(value)
    {
      config := c;
    }

    /** `_render`: records the value drawn and returns the attributes of the line. */
    method Render(width: int, height: int, xScale: PlotValue -> int, yScale: PlotValue -> int) returns (attrs: RenderAttrs)
      modifies this
      ensures config == old(config) && value == config.value
      ensures attrs == Attributes(config, width, height, xScale, yScale)
    {
      value := config.value;
      var strokeDashArray: Option<string>;
      match config.lineStyle {
        case StyleName(name) =>
          strokeDashArray := PresetDashArray(name);
        case StyleArray(lengths) =>
          strokeDashArray := Some(JoinLengths(lengths));
        case StyleOther =>
          strokeDashArray := Some("none");
      }
      value := config.value;
      var x1, x2, y1, y2 := 0, 0, 0, 0;
      if config.axis == "y" {
        y1 := yScale(value);
        y2 := yScale(value);
        x1 := 0;
        x2 := width;
      } else {
        y1 := 0;
        y2 := height;
        x1 := xScale(value);
        x2 := xScale(value);
      }
      attrs := RenderAttrs(1, config.lineWidth, strokeDashArray, config.color, x1, x2, y1, y2);
    }
  }

  /** A component given the default config draws a solid horizontal line of width 2 at the scaled 0. */
  method RenderDefault(width: int, height: int, xScale: PlotValue -> int, yScale: PlotValue -> int) returns (attrs: RenderAttrs)
    ensures attrs.x1 == 0 && attrs.x2 == width
    ensures attrs.y1 == attrs.y2 == yScale(Number(0))
    ensures attrs.strokeDashArray == Some("none") && attrs.strokeWidth == Some(2)
    ensures attrs.strokeOpacity == 1 && attrs.stroke.None?
  {
    var plotline := new Plotline(Some(DefaultConfig()));
    attrs := plotline.Render(width, height, xScale, yScale);
    assert plotline.value == Number(0);
  }

  /** Every preset has an entry, and the entry is `none` for `solid` and its lengths joined otherwise. */
  lemma PresetTable(p: LineStylePreset)
    ensures PresetDashArray(PresetName(p)) == Some(if p == Solid then "none" else JoinLengths(PresetLengths(p)))
  {
    if |PresetLengths(p)| <= 2 {
      ShortPresets(p);
    } else if |PresetLengths(p)| == 4 {
      FourLengthPresets(p);
    } else {
      SixLengthPresets(p);
    }
  }

  lemma SmallNumbers()
    ensures IntToString(2) == "2" && IntToString(6) == "6" && IntToString(8) == "8" && IntToString(16) == "16"
  {
    assert NatToString(16) == NatToString(1) + ['6'];
  }

  lemma JoinLengthsPair(x: int, y: int)
    ensures JoinLengths([x, y]) == IntToString(x) + "," + IntToString(y)
  {
    assert seq(2, i requires 0 <= i < 2 => IntToString([x, y][i])) == [IntToString(x), IntToString(y)];
  }

  lemma ShortPresets(p: LineStylePreset)
    requires |PresetLengths(p)| <= 2
    ensures PresetDashArray(PresetName(p)) == Some(if p == Solid then "none" else JoinLengths(PresetLengths(p)))
  {
    SmallNumbers();
    var xs := PresetLengths(p);
    if |xs| == 2 {
      assert xs == [xs[0], xs[1]];
      JoinLengthsPair(xs[0], xs[1]);
    }
    match p {
      case Solid =>
      case ShortDash =>
        assert "6" + "," + "2" == "6,2";
      case ShortDot =>
        assert "2" + "," + "2" == "2,2";
      case Dot =>
        assert "2" + "," + "6" == "2,6";
      case Dash =>
        assert "8" + "," + "6" == "8,6";
      case LongDash =>
        assert "16" + "," + "6" == "16,6";
      case _ =>
    }
  }

  lemma FourLengthPresets(p: LineStylePreset)
    requires |PresetLengths(p)| == 4
    ensures PresetDashArray(PresetName(p)) == Some(JoinLengths(PresetLengths(p)))
  {
    SmallNumbers();
    JoinFourLengths(PresetLengths(p));
    match p {
      case ShortDashDot =>
        assert "6" + "," + "2" + "," + "2" + "," + "2" == "6,2,2,2";
      case DashDot =>
        assert "8" + "," + "6" + "," + "2" + "," + "6" == "8,6,2,6";
      case LongDashDot =>
        assert "16" + "," + "6" + "," + "2" + "," + "6" == "16,6,2,6";
      case _ =>
    }
  }

  lemma SixLengthPresets(p: LineStylePreset)
    requires |PresetLengths(p)| == 6
    ensures PresetDashArray(PresetName(p)) == Some(JoinLengths(PresetLengths(p)))
  {
    if p == ShortDashDotDot {
      ShortDashDotDotJoined(PresetLengths(p));
      ShortDashDotDotEntry(PresetName(p));
    } else {
      LongDashDotDotJoined(PresetLengths(p));
      LongDashDotDotEntry(PresetName(p));
    }
  }

  lemma ShortDashDotDotEntry(name: string)
    requires name == "shortDashDotDot"
    ensures PresetDashArray(name) == Some("6,2,2,2,2,2")
  {
  }

  lemma LongDashDotDotEntry(name: string)
    requires name == "longDashDotDot"
    ensures PresetDashArray(name) == Some("16,6,2,6,2,6")
  {
  }

  lemma ShortDashDotDotJoined(xs: seq<int>)
    requires xs == [6, 2, 2, 2, 2, 2]
    ensures JoinLengths(xs) == "6,2,2,2,2,2"
  {
    SmallNumbers();
    JoinSixLengths(xs);
    assert xs[2..] == [2, 2, 2, 2];
    JoinFourLengths(xs[2..]);
    assert "2" + "," + "2" + "," + "2" + "," + "2" == "2,2,2,2";
    assert "6" + "," + "2" + "," + "2,2,2,2" == "6,2,2,2,2,2";
  }

  lemma LongDashDotDotJoined(xs: seq<int>)
    requires xs == [16, 6, 2, 6, 2, 6]
    ensures JoinLengths(xs) == "16,6,2,6,2,6"
  {
    SmallNumbers();
    JoinSixLengths(xs);
    assert xs[2..] == [2, 6, 2, 6];
    JoinFourLengths(xs[2..]);
    assert "2" + "," + "6" + "," + "2" + "," + "6" == "2,6,2,6";
    assert "16" + "," + "6" + "," + "2,6,2,6" == "16,6,2,6,2,6";
  }

  lemma JoinFourLengths(xs: seq<int>)
    requires |xs| == 4
    ensures JoinLengths(xs) == IntToString(xs[0]) + "," + IntToString(xs[1]) + "," + IntToString(xs[2]) + "," + IntToString(xs[3])
  {
    JoinTwoHeads(xs);
    var rest := xs[2..];
    assert rest == [xs[2], xs[3]];
    JoinLengthsPair(xs[2], xs[3]);
  }

  lemma JoinSixLengths(xs: seq<int>)
    requires |xs| == 6
    ensures JoinLengths(xs) == IntToString(xs[0]) + "," + IntToString(xs[1]) + "," + JoinLengths(xs[2..])
  {
    JoinTwoHeads(xs);
  }

  lemma JoinTwoHeads(xs: seq<int>)
    requires |xs| >= 3
    ensures JoinLengths(xs) == IntToString(xs[0]) + "," + IntToString(xs[1]) + "," + JoinLengths(xs[2..])
  {
    var tail := xs[1..];
    JoinLengthsHead(xs);
    JoinLengthsHead(tail);
    assert tail[0] == xs[1] && tail[1..] == xs[2..];
  }

  lemma JoinLengthsHead(xs: seq<int>)
    requires |xs| >= 2
    ensures JoinLengths(xs) == IntToString(xs[0]) + "," + JoinLengths(xs[1..])
  {
    assert xs == [xs[0]] + xs[1..];
    JoinLengthsCons(xs[0], xs[1..]);
  }

  lemma JoinLengthsCons(x: int, xs: seq<int>)
    requires xs != []
    ensures JoinLengths([x] + xs) == IntToString(x) + "," + JoinLengths(xs)
  {
    LengthStringsCons(x, xs);
    JoinStep(IntToString(x), LengthStrings(xs), ",");
  }

  lemma LengthStringsCons(x: int, xs: seq<int>)
    ensures LengthStrings([x] + xs) == [IntToString(x)] + LengthStrings(xs)
  {
    var parts := LengthStrings([x] + xs);
    var expected := [IntToString(x)] + LengthStrings(xs);
    forall j | 0 <= j < |parts|
      ensures parts[j] == expected[j]
    {
      if j > 0 {
        assert ([x] + xs)[j] == xs[j - 1];
      }
    }
    assert parts == expected;
  }

  lemma JoinStep(p: string, ps: seq<string>, sep: string)
    requires ps != []
    ensures Join([p] + ps, sep) == p + sep + Join(ps, sep)
  {
    assert ([p] + ps)[1..] == ps;
  }

  /** Exactly the eleven preset names find an entry; the table tells them apart. */
  lemma PresetNames(name: string)
    ensures PresetDashArray(name).Some? <==> exists p :: PresetName(p) == name
  {
    if PresetDashArray(name).Some? {
      var p :=
        if name == "solid" then Solid else if name == "shortDash" then ShortDash
        else if name == "shortDot" then ShortDot else if name == "shortDashDot" then ShortDashDot
        else if name == "shortDashDotDot" then ShortDashDotDot else if name == "dot" then Dot
        else if name == "dash" then Dash else if name == "longDash" then LongDash
        else if name == "dashDot" then DashDot else if name == "longDashDot" then LongDashDot
        else LongDashDotDot;
      assert PresetName(p) == name;
    }
  }

  /** Only `solid` draws without dashes. */
  lemma OnlySolidIsUndashed(p: LineStylePreset)
    ensures PresetDashArray(PresetName(p)) == Some("none") <==> p == Solid
  {
  }

  /** The dash lengths of an array can be read back from the attribute. */
  lemma DashArrayRoundTrip(lengths: seq<int>)
    requires lengths != []
    ensures var pieces := Split(StrokeDashArray(StyleArray(lengths)).value, ',');
      |pieces| == |lengths| && forall i :: 0 <= i < |lengths| ==> ParseInt(pieces[i]) == lengths[i]
  {
    var parts := LengthStrings(lengths);
    SplitJoin(parts, ',');
    forall i | 0 <= i < |lengths|
      ensures ParseInt(parts[i]) == lengths[i]
    {
      ParseIntToString(lengths[i]);
    }
  }

  /** On axis `y` the line is horizontal across the width; on any other axis vertical across the height. */
  lemma LineDirection(c: PlotlineConfig, width: int, height: int, xScale: PlotValue -> int, yScale: PlotValue -> int)
    ensures var a := Attributes(c, width, height, xScale, yScale);
      c.axis == "y" ==> a.y1 == a.y2 == yScale(c.value) && a.x1 == 0 && a.x2 == width
    ensures var a := Attributes(c, width, height, xScale, yScale);
      c.axis != "y" ==> a.x1 == a.x2 == xScale(c.value) && a.y1 == 0 && a.y2 == height
    ensures var a := Attributes(c, width, height, xScale, yScale);
      a.strokeOpacity == 1 && a.strokeWidth == c.lineWidth && a.stroke == c.color
      && a.strokeDashArray == StrokeDashArray(c.lineStyle)
  {
  }
}
