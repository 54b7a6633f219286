/** `vennSvg_` and `vennBody_`: the fixed drawing of a Venn diagram of 2 to 6
    sets. Each layout places one shape per set, one label per region and one
    name per set at fixed coordinates of a 1000 x 1000 view box whose y axis
    points up. */
module VennTemplate {
  import opened Wrappers
  import opened Numerals
  import opened Binary

  /** `DEFAULT_COLORS`: one fill per set. */
  const DefaultColors: seq<string> := [
    "rgba(92, 192, 98, 0.5)",
    "rgba(90, 155, 212, 0.5)",
    "rgba(246, 236, 86, 0.6)",
    "rgba(241, 90, 96, 0.4)",
    "rgba(255, 117, 0, 0.3)",
    "rgba(82, 82, 190, 0.2)"
  ]

  /** A set's shape as the layout gives it: an ellipse by centre, diameters and
      rotation in degrees, or a triangle by its corners. */
  datatype Shape =
    | EllipseAt(x: int, y: int, dx: int, dy: int, rotation: int)
    | TriangleAt(x1: int, y1: int, x2: int, y2: int, x3: int, y3: int)

  datatype Anchor = Anchor(x: int, y: int)

  /** One layout: the shapes of the sets, the label anchors of the regions in
      ascending order of their keys (anchor `i` is the region of code `i + 1`),
      and the anchors of the set names. */
  datatype Layout = Layout(shapes: seq<Shape>, labels: seq<Anchor>, names: seq<Anchor>)

  /** A drawn element, with y already flipped. */
  datatype Element =
    | Ellipse(x: int, y: int, rx: int, ry: int, rotate: Option<int>, fill: string)
    | Path(x1: int, y1: int, x2: int, y2: int, x3: int, y3: int, fill: string)
    | Text(x: int, y: int, content: string, cls: Option<string>)

  const Layout2: Layout := Layout(
    [EllipseAt(375, 300, 500, 500, 0), EllipseAt(625, 300, 500, 500, 0)],
    [Anchor(740, 300), Anchor(260, 300), Anchor(500, 300)],
    [Anchor(200, 560), Anchor(800, 560)])

  const Layout3: Layout := Layout(
    [EllipseAt(333, 633, 500, 500, 0), EllipseAt(666, 633, 500, 500, 0), EllipseAt(500, 310, 500, 500, 0)],
    [Anchor(500, 270), Anchor(730, 650), Anchor(610, 460), Anchor(270, 650), Anchor(390, 460), Anchor(500, 650),
     Anchor(500, 510)],
    [Anchor(150, 870), Anchor(850, 870), Anchor(500, 20)])

  const Layout4: Layout := Layout(
    [EllipseAt(350, 400, 720, 450, 140), EllipseAt(450, 500, 720, 450, 140), EllipseAt(544, 500, 720, 450, 40), EllipseAt(644, 400, 720, 450, 40)],
    [Anchor(850, 420), Anchor(680, 720), Anchor(770, 590), Anchor(320, 720), Anchor(710, 300), Anchor(500, 660),
     Anchor(650, 500), Anchor(140, 420), Anchor(500, 170), Anchor(290, 300), Anchor(390, 240), Anchor(230, 590),
     Anchor(610, 240), Anchor(350, 500), Anchor(500, 380)],
    [Anchor(130, 180), Anchor(180, 830), Anchor(820, 830), Anchor(870, 180)])

  const Layout5: Layout := Layout(
    [EllipseAt(428, 449, 870, 500, 155), EllipseAt(469, 543, 870, 500, 82), EllipseAt(558, 523, 870, 500, 10), EllipseAt(578, 432, 870, 500, 118), EllipseAt(489, 383, 870, 500, 46)],
    [Anchor(270, 110), Anchor(720, 110), Anchor(550, 130), Anchor(910, 580), Anchor(780, 640), Anchor(840, 410),
     Anchor(760, 550), Anchor(510, 900), Anchor(390, 150), Anchor(420, 780), Anchor(500, 150), Anchor(670, 760),
     Anchor(700, 710), Anchor(510, 740), Anchor(640, 670), Anchor(100, 610), Anchor(200, 310), Anchor(760, 250),
     Anchor(650, 230), Anchor(180, 500), Anchor(210, 370), Anchor(810, 370), Anchor(740, 400), Anchor(270, 700),
     Anchor(340, 250), Anchor(330, 720), Anchor(510, 220), Anchor(250, 580), Anchor(280, 390), Anchor(360, 660),
     Anchor(510, 470)],
    [Anchor(20, 720), Anchor(720, 940), Anchor(970, 740), Anchor(880, 50), Anchor(120, 50)])

  const Layout6: Layout := Layout(
    [TriangleAt(637, 921, 649, 274, 188, 667), TriangleAt(981, 769, 335, 191, 393, 671), TriangleAt(941, 397, 292, 475, 456, 747), TriangleAt(662, 119, 316, 548, 662, 700), TriangleAt(309, 81, 374, 718, 681, 488), TriangleAt(16, 626, 726, 687, 522, 327)],
    [Anchor(212, 562), Anchor(430, 249), Anchor(356, 444), Anchor(609, 255), Anchor(323, 546), Anchor(513, 316),
     Anchor(523, 348), Anchor(747, 458), Anchor(325, 492), Anchor(670, 481), Anchor(359, 478), Anchor(653, 444),
     Anchor(344, 526), Anchor(653, 466), Anchor(363, 503), Anchor(750, 616), Anchor(682, 654), Anchor(402, 310),
     Anchor(392, 421), Anchor(653, 691), Anchor(651, 644), Anchor(490, 340), Anchor(468, 399), Anchor(692, 545),
     Anchor(666, 592), Anchor(665, 496), Anchor(374, 470), Anchor(653, 537), Anchor(652, 579), Anchor(653, 488),
     Anchor(389, 486), Anchor(553, 806), Anchor(313, 604), Anchor(388, 694), Anchor(375, 633), Anchor(605, 359),
     Anchor(334, 555), Anchor(582, 397), Anchor(542, 372), Anchor(468, 708), Anchor(355, 572), Anchor(420, 679),
     Anchor(375, 597), Anchor(641, 436), Anchor(348, 538), Anchor(635, 453), Anchor(370, 548), Anchor(594, 689),
     Anchor(579, 670), Anchor(398, 670), Anchor(395, 653), Anchor(633, 682), Anchor(616, 656), Anchor(587, 427),
     Anchor(526, 415), Anchor(495, 677), Anchor(505, 648), Anchor(428, 663), Anchor(430, 631), Anchor(639, 524),
     Anchor(591, 604), Anchor(622, 477), Anchor(501, 523)],
    [Anchor(674, 824), Anchor(747, 751), Anchor(739, 396), Anchor(700, 247), Anchor(291, 255), Anchor(203, 484)])

  /** The layout for `m` sets; `undefined` outside 2 to 6. */
  function LayoutFor(m: nat): (r: Option<Layout>)
    ensures r.Some? <==> 2 <= m <= 6
    ensures r.Some? ==> |r.value.shapes| == m && |r.value.names| == m && |r.value.labels| == Pow2(m) - 1
  {
    if m == 2 then Some(Layout2)
    else if m == 3 then Some(Layout3)
    else if m == 4 then Some(Layout4)
    else if m == 5 then Some(Layout5)
    else if m == 6 then Some(Layout6)
    else None
  }

  /** `yy`: the view box's y axis points down. */
  function Flip(y: int): int
  {
    1000 - y
  }

  /** `c[i]` in a template: the colour, or the text `undefined` past the end. */
  function ColorText(colors: seq<string>, i: nat): string
  {
    if i < |colors| then colors[i] else "undefined"
  }

  /** `optionalClass(c[i])`: a class only for a colour that is present and not empty. */
  function ClassOf(colors: seq<string>, i: nat): Option<string>
  {
    if i < |colors| && colors[i] != "" then Some(colors[i]) else None
  }

  /** `l[key]` in a template: the label, or the text `undefined` when there is none. */
  function LabelText(labels: map<string, string>, key: string): string
  {
    if key in labels then labels[key] else "undefined"
  }

  /** `e` and `tr`: an ellipse is translated to its centre, with radii half its
      diameters and a rotation only when the angle is not zero (negated, as
      the y axis is flipped). */
  function Draw(s: Shape, color: string): Element
  {
    match s
      case EllipseAt(x, y, dx, dy, rot) =>
        Ellipse(x, Flip(y), dx / 2, dy / 2, if rot != 0 then Some(-rot) else None, color)
      case TriangleAt(x1, y1, x2, y2, x3, y3) =>
        Path(x1, Flip(y1), x2, Flip(y2), x3, Flip(y3), color)
  }

  function ShapeElements(lay: Layout, colors: seq<string>): seq<Element>
  {
    seq(|lay.shapes|, i requires 0 <= i < |lay.shapes| => Draw(lay.shapes[i], ColorText(colors, i)))
  }

  /** `t(x, y, l[key])`: the label of each region, without a class. */
  function LabelElements(lay: Layout, labels: map<string, string>, m: nat): seq<Element>
  {
    seq(|lay.labels|, i requires 0 <= i < |lay.labels| =>
      Text(lay.labels[i].x, Flip(lay.labels[i].y), LabelText(labels, Key(i + 1, m)), None))
  }

  /** `t(x, y, n[i], c[i], position)`: the name of each set. The fourth argument
      of `t` is its class, so the set's colour becomes the class and the
      position class is dropped. */
  function NameElements(lay: Layout, names: seq<string>, colors: seq<string>): seq<Element>
    requires |lay.names| == |names|
  {
    seq(|names|, i requires 0 <= i < |names| =>
      Text(lay.names[i].x, Flip(lay.names[i].y), names[i], ClassOf(colors, i)))
  }

  /** `vennBody_`: shapes, then region labels, then set names; `undefined`
      unless there are 2 to 6 names. */
  function VennBody(labels: map<string, string>, names: seq<string>, colors: seq<string>): (r: Option<seq<Element>>)
    ensures r.Some? <==> 2 <= |names| <= 6
    ensures r.Some? ==> |r.value| == 2 * |names| + Pow2(|names|) - 1
  {
    match LayoutFor(|names|)
      case None => None
      case Some(lay) => Some(BodyOf(lay, labels, names, colors))
  }

  /** The elements drawn from one layout. */
  function BodyOf(lay: Layout, labels: map<string, string>, names: seq<string>, colors: seq<string>): (r: seq<Element>)
    requires |lay.names| == |names|
    ensures |r| == |lay.shapes| + |lay.labels| + |names|
  {
    ShapeElements(lay, colors) + LabelElements(lay, labels, |names|) + NameElements(lay, names, colors)
  }

  /** The body of 2 to 6 names is drawn from the layout for their number. */
  lemma BodyFromLayout(labels: map<string, string>, names: seq<string>, colors: seq<string>)
    requires 2 <= |names| <= 6
    ensures var lay := LayoutFor(|names|).value;
      |lay.shapes| == |names| && |lay.labels| == Pow2(|names|) - 1 && |lay.names| == |names|
      && VennBody(labels, names, colors) == Some(BodyOf(lay, labels, names, colors))
  {
  }

  lemma ShapeAt(lay: Layout, labels: map<string, string>, names: seq<string>, colors: seq<string>, i: nat)
    requires |lay.names| == |names| && i < |lay.shapes|
    ensures BodyOf(lay, labels, names, colors)[i] == Draw(lay.shapes[i], ColorText(colors, i))
  {
    var s := ShapeElements(lay, colors);
    assert (s + LabelElements(lay, labels, |names|) + NameElements(lay, names, colors))[i] == s[i];
  }

  lemma LabelAt(lay: Layout, labels: map<string, string>, names: seq<string>, colors: seq<string>, j: nat)
    requires |lay.names| == |names| && |lay.shapes| <= j < |lay.shapes| + |lay.labels|
    ensures var a := lay.labels[j - |lay.shapes|];
      BodyOf(lay, labels, names, colors)[j]
      == Text(a.x, Flip(a.y), LabelText(labels, Key(j - |lay.shapes| + 1, |names|)), None)
  {
    var s := ShapeElements(lay, colors);
    var l := LabelElements(lay, labels, |names|);
    assert (s + l + NameElements(lay, names, colors))[j] == l[j - |s|];
  }

  lemma NameAt(lay: Layout, labels: map<string, string>, names: seq<string>, colors: seq<string>, i: nat)
    requires |lay.names| == |names| && i < |names|
    ensures var a := lay.names[i];
      BodyOf(lay, labels, names, colors)[|lay.shapes| + |lay.labels| + i]
      == Text(a.x, Flip(a.y), names[i], ClassOf(colors, i))
  {
    var sl := ShapeElements(lay, colors) + LabelElements(lay, labels, |names|);
    var n := NameElements(lay, names, colors);
    assert (sl + n)[|sl| + i] == n[i];
  }

  /** Set `i`'s shape comes first, in colour `i`: ellipses up to five sets,
      triangles for six. */
  lemma ShapesColoured(labels: map<string, string>, names: seq<string>, colors: seq<string>, i: nat)
    requires 2 <= |names| <= 6 && i < |names|
    ensures var body := VennBody(labels, names, colors).value;
      match body[i]
        case Ellipse(_, _, _, _, _, fill) => |names| <= 5 && fill == ColorText(colors, i)
        case Path(_, _, _, _, _, _, fill) => |names| == 6 && fill == ColorText(colors, i)
        case Text(_, _, _, _) => false
  {
    var lay := LayoutFor(|names|).value;
    BodyFromLayout(labels, names, colors);
    ShapeAt(lay, labels, names, colors, i);
    if |names| <= 5 {
      assert lay.shapes[i].EllipseAt?;
    } else {
      assert lay.shapes[i].TriangleAt?;
    }
  }

  /** Every region gets its label exactly once: the element at `m - 1 + code`
      is the unclassed text of the key of `code`, and the region elements are
      exactly these. */
  lemma RegionLabelled(labels: map<string, string>, names: seq<string>, colors: seq<string>, k: string)
    requires 2 <= |names| <= 6 && IsKey(k, |names|)
    ensures var body := VennBody(labels, names, colors).value;
      var j := |names| - 1 + FromBinary(k);
      |names| <= j < |names| + Pow2(|names|) - 1
      && body[j].Text? && body[j].content == LabelText(labels, k) && body[j].cls.None?
  {
    var lay := LayoutFor(|names|).value;
    FromKey(k, |names|);
    BodyFromLayout(labels, names, colors);
    var j := |names| - 1 + FromBinary(k);
    LabelAt(lay, labels, names, colors, j);
    assert Key(j - |lay.shapes| + 1, |names|) == k;
    assert VennBody(labels, names, colors).value[j] == BodyOf(lay, labels, names, colors)[j];
  }

  /** Conversely every element between the shapes and the names is the label
      of a key. */
  lemma LabelsAreRegions(labels: map<string, string>, names: seq<string>, colors: seq<string>, j: nat)
    requires 2 <= |names| <= 6 && |names| <= j < |names| + Pow2(|names|) - 1
    ensures var body := VennBody(labels, names, colors).value;
      var k := Key(j - |names| + 1, |names|);
      IsKey(k, |names|) && FromBinary(k) == j - |names| + 1
      && body[j].Text? && body[j].content == LabelText(labels, k)
  {
    KeyRoundTrip(j - |names| + 1, |names|);
    LabelSection(labels, names, colors, j);
  }

  lemma LabelSection(labels: map<string, string>, names: seq<string>, colors: seq<string>, j: nat)
    requires 2 <= |names| <= 6 && |names| <= j < |names| + Pow2(|names|) - 1
    ensures var lay := LayoutFor(|names|).value;
      var a := lay.labels[j - |names|];
      VennBody(labels, names, colors).value[j] == Text(a.x, Flip(a.y), LabelText(labels, Key(j - |names| + 1, |names|)), None)
  {
    var lay := LayoutFor(|names|).value;
    BodyFromLayout(labels, names, colors);
    LabelAt(lay, labels, names, colors, j);
  }

  /** Name `i` comes after the labels, classed by colour `i`. */
  lemma NamePlaced(labels: map<string, string>, names: seq<string>, colors: seq<string>, i: nat)
    requires 2 <= |names| <= 6 && i < |names|
    ensures var body := VennBody(labels, names, colors).value;
      var j := |names| + Pow2(|names|) - 1 + i;
      body[j].Text? && body[j].content == names[i] && body[j].cls == ClassOf(colors, i)
  {
    var lay := LayoutFor(|names|).value;
    BodyFromLayout(labels, names, colors);
    NameAt(lay, labels, names, colors, i);
    var j := |names| + Pow2(|names|) - 1 + i;
    assert j == |lay.shapes| + |lay.labels| + i;
    assert VennBody(labels, names, colors).value[j] == BodyOf(lay, labels, names, colors)[j];
  }

  /** With the default colours every shape has a colour and every name a class. */
  lemma DefaultColorsSuffice(labels: map<string, string>, names: seq<string>, i: nat)
    requires 2 <= |names| <= 6 && i < |names|
    ensures ColorText(DefaultColors, i) == DefaultColors[i] && ClassOf(DefaultColors, i) == Some(DefaultColors[i])
  {
    assert |DefaultColors| == 6;
    assert DefaultColors[i] != "";
  }

  /** The diameters of every ellipse are even, so the radii print as integers. */
  lemma EvenDiameters(m: nat, i: nat)
    requires 2 <= m <= 5 && i < m
    ensures var s := LayoutFor(m).value.shapes[i];
      s.EllipseAt? && s.dx % 2 == 0 && s.dy % 2 == 0
  {
  }

  /** `${n}` of an integer. */
  function IntText(n: int): string
  {
    if n < 0 then "-" + DecimalString(-n) else DecimalString(n)
  }

  function Quoted(attr: string, value: string): string
  {
    " " + attr + "=\"" + value + "\""
  }

  /** The markup `e`, `tr` and `t` write for one element. */
  function Markup(e: Element): string
  {
    match e
      case Ellipse(x, y, rx, ry, rotate, fill) =>
        "<g transform=\"translate(" + IntText(x) + "," + IntText(y) + ")\"><ellipse"
        + Quoted("rx", IntText(rx)) + Quoted("ry", IntText(ry)) + Quoted("fill", fill)
        + (if rotate.Some? then Quoted("transform", "rotate(" + IntText(rotate.value) + ")") else "")
        + "/></g>"
      case Path(x1, y1, x2, y2, x3, y3, fill) =>
        "<path d=\"M" + IntText(x1) + "," + IntText(y1) + "L" + IntText(x2) + "," + IntText(y2)
        + "L" + IntText(x3) + "," + IntText(y3) + "Z\"" + Quoted("fill", fill) + "/>"
      case Text(x, y, content, cls) =>
        "<text" + Quoted("x", IntText(x)) + Quoted("y", IntText(y))
        + (if cls.Some? then Quoted("class", cls.value) else "") + ">" + content + "</text>"
  }

  /** The body template: every element on a line of its own, indented by four. */
  function BodyText(els: seq<Element>): string
  {
    Lines(seq(|els|, i requires 0 <= i < |els| => Markup(els[i])))
  }

  function Lines(ms: seq<string>): string
  {
    if ms == [] then "" else "\n    " + ms[0] + Lines(ms[1..])
  }

  /** `part` occurs in `whole` at offset `o`. */
  predicate At(whole: string, part: string, o: nat)
  {
    o + |part| <= |whole| && whole[o..o + |part|] == part
  }

  /** The opening tag: a 600 x 600 image of the 1000 x 1000 view box. */
  const SvgOpen: string :=
    "<svg width=\"600\" height=\"600\" viewBox=\"0 0 1000 1000\" xmlns=\"http://www.w3.org/2000/svg\">\n"

  /** The text styles: centred by default, and one class per corner placement. */
  const StyleRules: string :=
    "      text {\n"
    + "          font-size: 14pt;\n"
    + "          fill: black;\n"
    + "          font-family: \"Noto Sans\";\n"
    + "          text-anchor: middle;\n"
    + "          dominant-baseline: middle;\n"
    + "      }\n"
    + "      .tl { text-anchor: start; dominant-baseline: auto; }\n"
    + "      .tr { text-anchor: end; dominant-baseline: auto; }\n"
    + "      .tm { dominant-baseline: auto; }\n"
    + "      .bl { text-anchor: start; dominant-baseline: hanging; }\n"
    + "      .br { text-anchor: end; dominant-baseline: hanging; }\n"
    + "      .bm { dominant-baseline: hanging; }\n"

  const StyleOpen: string := "    <style>\n"
  const StyleClose: string := "    </style>\n"

  /** Everything before the body: the opening tag, the closed style element
      and the indentation of the body's placeholder. */
  const SvgHead: string := SvgOpen + StyleOpen + StyleRules + StyleClose + "    "

  const SvgClose: string := "\n  </svg>"

  /** The document: the opening tag and style sheet `head`, then the body, or
      the text `undefined` when there is none, then the closing tag. */
  function Document(head: string, body: Option<seq<Element>>): string
  {
    head + BodyOrUndefined(body) + SvgClose
  }

  /** `${vennBody_(...)}`: the body text, or `undefined`. */
  function BodyOrUndefined(body: Option<seq<Element>>): string
  {
    match body case Some(els) => BodyText(els) case None => "undefined"
  }

  /** The text of `doc` between a leading `head` and a trailing `tail`, if it has both. */
  function Between(doc: string, head: string, tail: string): (r: Option<string>)
    ensures r.Some? ==> doc == head + r.value + tail
  {
    if |head| + |tail| <= |doc| && doc[..|head|] == head && doc[|doc| - |tail|..] == tail then
      var mid := doc[|head|..|doc| - |tail|];
      assert doc == doc[..|head|] + mid + doc[|doc| - |tail|..];
      Some(mid)
    else None
  }

  /** `vennSvg_`: the body placed between the header and the closing tag. */
  function VennSvg(labels: map<string, string>, names: seq<string>, colors: seq<string> := DefaultColors): string
  {
    Document(SvgHead, VennBody(labels, names, colors))
  }

  /** The body text, or `undefined`, is read back from between the header and the closing tag. */
  lemma SvgReadBack(labels: map<string, string>, names: seq<string>, colors: seq<string>)
    ensures Between(VennSvg(labels, names, colors), SvgHead, SvgClose)
         == Some(BodyOrUndefined(VennBody(labels, names, colors)))
  {
    BetweenFrame(SvgHead, BodyOrUndefined(VennBody(labels, names, colors)), SvgClose);
  }

  /** Text framed by `head` and `tail` is read back between them. */
  lemma BetweenFrame(head: string, mid: string, tail: string)
    ensures Between(head + mid + tail, head, tail) == Some(mid)
  {
    var doc := head + mid + tail;
    assert doc[..|head|] == head;
    assert doc[|doc| - |tail|..] == tail;
    assert doc[|head|..|doc| - |tail|] == mid;
  }

  /** The layout of the document: the opening tag, a style element that is
      opened and closed, then the body after it, then the closing tag. */
  lemma SvgLayout(labels: map<string, string>, names: seq<string>, colors: seq<string>)
    ensures var svg := VennSvg(labels, names, colors);
      var style := |SvgOpen| + |StyleOpen| + |StyleRules|;
      At(svg, SvgOpen, 0) && At(svg, StyleOpen, |SvgOpen|) && At(svg, StyleClose, style)
      && At(svg, BodyOrUndefined(VennBody(labels, names, colors)), style + |StyleClose| + 4)
      && At(svg, SvgClose, |svg| - |SvgClose|)
  {
    var body := BodyOrUndefined(VennBody(labels, names, colors));
    FrameAt(SvgOpen, StyleOpen, StyleRules, StyleClose, body, VennSvg(labels, names, colors));
  }

  /** Where each piece of `open + so + rules + sc + "    " + body + SvgClose` lies. */
  lemma FrameAt(open: string, so: string, rules: string, sc: string, body: string, svg: string)
    requires svg == open + so + rules + sc + "    " + body + SvgClose
    ensures var style := |open| + |so| + |rules|;
      At(svg, open, 0) && At(svg, so, |open|) && At(svg, sc, style)
      && At(svg, body, style + |sc| + 4) && At(svg, SvgClose, |svg| - |SvgClose|)
  {
    var style := |open| + |so| + |rules|;
    assert svg[..|open|] == open;
    assert svg[|open|..|open| + |so|] == so;
    assert svg[style..style + |sc|] == sc;
    assert svg[style + |sc| + 4..style + |sc| + 4 + |body|] == body;
    assert svg[|svg| - |SvgClose|..] == SvgClose;
  }

  /** Each line sits in the text, in order. */
  lemma {:induction false} LineInLines(ms: seq<string>, i: nat)
    requires i < |ms|
    ensures exists o :: At(Lines(ms), ms[i], o)
  {
    var rest := Lines(ms[1..]);
    var head := "\n    " + ms[0];
    assert Lines(ms) == head + rest;
    if i == 0 {
      assert Lines(ms)[5..5 + |ms[0]|] == ms[0];
      assert At(Lines(ms), ms[i], 5);
    } else {
      LineInLines(ms[1..], i - 1);
      var o: nat :| At(rest, ms[1..][i - 1], o);
      assert Lines(ms)[|head| + o..|head| + o + |ms[i]|] == rest[o..o + |ms[i]|];
      assert At(Lines(ms), ms[i], |head| + o);
    }
  }

  /** Every element's markup is in a document built around the body. */
  lemma ElementInDocument(head: string, els: seq<Element>, i: nat)
    requires i < |els|
    ensures exists o :: |head| <= o && At(Document(head, Some(els)), Markup(els[i]), o)
  {
    var ms := seq(|els|, k requires 0 <= k < |els| => Markup(els[k]));
    var e := Markup(els[i]);
    assert ms[i] == e;
    assert BodyText(els) == Lines(ms);
    LineInLines(ms, i);
    var o: nat :| At(Lines(ms), e, o);
    InfixWithin(head, Lines(ms), SvgClose, e, o);
    assert Document(head, Some(els)) == head + Lines(ms) + SvgClose;
    assert At(Document(head, Some(els)), e, |head| + o);
  }

  lemma InfixWithin(pre: string, mid: string, post: string, part: string, o: nat)
    requires At(mid, part, o)
    ensures At(pre + mid + post, part, |pre| + o)
  {
    assert (pre + mid + post)[|pre| + o..|pre| + o + |part|] == mid[o..o + |part|];
  }

  /** Every drawn element is in the document. */
  lemma ElementInSvg(labels: map<string, string>, names: seq<string>, colors: seq<string>, i: nat)
    requires 2 <= |names| <= 6 && i < 2 * |names| + Pow2(|names|) - 1
    ensures exists o :: At(VennSvg(labels, names, colors), Markup(VennBody(labels, names, colors).value[i]), o)
  {
    ElementInText(VennSvg(labels, names, colors), SvgHead, VennBody(labels, names, colors).value, i);
  }

  lemma ElementInText(svg: string, head: string, els: seq<Element>, i: nat)
    requires svg == Document(head, Some(els)) && i < |els|
    ensures exists o :: |head| <= o && At(svg, Markup(els[i]), o)
  {
    ElementInDocument(head, els, i);
  }

  /** Without 2 to 6 names the document holds the text `undefined` in place of a body. */
  lemma UnsupportedSetCount(labels: map<string, string>, names: seq<string>, colors: seq<string>)
    requires |names| < 2 || |names| > 6
    ensures VennSvg(labels, names, colors) == Document(SvgHead, None)
  {
  }
}
