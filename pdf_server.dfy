/**
 * The PDF export service (`POST /api/generate-pdf`): it wraps the frame's
 * HTML fragment in a standalone page, lets a headless browser render it,
 * takes one screenshot through a chain of four fallback strategies, and
 * fits that image on a page no larger than A4 minus a 20-point margin.
 *
 * The browser is not modelled: what each locator, bounding box and
 * screenshot call answers is a parameter, and so are the stylesheet's
 * text, the PNG decoder and the clock.
 */
module PdfServer {
  import opened Js

  type Bytes = seq<bv8>

  /** An image dimension as the decoder reports it: at least one pixel. */
  type Pos = n: int | n > 0 witness 1

  // ---------------------------------------------------------------------------
  // The request
  // ---------------------------------------------------------------------------

  /** The JSON body: each field may be absent. */
  datatype Request = Request(html: Option<string>, width: Option<int>, height: Option<int>, gridType: Option<string>)

  function FrameWidth(req: Request): (w: int)
    ensures req.width.None? ==> w == 320
    ensures req.width.Some? ==> w == req.width.value
  {
    if req.width.Some? then req.width.value else 320
  }

  function FrameHeight(req: Request): (h: int)
    ensures req.height.None? ==> h == 320
    ensures req.height.Some? ==> h == req.height.value
  {
    if req.height.Some? then req.height.value else 320
  }

  function GridType(req: Request): (g: string)
    ensures req.gridType.None? ==> g == "2x4"
    ensures req.gridType.Some? ==> g == req.gridType.value
  {
    if req.gridType.Some? then req.gridType.value else "2x4"
  }

  // ---------------------------------------------------------------------------
  // The standalone page
  // ---------------------------------------------------------------------------

  /** Lines 1 to 19 of the page: the document head and the base rules. */
  const BaseRules: seq<string> := [
    "",
    "<!DOCTYPE html>",
    "<html>",
    "<head>",
    "    <meta charset=\"UTF-8\">",
    "    <style>",
    "        * {",
    "            margin: 0;",
    "            padding: 0;",
    "            box-sizing: border-box;",
    "        }",
    "        body {",
    "            display: flex;",
    "            justify-content: center;",
    "            align-items: center;",
    "            min-height: 100vh;",
    "            background: #ffffff;",
    "            padding: 20px;",
    "        }"
  ]

  /** The rule that gives the container the requested size in CSS pixels. */
  function ContainerRule(w: int, h: int): seq<string> {
    [
      "        .frame-container {",
      "            width: " + IntToString(w) + "px;",
      "            height: " + IntToString(h) + "px;",
      "            background: #ffffff;",
      "        }"
    ]
  }

  /** Hides the editing controls with `!important`. */
  const HideRules: seq<string> := [
    "        /* Hide buttons */",
    "        .remove-button,",
    "        .button-color-btn {",
    "            display: none !important;",
    "            visibility: hidden !important;",
    "        }"
  ]

  const ContainerOpen := "    <div class=\"frame-container\">"

  const ContainerClose := "    </div>"

  /** The lines of the page: the rules, the application's CSS, and the fragment inside the container. */
  function PageLines(html: string, w: int, h: int, css: string): seq<string> {
    BaseRules + ContainerRule(w, h) + HideRules +
    [
      "        /* Include original CSS */",
      "        " + css,
      "    </style>",
      "</head>",
      "<body>",
      ContainerOpen,
      "        " + html,
      ContainerClose,
      "</body>",
      "</html>",
      ""
    ]
  }

  /** The page handed to the browser. */
  function Template(html: string, w: int, h: int, css: string): string {
    Join(PageLines(html, w, h, css), '\n')
  }

  /**
   * The container is sized to the request, the hiding rules come before the
   * application's CSS (so they are in force unless that CSS overrides an
   * `!important` rule), and the fragment sits on its own line directly
   * inside the container element.
   */
  lemma TemplateLayout(html: string, w: int, h: int, css: string)
    ensures var ls := PageLines(html, w, h, css);
            && |ls| == 41
            && ls[19] == "        .frame-container {"
            && ls[20] == "            width: " + IntToString(w) + "px;"
            && ls[21] == "            height: " + IntToString(h) + "px;"
            && ls[24..30] == HideRules
            && ls[31] == "        " + css
            && ls[35] == ContainerOpen && ls[36] == "        " + html && ls[37] == ContainerClose
  {
    var ls := PageLines(html, w, h, css);
    var head := BaseRules + ContainerRule(w, h);
    assert |head| == 24;
    assert ls == head + HideRules + ls[30..];
    assert ls[19..24] == ContainerRule(w, h);
  }

  /** The browser viewport: the frame plus 20 pixels of padding on each side. */
  function Viewport(w: int, h: int): (v: (int, int))
    ensures v.0 - w == 40 && v.1 - h == 40
  {
    (w + 40, h + 40)
  }

  // ---------------------------------------------------------------------------
  // Image requests
  // ---------------------------------------------------------------------------

  /** What the route handler does with an intercepted request. */
  datatype RouteAction = ContinueTo(url: string) | Continue | Abort

  /**
   * An image request whose URL is a site-relative `/images/` or
   * `/ican/images/` path is redirected to the development server; when that
   * redirect fails it is aborted. Any other request continues unchanged, or
   * is aborted when continuing fails.
   */
  function RouteImage(url: string, resourceType: string, redirectFails: bool, continueFails: bool): (a: RouteAction)
  {
    if (resourceType == "image" || Contains(url, "/images/") || Contains(url, "/ican/images/"))
       && (StartsWith(url, "/images/") || StartsWith(url, "/ican/images/"))
    then (if redirectFails then Abort else ContinueTo("http://localhost:3000" + url))
    else (if continueFails then Abort else Continue)
  }

  /** The resource-type and substring tests are implied by the prefix test: only the prefix decides a redirect. */
  lemma RouteByPrefix(url: string, resourceType: string, redirectFails: bool, continueFails: bool)
    ensures var a := RouteImage(url, resourceType, redirectFails, continueFails);
            && (a.ContinueTo? <==> !redirectFails && (StartsWith(url, "/images/") || StartsWith(url, "/ican/images/")))
            && (a.ContinueTo? ==> a.url == "http://localhost:3000" + url)
            && (a.Continue? <==> !continueFails && !StartsWith(url, "/images/") && !StartsWith(url, "/ican/images/"))
  {
    if StartsWith(url, "/images/") {
      ContainsAt(url, 0, "/images/");
    } else if StartsWith(url, "/ican/images/") {
      ContainsAt(url, 0, "/ican/images/");
    }
  }

  /** A redirected request asks the development server for the very same path. */
  lemma RedirectKeepsPath(url: string, resourceType: string)
    requires RouteImage(url, resourceType, false, false).ContinueTo?
    ensures var u := RouteImage(url, resourceType, false, false).url;
            StartsWith(u, "http://localhost:3000") && u[|"http://localhost:3000"|..] == url
  {
  }

  // ---------------------------------------------------------------------------
  // The capture chain
  // ---------------------------------------------------------------------------

  /** `locator.count()`: a number of matches, or an exception. */
  datatype Count = Matches(n: nat) | CountRaised(reason: string)

  /** `bounding_box()`: a box, `None`, or an exception. */
  datatype BoxResult = Box | NoBox | BoxRaised(reason: string)

  /** One screenshot call: PNG bytes (possibly empty) or an exception. */
  datatype Shot = Png(bytes: Bytes) | ShotRaised(reason: string)

  /** What the page answers, for one selector, to each call a strategy may make on it. */
  datatype Probe = Probe(count: Count, box: BoxResult, clip: Shot, element: Shot)

  /** The effect of one strategy on the two variables it may set. */
  datatype Step = Took(bytes: Bytes) | Failed(reason: string) | Skipped

  function ShotStep(s: Shot): (r: Step)
    ensures s.Png? <==> r.Took?
    ensures s.Png? ==> r.bytes == s.bytes
    ensures s.ShotRaised? ==> r == Failed(s.reason)
  {
    match s
    case Png(b) => Took(b)
    case ShotRaised(e) => Failed(e)
  }

  /**
   * Method 1, `.frame-container`: a clipped page screenshot when the element
   * has a bounding box, otherwise the element's own screenshot; a failure of
   * the box lookup is a failure of the strategy.
   */
  function ContainerStep(p: Probe): (r: Step)
    ensures p.count == Matches(0) ==> r == Skipped
    ensures p.count.Matches? && p.count.n > 0 && p.box == Box ==> r == ShotStep(p.clip)
    ensures p.count.Matches? && p.count.n > 0 && p.box == NoBox ==> r == ShotStep(p.element)
    ensures p.count.Matches? && p.count.n > 0 && p.box.BoxRaised? ==> r == Failed(p.box.reason)
    ensures p.count.CountRaised? ==> r == Failed(p.count.reason)
  {
    match p.count
    case CountRaised(e) => Failed(e)
    case Matches(n) =>
      if n == 0 then Skipped
      else match p.box
        case BoxRaised(e) => Failed(e)
        case Box => ShotStep(p.clip)
        case NoBox => ShotStep(p.element)
  }

  /**
   * Method 2, `#key`: a clipped screenshot, falling back to the element's
   * screenshot when there is no box or the box or clip call raises.
   */
  function KeyStep(p: Probe): (r: Step)
    ensures p.count == Matches(0) ==> r == Skipped
    ensures p.count.Matches? && p.count.n > 0 && p.box == Box && p.clip.Png? ==> r == Took(p.clip.bytes)
    ensures p.count.Matches? && p.count.n > 0 && !(p.box == Box && p.clip.Png?) ==> r == ShotStep(p.element)
    ensures p.count.CountRaised? ==> r == Failed(p.count.reason)
  {
    match p.count
    case CountRaised(e) => Failed(e)
    case Matches(n) =>
      if n == 0 then Skipped
      else if p.box == Box && p.clip.Png? then Took(p.clip.bytes)
      else ShotStep(p.element)
  }

  /** Method 3, `.layout`: the element's screenshot when there is one. */
  function LayoutStep(p: Probe): (r: Step)
    ensures p.count == Matches(0) ==> r == Skipped
    ensures p.count.Matches? && p.count.n > 0 ==> r == ShotStep(p.element)
    ensures p.count.CountRaised? ==> r == Failed(p.count.reason)
  {
    match p.count
    case CountRaised(e) => Failed(e)
    case Matches(n) => if n == 0 then Skipped else ShotStep(p.element)
  }

  /** The two variables the chain keeps: the last screenshot taken and the last failure recorded. */
  datatype Capture = Capture(screenshot: Option<Bytes>, error: Option<string>)

  /** Python truthiness of the screenshot: present and not empty. */
  predicate HasImage(c: Capture) {
    c.screenshot.Some? && |c.screenshot.value| > 0
  }

  /** A step that produces a usable image. */
  predicate Yields(s: Step) {
    s.Took? && |s.bytes| > 0
  }

  /** A strategy runs only while no usable screenshot exists. */
  function Attempt(c: Capture, s: Step): (r: Capture)
    ensures HasImage(c) ==> r == c
    ensures !HasImage(c) ==> (HasImage(r) <==> Yields(s))
    ensures !HasImage(c) && s.Took? ==> r.screenshot == Some(s.bytes)
  {
    if HasImage(c) then c
    else match s
      case Took(b) => c.(screenshot := Some(b))
      case Failed(e) => c.(error := Some(e))
      case Skipped => c
  }

  /** The strategies in order, from the state `c`. */
  function Run(c: Capture, steps: seq<Step>): Capture
    decreases |steps|
  {
    if |steps| == 0 then c else Run(Attempt(c, steps[0]), steps[1..])
  }

  /** The chain starts with no screenshot and no error. */
  const Start := Capture(None, None)

  /** Once a usable image exists, the remaining strategies change nothing. */
  lemma {:induction false} RunStops(c: Capture, steps: seq<Step>)
    requires HasImage(c)
    ensures Run(c, steps) == c
    decreases |steps|
  {
    if |steps| > 0 {
      RunStops(Attempt(c, steps[0]), steps[1..]);
    }
  }

  /**
   * From a state without an image, the chain ends with an image exactly
   * when some strategy yields one, and the image is the first one yielded.
   */
  lemma {:induction false} RunFirstImage(c: Capture, steps: seq<Step>, i: nat)
    requires !HasImage(c)
    requires i < |steps| && Yields(steps[i]) && forall m :: 0 <= m < i ==> !Yields(steps[m])
    ensures Run(c, steps).screenshot == Some(steps[i].bytes)
    decreases i
  {
    if i == 0 {
      RunStops(Attempt(c, steps[0]), steps[1..]);
    } else {
      assert !Yields(steps[0]);
      forall m | 0 <= m < i - 1 ensures !Yields(steps[1..][m]) {
        assert steps[1..][m] == steps[m + 1];
      }
      RunFirstImage(Attempt(c, steps[0]), steps[1..], i - 1);
    }
  }

  /** From a state without an image, no strategy yielding one leaves the chain without an image. */
  lemma {:induction false} RunNoImage(c: Capture, steps: seq<Step>)
    requires !HasImage(c)
    requires forall m :: 0 <= m < |steps| ==> !Yields(steps[m])
    ensures !HasImage(Run(c, steps))
    decreases |steps|
  {
    if |steps| > 0 {
      assert !Yields(steps[0]);
      forall m | 0 <= m < |steps| - 1 ensures !Yields(steps[1..][m]) {
        assert steps[1..][m] == steps[m + 1];
      }
      RunNoImage(Attempt(c, steps[0]), steps[1..]);
    }
  }

  /** The chain of the endpoint: an image exactly when some strategy yields one, the first such. */
  lemma ChainImage(steps: seq<Step>)
    ensures HasImage(Run(Start, steps)) <==> exists i :: 0 <= i < |steps| && Yields(steps[i])
    ensures forall i :: 0 <= i < |steps| && Yields(steps[i]) && (forall m :: 0 <= m < i ==> !Yields(steps[m]))
              ==> Run(Start, steps).screenshot == Some(steps[i].bytes)
  {
    forall i | 0 <= i < |steps| && Yields(steps[i]) && (forall m :: 0 <= m < i ==> !Yields(steps[m]))
      ensures Run(Start, steps).screenshot == Some(steps[i].bytes)
    {
      RunFirstImage(Start, steps, i);
    }
    if exists i :: 0 <= i < |steps| && Yields(steps[i]) {
      var i := FirstYield(steps);
      RunFirstImage(Start, steps, i);
    } else {
      RunNoImage(Start, steps);
    }
  }

  /** The index of the first step that yields an image. */
  lemma {:induction false} FirstYield(steps: seq<Step>) returns (i: nat)
    requires exists i :: 0 <= i < |steps| && Yields(steps[i])
    ensures i < |steps| && Yields(steps[i]) && forall m :: 0 <= m < i ==> !Yields(steps[m])
    decreases |steps|
  {
    if Yields(steps[0]) {
      i := 0;
    } else {
      var k :| 0 <= k < |steps| && Yields(steps[k]);
      assert steps[1..][k - 1] == steps[k];
      var j := FirstYield(steps[1..]);
      i := j + 1;
      forall m | 0 < m < i ensures !Yields(steps[m]) {
        assert steps[m] == steps[1..][m - 1];
      }
    }
  }

  /** Method 1, `.frame-container`, from a state without an image. */
  method TryContainer(p: Probe, screenshot: Option<Bytes>, screenshotError: Option<string>)
    returns (shot: Option<Bytes>, error: Option<string>)
    requires !HasImage(Capture(screenshot, screenshotError))
    ensures Capture(shot, error) == Attempt(Capture(screenshot, screenshotError), ContainerStep(p))
  {
    shot, error := screenshot, screenshotError;
    match p.count {
      case CountRaised(e) => error := Some(e);
      case Matches(n) =>
        if n > 0 {
          match p.box {
            case BoxRaised(e) => error := Some(e);
            case Box =>
              match p.clip {
                case Png(b) => shot := Some(b);
                case ShotRaised(e) => error := Some(e);
              }
            case NoBox =>
              match p.element {
                case Png(b) => shot := Some(b);
                case ShotRaised(e) => error := Some(e);
              }
          }
        }
    }
  }

  /** Method 2, `#key`, from a state without an image: an exception in the clipped attempt falls back to the element's screenshot. */
  method TryKey(p: Probe, screenshot: Option<Bytes>, screenshotError: Option<string>)
    returns (shot: Option<Bytes>, error: Option<string>)
    requires !HasImage(Capture(screenshot, screenshotError))
    ensures Capture(shot, error) == Attempt(Capture(screenshot, screenshotError), KeyStep(p))
  {
    shot, error := screenshot, screenshotError;
    match p.count {
      case CountRaised(e) => error := Some(e);
      case Matches(n) =>
        if n > 0 {
          var clipped := false;
          if p.box == Box {
            match p.clip {
              case Png(b) => shot := Some(b); clipped := true;
              case ShotRaised(_) =>
            }
          }
          if !clipped {
            match p.element {
              case Png(b) => shot := Some(b);
              case ShotRaised(e) => error := Some(e);
            }
          }
        }
    }
  }

  /** Method 3, `.layout`, from a state without an image. */
  method TryLayout(p: Probe, screenshot: Option<Bytes>, screenshotError: Option<string>)
    returns (shot: Option<Bytes>, error: Option<string>)
    requires !HasImage(Capture(screenshot, screenshotError))
    ensures Capture(shot, error) == Attempt(Capture(screenshot, screenshotError), LayoutStep(p))
  {
    shot, error := screenshot, screenshotError;
    match p.count {
      case CountRaised(e) => error := Some(e);
      case Matches(n) =>
        if n > 0 {
          match p.element {
            case Png(b) => shot := Some(b);
            case ShotRaised(e) => error := Some(e);
          }
        }
    }
  }

  /**
   * The four strategies run one after another, each only while no usable
   * screenshot exists; each records its failure in `screenshotError`.
   */
  method CaptureChain(container: Probe, key: Probe, layout: Probe, page: Shot) returns (screenshot: Option<Bytes>, screenshotError: Option<string>)
    ensures Capture(screenshot, screenshotError)
            == Run(Start, [ContainerStep(container), KeyStep(key), LayoutStep(layout), ShotStep(page)])
  {
    ghost var c0 := Start;
    screenshot, screenshotError := TryContainer(container, None, None);
    ghost var c1 := Capture(screenshot, screenshotError);
    if !(screenshot.Some? && |screenshot.value| > 0) {
      screenshot, screenshotError := TryKey(key, screenshot, screenshotError);
    }
    ghost var c2 := Capture(screenshot, screenshotError);
    assert c2 == Attempt(c1, KeyStep(key));
    if !(screenshot.Some? && |screenshot.value| > 0) {
      screenshot, screenshotError := TryLayout(layout, screenshot, screenshotError);
    }
    ghost var c3 := Capture(screenshot, screenshotError);
    assert c3 == Attempt(c2, LayoutStep(layout));
    // Method 4: the viewport
    if !(screenshot.Some? && |screenshot.value| > 0) {
      match page {
        case Png(b) => screenshot := Some(b);
        case ShotRaised(e) => screenshotError := Some(e);
      }
    }
    assert Capture(screenshot, screenshotError) == Attempt(c3, ShotStep(page));
    RunFour(ContainerStep(container), KeyStep(key), LayoutStep(layout), ShotStep(page));
  }

  /** Four strategies in a row. */
  lemma RunFour(s1: Step, s2: Step, s3: Step, s4: Step)
    ensures Run(Start, [s1, s2, s3, s4]) == Attempt(Attempt(Attempt(Attempt(Start, s1), s2), s3), s4)
  {
    var steps := [s1, s2, s3, s4];
    var c1 := Attempt(Start, s1);
    var c2 := Attempt(c1, s2);
    var c3 := Attempt(c2, s3);
    assert steps[1..] == [s2, s3, s4];
    assert [s2, s3, s4][1..] == [s3, s4];
    assert [s3, s4][1..] == [s4];
    assert Run(c3, [s4]) == Attempt(c3, s4) by {
      assert [s4][1..] == [];
    }
    assert Run(c2, [s3, s4]) == Run(c3, [s4]);
    assert Run(c1, [s2, s3, s4]) == Run(c2, [s3, s4]);
  }

  // ---------------------------------------------------------------------------
  // Fitting the image on the page
  // ---------------------------------------------------------------------------

  /** A4 in points: 21 cm by 29.7 cm at 72 points to the inch. */
  const A4Width: real := 75600.0 / 127.0
  const A4Height: real := 106920.0 / 127.0

  /** The largest page: A4 less a 20-point margin on each side. */
  const MaxWidth: real := A4Width - 40.0
  const MaxHeight: real := A4Height - 40.0

  datatype PageSize = PageSize(width: real, height: real)

  /** Wide images take the full width, the others the full height. */
  function Fit(w: Pos, h: Pos): (p: PageSize)
    ensures p.width > 0.0 && p.height > 0.0
  {
    var ratio := w as real / h as real;
    if ratio > MaxWidth / MaxHeight then PageSize(MaxWidth, MaxWidth / ratio)
    else PageSize(MaxHeight * ratio, MaxHeight)
  }

  /** The page fits within the bounds, keeps the image's aspect ratio, and reaches one bound. */
  lemma FitWithin(w: Pos, h: Pos)
    ensures var p := Fit(w, h);
            && p.width <= MaxWidth && p.height <= MaxHeight
            && p.width * h as real == p.height * w as real
            && (p.width == MaxWidth || p.height == MaxHeight)
  {
    var ratio := w as real / h as real;
    var bound := MaxWidth / MaxHeight;
    assert ratio * h as real == w as real;
    assert bound * MaxHeight == MaxWidth;
    if ratio > bound {
      var ph := MaxWidth / ratio;
      assert ph * ratio == MaxWidth;
      assert ph * ratio < MaxHeight * ratio by {
        assert MaxHeight * ratio > MaxHeight * bound;
      }
      assert MaxWidth * h as real == ph * w as real by {
        assert ph * w as real == ph * (ratio * h as real);
      }
    } else {
      assert MaxHeight * ratio <= MaxHeight * bound;
      assert MaxHeight * ratio * h as real == MaxHeight * w as real;
    }
  }

  /** Scaling the image scales nothing on the page: only the ratio matters. */
  lemma FitScaleFree(w: Pos, h: Pos, k: Pos)
    ensures Fit(k * w, k * h) == Fit(w, h)
  {
    assert (k * w) as real / (k * h) as real == w as real / h as real by {
      assert (k * w) as real == k as real * w as real;
      assert (k * h) as real == k as real * h as real;
    }
  }

  // ---------------------------------------------------------------------------
  // The endpoint
  // ---------------------------------------------------------------------------

  /** What the PNG decoder makes of the screenshot. */
  datatype Image = Decoded(width: Pos, height: Pos) | Undecodable(reason: string)

  datatype Response =
    | BadRequest(error: string)
    | ServerError(error: string)
    | PdfFile(filename: string, page: PageSize)

  /** What the headless browser is given. */
  datatype Session = Session(viewport: (int, int), document: string)

  /** The download name: the grid type and the whole seconds of the clock. */
  function Filename(gridType: string, seconds: int): string {
    "board-design-" + gridType + "-" + IntToString(seconds) + ".pdf"
  }

  /** The download name carries the grid type and a timestamp that reads back as the clock's seconds. */
  lemma FilenameParts(gridType: string, seconds: int)
    ensures var f := Filename(gridType, seconds);
            var p := "board-design-" + gridType + "-";
            var t := IntToString(seconds);
            && f[..|p|] == p
            && ParseInt(f[|p|..|p| + |t|]) == Some(seconds)
            && f[|p| + |t|..] == ".pdf"
  {
    var p := "board-design-" + gridType + "-";
    var t := IntToString(seconds);
    assert Filename(gridType, seconds) == p + t + ".pdf";
    ParseIntToString(seconds);
  }

  /**
   * `generate_pdf`: a missing or empty fragment is refused before any browser
   * is started; otherwise the page is rendered at the frame size plus
   * padding, the capture chain runs, the browser is closed, and the image is
   * fitted on the page. A capture chain that ends without an image answers
   * 500 "Failed to capture screenshot"; a decoder failure answers 500 with
   * the decoder's message.
   */
  method GeneratePdf(req: Request, css: string, container: Probe, key: Probe, layout: Probe, page: Shot,
                     decode: Bytes -> Image, seconds: int)
    returns (session: Option<Session>, closed: bool, resp: Response)
    ensures !Truthy(req.html) <==> resp == BadRequest("HTML content is required")
    ensures !Truthy(req.html) ==> session.None?
    ensures Truthy(req.html) ==> session == Some(Session(Viewport(FrameWidth(req), FrameHeight(req)),
                                                         Template(req.html.value, FrameWidth(req), FrameHeight(req), css)))
    ensures closed <==> session.Some?
    ensures var c := Run(Start, [ContainerStep(container), KeyStep(key), LayoutStep(layout), ShotStep(page)]);
            Truthy(req.html) ==>
              (!HasImage(c) ==> resp == ServerError("Failed to capture screenshot"))
              && (HasImage(c) && decode(c.screenshot.value).Undecodable? ==> resp == ServerError(decode(c.screenshot.value).reason))
              && (HasImage(c) && decode(c.screenshot.value).Decoded? ==>
                    resp == PdfFile(Filename(GridType(req), seconds),
                                    Fit(decode(c.screenshot.value).width, decode(c.screenshot.value).height)))
  {
    var w := FrameWidth(req);
    var h := FrameHeight(req);
    var gridType := GridType(req);
    if !Truthy(req.html) {
      return None, false, BadRequest("HTML content is required");
    }
    var document := Template(req.html.value, w, h, css);
    session := Some(Session(Viewport(w, h), document));
    var screenshot, screenshotError := CaptureChain(container, key, layout, page);
    closed := true;
    if !(screenshot.Some? && |screenshot.value| > 0) {
      return session, closed, ServerError("Failed to capture screenshot");
    }
    match decode(screenshot.value) {
      case Undecodable(e) => resp := ServerError(e);
      case Decoded(iw, ih) => resp := PdfFile(Filename(gridType, seconds), Fit(iw, ih));
    }
  }
}
