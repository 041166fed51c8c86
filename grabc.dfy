/** The pipeline of grabc.c: `selectWindow` grabs the pointer and resolves the
    clicked window, `getWindowColor` reads the pixel under the click, and
    `main` (here `Run`) checks for the help flag and renders the colour. The
    X server is the `Server` record: every answer the program gets from it
    is a field. */
module Grabc {
  import opened Wrappers
  import opened Windows
  import opened Render

  /** A raw pixel value as `XGetPixel` returns it. */
  type Pixel = nat

  /** The 16-bit channels `XQueryColor` resolves a pixel to. */
  datatype Color16 = Color16(red: bv16, green: bv16, blue: bv16)

  /** The event `XWindowEvent` delivers on the root window. */
  datatype ButtonEvent = ButtonEvent(isButtonPress: bool, subwindow: Option<Window>, x: int, y: int)

  datatype Server = Server(
    tree: Hierarchy,                          // the windows of the default screen
    translate: Translator,                    // XTranslateCoordinates
    cursorCreated: bool,                      // XCreateFontCursor returned a cursor
    grabSucceeds: bool,                       // XGrabPointer returned GrabSuccess
    event: ButtonEvent,                       // XWindowEvent
    image: (Window, Point) -> Option<Pixel>,  // XGetImage of a 1x1 image, then XGetPixel
    queryColor: Pixel -> Color16)             // XQueryColor in the default colormap

  ghost predicate WellFormed(s: Server) {
    Valid(s.tree) && Faithful(s.tree, s.translate)
  }

  /** A step of the program: it calls `exit(status)`, or it returns `value`.
      `log` is what it wrote on standard error. */
  datatype Step<T> = Exit(status: int, log: string) | Continue(value: T, log: string)

  /** What `selectWindow` returns (`target`), leaves in `*x`/`*y` (`coords`,
      `None` when they are left unwritten), and whether it released the grab. */
  datatype Selection = Selection(target: Option<Window>, coords: Option<Point>, ungrabbed: bool)

  /** How the process ends. */
  datatype Termination = Termination(status: int, stdout: string, stderr: string)

  const HelpBanner := "grabc 1.1 by Muhammad A Muquit\n"
  const DisplayFailed := "Failed to open local DISPLAY!'n"
  const CursorFailed := "Failed to create Cross Cursor!\n"
  const GrabFailed := "Failed to grab mouse!\n"
  const RootFallback := "Failed to get target window, getting root window!\n"
  const ColorFailed := "Failed to grab color!\n"

  // ------------------------------------------------------------ selectWindow

  function Selected(s: Server): (r: Step<Selection>)
    requires WellFormed(s)
    ensures r.Exit? <==> s.cursorCreated && !s.grabSucceeds
    ensures r.Exit? ==> r == Exit(1, GrabFailed)
    ensures !s.cursorCreated ==> r == Continue(Selection(None, None, false), CursorFailed)
    // after a grab and a button press the target is never null and the grab is released
    ensures s.cursorCreated && s.grabSucceeds && s.event.isButtonPress ==>
              r.Continue? && r.value.target.Some? && r.value.ungrabbed
    // the root fallback keeps the click coordinates
    ensures r.Continue? && r.value.target == Some(s.tree.root) && s.event.subwindow.None? ==>
              r.value.coords == Some(Point(s.event.x, s.event.y))
    ensures r.Continue? && r.value.ungrabbed <==> s.cursorCreated && s.grabSucceeds && s.event.isButtonPress
    // a reported subwindow: target and coordinates are what the descent from the root returns
    ensures s.cursorCreated && s.grabSucceeds && s.event.isButtonPress && s.event.subwindow.Some? ==>
              var f := SubWindow(s.tree, s.translate, Some(s.tree.root), s.event.subwindow, Point(s.event.x, s.event.y));
              r == Continue(Selection(f.window, f.coords, true), "")
  {
    if !s.cursorCreated then Continue(Selection(None, None, false), CursorFailed)
    else if !s.grabSucceeds then Exit(1, GrabFailed)
    else if !s.event.isButtonPress then
      Continue(Selection(None, Some(Point(s.event.x, s.event.y)), false), "")
    else
      var f := SubWindow(s.tree, s.translate, Some(s.tree.root), s.event.subwindow, Point(s.event.x, s.event.y));
      if f.window.None? then Continue(Selection(Some(s.tree.root), f.coords, true), RootFallback)
      else Continue(Selection(f.window, f.coords, true), "")
  }

  /** `selectWindow(display, x, y)`. */
  method SelectWindow(s: Server) returns (r: Step<Selection>)
    requires WellFormed(s)
    ensures r == Selected(s)
  {
    var target: Option<Window> := None;
    if !s.cursorCreated {
      return Continue(Selection(None, None, false), CursorFailed);
    }
    var root := s.tree.root;
    if !s.grabSucceeds {
      return Exit(1, GrabFailed);
    }
    var log := "";
    var ungrabbed := false;
    var coords := Some(Point(s.event.x, s.event.y));
    if s.event.isButtonPress {
      target, coords := FindSubWindow(s.tree, s.translate, Some(root), s.event.subwindow, s.event.x, s.event.y);
      if target.None? {
        log := RootFallback;
        target := Some(root);
      }
      ungrabbed := true;
    }
    r := Continue(Selection(target, coords, ungrabbed), log);
  }

  /** A click on the bare root window: the root is the target, at the click
      coordinates. */
  lemma BackgroundClick(s: Server, stale: Point)
    requires WellFormed(s) && s.cursorCreated && s.grabSucceeds && s.event.isButtonPress
    requires s.event.subwindow.None?
    ensures Selected(s) == Continue(Selection(Some(s.tree.root), Some(Point(s.event.x, s.event.y)), true), RootFallback)
    ensures WindowColor(s, stale) == Continue(s.image(s.tree.root, Point(s.event.x, s.event.y)), RootFallback)
  {
  }

  /** When the event's subwindow is a window of the tree, the target is a
      window of the tree: the root or one of its descendants. */
  lemma {:induction false} TargetUnderRoot(s: Server)
    requires WellFormed(s) && s.cursorCreated && s.grabSucceeds && s.event.isButtonPress
    requires s.event.subwindow.None? || s.event.subwindow.value in s.tree.level
    ensures Selected(s).Continue? && Selected(s).value.target.Some?
    ensures IsAncestorOrSelf(s.tree, s.tree.root, Selected(s).value.target.value)
  {
    var w := Selected(s).value.target.value;
    if s.event.subwindow.Some? {
      DescendantInTree(s.tree, s.event.subwindow.value, w);
      UnderRoot(s.tree, w);
    } else {
      UnderRoot(s.tree, s.tree.root);
    }
  }

  // ------------------------------------------------------------ getWindowColor

  /** What `getWindowColor` yields: `Some(pixel)` where it returns True after
      storing `color->pixel`, `None` where it returns False. `stale` stands for
      whatever its `x`, `y` hold when `selectWindow` leaves them unwritten. */
  function WindowColor(s: Server, stale: Point): (r: Step<Option<Pixel>>)
    requires WellFormed(s)
    ensures r.Exit? <==> Selected(s).Exit?
    ensures r.Exit? ==> r == Exit(1, GrabFailed)
    ensures r.Continue? ==> r.log == Selected(s).log
    // a pixel is read only from the selected window, at the selected point
    ensures r.Continue? && r.value.Some? ==>
              Selected(s).value.target.Some? &&
              r.value == s.image(Selected(s).value.target.value, Selected(s).value.coords.GetOr(stale))
    // a null target or a null image: failure
    ensures r.Continue? && r.value.None? ==>
              Selected(s).value.target.None? ||
              s.image(Selected(s).value.target.value, Selected(s).value.coords.GetOr(stale)).None?
  {
    match Selected(s)
    case Exit(status, log) => Exit(status, log)
    case Continue(sel, log) =>
      if sel.target.None? then Continue(None, log)
      else
        match s.image(sel.target.value, sel.coords.GetOr(stale))
        case None => Continue(None, log)
        case Some(pixel) => Continue(Some(pixel), log)
  }

  /** `getWindowColor(display, color)`. */
  method GetWindowColor(s: Server, stale: Point) returns (r: Step<Option<Pixel>>)
    requires WellFormed(s)
    ensures r == WindowColor(s, stale)
  {
    var selection := SelectWindow(s);
    if selection.Exit? {
      return Exit(selection.status, selection.log);
    }
    var target := selection.value.target;
    if target.None? {
      return Continue(None, selection.log);
    }
    var ximage := s.image(target.value, selection.value.coords.GetOr(stale));
    if ximage.None? {
      return Continue(None, selection.log);
    }
    r := Continue(Some(ximage.value), selection.log);
  }

  // ------------------------------------------------------------ main

  /** `strncmp(arg, "-h", 2) == 0`, the end of the sequence playing the
      terminating NUL. */
  predicate IsHelpFlag(arg: string) {
    StrNEqual(arg, "-h", 2)
  }

  function CharAt(s: string, i: nat): char {
    if i < |s| then s[i] else '\0'
  }

  /** `strncmp(a, b, n) == 0`: the first `n` characters agree, or they agree
      up to and including a NUL. */
  predicate StrNEqual(a: string, b: string, n: nat)
    decreases n
  {
    n == 0 || (CharAt(a, 0) == CharAt(b, 0) && (CharAt(a, 0) == '\0' || StrNEqual(a[1..], b[1..], n - 1)))
  }

  /** The help test is a prefix test. */
  lemma HelpFlagIsPrefix(arg: string)
    ensures IsHelpFlag(arg) <==> |arg| >= 2 && arg[..2] == "-h"
  {
    if |arg| >= 2 && arg[..2] == "-h" {
      assert arg[0] == '-' && arg[1] == 'h';
    }
  }

  /** Some argument after the program name is a help flag. */
  predicate AsksForHelp(argv: seq<string>) {
    exists i | 1 <= i < |argv| :: IsHelpFlag(argv[i])
  }

  /** How a run of grabc ends, given its arguments, whether the display
      opens, and the server's answers. */
  function Outcome(argv: seq<string>, displayOpens: bool, s: Server, stale: Point): (r: Termination)
    requires WellFormed(s)
    ensures AsksForHelp(argv) ==> r == Termination(1, "", HelpBanner)
    ensures !AsksForHelp(argv) && !displayOpens ==> r == Termination(1, "", DisplayFailed)
    // a failed grab exits with 1; every other run returns 0, even when no colour was read
    ensures r.status == (if AsksForHelp(argv) || !displayOpens || (s.cursorCreated && !s.grabSucceeds) then 1 else 0)
    // printed colour: a #rrggbb line, with the same three values in decimal at the end of stderr
    ensures r.stdout != [] ==>
              IsHexColorLine(r.stdout) &&
              var v := HexLineValues(r.stdout);
              EndsWith(r.stderr, DecimalLine(v[0], v[1], v[2]))
    // no colour: the failure is reported on stderr, unless the run exited
    ensures r.stdout == [] && r.status == 0 ==> EndsWith(r.stderr, ColorFailed)
    ensures r.stdout != [] <==> !AsksForHelp(argv) && displayOpens && WindowColor(s, stale).Continue? && WindowColor(s, stale).value.Some?
  {
    if AsksForHelp(argv) then Termination(1, "", HelpBanner)
    else if !displayOpens then Termination(1, "", DisplayFailed)
    else
      match WindowColor(s, stale)
      case Exit(status, log) => Termination(status, "", log)
      case Continue(None, log) => Termination(0, "", log + ColorFailed)
      case Continue(Some(pixel), log) =>
        var c := s.queryColor(pixel);
        var r, g, b := Channel8(c.red), Channel8(c.green), Channel8(c.blue);
        Termination(0, HexLine(r, g, b), log + DecimalLine(r, g, b))
  }

  /** `main(argc, argv)`. */
  method Run(argv: seq<string>, displayOpens: bool, s: Server, stale: Point) returns (t: Termination)
    requires WellFormed(s)
    ensures t == Outcome(argv, displayOpens, s, stale)
  {
    var i := 1;
    while i < |argv|
      invariant 1 <= i
      invariant forall j | 1 <= j < i && j < |argv| :: !IsHelpFlag(argv[j])
    {
      if IsHelpFlag(argv[i]) {
        return Termination(1, "", HelpBanner);
      }
      i := i + 1;
    }
    if !displayOpens {
      return Termination(1, "", DisplayFailed);
    }
    var status := GetWindowColor(s, stale);
    match status
    case Exit(code, log) =>
      t := Termination(code, "", log);
    case Continue(None, log) =>
      t := Termination(0, "", log + ColorFailed);
    case Continue(Some(pixel), log) =>
      var color := s.queryColor(pixel);
      var r, g, b := Channel8(color.red), Channel8(color.green), Channel8(color.blue);
      t := Termination(0, HexLine(r, g, b), log + DecimalLine(r, g, b));
  }

  /** A successful run prints the queried colour, cut to 8 bits per channel,
      in hex on stdout and in decimal on stderr, and both lines read back as
      the same three values. */
  lemma PrintedColor(argv: seq<string>, s: Server, stale: Point)
    requires WellFormed(s) && !AsksForHelp(argv)
    requires WindowColor(s, stale).Continue? && WindowColor(s, stale).value.Some?
    ensures var c := s.queryColor(WindowColor(s, stale).value.value);
            var v := [Channel8(c.red), Channel8(c.green), Channel8(c.blue)];
            var t := Outcome(argv, true, s, stale);
            t.status == 0 && HexLineValues(t.stdout) == v &&
            t.stderr == WindowColor(s, stale).log + DecimalLine(v[0], v[1], v[2]) &&
            DecimalLineValues(DecimalLine(v[0], v[1], v[2])) == Some(v)
  {
    var c := s.queryColor(WindowColor(s, stale).value.value);
    DecimalLineRoundTrip(Channel8(c.red), Channel8(c.green), Channel8(c.blue));
  }

  /** The pixel cannot be read from the resolved window: no stdout, the
      failure on stderr, and still status 0. */
  lemma PixelReadFails(argv: seq<string>, s: Server, stale: Point)
    requires WellFormed(s) && !AsksForHelp(argv) && s.cursorCreated && s.grabSucceeds && s.event.isButtonPress
    requires s.image(Selected(s).value.target.value, Selected(s).value.coords.GetOr(stale)).None?
    ensures var t := Outcome(argv, true, s, stale);
            t.status == 0 && t.stdout == [] && EndsWith(t.stderr, ColorFailed)
  {
  }
}
