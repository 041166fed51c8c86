# grabc in Dafny

grabc grabs the X pointer, waits for one click, finds the window under the click
by descending the window tree, reads the pixel at that point and prints its colour
as `#rrggbb` on standard output and as `r,g,b` on standard error. This project
models the logic of `grabc.c` with the X server replaced by a record of answers
(`Grabc.Server`): the window tree of the screen, a TranslateCoordinates oracle,
the outcome of cursor creation and of the pointer grab, the delivered event, a
1x1 image read and the colormap lookup.

- `wrappers.dfy`, module `Wrappers`: `Option`. It stands for a null window handle
  and for a variable that was never written.
- `error_policy.dfy`, module `ErrorPolicy`: the forgiving error handler `MXError`.
  It uses the error codes and request opcodes of the X Window System Protocol,
  Version 11.
- `render.dfy`, module `Render`: truncating each channel with `>> 8` and the two
  output lines. Each line has a parser that reads its values back.
- `windows.dfy`, module `Windows`: the window tree and the TranslateCoordinates
  oracle. `Descend` is the specification of `findSubWindow`'s loop and
  `FindSubWindow` is the loop itself.
- `grabc.dfy`, module `Grabc`: `selectWindow`, `getWindowColor` and `main`.
  `main` is the method `Run`. Each is a method proved equal to a function:
  `Selected`, `WindowColor` and `Outcome`. The lemmas are stated about those
  functions.

Windows are positive ids. The null handle `None` (0) becomes `Option<Window>`.
In the tree, every window has a parent except the root, and a depth (`level`) of
at most `height`. The oracle may report only a child of the destination window
(`Faithful`), so the descent ends after at most `height` levels.

When the first TranslateCoordinates call of `findSubWindow` fails, `newx` and
`newy` are never written. Their indeterminate values are then stored in `*x` and
`*y` (grabc.c:238-239). The model returns `coords == None` in that case.
`getWindowColor` then reads the image at an arbitrary point, the parameter
`stale`.

Two places where the code is followed rather than a looser reading of it:
- When no child is under the point, `findSubWindow` returns the candidate with the
  point translated into the candidate's space, not the original point.
- The request forgiven with BadAccess is opcode 88, FreeColors.

## Model

| member | source | states |
|---|---|---|
| `ErrorPolicy.MXError` | grabc.c:286-326 | the handler returns False (forgive) exactly for BadAlloc on any request and for the five pairs (BadAccess, FreeColors), (BadDrawable, GetGeometry), (BadWindow, GetWindowAttributes), (BadWindow, QueryTree), (BadValue, QueryColors); True for every other pair |
| `ErrorPolicy.NotForgivenOutsideAllowList` | grabc.c:293-325 | BadAccess on a request other than 88, BadWindow on GetGeometry, and any error but BadAlloc on a request other than 3, 14, 15, 88 and 91 are not forgiven |
| `Render.Channel8` | grabc.c:107-109 | `v >> 8` of a 16-bit channel is `v / 256` and lies in 0..255 |
| `Render.Channel8Boundaries` | grabc.c:107-109 | 0, 255, 256 and 65535 truncate to 0, 0, 1 and 255 |
| `Render.HexByte` | grabc.c:110 | `%02x` of a byte is two lower-case hex digits whose value is the byte |
| `Render.HexLine` | grabc.c:110 | the stdout line is `#` plus six lower-case hex digits plus a newline, and it reads back as the three bytes |
| `Render.DecimalLine` | grabc.c:115 | the stderr line ends in a newline and, without it, splits on commas into exactly the three `%d` renderings |
| `Render.Decimal` | grabc.c:115 | `%d` of a channel is a non-empty digit string with no leading zero (0 is exactly "0") |
| `Render.DecimalRoundTrip` | grabc.c:115 | the digits printed by `%d` denote the number printed |
| `Render.DecimalLineRoundTrip` | grabc.c:115 | the stderr line `r,g,b` splits on commas and reads back as the three values |
| `Windows.ParentIsAncestor` | grabc.c:221-231 | descending into a reported child stays under the window descended from |
| `Windows.Descend` | grabc.c:219-239 | the loop ends in a descendant of the starting candidate whose last translation failed or found no child; unless nothing moved, the final window is a child, in the tree, of the window above it; the coordinates stay unwritten exactly when the very first translation fails; a failure after a descent leaves the last translated point |
| `Windows.SubWindow` | grabc.c:202-242 | a null top or candidate gives null with `*x`/`*y` unchanged; otherwise the result is never null and lies under the candidate; with no child at the first step it is the candidate at the translated point |
| `Windows.SubWindowStep` | grabc.c:221-239 | one pass of the loop: a failed translation returns the candidate with the coordinates unwritten; no child returns the candidate at the translated point; a reported child is descended into from the candidate at the translated point, which remains the result's point if the next translation fails |
| `Windows.FindSubWindow` | grabc.c:202-242 | the loop (candidate becomes top, child becomes candidate, the translated point becomes `*x`/`*y`) computes `SubWindow` |
| `Windows.NestedDescent` | grabc.c:221-241 | in a root, A, B tree a click at (50,50) that maps to (10,10) in B ends in B at (10,10) |
| `Grabc.Selected` | grabc.c:147-198 | a failed grab exits with status 1; a failed cursor creation returns null with the coordinates unwritten; after a grab and a button press the target is never null and the grab is released; the root fallback keeps the click coordinates; with a reported subwindow the target and `*x`/`*y` are exactly what `findSubWindow` from the root returns |
| `Grabc.SelectWindow` | grabc.c:130-199 | the imperative `selectWindow` computes `Selected` |
| `Grabc.BackgroundClick` | grabc.c:170-181 | a click with no subwindow selects the root at the click coordinates and reads the pixel there |
| `Grabc.TargetUnderRoot` | grabc.c:159-182 | when the event's subwindow is a window of the tree, the selected target is the root or a descendant of it |
| `Grabc.WindowColor` | grabc.c:268-281 | `getWindowColor` fails on a null target or a null image; otherwise it yields the pixel of the selected window at the selected point; a grab failure propagates as exit 1 |
| `Grabc.GetWindowColor` | grabc.c:252-282 | the imperative `getWindowColor` computes `WindowColor` |
| `Grabc.HelpFlagIsPrefix` | grabc.c:86 | `strncmp(arg, "-h", 2) == 0` holds exactly when the argument starts with `-h` |
| `Grabc.Outcome` | grabc.c:84-121 | a help flag exits 1 with the banner before the display is used; a display that does not open exits 1; the status is 1 exactly in those cases and on a failed grab, and 0 otherwise, even when no colour was read; printed output is a `#rrggbb` line and stderr ends with the same values in decimal; without output the failure is reported |
| `Grabc.Run` | grabc.c:64-122 | the imperative `main`, including its argument loop, computes `Outcome` |
| `Grabc.PrintedColor` | grabc.c:103-116 | on success both lines carry the 8-bit truncations of the queried colour and both read back as those values |
| `Grabc.PixelReadFails` | grabc.c:274-276 | if the image cannot be read at the resolved window, nothing is printed on stdout, the failure goes to stderr, and the status is 0 |

## Left out

- The Xlib calls are not modelled. `XOpenDisplay`, `XCreateFontCursor`, `XGrabPointer`, `XAllowEvents`, `XWindowEvent`, `XTranslateCoordinates`, `XGetImage`/`XGetPixel` and `XQueryColor` are fields of `Server` or parameters. Their own behaviour is foreign code.
- A failed translation stores nothing. Xlib's reply for windows on different screens stores zero coordinates before it returns False; the model does not tell that case apart.
- Installing the handler with `XSetErrorHandler`, and what Xlib does with its return value, is library code. Only the classification is modelled. The unused `Display` argument of `MXError` is dropped.
- The static cursor cache and `XFreeCursor` are resource plumbing with no visible result in a run that selects once. Cursor creation is the boolean `cursorCreated`.
- `DefaultColormap` is called before the display is checked for null. That is undefined behaviour in library code, not logic.
- `XDestroyImage`, `XUngrabPointer`'s effect on the server, and `fflush` are not modelled. Only whether the grab is released is recorded.
- Writing to stdout and stderr is not modelled. The model keeps the text each stream receives, including the display-failure message exactly as written, which ends in `'n` rather than a newline.
- Coordinates are unbounded integers. The code does no arithmetic on them, so the 16-bit wire format does not matter.
- Waiting for the click blocks without bound. The model takes the delivered event as an input.
