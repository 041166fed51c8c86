/** The window hierarchy of one screen and `findSubWindow` of grabc.c, which
    walks down that hierarchy with the TranslateCoordinates request of the X
    Window System Protocol, Version 11: each request maps a point from one
    window's coordinate space into another's and names the child of the
    destination window that contains the point, if any. */
module Windows {
  import opened Wrappers

  /** An X window id. The protocol's null handle (0, None) is never a
      `Window`: wherever the C code may hold it, the model has `Option<Window>`. */
  type Window = w: nat | w != 0 witness 1

  datatype Point = Point(x: int, y: int)

  /** The window tree of a screen. `level` is each window's depth below the
      root; it makes the parent relation acyclic and bounds the depth by
      `height`. */
  datatype Hierarchy = Hierarchy(root: Window, parent: map<Window, Window>, level: map<Window, nat>, height: nat)

  ghost predicate Valid(h: Hierarchy) {
    && h.root !in h.parent
    && h.level.Keys == h.parent.Keys + {h.root}
    && h.level[h.root] == 0
    && (forall w | w in h.parent :: h.parent[w] in h.level && h.level[w] == h.level[h.parent[w]] + 1)
    && (forall w | w in h.level :: h.level[w] <= h.height)
  }

  predicate IsChild(h: Hierarchy, c: Window, w: Window) {
    c in h.parent && h.parent[c] == w
  }

  /** `a` is `w` or one of `w`'s ancestors. */
  ghost predicate IsAncestorOrSelf(h: Hierarchy, a: Window, w: Window)
    requires Valid(h)
    decreases if w in h.level then h.level[w] else 0
  {
    w == a || (w in h.parent && IsAncestorOrSelf(h, a, h.parent[w]))
  }

  /** An ancestor of a child is an ancestor of the child's descendants. */
  lemma {:induction false} ParentIsAncestor(h: Hierarchy, a: Window, c: Window, w: Window)
    requires Valid(h) && IsChild(h, c, a) && IsAncestorOrSelf(h, c, w)
    ensures IsAncestorOrSelf(h, a, w)
    decreases if w in h.level then h.level[w] else 0
  {
    if w == c {
      assert IsAncestorOrSelf(h, a, h.parent[c]);
    } else {
      ParentIsAncestor(h, a, c, h.parent[w]);
    }
  }

  /** Every window of the tree lies under the root. */
  lemma {:induction false} UnderRoot(h: Hierarchy, w: Window)
    requires Valid(h) && w in h.level
    ensures IsAncestorOrSelf(h, h.root, w)
    decreases h.level[w]
  {
    if w != h.root {
      UnderRoot(h, h.parent[w]);
    }
  }

  /** A descendant of a window of the tree is in the tree. */
  lemma DescendantInTree(h: Hierarchy, a: Window, w: Window)
    requires Valid(h) && a in h.level && IsAncestorOrSelf(h, a, w)
    ensures w in h.level
  {
  }

  // ------------------------------------------------------------ the oracle

  /** A reply to TranslateCoordinates: the point in the destination window's
      space and the child of the destination that contains it. */
  datatype Translation = Translation(x: int, y: int, child: Option<Window>)

  /** `XTranslateCoordinates(src, dst, x, y)`: `None` when the call returns
      zero, in which case nothing is stored in its out-parameters. */
  type Translator = (Window, Window, int, int) -> Option<Translation>

  predicate ReportsChildOf(h: Hierarchy, dst: Window, reply: Option<Translation>) {
    reply.Some? && reply.value.child.Some? ==> IsChild(h, reply.value.child.value, dst)
  }

  /** The server only ever reports a child of the destination window. */
  ghost predicate Faithful(h: Hierarchy, t: Translator) {
    forall src: Window, dst: Window, x: int, y: int :: ReportsChildOf(h, dst, t(src, dst, x, y))
  }

  // ------------------------------------------------------------ the descent

  /** The variables of `findSubWindow`'s loop: `top_window`,
      `window_to_check`, `*x`/`*y`, and `newx`/`newy` (`None` until the first
      successful translation writes them). */
  datatype Search = Search(top: Window, candidate: Window, at: Point, written: Option<Point>)

  /** How many levels the descent can still go down. */
  function Remaining(h: Hierarchy, w: Window): nat {
    if w in h.level && h.level[w] <= h.height then h.height - h.level[w] else 0
  }

  /** The descent has stopped in `s`: the translation into `s.candidate`
      failed, or it found no child and `s.written` holds its point. */
  predicate Stopped(t: Translator, s: Search) {
    match t(s.top, s.candidate, s.at.x, s.at.y)
    case None => true
    case Some(tr) => tr.child.None? && s.written == Some(Point(tr.x, tr.y))
  }

  /** The state in which `findSubWindow`'s loop ends, started from `s`. */
  function Descend(h: Hierarchy, t: Translator, s: Search): (r: Search)
    requires Valid(h) && Faithful(h, t)
    ensures IsAncestorOrSelf(h, s.candidate, r.candidate)
    ensures Stopped(t, r)
    ensures r.written.None? <==> s.written.None? && t(s.top, s.candidate, s.at.x, s.at.y).None?
    ensures t(r.top, r.candidate, r.at.x, r.at.y).None? ==> r == s || r.written == Some(r.at)
    // unless nothing moved, the descent ended by stepping from a window into its reported child
    ensures (r.top == s.top && r.candidate == s.candidate && r.at == s.at) || IsChild(h, r.candidate, r.top)
    decreases Remaining(h, s.candidate)
  {
    match t(s.top, s.candidate, s.at.x, s.at.y)
    case None => s
    case Some(tr) =>
      var p := Point(tr.x, tr.y);
      match tr.child
      case None => s.(written := Some(p))
      case Some(c) =>
        assert ReportsChildOf(h, s.candidate, t(s.top, s.candidate, s.at.x, s.at.y));
        var r := Descend(h, t, Search(s.candidate, c, p, Some(p)));
        ParentIsAncestor(h, s.candidate, c, r.candidate);
        r
  }

  /** What `findSubWindow` returns and leaves in `*x`/`*y`; `coords` is
      `None` where it stores the never-written `newx`/`newy`. */
  datatype Found = Found(window: Option<Window>, coords: Option<Point>)

  function SubWindow(h: Hierarchy, t: Translator, top: Option<Window>, candidate: Option<Window>, p: Point): (f: Found)
    requires Valid(h) && Faithful(h, t)
    // a null window: null result, coordinates untouched
    ensures top.None? || candidate.None? ==> f == Found(None, Some(p))
    // otherwise never null, and somewhere under the candidate
    ensures top.Some? && candidate.Some? ==>
              f.window.Some? && IsAncestorOrSelf(h, candidate.value, f.window.value)
    // the coordinates stay unwritten exactly when the first translation fails
    ensures top.Some? && candidate.Some? ==>
              (f.coords.None? <==> t(top.value, candidate.value, p.x, p.y).None?)
    // no child under the point: the candidate itself, at the translated point
    ensures top.Some? && candidate.Some? ==>
              match t(top.value, candidate.value, p.x, p.y)
              case Some(Translation(nx, ny, None)) => f == Found(candidate, Some(Point(nx, ny)))
              case _ => true
  {
    if top.None? || candidate.None? then Found(None, Some(p))
    else
      var r := Descend(h, t, Search(top.value, candidate.value, p, None));
      Found(Some(r.candidate), r.written)
  }

  /** `newx`/`newy` matter only when the first translation fails: starting
      with them written as the current point changes nothing else. */
  lemma DescendFromWritten(h: Hierarchy, t: Translator, s: Search, p: Point)
    requires Valid(h) && Faithful(h, t) && s.written.None?
    ensures var r := Descend(h, t, s);
            Descend(h, t, s.(written := Some(p))) == r.(written := Some(r.written.GetOr(p)))
  {
  }

  /** One pass of `findSubWindow`'s loop: a failed translation returns the
      candidate with the coordinates unwritten; no child returns the candidate
      at the translated point; a reported child is descended into, from the
      candidate, at the translated point, which stays the result's point if
      the next translation fails. */
  lemma SubWindowStep(h: Hierarchy, t: Translator, top: Window, candidate: Window, p: Point)
    requires Valid(h) && Faithful(h, t)
    ensures var f := SubWindow(h, t, Some(top), Some(candidate), p);
            match t(top, candidate, p.x, p.y)
            case None => f == Found(Some(candidate), None)
            case Some(Translation(nx, ny, None)) => f == Found(Some(candidate), Some(Point(nx, ny)))
            case Some(Translation(nx, ny, Some(c))) =>
              var g := SubWindow(h, t, Some(candidate), Some(c), Point(nx, ny));
              f == Found(g.window, Some(g.coords.GetOr(Point(nx, ny))))
  {
    match t(top, candidate, p.x, p.y)
    case None =>
    case Some(Translation(nx, ny, None)) =>
    case Some(Translation(nx, ny, Some(c))) =>
      var q := Point(nx, ny);
      DescendFromWritten(h, t, Search(candidate, c, q, None), q);
  }

  /** `findSubWindow(display, top_window, window_to_check, x, y)`. */
  method FindSubWindow(h: Hierarchy, t: Translator, topWindow: Option<Window>, windowToCheck: Option<Window>,
                       x: int, y: int)
    returns (window: Option<Window>, coords: Option<Point>)
    requires Valid(h) && Faithful(h, t)
    ensures Found(window, coords) == SubWindow(h, t, topWindow, windowToCheck, Point(x, y))
  {
    if topWindow.None? {
      return None, Some(Point(x, y));
    }
    if windowToCheck.None? {
      return None, Some(Point(x, y));
    }
    var top, check, cx, cy := topWindow.value, windowToCheck.value, x, y;
    var newPoint: Option<Point> := None;
    ghost var start := Search(top, check, Point(x, y), None);
    window := windowToCheck;
    var translating := true;
    while translating
      invariant translating ==> window == Some(check)
      invariant translating ==> Descend(h, t, start) == Descend(h, t, Search(top, check, Point(cx, cy), newPoint))
      invariant !translating ==> Descend(h, t, start) == Search(top, check, Point(cx, cy), newPoint)
      invariant !translating ==> window.None? || window == Some(check)
      decreases Remaining(h, check), translating
    {
      var reply := t(top, check, cx, cy);
      if reply.None? {
        translating := false;
      } else {
        newPoint := Some(Point(reply.value.x, reply.value.y));
        window := reply.value.child;
        if window.None? {
          translating := false;
        } else {
          assert ReportsChildOf(h, check, reply);
          top, check := check, window.value;
          cx, cy := reply.value.x, reply.value.y;
        }
      }
    }
    if window.None? {
      window := Some(check);
    }
    coords := newPoint;
  }

  // ------------------------------------------------------------ an example

  /** A root (1) holding A (2) holding B (3): a click at (50, 50) in the root
      maps to (50, 50) in A, which reports B, and to (10, 10) in B, which
      reports nothing; the descent ends in B at (10, 10). */
  lemma NestedDescent()
    ensures var h := Hierarchy(1, map[2 := 1, 3 := 2], map[1 := 0, 2 := 1, 3 := 2], 2);
            var t: Translator := (src: Window, dst: Window, x: int, y: int) =>
              if src == 1 && dst == 2 then Some(Translation(x, y, Some(3)))
              else if src == 2 && dst == 3 then Some(Translation(x - 40, y - 40, None))
              else None;
            Valid(h) && Faithful(h, t)
            && SubWindow(h, t, Some(1), Some(2), Point(50, 50)) == Found(Some(3), Some(Point(10, 10)))
  {
  }
}
