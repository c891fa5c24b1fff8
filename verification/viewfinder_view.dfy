/**
 * ViewfinderView: the bounded list of possible result points, the result bitmap shown over the
 * frame, and the integer geometry `onDraw` uses for the darkened mask and the centre crosshair.
 */
module Viewfinder {
  import opened Wrappers

  /** `MAX_RESULT_POINTS`: the list is trimmed once it grows past this many points. */
  const MAX_RESULT_POINTS: nat := 20

  /** How far each crosshair bar reaches from the centre, in pixels. */
  const CROSSHAIR_ARM: int := 20

  /** A point the decoder reported; its coordinates play no part in the bookkeeping. */
  datatype ResultPoint = ResultPoint(x: real, y: real)

  /** A decoded barcode image, known by its identity only. */
  datatype Bitmap = Bitmap(handle: nat)

  /** `android.graphics.Rect`; a filled rectangle covers the pixels `left <= x < right`, `top <= y < bottom`. */
  datatype Rect = Rect(left: int, top: int, right: int, bottom: int)

  /** The paint colours `onDraw` uses: `maskColor`, `resultColor` and the white of the crosshair. */
  datatype Colour = MaskColour | ResultColour | White

  /** One canvas call of `onDraw`. */
  datatype DrawOp = FillRect(rect: Rect, colour: Colour) | DrawBitmap(bitmap: Bitmap, dst: Rect)

  // ---------------------------------------------------------------------------------------------
  // The bounded list of possible result points

  /** `s` ends with `r`. */
  predicate IsSuffix(r: seq<ResultPoint>, s: seq<ResultPoint>) {
    |r| <= |s| && r == s[|s| - |r|..]
  }

  /**
   * The list `addPossibleResultPoint` leaves behind: the point is appended and, once the list holds
   * more than MAX_RESULT_POINTS entries, all but the newest MAX_RESULT_POINTS / 2 are dropped.
   */
  function AddPoint(points: seq<ResultPoint>, p: ResultPoint): (r: seq<ResultPoint>)
    ensures |r| <= MAX_RESULT_POINTS
    ensures r != [] && r[|r| - 1] == p
    ensures IsSuffix(r, points + [p])
    ensures |points| < MAX_RESULT_POINTS ==> r == points + [p]
    ensures |points| >= MAX_RESULT_POINTS ==> |r| == MAX_RESULT_POINTS / 2
  {
    var added := points + [p];
    var size := |added|;
    if size > MAX_RESULT_POINTS then added[size - MAX_RESULT_POINTS / 2..] else added
  }

  /** The list after adding every point of `ps`, in order. */
  function AddPoints(points: seq<ResultPoint>, ps: seq<ResultPoint>): seq<ResultPoint>
    decreases |ps|
  {
    if ps == [] then points else AddPoints(AddPoint(points, ps[0]), ps[1..])
  }

  function Min(a: int, b: int): int {
    if a <= b then a else b
  }

  /**
   * Over any run of additions from a list within the bound, the list stays within the bound and
   * never holds fewer than MAX_RESULT_POINTS / 2 of the points seen (or all of them, while there
   * are fewer).
   */
  lemma {:induction false} AddPointsLength(points: seq<ResultPoint>, ps: seq<ResultPoint>)
    requires |points| <= MAX_RESULT_POINTS
    ensures Min(|points| + |ps|, MAX_RESULT_POINTS / 2) <= |AddPoints(points, ps)| <= MAX_RESULT_POINTS
    decreases |ps|
  {
    if ps != [] {
      var next := AddPoint(points, ps[0]);
      var rest := ps[1..];
      assert AddPoints(points, ps) == AddPoints(next, rest);
      AddPointsLength(next, rest);
    }
  }

  /** Over any run of additions, the list is always the newest part of everything added. */
  lemma {:induction false} AddPointsKeepsNewest(points: seq<ResultPoint>, ps: seq<ResultPoint>)
    ensures IsSuffix(AddPoints(points, ps), points + ps)
    decreases |ps|
  {
    if ps == [] {
      assert points + ps == points;
    } else {
      var next := AddPoint(points, ps[0]);
      var rest := ps[1..];
      assert AddPoints(points, ps) == AddPoints(next, rest);
      AddPointsKeepsNewest(next, rest);
      SuffixStep(points, ps, next, AddPoints(next, rest));
    }
  }

  /** One step of the induction: a suffix of `next + ps[1..]`, where `next` ends `points + [ps[0]]`, ends `points + ps`. */
  lemma SuffixStep(points: seq<ResultPoint>, ps: seq<ResultPoint>, next: seq<ResultPoint>, r: seq<ResultPoint>)
    requires ps != []
    requires IsSuffix(next, points + [ps[0]]) && IsSuffix(r, next + ps[1..])
    ensures IsSuffix(r, points + ps)
  {
    SuffixAppend(next, points + [ps[0]], ps[1..]);
    assert (points + [ps[0]]) + ps[1..] == points + ps;
    SuffixTransitive(r, next + ps[1..], points + ps);
  }

  /** Appending the same tail keeps a suffix a suffix. */
  lemma SuffixAppend(r: seq<ResultPoint>, s: seq<ResultPoint>, u: seq<ResultPoint>)
    requires IsSuffix(r, s)
    ensures IsSuffix(r + u, s + u)
  {
    assert (s + u)[|s + u| - |r + u|..] == s[|s| - |r|..] + u;
  }

  /** A suffix of a suffix is a suffix. */
  lemma SuffixTransitive(r: seq<ResultPoint>, s: seq<ResultPoint>, t: seq<ResultPoint>)
    requires IsSuffix(r, s) && IsSuffix(s, t)
    ensures IsSuffix(r, t)
  {
    assert t[|t| - |r|..] == t[|t| - |s|..][|s| - |r|..];
  }

  /** Whatever the list held before, after a non-empty run of additions its last entry is the last point added. */
  lemma {:induction false} AddPointsEndsWithNewest(points: seq<ResultPoint>, ps: seq<ResultPoint>)
    requires ps != []
    ensures AddPoints(points, ps) != []
    ensures AddPoints(points, ps)[|AddPoints(points, ps)| - 1] == ps[|ps| - 1]
    decreases |ps|
  {
    var next := AddPoint(points, ps[0]);
    var rest := ps[1..];
    assert AddPoints(points, ps) == AddPoints(next, rest);
    if rest == [] {
      assert AddPoints(next, rest) == next;
    } else {
      AddPointsEndsWithNewest(next, rest);
      assert rest[|rest| - 1] == ps[|ps| - 1];
    }
  }

  // ---------------------------------------------------------------------------------------------
  // Mask geometry

  /** Whether a filled `r` paints pixel `(x, y)`. */
  predicate Covers(r: Rect, x: int, y: int) {
    r.left <= x < r.right && r.top <= y < r.bottom
  }

  /** Whether `(x, y)` lies in the frame, both edges included. */
  predicate InFrame(frame: Rect, x: int, y: int) {
    frame.left <= x <= frame.right && frame.top <= y <= frame.bottom
  }

  /** The four rectangles `onDraw` darkens: above, left of, right of and below the frame. */
  function MaskRects(width: int, height: int, frame: Rect): (rs: seq<Rect>)
    ensures |rs| == 4
  {
    [ Rect(0, 0, width, frame.top),
      Rect(0, frame.top, frame.left, frame.bottom + 1),
      Rect(frame.right + 1, frame.top, width, frame.bottom + 1),
      Rect(0, frame.bottom + 1, width, height) ]
  }

  /** 1 when `r` paints `(x, y)`, else 0. */
  function Hit(r: Rect, x: int, y: int): nat {
    if Covers(r, x, y) then 1 else 0
  }

  /** How many of `rs` paint `(x, y)`. */
  function CoverCount(rs: seq<Rect>, x: int, y: int): (n: nat)
    ensures n <= |rs|
    ensures n == 0 <==> forall i :: 0 <= i < |rs| ==> !Covers(rs[i], x, y)
  {
    if rs == [] then 0
    else
      var rest := CoverCount(rs[1..], x, y);
      assert forall i :: 1 <= i < |rs| ==> rs[i] == rs[1..][i - 1];
      Hit(rs[0], x, y) + rest
  }

  /** For four rectangles the count is the sum of the four hits. */
  lemma CoverCountOfFour(rs: seq<Rect>, x: int, y: int)
    requires |rs| == 4
    ensures CoverCount(rs, x, y) == Hit(rs[0], x, y) + Hit(rs[1], x, y) + Hit(rs[2], x, y) + Hit(rs[3], x, y)
  {
    var t1 := rs[1..];
    var t2 := t1[1..];
    var t3 := t2[1..];
    var t4 := t3[1..];
    assert t4 == [];
    assert t1[0] == rs[1] && t2[0] == rs[2] && t3[0] == rs[3];
    assert CoverCount(t3, x, y) == Hit(rs[3], x, y) + CoverCount(t4, x, y);
    assert CoverCount(t2, x, y) == Hit(rs[2], x, y) + CoverCount(t3, x, y);
    assert CoverCount(t1, x, y) == Hit(rs[1], x, y) + CoverCount(t2, x, y);
  }

  /** The mask paints a canvas pixel exactly when the pixel lies outside the inclusive frame. */
  lemma MaskCoversOutsideFrame(width: int, height: int, frame: Rect, x: int, y: int)
    requires 0 <= x < width && 0 <= y < height
    ensures CoverCount(MaskRects(width, height, frame), x, y) > 0 <==> !InFrame(frame, x, y)
  {
    CoverCountOfFour(MaskRects(width, height, frame), x, y);
  }

  /**
   * For a frame whose edges are in order, the mask rectangles do not overlap: a canvas pixel is
   * painted once outside the frame and not at all inside it.
   */
  lemma MaskTilesCanvasMinusFrame(width: int, height: int, frame: Rect, x: int, y: int)
    requires frame.left <= frame.right && frame.top <= frame.bottom
    requires 0 <= x < width && 0 <= y < height
    ensures CoverCount(MaskRects(width, height, frame), x, y) == if InFrame(frame, x, y) then 0 else 1
  {
    CoverCountOfFour(MaskRects(width, height, frame), x, y);
  }

  // ---------------------------------------------------------------------------------------------
  // Crosshair geometry

  /** Java's `a / 2` on `int`: the quotient truncated toward zero, so the remainder takes the sign of `a`. */
  function JavaHalf(a: int): (q: int)
    ensures a >= 0 ==> 0 <= a - 2 * q <= 1
    ensures a < 0 ==> -1 <= a - 2 * q <= 0
  {
    if a >= 0 then a / 2 else -((-a) / 2)
  }

  /** `Rect.width()` and `Rect.height()`. */
  function Width(r: Rect): int { r.right - r.left }
  function Height(r: Rect): int { r.bottom - r.top }

  /** The crosshair centre `(hmiddle, vmiddle)` of `onDraw`. */
  function CrosshairCentre(frame: Rect): (c: (int, int)) {
    (JavaHalf(Width(frame)) + frame.left, JavaHalf(Height(frame)) + frame.top)
  }

  /** The crosshair's horizontal and vertical bars around the frame's centre. */
  function CrosshairRects(frame: Rect): (rs: seq<Rect>)
    ensures |rs| == 2
  {
    var (h, v) := CrosshairCentre(frame);
    [ Rect(h - CROSSHAIR_ARM, v - 1, h + CROSSHAIR_ARM, v + 2),
      Rect(h - 1, v - CROSSHAIR_ARM, h + 2, v + CROSSHAIR_ARM) ]
  }

  /**
   * For a frame whose edges are in order the crosshair centre lies inside it, no further from the
   * left (top) edge than from the right (bottom) one and at most one pixel off the middle, and
   * both bars paint the centre pixel.
   */
  lemma CrosshairCentredInFrame(frame: Rect)
    requires frame.left <= frame.right && frame.top <= frame.bottom
    ensures var (h, v) := CrosshairCentre(frame);
            && InFrame(frame, h, v)
            && 0 <= (frame.right - h) - (h - frame.left) <= 1
            && 0 <= (frame.bottom - v) - (v - frame.top) <= 1
            && Covers(CrosshairRects(frame)[0], h, v) && Covers(CrosshairRects(frame)[1], h, v)
  {
  }

  // ---------------------------------------------------------------------------------------------
  // The view

  class ViewfinderView {
    var hasCameraManager: bool
    var resultBitmap: Option<Bitmap>
    var possibleResultPoints: seq<ResultPoint>
    /** Bitmaps handed to `recycle()`, oldest first. */
    var recycled: seq<Bitmap>
    /** How many times the view asked to be redrawn (`invalidate()`). */
    var invalidations: nat

    /** The constructor: no camera manager, no result bitmap, an empty point list. */
    constructor ()
      ensures !hasCameraManager && resultBitmap == None && possibleResultPoints == []
      ensures recycled == [] && invalidations == 0
    {
      hasCameraManager := false;
      resultBitmap := None;
      possibleResultPoints := [];
      recycled := [];
      invalidations := 0;
    }

    /** `setCameraManager`: store the manager, which may be null. */
    method SetCameraManager(present: bool)
      modifies this`hasCameraManager
      ensures hasCameraManager == present
    {
      hasCameraManager := present;
    }

    /** `addPossibleResultPoint`: append the point, then trim the list from the front once too long. */
    method AddPossibleResultPoint(point: ResultPoint)
      modifies this`possibleResultPoints
      ensures |possibleResultPoints| <= MAX_RESULT_POINTS
      ensures possibleResultPoints == AddPoint(old(possibleResultPoints), point)
    {
      possibleResultPoints := possibleResultPoints + [point];
      var size := |possibleResultPoints|;
      if size > MAX_RESULT_POINTS {
        possibleResultPoints := possibleResultPoints[size - MAX_RESULT_POINTS / 2..];
      }
    }

    /** `drawViewfinder`: drop the result bitmap, recycling it if there was one, and redraw. */
    method DrawViewfinder()
      modifies this`resultBitmap, this`recycled, this`invalidations
      ensures resultBitmap == None
      ensures recycled == old(recycled) + (if old(resultBitmap).Some? then [old(resultBitmap).value] else [])
      ensures invalidations == old(invalidations) + 1
      ensures MaskPaint() == MaskColour
    {
      var previous := resultBitmap;
      resultBitmap := None;
      if previous.Some? {
        recycled := recycled + [previous.value];
      }
      invalidations := invalidations + 1;
    }

    /** `drawResultBitmap`: show `barcode` (which may be null) over the frame and redraw. */
    method DrawResultBitmap(barcode: Option<Bitmap>)
      modifies this`resultBitmap, this`invalidations
      ensures resultBitmap == barcode
      ensures invalidations == old(invalidations) + 1
      ensures MaskPaint() == if barcode.Some? then ResultColour else MaskColour
    {
      resultBitmap := barcode;
      invalidations := invalidations + 1;
    }

    /** The colour of the mask: `resultColor` while a result bitmap is shown, else `maskColor`. */
    function MaskPaint(): Colour
      reads this
    {
      if resultBitmap.Some? then ResultColour else MaskColour
    }

    /**
     * The fills of `onDraw` on a `width` x `height` canvas, given the framing rectangles the camera
     * manager reports: nothing until all are known; then the four mask rectangles, followed either
     * by the result bitmap drawn into the frame or by the white crosshair.
     */
    function OnDraw(width: int, height: int, frame: Option<Rect>, previewFrame: Option<Rect>): (ops: seq<DrawOp>)
      reads this
      ensures ops == [] <==> !hasCameraManager || frame.None? || previewFrame.None?
      ensures ops != [] ==>
                && |ops| >= 5
                && (forall i :: 0 <= i < 4 ==> ops[i] == FillRect(MaskRects(width, height, frame.value)[i], MaskPaint()))
                && (resultBitmap.Some? <==> ops[4].DrawBitmap?)
                && (ops[0].colour == ResultColour <==> resultBitmap.Some?)
                && ops[0].colour != White
                && (resultBitmap.Some? ==> ops[4..] == [DrawBitmap(resultBitmap.value, frame.value)])
                && (resultBitmap.None? ==> ops[4..] == [FillRect(CrosshairRects(frame.value)[0], White),
                                                        FillRect(CrosshairRects(frame.value)[1], White)])
    {
      if !hasCameraManager || frame.None? || previewFrame.None? then []
      else
        var f := frame.value;
        var masks := MaskRects(width, height, f);
        var paint := MaskPaint();
        var cross := CrosshairRects(f);
        [FillRect(masks[0], paint), FillRect(masks[1], paint), FillRect(masks[2], paint), FillRect(masks[3], paint)]
        + match resultBitmap
          case Some(b) => [DrawBitmap(b, f)]
          case None => [FillRect(cross[0], White), FillRect(cross[1], White)]
    }
  }
}
