/**
 * The caterpillar that chases the player in candy-run: a head that moves a
 * fixed distance per frame straight toward the player, a shifting list of
 * recent head positions (the newest added in front, the oldest dropped), and
 * body and tail segments that replay that list at fixed lags.
 */
module Pursuit {
  import opened Geometry

  /** Head speed in pixels per second. */
  const SPEED: real := 90.0
  /** Frames of lag between consecutive trailing segments. */
  const SEGMENT_GAP: nat := 12
  /** The head only moves while it is farther than this from the player. */
  const STOP_DISTANCE: real := 4.0

  // ---------------------------------------------------------------------
  // One frame of head movement
  // ---------------------------------------------------------------------

  /**
   * `update`'s head step toward `target`, with `dist` the Euclidean distance
   * between them (`Math.sqrt` in the source). The head steps only when the
   * distance is above 4, and then by exactly `speed / 60` along the straight
   * line, so the remaining gap shrinks by exactly that much.
   */
  function HeadStep(head: Point, target: Point, dist: real, speed: real): (p: Point)
    requires dist >= 0.0 && dist * dist == SqDist(head, target)
    ensures dist <= STOP_DISTANCE ==> p == head
    ensures dist > STOP_DISTANCE ==> SqDist(head, p) == (speed * (1.0 / 60.0)) * (speed * (1.0 / 60.0))
    ensures dist > STOP_DISTANCE ==>
              SqDist(p, target) == (dist - speed * (1.0 / 60.0)) * (dist - speed * (1.0 / 60.0))
  {
    if dist > STOP_DISTANCE then
      StepAlgebra(target.x - head.x, target.y - head.y, dist, speed, 1.0 / 60.0,
                  (target.x - head.x) / dist * speed * (1.0 / 60.0),
                  (target.y - head.y) / dist * speed * (1.0 / 60.0));
      Point(head.x + (target.x - head.x) / dist * speed * (1.0 / 60.0),
            head.y + (target.y - head.y) / dist * speed * (1.0 / 60.0))
    else
      head
  }

  /**
   * The displacement `(sx, sy)` is `(dx, dy) / dist * speed * rate`: it has
   * length `speed * rate`, and what is left of `(dx, dy)` after it has length
   * `dist - speed * rate`.
   */
  lemma StepAlgebra(dx: real, dy: real, dist: real, speed: real, rate: real, sx: real, sy: real)
    requires dist > 0.0 && dist * dist == dx * dx + dy * dy
    requires sx == dx / dist * speed * rate && sy == dy / dist * speed * rate
    ensures sx * sx + sy * sy == (speed * rate) * (speed * rate)
    ensures (dx - sx) * (dx - sx) + (dy - sy) * (dy - sy) == (dist - speed * rate) * (dist - speed * rate)
  {
    var s := speed * rate;
    var t := s / dist;
    var nx, ny := dx / dist, dy / dist;
    assert nx * dist == dx;
    assert ny * dist == dy;
    assert t * dist == s;
    // the step is the fraction t of (dx, dy)
    assert sx == nx * s;
    assert sy == ny * s;
    assert nx * s == nx * (t * dist);
    assert ny * s == ny * (t * dist);
    assert nx * (t * dist) == (nx * dist) * t;
    assert ny * (t * dist) == (ny * dist) * t;
    assert sx == dx * t;
    assert sy == dy * t;
    Along(dx, dy, dist, t, sx, sy);
    assert sx * sx + sy * sy == (t * dist) * (t * dist);
    assert (t * dist) * (t * dist) == s * s;
    // and what remains is the fraction 1 - t
    var u, rx, ry := 1.0 - t, dx - sx, dy - sy;
    assert rx == dx * u;
    assert ry == dy * u;
    Along(dx, dy, dist, u, rx, ry);
    assert rx * rx + ry * ry == (u * dist) * (u * dist);
    assert u * dist == dist - s;
    assert (u * dist) * (u * dist) == (dist - s) * (dist - s);
  }

  /** The fraction `t` of a vector of length `dist` has length `t * dist`. */
  lemma Along(dx: real, dy: real, dist: real, t: real, sx: real, sy: real)
    requires dist * dist == dx * dx + dy * dy && sx == dx * t && sy == dy * t
    ensures sx * sx + sy * sy == (t * dist) * (t * dist)
  {
    assert sx * sx + sy * sy == (dx * t) * (dx * t) + (dy * t) * (dy * t);
    assert (dx * t) * (dx * t) + (dy * t) * (dy * t) == (dx * dx + dy * dy) * (t * t);
    assert (dx * dx + dy * dy) * (t * t) == (dist * dist) * (t * t);
    assert (dist * dist) * (t * t) == (t * dist) * (t * dist);
  }

  /**
   * At the source's speed of 90 a step covers 1.5 pixels, less than the
   * 4-pixel dead zone, so every step strictly closes the gap and never
   * overshoots the player.
   */
  lemma {:induction false} HeadCloses(head: Point, target: Point, dist: real)
    requires dist > STOP_DISTANCE && dist * dist == SqDist(head, target)
    ensures var p := HeadStep(head, target, dist, SPEED);
            SqDist(p, target) < SqDist(head, target) &&
            SqDist(p, target) == (dist - 1.5) * (dist - 1.5)
  {
    assert SPEED * (1.0 / 60.0) == 1.5;
    SquareLess(dist - 1.5, dist);
  }

  // ---------------------------------------------------------------------
  // Which history entry each trailing segment copies
  // ---------------------------------------------------------------------

  /**
   * `Math.min(ordinal * gap, len - 1)`: the history index that the segment
   * `ordinal` places behind the head copies, clamped to the oldest entry.
   */
  function SegmentIndex(ordinal: nat, gap: nat, len: nat): (r: nat)
    requires len >= 1
    ensures r < len
    ensures r <= ordinal * gap
    ensures r == ordinal * gap || r == len - 1
  {
    if ordinal * gap < len - 1 then ordinal * gap else len - 1
  }

  /**
   * With a history of `(bodyCount + 1) * 12` entries, body part `i` is never
   * clamped and trails the head by exactly `(i + 1) * 12` frames, while the
   * tail is always clamped to the oldest entry, `historySize - 1` frames back.
   */
  lemma TrailIndices(bodyCount: nat, i: nat)
    requires i < bodyCount
    ensures SegmentIndex(i + 1, SEGMENT_GAP, (bodyCount + 1) * SEGMENT_GAP) == (i + 1) * SEGMENT_GAP
  {
  }

  lemma TailIndex(bodyCount: nat)
    ensures SegmentIndex(bodyCount + 1, SEGMENT_GAP, (bodyCount + 1) * SEGMENT_GAP)
            == (bodyCount + 1) * SEGMENT_GAP - 1
  {
  }

  // ---------------------------------------------------------------------
  // The worm
  // ---------------------------------------------------------------------

  class Worm {
    const tileSize: real
    const bodyCount: nat
    const speed: real
    const catchRadius: real
    const historySize: nat
    const segmentGap: nat
    /** Where the worm was created; history entries older than the worm show it. */
    ghost const origin: Point

    var head: Point
    /** Head positions, newest first. */
    var history: seq<Point>
    var bodyParts: seq<Point>
    var tail: Point
    var invincible: bool
    /** Every head position recorded by `Update`, newest first. */
    ghost var past: seq<Point>

    /** Where the head was `k` frames ago (the creation point before the first frame). */
    ghost function Ago(k: nat): Point
      reads this
    {
      if k < |past| then past[k] else origin
    }

    ghost predicate Valid()
      reads this
    {
      speed == SPEED && segmentGap == SEGMENT_GAP &&
      catchRadius == tileSize * 0.55 &&
      historySize == (bodyCount + 1) * SEGMENT_GAP &&
      |bodyParts| == bodyCount &&
      |history| == historySize &&
      head == Ago(0) &&
      (forall k :: 0 <= k < historySize ==> history[k] == Ago(k))
    }

    /**
     * All segments start stacked on (x, y), and the history is prefilled
     * with `historySize` copies of that point.
     */
    constructor (x: real, y: real, tileSize: real, bodyCount: nat)
      ensures Valid()
      ensures this.tileSize == tileSize && this.bodyCount == bodyCount
      ensures origin == Point(x, y) && past == []
      ensures head == Point(x, y) && tail == Point(x, y) && !invincible
      ensures history == seq(historySize, _ => Point(x, y))
      ensures bodyParts == seq(bodyCount, _ => Point(x, y))
    {
      this.tileSize := tileSize;
      this.bodyCount := bodyCount;
      speed := SPEED;
      catchRadius := tileSize * 0.55;
      historySize := (bodyCount + 1) * SEGMENT_GAP;
      segmentGap := SEGMENT_GAP;
      origin := Point(x, y);
      past := [];
      head := Point(x, y);
      var parts: seq<Point> := [];
      var i := 0;
      while i < bodyCount
        invariant 0 <= i <= bodyCount
        invariant parts == seq(i, _ => Point(x, y))
      {
        parts := parts + [Point(x, y)];
        i := i + 1;
      }
      bodyParts := parts;
      tail := Point(x, y);
      var h: seq<Point> := [];
      i := 0;
      while i < (bodyCount + 1) * SEGMENT_GAP
        invariant 0 <= i <= (bodyCount + 1) * SEGMENT_GAP
        invariant h == seq(i, _ => Point(x, y))
      {
        h := h + [Point(x, y)];
        i := i + 1;
      }
      history := h;
      invincible := false;
    }

    /**
     * One frame: step the head toward the player at `target` (`dist` is the
     * distance between them), record the new head position at the front of
     * the history and drop the oldest, and move every body part and the tail
     * onto the history entry its lag selects.
     */
    method Update(target: Point, dist: real)
      requires Valid() && dist >= 0.0 && dist * dist == SqDist(head, target)
      modifies this
      ensures Valid()
      ensures head == HeadStep(old(head), target, dist, speed)
      ensures past == [head] + old(past)
      ensures history == [head] + old(history)[..historySize - 1]
      ensures |bodyParts| == bodyCount
      ensures forall i :: 0 <= i < bodyCount ==>
                bodyParts[i] == history[SegmentIndex(i + 1, segmentGap, |history|)]
      ensures tail == history[SegmentIndex(bodyCount + 1, segmentGap, |history|)]
      ensures forall i :: 0 <= i < bodyCount ==> bodyParts[i] == Ago((i + 1) * SEGMENT_GAP)
      ensures tail == Ago(historySize - 1)
      ensures invincible == old(invincible)
    {
      MoveHead(target, dist);
      PlaceSegments();
    }

    /** The first half of `update`: the head step and the history's unshift and pop. */
    method MoveHead(target: Point, dist: real)
      requires Valid() && dist >= 0.0 && dist * dist == SqDist(head, target)
      modifies this
      ensures Valid()
      ensures head == HeadStep(old(head), target, dist, speed)
      ensures past == [head] + old(past)
      ensures history == [head] + old(history)[..historySize - 1]
      ensures bodyParts == old(bodyParts) && tail == old(tail) && invincible == old(invincible)
    {
      head := HeadStep(head, target, dist, speed);
      past := [head] + past;
      history := [head] + history;
      if |history| > historySize {
        history := history[..|history| - 1];
      }
      assert forall k :: 1 <= k < historySize ==> history[k] == old(history)[k - 1];
    }

    /** The second half of `update`: body parts and tail copy the history at their lags. */
    method PlaceSegments()
      requires Valid()
      modifies this
      ensures Valid()
      ensures head == old(head) && past == old(past) && history == old(history) && invincible == old(invincible)
      ensures |bodyParts| == bodyCount
      ensures forall i :: 0 <= i < bodyCount ==>
                bodyParts[i] == history[SegmentIndex(i + 1, segmentGap, |history|)]
      ensures tail == history[SegmentIndex(bodyCount + 1, segmentGap, |history|)]
      ensures forall i :: 0 <= i < bodyCount ==> bodyParts[i] == Ago((i + 1) * SEGMENT_GAP)
      ensures tail == Ago(historySize - 1)
    {
      bodyParts := FollowHistory(bodyParts, history, segmentGap);
      tail := history[SegmentIndex(|bodyParts| + 1, segmentGap, |history|)];
      TrailingSegments();
    }

    /** What the trailing segments show after a frame: head positions at fixed lags. */
    lemma {:induction false} TrailingSegments()
      requires Valid()
      requires |bodyParts| == bodyCount
      requires forall i :: 0 <= i < bodyCount ==>
                 bodyParts[i] == history[SegmentIndex(i + 1, segmentGap, |history|)]
      requires tail == history[SegmentIndex(bodyCount + 1, segmentGap, |history|)]
      ensures forall i :: 0 <= i < bodyCount ==> bodyParts[i] == Ago((i + 1) * SEGMENT_GAP)
      ensures tail == Ago(historySize - 1)
    {
      forall i | 0 <= i < bodyCount
        ensures bodyParts[i] == Ago((i + 1) * SEGMENT_GAP)
      {
        TrailIndices(bodyCount, i);
      }
      TailIndex(bodyCount);
    }

    /**
     * `isCatching`: not invincible and the head is strictly within the catch
     * radius; the same as comparing the squared distance with the squared
     * radius, which needs no square root.
     */
    function IsCatching(target: Point, dist: real): (c: bool)
      requires dist >= 0.0 && dist * dist == SqDist(head, target)
      reads this
      ensures c ==> !invincible
      ensures c <==> !invincible && catchRadius > 0.0 &&
                     SqDist(head, target) < catchRadius * catchRadius
    {
      CatchBySquares(dist, SqDist(head, target), catchRadius);
      !invincible && dist < catchRadius
    }

    /** `onCatch`: the worm turns invincible, so it cannot catch again until the cooldown ends. */
    method OnCatch()
      modifies this
      ensures invincible
      ensures head == old(head) && history == old(history) && bodyParts == old(bodyParts)
      ensures tail == old(tail) && past == old(past)
      ensures forall target: Point, d: real {:trigger IsCatching(target, d)} ::
                d >= 0.0 && d * d == SqDist(head, target) ==> !IsCatching(target, d)
    {
      invincible := true;
    }

    /** The 2000 ms timer that `onCatch` schedules, when it fires. */
    method CooldownExpired()
      modifies this
      ensures !invincible
      ensures head == old(head) && history == old(history) && bodyParts == old(bodyParts)
      ensures tail == old(tail) && past == old(past)
    {
      invincible := false;
    }
  }

  /** `update`'s `forEach`: body part i copies the history entry that its lag selects. */
  method FollowHistory(parts: seq<Point>, history: seq<Point>, gap: nat) returns (moved: seq<Point>)
    requires |history| >= 1
    ensures |moved| == |parts|
    ensures forall i :: 0 <= i < |parts| ==> moved[i] == history[SegmentIndex(i + 1, gap, |history|)]
  {
    moved := parts;
    var i := 0;
    while i < |moved|
      invariant 0 <= i <= |moved| == |parts|
      invariant forall j :: 0 <= j < i ==> moved[j] == history[SegmentIndex(j + 1, gap, |history|)]
    {
      moved := moved[i := history[SegmentIndex(i + 1, gap, |history|)]];
      i := i + 1;
    }
  }

  /** `dist < r` for a non-negative distance is `r > 0 && dist^2 < r^2`. */
  lemma CatchBySquares(dist: real, sq: real, r: real)
    requires dist >= 0.0 && dist * dist == sq
    ensures dist < r <==> r > 0.0 && sq < r * r
  {
    if r >= 0.0 {
      SquaredComparison(dist, sq, r);
    }
  }
}
