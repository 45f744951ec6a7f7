/** What the tiling of the levels means: when a level is covered, and how long a signal runs without
    meeting a buffer. */
module TilingResults {
  import opened SegmentLut
  import opened SegmentChoice
  import opened LevelTiling

  // ----- when a level is covered -----

  /** Unit look-up n, made when only unit lengths are left to try, finds a segment. */
  predicate UnitFoundAt(look: Lookup, minCap: nat, t: Tiling, numWires: nat, n: nat)
    requires n < numWires
  {
    look(1, n + 1 >= numWires, Picks(look, minCap, 1, numWires, n, t)).0.key.Some?
  }

  ghost predicate UnitsFound(look: Lookup, minCap: nat, t: Tiling, numWires: nat, n: nat)
    requires n <= numWires
  {
    forall k: nat {:trigger UnitFoundAt(look, minCap, t, numWires, k)} :: k < n ==> UnitFoundAt(look, minCap, t, numWires, k)
  }

  lemma {:induction false} UnitsCover(look: Lookup, segs: seq<WireSegment>, minCap: nat, t: Tiling, numWires: nat, n: nat)
    requires Sound(look, segs) && n <= numWires
    ensures var covered := Covered(segs, Picks(look, minCap, 1, numWires, n, t).wires);
            && covered <= Covered(segs, t.wires) + n
            && (covered == Covered(segs, t.wires) + n <==> UnitsFound(look, minCap, t, numWires, n))
  {
    if n > 0 {
      UnitsCover(look, segs, minCap, t, numWires, n - 1);
      PickAdds(look, segs, minCap, 1, n >= numWires, Picks(look, minCap, 1, numWires, n - 1, t));
      assert UnitsFound(look, minCap, t, numWires, n)
             <==> UnitsFound(look, minCap, t, numWires, n - 1) && UnitFoundAt(look, minCap, t, numWires, n - 1);
    }
  }

  lemma {:induction false} TileSplit(look: Lookup, segs: seq<WireSegment>, minCap: nat, segmentLength: nat, c: Length, t: Tiling)
    ensures Tile(look, segs, minCap, segmentLength, c, 1, t)
            == Tile(look, segs, minCap, segmentLength, 1, 1, Tile(look, segs, minCap, segmentLength, c, 2, t))
  {
    if c > 1 {
      var n := Fitting(segs, segmentLength, c, t);
      TileSplit(look, segs, minCap, segmentLength, c - 1, Picks(look, minCap, c, n, n, t));
    }
  }

  lemma {:induction false} TileFits(look: Lookup, segs: seq<WireSegment>, minCap: nat, segmentLength: nat, c: Byte, stop: Length, t: Tiling)
    requires Sound(look, segs) && Covered(segs, t.wires) <= segmentLength
    ensures Covered(segs, Tile(look, segs, minCap, segmentLength, c, stop, t).wires) <= segmentLength
    decreases c
  {
    if c >= stop {
      var n := Fitting(segs, segmentLength, c, t);
      PicksFit(look, segs, minCap, segmentLength, c, t);
      TileFits(look, segs, minCap, segmentLength, c - 1, stop, Picks(look, minCap, c, n, n, t));
    }
  }

  lemma {:induction false} UnitTile(look: Lookup, segs: seq<WireSegment>, minCap: nat, segmentLength: nat, t: Tiling, left: nat)
    requires Covered(segs, t.wires) + left == segmentLength
    ensures Tile(look, segs, minCap, segmentLength, 1, 1, t) == Picks(look, minCap, 1, left, left, t)
  {
    assert Fitting(segs, segmentLength, 1, t) == left;
  }

  /** The level when all lengths but one have been tried. */
  function AllButUnits(segs: seq<WireSegment>, o: Options, segmentLength: nat, t: Tiling): Tiling {
    Tile(LookIn(segs, o, segmentLength), segs, o.minInputCap, segmentLength, o.maxSegmentLength, 2, t)
  }

  /** A level is covered exactly if every look-up for unit length, made once all longer lengths have
      been tried, finds a segment. */
  lemma {:induction false} CoveredIff(segs: seq<WireSegment>, o: Options, segmentLength: nat, t: Tiling) returns (left: nat)
    requires o.maxSegmentLength > 0 && t.wires == []
    ensures Covered(segs, AllButUnits(segs, o, segmentLength, t).wires) + left == segmentLength
    ensures Covered(segs, TileLevel(segs, o, segmentLength, t).wires) == segmentLength
            <==> UnitsFound(LookIn(segs, o, segmentLength), o.minInputCap, AllButUnits(segs, o, segmentLength, t), left, left)
  {
    var look, rest := LookIn(segs, o, segmentLength), AllButUnits(segs, o, segmentLength, t);
    LookSound(segs, o, segmentLength);
    TileFits(look, segs, o.minInputCap, segmentLength, o.maxSegmentLength, 2, t);
    left := segmentLength - Covered(segs, rest.wires);
    TileSplit(look, segs, o.minInputCap, segmentLength, o.maxSegmentLength, t);
    UnitTile(look, segs, o.minInputCap, segmentLength, rest, left);
    UnitsCover(look, segs, o.minInputCap, rest, left, left);
  }

  // ----- what a table can promise -----

  /** Capacitances and slews that can come up on the way, as long as the threshold is respected. */
  predicate Reachable(o: Options, cap: nat, slew: nat) {
    && o.minInputCap <= cap <= Larger(o.range.maxLoad, o.minInputCap)
    && 1 <= slew <= Larger(Larger(o.range.maxSlew, o.slewThreshold), 1)
  }

  ghost predicate Within(segs: seq<WireSegment>, o: Options, length: Byte, cap: nat, slew: nat, buffered: bool) {
    exists i: nat :: InReach(segs, length, o.range, cap, slew, MAX_TOLERANCE, buffered, i)
  }

  /** Wherever the slew has reached the threshold, a buffered segment is within the largest tolerance. */
  ghost predicate BuffersThere(segs: seq<WireSegment>, o: Options) {
    forall length: Byte, cap: nat, slew: nat {:trigger Within(segs, o, length, cap, slew, true)} ::
      1 <= length <= o.maxSegmentLength && Reachable(o, cap, slew) && slew >= o.slewThreshold ==>
        Within(segs, o, length, cap, slew, true)
  }

  /** There are segments of unit length: plain ones where a plain wire or a forced buffer will do, and
      otherwise one within the largest tolerance of whatever can come up. */
  ghost predicate UnitsThere(segs: seq<WireSegment>, o: Options) {
    if o.simpleSegment then Found(segs, 1, o.range, Plain).Some?
    else
      BuffersThere(segs, o)
      && forall cap: nat, slew: nat {:trigger Within(segs, o, 1, cap, slew, false)} ::
           Reachable(o, cap, slew) ==> Within(segs, o, 1, cap, slew, false)
  }

  /** Small tables can promise it: here a single buffered segment does. */
  lemma {:induction false} OneSegmentIsEnough()
    ensures var o := Options(false, false, 0, 0, 1, 1, 1, Range(1, 1));
            var segs := [WireSegment(1, 1, 1, 0.0, 0, 1, 1, [0.5], ["buffer"])];
            BuffersThere(segs, o) && UnitsThere(segs, o)
  {
    var o := Options(false, false, 0, 0, 1, 1, 1, Range(1, 1));
    var segs := [WireSegment(1, 1, 1, 0.0, 0, 1, 1, [0.5], ["buffer"])];
    forall length: Byte, cap: nat, slew: nat, buffered: bool | length == 1 && Reachable(o, cap, slew)
      ensures Within(segs, o, length, cap, slew, buffered)
    {
      assert InReach(segs, length, o.range, cap, slew, MAX_TOLERANCE, buffered, 0);
    }
  }

  /** After a look-up from a reachable place the place is reachable again; where the slew has reached
      the threshold the segment found has a buffer, and otherwise it has one or the slew has risen. */
  ghost predicate Respects(look: Lookup, segs: seq<WireSegment>, o: Options) {
    forall c: Length, last: bool, t: Tiling {:trigger Pick(look, o.minInputCap, c, last, t)} ::
      c <= o.maxSegmentLength && Reachable(o, t.inputCap, t.inputSlew) ==>
        && var r := Pick(look, o.minInputCap, c, last, t);
        && Reachable(o, r.inputCap, r.inputSlew)
        && Advanced(segs, o, t, r)
  }

  ghost predicate Advanced(segs: seq<WireSegment>, o: Options, t: Tiling, r: Tiling) {
    if r.wires == t.wires then r.inputSlew == t.inputSlew
    else exists w: nat :: w < |segs| && r.wires == t.wires + [w] && MayFollow(segs, o, w, t.inputSlew, r.inputSlew)
  }

  predicate MayFollow(segs: seq<WireSegment>, o: Options, w: nat, slew: nat, slew': nat)
    requires w < |segs|
  {
    segs[w].Buffered() || (slew < o.slewThreshold && slew' > slew)
  }

  lemma {:induction false} LookRespects(segs: seq<WireSegment>, o: Options, segmentLength: nat)
    requires !o.simpleSegment && BuffersThere(segs, o)
    ensures Respects(LookIn(segs, o, segmentLength), segs, o)
  {
    var look := LookIn(segs, o, segmentLength);
    forall c: Length, last: bool, t: Tiling {:trigger Pick(look, o.minInputCap, c, last, t)}
      | c <= o.maxSegmentLength && Reachable(o, t.inputCap, t.inputSlew)
      ensures var r := Pick(look, o.minInputCap, c, last, t);
              && Reachable(o, r.inputCap, r.inputSlew)
              && Advanced(segs, o, t, r)
    {
      OneLook(segs, o, c, t);
      var p := MinDelay(segs, c, o.range, t.inputCap, t.inputSlew, o.slewThreshold, 1);
      assert look(c, last, t) == (p, t.remainingLength);
      if p.key.Some? {
        assert MayFollow(segs, o, p.key.value, t.inputSlew, p.outputSlew);
      }
    }
  }

  lemma {:induction false} OneLook(segs: seq<WireSegment>, o: Options, c: Length, t: Tiling)
    requires BuffersThere(segs, o) && c <= o.maxSegmentLength && Reachable(o, t.inputCap, t.inputSlew)
    ensures var p := MinDelay(segs, c, o.range, t.inputCap, t.inputSlew, o.slewThreshold, 1);
            p.key.Some? ==> && MayFollow(segs, o, p.key.value, t.inputSlew, p.outputSlew)
                            && Reachable(o, Larger(p.outputCap, o.minInputCap), p.outputSlew)
  {
    var at, buffered := MinDelayIs(segs, c, o.range, t.inputCap, t.inputSlew, o.slewThreshold, 1);
    assert t.inputSlew >= o.slewThreshold ==> Within(segs, o, c, t.inputCap, t.inputSlew, true);
  }

  lemma {:induction false} PicksReach(look: Lookup, segs: seq<WireSegment>, o: Options, c: Length, numWires: nat, n: nat, t: Tiling)
    requires Respects(look, segs, o) && c <= o.maxSegmentLength && n <= numWires && Reachable(o, t.inputCap, t.inputSlew)
    ensures var r := Picks(look, o.minInputCap, c, numWires, n, t); Reachable(o, r.inputCap, r.inputSlew)
  {
    if n > 0 { PicksReach(look, segs, o, c, numWires, n - 1, t); }
  }

  lemma {:induction false} TileReaches(look: Lookup, segs: seq<WireSegment>, o: Options, segmentLength: nat, c: Byte, stop: Length, t: Tiling)
    requires Respects(look, segs, o) && c <= o.maxSegmentLength && Reachable(o, t.inputCap, t.inputSlew)
    ensures var r := Tile(look, segs, o.minInputCap, segmentLength, c, stop, t); Reachable(o, r.inputCap, r.inputSlew)
    decreases c
  {
    if c >= stop {
      var n := Fitting(segs, segmentLength, c, t);
      PicksReach(look, segs, o, c, n, n, t);
      TileReaches(look, segs, o, segmentLength, c - 1, stop, Picks(look, o.minInputCap, c, n, n, t));
    }
  }

  lemma {:induction false} UnitLookFinds(segs: seq<WireSegment>, o: Options, segmentLength: nat, last: bool, t: Tiling)
    requires UnitsThere(segs, o) && (!o.simpleSegment ==> Reachable(o, t.inputCap, t.inputSlew))
    ensures Look(segs, o, segmentLength, 1, last, t).0.key.Some?
  {
    if o.simpleSegment {
      var (force, expected, rest) := Spacing(o, segmentLength, 1, last, t.remainingLength);
      ForcedLength(segs, 1, o.range, force, expected);
    } else {
      var at, buffered := MinDelayIs(segs, 1, o.range, t.inputCap, t.inputSlew, o.slewThreshold, 1);
      assert Within(segs, o, 1, t.inputCap, t.inputSlew, false);
    }
  }

  lemma {:induction false} AllUnitsFound(segs: seq<WireSegment>, o: Options, segmentLength: nat, rest: Tiling, left: nat)
    requires UnitsThere(segs, o) && o.maxSegmentLength > 0
    requires !o.simpleSegment ==> Reachable(o, rest.inputCap, rest.inputSlew)
    ensures UnitsFound(LookIn(segs, o, segmentLength), o.minInputCap, rest, left, left)
  {
    var look := LookIn(segs, o, segmentLength);
    if !o.simpleSegment { LookRespects(segs, o, segmentLength); }
    forall k: nat {:trigger UnitFoundAt(look, o.minInputCap, rest, left, k)} | k < left
      ensures UnitFoundAt(look, o.minInputCap, rest, left, k)
    {
      if !o.simpleSegment { PicksReach(look, segs, o, 1, left, k, rest); }
      UnitLookFinds(segs, o, segmentLength, k + 1 >= left, Picks(look, o.minInputCap, 1, left, k, rest));
    }
  }

  /** With unit segments in the table, every level is covered. */
  lemma {:induction false} LevelCovered(segs: seq<WireSegment>, o: Options, segmentLength: nat, t: Tiling)
    requires o.maxSegmentLength > 0 && UnitsThere(segs, o) && t.wires == []
    requires !o.simpleSegment ==> Reachable(o, t.inputCap, t.inputSlew)
    ensures Covered(segs, TileLevel(segs, o, segmentLength, t).wires) == segmentLength
  {
    var look := LookIn(segs, o, segmentLength);
    if !o.simpleSegment {
      LookRespects(segs, o, segmentLength);
      TileReaches(look, segs, o, segmentLength, o.maxSegmentLength, 2, t);
    }
    var left := CoveredIff(segs, o, segmentLength, t);
    AllUnitsFound(segs, o, segmentLength, AllButUnits(segs, o, segmentLength, t), left);
  }

  // ----- how long a signal runs without a buffer -----

  /** Every chosen number is one of a segment of the table. */
  predicate Known(segs: seq<WireSegment>, wires: seq<nat>) {
    forall i :: 0 <= i < |wires| ==> wires[i] < |segs|
  }

  /** How many of the first n segments in a row, counted from the last one, have no buffer. */
  function Unbuffered(segs: seq<WireSegment>, wires: seq<nat>, n: nat): (r: nat)
    requires n <= |wires| && Known(segs, wires)
    ensures r <= n
  {
    if n == 0 || segs[wires[n - 1]].Buffered() then 0 else 1 + Unbuffered(segs, wires, n - 1)
  }

  ghost predicate RunsWithin(segs: seq<WireSegment>, wires: seq<nat>, most: nat)
    requires Known(segs, wires)
  {
    forall n: nat :: n <= |wires| ==> Unbuffered(segs, wires, n) <= most
  }

  lemma {:induction false} RunIsUnbuffered(segs: seq<WireSegment>, wires: seq<nat>, n: nat)
    requires n <= |wires| && Known(segs, wires)
    ensures var r := Unbuffered(segs, wires, n);
            && (forall i :: n - r <= i < n ==> !segs[wires[i]].Buffered())
            && (r < n ==> segs[wires[n - r - 1]].Buffered())
  {
    if n > 0 && !segs[wires[n - 1]].Buffered() { RunIsUnbuffered(segs, wires, n - 1); }
  }

  ghost predicate BufferWithin(segs: seq<WireSegment>, wires: seq<nat>, from: nat, most: nat)
    requires from + most < |wires| && Known(segs, wires)
  {
    exists i :: from <= i <= from + most && segs[wires[i]].Buffered()
  }

  /** The same in terms of windows: among any most + 1 segments in a row, one has a buffer. */
  lemma {:induction false} RunsWithinIff(segs: seq<WireSegment>, wires: seq<nat>, most: nat)
    requires Known(segs, wires)
    ensures RunsWithin(segs, wires, most) <==>
            forall from: nat :: from + most < |wires| ==> BufferWithin(segs, wires, from, most)
  {
    if RunsWithin(segs, wires, most) {
      forall from: nat | from + most < |wires|
        ensures BufferWithin(segs, wires, from, most)
      {
        var n := from + most + 1;
        RunIsUnbuffered(segs, wires, n);
        assert segs[wires[n - Unbuffered(segs, wires, n) - 1]].Buffered();
      }
    } else {
      var n: nat :| n <= |wires| && Unbuffered(segs, wires, n) > most;
      RunIsUnbuffered(segs, wires, n);
      assert !BufferWithin(segs, wires, n - most - 1, most);
    }
  }

  lemma {:induction false} UnbufferedPrefix(segs: seq<WireSegment>, a: seq<nat>, b: seq<nat>, n: nat)
    requires n <= |a| && a <= b && Known(segs, b)
    ensures Known(segs, a) && Unbuffered(segs, a, n) == Unbuffered(segs, b, n)
  {
    if n > 0 { UnbufferedPrefix(segs, a, b, n - 1); }
  }

  /** The run at the end is not longer than the slew, nor any run longer than the threshold. */
  ghost predicate Runs(segs: seq<WireSegment>, o: Options, wires: seq<nat>, slew: nat) {
    && Known(segs, wires) && RunsWithin(segs, wires, o.slewThreshold)
    && Unbuffered(segs, wires, |wires|) <= slew
  }

  lemma {:induction false} OneMoreSegment(segs: seq<WireSegment>, o: Options, wires: seq<nat>, w: nat, slew: nat, slew': nat)
    requires Runs(segs, o, wires, slew) && w < |segs| && MayFollow(segs, o, w, slew, slew')
    ensures Runs(segs, o, wires + [w], slew')
  {
    var more := wires + [w];
    assert Known(segs, more);
    forall n: nat | n <= |more|
      ensures Unbuffered(segs, more, n) <= o.slewThreshold
    {
      if n <= |wires| { UnbufferedPrefix(segs, wires, more, n); } else { UnbufferedPrefix(segs, wires, more, |wires|); }
    }
    UnbufferedPrefix(segs, wires, more, |wires|);
  }

  // ----- the look-ups of a run -----

  /** If the slew has reached the threshold and any segment is within the largest tolerance, then so is
      a buffered one. */
  ghost predicate BufferInReach(segs: seq<WireSegment>, o: Options, c: Length, t: Tiling) {
    t.inputSlew >= o.slewThreshold && Within(segs, o, c, t.inputCap, t.inputSlew, false) ==>
      Within(segs, o, c, t.inputCap, t.inputSlew, true)
  }

  ghost predicate Heeds(look: Lookup, segs: seq<WireSegment>, o: Options) {
    forall c: Length, last: bool, t: Tiling {:trigger Pick(look, o.minInputCap, c, last, t)} ::
      BufferInReach(segs, o, c, t) ==> Advanced(segs, o, t, Pick(look, o.minInputCap, c, last, t))
  }

  lemma {:induction false} LookHeeds(segs: seq<WireSegment>, o: Options, segmentLength: nat)
    requires !o.simpleSegment
    ensures Heeds(LookIn(segs, o, segmentLength), segs, o)
  {
    var look := LookIn(segs, o, segmentLength);
    forall c: Length, last: bool, t: Tiling {:trigger Pick(look, o.minInputCap, c, last, t)} | BufferInReach(segs, o, c, t)
      ensures Advanced(segs, o, t, Pick(look, o.minInputCap, c, last, t))
    {
      OneLookHeeds(segs, o, c, t);
      var p := MinDelay(segs, c, o.range, t.inputCap, t.inputSlew, o.slewThreshold, 1);
      assert look(c, last, t) == (p, t.remainingLength);
      if p.key.Some? {
        assert MayFollow(segs, o, p.key.value, t.inputSlew, p.outputSlew);
      }
    }
  }

  lemma {:induction false} OneLookHeeds(segs: seq<WireSegment>, o: Options, c: Length, t: Tiling)
    requires BufferInReach(segs, o, c, t)
    ensures var p := MinDelay(segs, c, o.range, t.inputCap, t.inputSlew, o.slewThreshold, 1);
            p.key.Some? ==> MayFollow(segs, o, p.key.value, t.inputSlew, p.outputSlew)
  {
    var at, buffered := MinDelayIs(segs, c, o.range, t.inputCap, t.inputSlew, o.slewThreshold, 1);
  }

  /** For each of the first n look-ups of one length. */
  ghost predicate PicksInReach(look: Lookup, segs: seq<WireSegment>, o: Options, c: Length, numWires: nat, n: nat, t: Tiling)
    requires n <= numWires
  {
    n > 0 ==>
      && PicksInReach(look, segs, o, c, numWires, n - 1, t)
      && BufferInReach(segs, o, c, Picks(look, o.minInputCap, c, numWires, n - 1, t))
  }

  /** For all look-ups of one level. */
  ghost predicate TileInReach(look: Lookup, segs: seq<WireSegment>, o: Options, segmentLength: nat, c: Byte, t: Tiling)
    decreases c
  {
    c > 0 ==>
      var n := Fitting(segs, segmentLength, c, t);
      && PicksInReach(look, segs, o, c, n, n, t)
      && TileInReach(look, segs, o, segmentLength, c - 1, Picks(look, o.minInputCap, c, n, n, t))
  }

  /** For all look-ups of the first n levels. */
  ghost predicate LevelsInReach(segs: seq<WireSegment>, o: Options, lengths: seq<nat>, n: nat)
    requires n <= |lengths|
  {
    n > 0 ==>
      && LevelsInReach(segs, o, lengths, n - 1)
      && TileInReach(LookIn(segs, o, lengths[n - 1]), segs, o, lengths[n - 1], o.maxSegmentLength,
                     StartOf(o, Levels(segs, o, lengths, n - 1)))
  }

  lemma {:induction false} PickRuns(look: Lookup, segs: seq<WireSegment>, o: Options, c: Length, last: bool, above: seq<nat>, t: Tiling)
    requires Heeds(look, segs, o) && BufferInReach(segs, o, c, t) && Runs(segs, o, above + t.wires, t.inputSlew)
    ensures var r := Pick(look, o.minInputCap, c, last, t); Runs(segs, o, above + r.wires, r.inputSlew)
  {
    var r := Pick(look, o.minInputCap, c, last, t);
    if r.wires != t.wires {
      var w: nat :| w < |segs| && r.wires == t.wires + [w] && MayFollow(segs, o, w, t.inputSlew, r.inputSlew);
      OneMoreSegment(segs, o, above + t.wires, w, t.inputSlew, r.inputSlew);
      assert above + r.wires == above + t.wires + [w];
    }
  }

  lemma {:induction false} PicksRun(look: Lookup, segs: seq<WireSegment>, o: Options, c: Length, numWires: nat, n: nat,
                                    above: seq<nat>, t: Tiling)
    requires Heeds(look, segs, o) && n <= numWires && PicksInReach(look, segs, o, c, numWires, n, t)
    requires Runs(segs, o, above + t.wires, t.inputSlew)
    ensures var r := Picks(look, o.minInputCap, c, numWires, n, t); Runs(segs, o, above + r.wires, r.inputSlew)
  {
    if n > 0 {
      PicksRun(look, segs, o, c, numWires, n - 1, above, t);
      PickRuns(look, segs, o, c, n >= numWires, above, Picks(look, o.minInputCap, c, numWires, n - 1, t));
    }
  }

  lemma {:induction false} TileRuns(look: Lookup, segs: seq<WireSegment>, o: Options, segmentLength: nat, c: Byte, above: seq<nat>, t: Tiling)
    requires Heeds(look, segs, o) && TileInReach(look, segs, o, segmentLength, c, t)
    requires Runs(segs, o, above + t.wires, t.inputSlew)
    ensures var r := Tile(look, segs, o.minInputCap, segmentLength, c, 1, t); Runs(segs, o, above + r.wires, r.inputSlew)
    decreases c
  {
    if c > 0 {
      var n := Fitting(segs, segmentLength, c, t);
      PicksRun(look, segs, o, c, n, n, above, t);
      TileRuns(look, segs, o, segmentLength, c - 1, above, Picks(look, o.minInputCap, c, n, n, t));
    }
  }

  // ----- all levels -----

  /** The segments from the root down through the first n levels. */
  function Path(levels: seq<Tiling>, n: nat): seq<nat>
    requires n <= |levels|
  {
    if n == 0 then [] else Path(levels, n - 1) + levels[n - 1].wires
  }

  lemma {:induction false} PathPrefix(a: seq<Tiling>, b: seq<Tiling>, n: nat)
    requires n <= |a| && a <= b
    ensures Path(a, n) == Path(b, n)
  {
    if n > 0 { PathPrefix(a, b, n - 1); }
  }

  /** If at each look-up of a run that is made from the slew threshold on a buffered segment is in reach
      wherever any is, then from the root through all levels no more than slewThreshold segments in a
      row are without a buffer. */
  lemma {:induction false} PathRuns(segs: seq<WireSegment>, o: Options, lengths: seq<nat>, n: nat)
    requires !o.simpleSegment && n <= |lengths| && LevelsInReach(segs, o, lengths, n)
    ensures var levels := Levels(segs, o, lengths, n); Runs(segs, o, Path(levels, n), StartOf(o, levels).inputSlew)
  {
    if n > 0 {
      var before, levels := Levels(segs, o, lengths, n - 1), Levels(segs, o, lengths, n);
      PathRuns(segs, o, lengths, n - 1);
      var above, t := Path(before, n - 1), StartOf(o, before);
      assert above + t.wires == above;
      LookHeeds(segs, o, lengths[n - 1]);
      TileRuns(LookIn(segs, o, lengths[n - 1]), segs, o, lengths[n - 1], o.maxSegmentLength, above, t);
      PathPrefix(before, levels, n - 1);
    }
  }

  lemma {:induction false} PicksThere(look: Lookup, segs: seq<WireSegment>, o: Options, c: Length, numWires: nat, n: nat, t: Tiling)
    requires Respects(look, segs, o) && BuffersThere(segs, o) && c <= o.maxSegmentLength && n <= numWires
    requires Reachable(o, t.inputCap, t.inputSlew)
    ensures PicksInReach(look, segs, o, c, numWires, n, t)
  {
    if n > 0 {
      PicksThere(look, segs, o, c, numWires, n - 1, t);
      PicksReach(look, segs, o, c, numWires, n - 1, t);
      BufferThere(segs, o, c, Picks(look, o.minInputCap, c, numWires, n - 1, t));
    }
  }

  lemma {:induction false} BufferThere(segs: seq<WireSegment>, o: Options, c: Length, t: Tiling)
    requires BuffersThere(segs, o) && c <= o.maxSegmentLength && Reachable(o, t.inputCap, t.inputSlew)
    ensures BufferInReach(segs, o, c, t)
  {
    assert t.inputSlew >= o.slewThreshold ==> Within(segs, o, c, t.inputCap, t.inputSlew, true);
  }

  lemma {:induction false} TileThere(look: Lookup, segs: seq<WireSegment>, o: Options, segmentLength: nat, c: Byte, t: Tiling)
    requires Respects(look, segs, o) && BuffersThere(segs, o) && c <= o.maxSegmentLength
    requires Reachable(o, t.inputCap, t.inputSlew)
    ensures TileInReach(look, segs, o, segmentLength, c, t)
    decreases c
  {
    if c > 0 {
      var n := Fitting(segs, segmentLength, c, t);
      PicksThere(look, segs, o, c, n, n, t);
      PicksReach(look, segs, o, c, n, n, t);
      TileThere(look, segs, o, segmentLength, c - 1, Picks(look, o.minInputCap, c, n, n, t));
    }
  }

  /** A table with buffered segments for whatever can come up keeps that promise in every run. */
  lemma {:induction false} LevelsThere(segs: seq<WireSegment>, o: Options, lengths: seq<nat>, n: nat)
    requires !o.simpleSegment && BuffersThere(segs, o) && n <= |lengths|
    ensures LevelsInReach(segs, o, lengths, n)
    ensures var t := StartOf(o, Levels(segs, o, lengths, n)); Reachable(o, t.inputCap, t.inputSlew)
  {
    if n > 0 {
      LevelsThere(segs, o, lengths, n - 1);
      var t, look := StartOf(o, Levels(segs, o, lengths, n - 1)), LookIn(segs, o, lengths[n - 1]);
      LookRespects(segs, o, lengths[n - 1]);
      TileThere(look, segs, o, lengths[n - 1], o.maxSegmentLength, t);
      TileReaches(look, segs, o, lengths[n - 1], o.maxSegmentLength, 1, t);
    }
  }

  lemma {:induction false} LevelAt(segs: seq<WireSegment>, o: Options, lengths: seq<nat>, n: nat, i: nat)
    requires i < n <= |lengths|
    ensures Levels(segs, o, lengths, n)[i] == TileLevel(segs, o, lengths[i], StartOf(o, Levels(segs, o, lengths, i)))
  {
    if i < n - 1 { LevelAt(segs, o, lengths, n - 1, i); }
  }

  /** With unit segments in the table, all levels are covered. */
  lemma {:induction false} AllCovered(segs: seq<WireSegment>, o: Options, lengths: seq<nat>, n: nat, i: nat)
    requires o.maxSegmentLength > 0 && UnitsThere(segs, o) && i < n <= |lengths|
    ensures Covered(segs, Levels(segs, o, lengths, n)[i].wires) == lengths[i]
  {
    LevelAt(segs, o, lengths, n, i);
    if !o.simpleSegment { LevelsThere(segs, o, lengths, i); }
    LevelCovered(segs, o, lengths[i], StartOf(o, Levels(segs, o, lengths, i)));
  }
}
