/** In which order the segments of a tiling come: the longest first, and a shorter one only where no
    longer one fits or can be found. */
module TilingOrder {
  import opened SegmentLut
  import opened LevelTiling
  import opened TilingResults
  import opened TilingChains

  /** In front of segment i, a look-up for length c finds nothing. */
  predicate NoAnswer(segs: seq<WireSegment>, o: Options, wires: seq<nat>, i: nat, c: Length, cap: nat, slew: nat)
    requires i <= |wires| && Known(segs, wires)
  {
    MinDelay(segs, c, o.range, CapAt(segs, o, wires, i, cap), SlewAt(segs, o, wires, i, slew), o.slewThreshold, 1).key.None?
  }

  /** In front of segment i, length c no longer fits, or nothing has been found for it there or before. */
  ghost predicate Exhausted(segs: seq<WireSegment>, o: Options, length: nat, wires: seq<nat>, i: nat, c: Length, cap: nat, slew: nat)
    requires i <= |wires| && Known(segs, wires)
  {
    TotalLength(segs, wires, i) + c > length || exists j: nat :: j <= i && NoAnswer(segs, o, wires, j, c, cap, slew)
  }

  /** Longer lengths come first, and have been exhausted then. */
  ghost predicate LongestFirst(segs: seq<WireSegment>, o: Options, length: nat, wires: seq<nat>, cap: nat, slew: nat)
    requires Known(segs, wires)
  {
    forall i: nat, c: Length {:trigger Exhausted(segs, o, length, wires, i, c, cap, slew)} ::
      i < |wires| && segs[wires[i]].length < c <= o.maxSegmentLength ==> Exhausted(segs, o, length, wires, i, c, cap, slew)
  }

  /** At the end, so have all lengths above c. */
  ghost predicate AllExhausted(segs: seq<WireSegment>, o: Options, length: nat, wires: seq<nat>, above: nat, cap: nat, slew: nat)
    requires Known(segs, wires)
  {
    forall c: Length {:trigger Exhausted(segs, o, length, wires, |wires|, c, cap, slew)} ::
      above < c <= o.maxSegmentLength ==> Exhausted(segs, o, length, wires, |wires|, c, cap, slew)
  }

  lemma {:induction false} ExhaustedOn(segs: seq<WireSegment>, o: Options, length: nat, wires: seq<nat>, more: seq<nat>, i: nat,
                                       k: nat, c: Length, cap: nat, slew: nat)
    requires wires <= more && Known(segs, more) && i <= |wires| && i <= k <= |more|
    requires Known(segs, wires) && Exhausted(segs, o, length, wires, i, c, cap, slew)
    ensures Exhausted(segs, o, length, more, k, c, cap, slew)
  {
    if exists j: nat :: j <= i && NoAnswer(segs, o, wires, j, c, cap, slew) {
      var j: nat :| j <= i && NoAnswer(segs, o, wires, j, c, cap, slew);
      NoAnswerOn(segs, o, wires, more, j, c, cap, slew);
    } else {
      TotalLengthPrefix(segs, wires, more, i);
      LengthsRise(segs, more, i, k);
    }
  }

  lemma {:induction false} NoAnswerOn(segs: seq<WireSegment>, o: Options, wires: seq<nat>, more: seq<nat>, j: nat, c: Length,
                                      cap: nat, slew: nat)
    requires wires <= more && Known(segs, more) && j <= |wires| && Known(segs, wires)
    requires NoAnswer(segs, o, wires, j, c, cap, slew)
    ensures NoAnswer(segs, o, more, j, c, cap, slew)
  {
    SlewPrefix(segs, o, wires, more, j, slew);
  }

  lemma {:induction false} LengthsRise(segs: seq<WireSegment>, wires: seq<nat>, i: nat, k: nat)
    requires i <= k <= |wires|
    ensures TotalLength(segs, wires, i) <= TotalLength(segs, wires, k)
  {
    if i < k { LengthsRise(segs, wires, i, k - 1); }
  }

  /** The tiling so far, with all lengths above c tried. */
  ghost predicate Ordered(segs: seq<WireSegment>, o: Options, length: nat, above: nat, t: Tiling, cap: nat, slew: nat) {
    && ChainTo(segs, o, [], t, cap, slew) && Known(segs, t.wires)
    && LongestFirst(segs, o, length, t.wires, cap, slew) && AllExhausted(segs, o, length, t.wires, above, cap, slew)
  }

  lemma {:induction false} StateAt(segs: seq<WireSegment>, o: Options, t: Tiling, cap: nat, slew: nat)
    requires ChainTo(segs, o, [], t, cap, slew)
    ensures Known(segs, t.wires)
    ensures t.inputCap == CapAt(segs, o, t.wires, |t.wires|, cap) && t.inputSlew == SlewAt(segs, o, t.wires, |t.wires|, slew)
  {
    assert [] + t.wires == t.wires;
  }

  /** One more segment of length c, when all longer ones are exhausted. */
  lemma {:induction false} OneMoreOrdered(segs: seq<WireSegment>, o: Options, length: nat, c: Length, wires: seq<nat>, w: nat,
                                          cap: nat, slew: nat)
    requires Known(segs, wires) && w < |segs| && segs[w].length == c
    requires LongestFirst(segs, o, length, wires, cap, slew) && AllExhausted(segs, o, length, wires, c, cap, slew)
    ensures Known(segs, wires + [w])
    ensures LongestFirst(segs, o, length, wires + [w], cap, slew)
    ensures AllExhausted(segs, o, length, wires + [w], c, cap, slew)
  {
    var more := wires + [w];
    assert Known(segs, more);
    forall i: nat, d: Length {:trigger Exhausted(segs, o, length, more, i, d, cap, slew)}
      | i < |more| && segs[more[i]].length < d <= o.maxSegmentLength
      ensures Exhausted(segs, o, length, more, i, d, cap, slew)
    {
      ExhaustedOn(segs, o, length, wires, more, i, i, d, cap, slew);
    }
    forall d: Length {:trigger Exhausted(segs, o, length, more, |more|, d, cap, slew)} | c < d <= o.maxSegmentLength
      ensures Exhausted(segs, o, length, more, |more|, d, cap, slew)
    {
      ExhaustedOn(segs, o, length, wires, more, |wires|, |more|, d, cap, slew);
    }
  }

  /** After n look-ups for one length, each has added a segment, or the last one has found nothing. */
  ghost predicate AllOrStuck(segs: seq<WireSegment>, o: Options, c: Length, n: nat, t: Tiling, r: Tiling, cap: nat, slew: nat)
    requires Known(segs, r.wires)
  {
    Covered(segs, r.wires) == Covered(segs, t.wires) + Times(n, c)
    || NoAnswer(segs, o, r.wires, |r.wires|, c, cap, slew)
  }

  lemma {:induction false} PicksOrdered(segs: seq<WireSegment>, o: Options, length: nat, c: Length, numWires: nat, n: nat, t: Tiling,
                                        cap: nat, slew: nat)
    requires !o.simpleSegment && n <= numWires && Ordered(segs, o, length, c, t, cap, slew)
    ensures var r := Picks(LookIn(segs, o, length), o.minInputCap, c, numWires, n, t);
            Ordered(segs, o, length, c, r, cap, slew) && AllOrStuck(segs, o, c, n, t, r, cap, slew)
  {
    if n > 0 {
      PicksOrdered(segs, o, length, c, numWires, n - 1, t, cap, slew);
      var before := Picks(LookIn(segs, o, length), o.minInputCap, c, numWires, n - 1, t);
      PickOrdered(segs, o, length, c, n >= numWires, before, cap, slew);
    }
  }

  lemma {:induction false} PickOrdered(segs: seq<WireSegment>, o: Options, length: nat, c: Length, last: bool, t: Tiling,
                                       cap: nat, slew: nat)
    requires !o.simpleSegment && Ordered(segs, o, length, c, t, cap, slew)
    ensures var r := Pick(LookIn(segs, o, length), o.minInputCap, c, last, t);
            && Ordered(segs, o, length, c, r, cap, slew)
            && (if NoAnswer(segs, o, t.wires, |t.wires|, c, cap, slew) then r.wires == t.wires
                else Covered(segs, r.wires) == Covered(segs, t.wires) + c)
  {
    var r := Pick(LookIn(segs, o, length), o.minInputCap, c, last, t);
    StateAt(segs, o, t, cap, slew);
    PickLinks(segs, o, length, c, last, t);
    LinkChains(segs, o, [], t, r, cap, slew);
    var p := MinDelay(segs, c, o.range, t.inputCap, t.inputSlew, o.slewThreshold, 1);
    if p.key.Some? {
      var at, buffered := MinDelayIs(segs, c, o.range, t.inputCap, t.inputSlew, o.slewThreshold, 1);
      assert segs[p.key.value].length == c;
      CoveredSnoc(segs, t.wires, p.key.value);
      OneMoreOrdered(segs, o, length, c, t.wires, p.key.value, cap, slew);
    }
  }

  lemma {:induction false} NoMoreFit(a: nat, c: nat)
    requires c > 0
    ensures Times(a / c, c) + c > a
  {
    TimesIs(a / c, c);
    assert a == a / c * c + a % c;
  }

  lemma {:induction false} TimesIs(n: nat, c: nat)
    ensures Times(n, c) == n * c
  {
    if n > 0 { TimesIs(n - 1, c); }
  }

  /** When one length has been tried as often as it fits, it is exhausted. */
  lemma {:induction false} LengthOrdered(segs: seq<WireSegment>, o: Options, length: nat, c: Length, t: Tiling, cap: nat, slew: nat)
    requires !o.simpleSegment && Ordered(segs, o, length, c, t, cap, slew)
    ensures var n := Fitting(segs, length, c, t);
            Ordered(segs, o, length, c - 1, Picks(LookIn(segs, o, length), o.minInputCap, c, n, n, t), cap, slew)
  {
    var n := Fitting(segs, length, c, t);
    var r := Picks(LookIn(segs, o, length), o.minInputCap, c, n, n, t);
    PicksOrdered(segs, o, length, c, n, n, t, cap, slew);
    assert Exhausted(segs, o, length, r.wires, |r.wires|, c, cap, slew) by {
      if Covered(segs, t.wires) <= length { NoMoreFit(length - Covered(segs, t.wires), c); }
    }
    forall d: Length {:trigger Exhausted(segs, o, length, r.wires, |r.wires|, d, cap, slew)} | c - 1 < d <= o.maxSegmentLength
      ensures Exhausted(segs, o, length, r.wires, |r.wires|, d, cap, slew)
    {
    }
  }

  lemma {:induction false} TileOrdered(segs: seq<WireSegment>, o: Options, length: nat, c: Byte, t: Tiling, cap: nat, slew: nat)
    requires !o.simpleSegment && Ordered(segs, o, length, c, t, cap, slew)
    ensures Ordered(segs, o, length, 0, Tile(LookIn(segs, o, length), segs, o.minInputCap, length, c, 1, t), cap, slew)
    decreases c
  {
    if c > 0 {
      var n := Fitting(segs, length, c, t);
      LengthOrdered(segs, o, length, c, t, cap, slew);
      TileOrdered(segs, o, length, c - 1, Picks(LookIn(segs, o, length), o.minInputCap, c, n, n, t), cap, slew);
    }
  }

  /** A level takes each segment as long as it can: wherever one is chosen, every longer length does
      not fit any more or has found nothing there or before, and at the end this holds of all lengths. */
  lemma {:induction false} LevelOrdered(segs: seq<WireSegment>, o: Options, length: nat, t: Tiling)
    requires !o.simpleSegment && t.wires == []
    ensures var r := TileLevel(segs, o, length, t);
            && Known(segs, r.wires) && LongestFirst(segs, o, length, r.wires, t.inputCap, t.inputSlew)
            && AllExhausted(segs, o, length, r.wires, 0, t.inputCap, t.inputSlew)
  {
    assert [] + t.wires == [];
    TileOrdered(segs, o, length, o.maxSegmentLength, t, t.inputCap, t.inputSlew);
  }
}
