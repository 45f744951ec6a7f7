/** Covering the length of an H-tree level with wire segments. */
module LevelTiling {
  import opened ClockNets
  import opened SegmentLut
  import opened SegmentChoice

  /** What is looked for at a tolerance: anything close enough, or only buffered segments. */
  function At(inputCap: nat, inputSlew: nat, tolerance: nat, buffered: bool): Filter {
    Near(inputCap, inputSlew, tolerance, buffered)
  }

  /** The limits of the table: the largest load and the largest slew looked for. */
  datatype Range = Range(maxLoad: Byte, maxSlew: Byte)

  function Found(segs: seq<WireSegment>, length: Byte, range: Range, f: Filter): (key: Option<nat>)
    ensures key.Some? ==> key.value < |segs|
  {
    Choice(segs, length, range.maxLoad, range.maxSlew, f)
  }

  /** The smallest tolerance from `from` on at which a segment is found, or the largest tolerance. */
  function Smallest(segs: seq<WireSegment>, length: Byte, range: Range, inputCap: nat, inputSlew: nat, from: nat,
                    buffered: bool): (at: nat)
    requires from <= MAX_TOLERANCE
    ensures from <= at <= MAX_TOLERANCE
    decreases MAX_TOLERANCE - from
  {
    if from == MAX_TOLERANCE || Found(segs, length, range, At(inputCap, inputSlew, from, buffered)).Some? then from
    else Smallest(segs, length, range, inputCap, inputSlew, from + 1, buffered)
  }

  /** What a look-up answers: the segment, and the slew and capacitance at its end. */
  datatype Picked = Picked(key: Option<nat>, outputSlew: nat, outputCap: nat)

  /** From the slew threshold on, the fastest buffered segment at the smallest tolerance at which
      there is one, if there is one at all, and otherwise the fastest segment at the largest
      tolerance.  Below the threshold, the fastest segment at the smallest tolerance at which there
      is one, and the slew rises. */
  function MinDelay(segs: seq<WireSegment>, length: Byte, range: Range, inputCap: nat, inputSlew: nat, threshold: nat,
                    from: nat): (p: Picked)
    requires from <= MAX_TOLERANCE
    ensures p.key.Some? ==> p.key.value < |segs|
  {
    var first := Smallest(segs, length, range, inputCap, inputSlew, from, true);
    var buffered := Found(segs, length, range, At(inputCap, inputSlew, first, true));
    if inputSlew >= threshold && buffered.Some? then
      Picked(buffered, segs[buffered.value].outputSlew, segs[buffered.value].load)
    else
      var at := if inputSlew >= threshold then MAX_TOLERANCE
                else Smallest(segs, length, range, inputCap, inputSlew, from, false);
      var key := Found(segs, length, range, At(inputCap, inputSlew, at, false));
      if key == None then Picked(None, 0, 0)
      else Picked(key, Larger(segs[key.value].outputSlew, inputSlew + 1), segs[key.value].load)
  }

  function Larger(a: nat, b: nat): (r: nat)
    ensures r >= a && r >= b && (r == a || r == b)
  {
    if a > b then a else b
  }

  /** Search with growing tolerance. */
  method ComputeMinDelaySegment(table: SegmentTable, range: Range, length: Byte, inputSlew: nat, inputCap: nat,
                                slewThreshold: nat, tolerance: nat, outputSlew0: nat, outputCap0: nat)
    returns (key: Option<nat>, outputSlew: nat, outputCap: nat)
    requires table.Valid() && tolerance <= MAX_TOLERANCE
    ensures var p := MinDelay(table.wireSegments, length, range, inputCap, inputSlew, slewThreshold, tolerance);
            && key == p.key
            && outputSlew == (if key == None then outputSlew0 else p.outputSlew)
            && outputCap == if key == None then outputCap0 else p.outputCap
    decreases MAX_TOLERANCE - tolerance
  {
    var keys := ScanTable(table, length, range.maxLoad, range.maxSlew,
                          [At(inputCap, inputSlew, tolerance, false), At(inputCap, inputSlew, tolerance, true)]);
    var minKey, minBufKey := keys[0], keys[1];
    assert minKey == Found(table.wireSegments, length, range, At(inputCap, inputSlew, tolerance, false));
    assert minBufKey == Found(table.wireSegments, length, range, At(inputCap, inputSlew, tolerance, true));
    if inputSlew >= slewThreshold {
      if minBufKey.Some? {
        var best := table.wireSegments[minBufKey.value];
        return minBufKey, best.outputSlew, best.load;
      }
      if tolerance < MAX_TOLERANCE {
        key, outputSlew, outputCap := ComputeMinDelaySegment(table, range, length, inputSlew, inputCap, slewThreshold,
                                                             tolerance + 1, outputSlew0, outputCap0);
        return;
      }
    }
    if minKey == None {
      if tolerance >= MAX_TOLERANCE {
        return None, outputSlew0, outputCap0;
      }
      key, outputSlew, outputCap := ComputeMinDelaySegment(table, range, length, inputSlew, inputCap, slewThreshold,
                                                           tolerance + 1, outputSlew0, outputCap0);
      return;
    }
    var best := table.wireSegments[minKey.value];
    key, outputSlew, outputCap := minKey, Larger(best.outputSlew, inputSlew + 1), best.load;
  }

  /** The search for a segment with or without a buffer, the buffer as near to the expected place as
      can be.  A buffer that is near is taken before any other one. */
  function Forced(segs: seq<WireSegment>, length: Byte, range: Range, forceBuffer: bool, expectedLength: int): (key: Option<nat>)
    requires length > 0
    ensures key.Some? ==> key.value < |segs|
  {
    var place := (length as real + expectedLength as real) / length as real;
    var near := Found(segs, length, range, BufferNear(place));
    var single := Found(segs, length, range, SingleBuffer);
    if forceBuffer && near.Some? then near
    else if forceBuffer && single.Some? then single
    else Found(segs, length, range, Plain)
  }

  method ComputeForcedSegment(table: SegmentTable, range: Range, length: Byte, forceBuffer: bool, expectedLength: int)
    returns (key: Option<nat>)
    requires table.Valid() && length > 0
    ensures key == Forced(table.wireSegments, length, range, forceBuffer, expectedLength)
  {
    var place := (length as real + expectedLength as real) / length as real;
    var keys := ScanTable(table, length, range.maxLoad, range.maxSlew, [Plain, BufferNear(place), SingleBuffer]);
    var minKey, minBufKey, minBufKeyFallback := keys[0], keys[1], keys[2];
    if forceBuffer {
      if minBufKey.Some? {
        return minBufKey;
      }
      if minBufKeyFallback.Some? {
        return minBufKeyFallback;
      }
    }
    key := minKey;
  }

  // ----- what a single look-up answers -----

  lemma {:induction false} SmallestIs(segs: seq<WireSegment>, length: Byte, range: Range, inputCap: nat, inputSlew: nat,
                                      from: nat, buffered: bool)
    requires from <= MAX_TOLERANCE
    ensures var at := Smallest(segs, length, range, inputCap, inputSlew, from, buffered);
            && (forall t :: from <= t < at ==> Found(segs, length, range, At(inputCap, inputSlew, t, buffered)) == None)
            && (Found(segs, length, range, At(inputCap, inputSlew, at, buffered)) == None ==> at == MAX_TOLERANCE)
    decreases MAX_TOLERANCE - from
  {
    if from < MAX_TOLERANCE && Found(segs, length, range, At(inputCap, inputSlew, from, buffered)) == None {
      SmallestIs(segs, length, range, inputCap, inputSlew, from + 1, buffered);
    }
  }

  /** Segment i can be found, at some tolerance from `from` on but at none before `at`. */
  predicate InReach(segs: seq<WireSegment>, length: Byte, range: Range, inputCap: nat, inputSlew: nat, at: nat,
                    buffered: bool, i: nat) {
    Findable(segs, length, range.maxLoad, range.maxSlew, At(inputCap, inputSlew, at, buffered), i)
  }

  /** The answer, in terms of the segments: a segment of least delay among those within some
      tolerance, while none at all is within a smaller one.  It is buffered if the slew has reached
      the threshold and a buffered one is within the largest tolerance.  There is no answer exactly
      if nothing is within the largest tolerance. */
  lemma {:induction false} MinDelayIs(segs: seq<WireSegment>, length: Byte, range: Range, inputCap: nat, inputSlew: nat,
                                      threshold: nat, from: nat) returns (at: nat, buffered: bool)
    requires from <= MAX_TOLERANCE
    ensures var p := MinDelay(segs, length, range, inputCap, inputSlew, threshold, from);
            && from <= at <= MAX_TOLERANCE
            && (buffered <==> inputSlew >= threshold
                              && exists i: nat :: InReach(segs, length, range, inputCap, inputSlew, MAX_TOLERANCE, true, i))
            && (p.key == None <==> forall i: nat :: !InReach(segs, length, range, inputCap, inputSlew, MAX_TOLERANCE, false, i))
            && (p.key.Some? ==>
                  && InReach(segs, length, range, inputCap, inputSlew, at, buffered, p.key.value)
                  && (forall i: nat :: InReach(segs, length, range, inputCap, inputSlew, at, buffered, i) ==>
                        segs[p.key.value].delay <= segs[i].delay)
                  && (buffered || inputSlew < threshold ==>
                        forall i: nat, t :: from <= t < at ==> !InReach(segs, length, range, inputCap, inputSlew, t, buffered, i))
                  && (!buffered && inputSlew >= threshold ==> at == MAX_TOLERANCE)
                  && p.outputSlew == (if buffered then segs[p.key.value].outputSlew
                                      else Larger(segs[p.key.value].outputSlew, inputSlew + 1))
                  && p.outputCap == segs[p.key.value].load)
  {
    FoundOrNot(segs, length, range, inputCap, inputSlew, from, true);
    FoundOrNot(segs, length, range, inputCap, inputSlew, from, false);
    var first := Smallest(segs, length, range, inputCap, inputSlew, from, true);
    buffered := inputSlew >= threshold && Found(segs, length, range, At(inputCap, inputSlew, first, true)).Some?;
    at := if buffered then first
          else if inputSlew >= threshold then MAX_TOLERANCE
          else Smallest(segs, length, range, inputCap, inputSlew, from, false);
    ChoiceIsLeast(segs, length, range.maxLoad, range.maxSlew, At(inputCap, inputSlew, at, buffered));
    ChoiceIsLeast(segs, length, range.maxLoad, range.maxSlew, At(inputCap, inputSlew, MAX_TOLERANCE, false));
    var key := Found(segs, length, range, At(inputCap, inputSlew, at, buffered));
    if key.Some? {
      assert InReach(segs, length, range, inputCap, inputSlew, MAX_TOLERANCE, false, key.value);
    }
  }

  /** Tolerances only widen the reach: the smallest one finds a segment exactly if one is within the
      largest, and below it nothing is within reach. */
  lemma {:induction false} FoundOrNot(segs: seq<WireSegment>, length: Byte, range: Range, inputCap: nat, inputSlew: nat,
                                      from: nat, buffered: bool)
    requires from <= MAX_TOLERANCE
    ensures var at := Smallest(segs, length, range, inputCap, inputSlew, from, buffered);
            && (Found(segs, length, range, At(inputCap, inputSlew, at, buffered)).Some?
                <==> exists i: nat :: InReach(segs, length, range, inputCap, inputSlew, MAX_TOLERANCE, buffered, i))
            && forall i: nat, t :: from <= t < at ==> !InReach(segs, length, range, inputCap, inputSlew, t, buffered, i)
  {
    var at := Smallest(segs, length, range, inputCap, inputSlew, from, buffered);
    SmallestIs(segs, length, range, inputCap, inputSlew, from, buffered);
    forall t | from <= t <= at
      ensures Found(segs, length, range, At(inputCap, inputSlew, t, buffered)) == None ==>
                forall i: nat :: !InReach(segs, length, range, inputCap, inputSlew, t, buffered, i)
      ensures Found(segs, length, range, At(inputCap, inputSlew, t, buffered)).Some? ==>
                exists i: nat :: InReach(segs, length, range, inputCap, inputSlew, MAX_TOLERANCE, buffered, i)
    {
      ChoiceIsLeast(segs, length, range.maxLoad, range.maxSlew, At(inputCap, inputSlew, t, buffered));
      var key := Found(segs, length, range, At(inputCap, inputSlew, t, buffered));
      if key.Some? {
        assert InReach(segs, length, range, inputCap, inputSlew, MAX_TOLERANCE, buffered, key.value);
      }
    }
  }

  // ----- the level -----

  /** A length that is looked for. */
  type Length = x: Byte | x > 0 witness 1

  /** The lengths of the first n chosen segments. */
  function TotalLength(segs: seq<WireSegment>, wires: seq<nat>, n: nat): nat
    requires n <= |wires|
  {
    if n == 0 then 0
    else TotalLength(segs, wires, n - 1) + if wires[n - 1] < |segs| then segs[wires[n - 1]].length else 0
  }

  function Covered(segs: seq<WireSegment>, wires: seq<nat>): nat {
    TotalLength(segs, wires, |wires|)
  }

  lemma {:induction false} CoveredSnoc(segs: seq<WireSegment>, wires: seq<nat>, w: nat)
    requires w < |segs|
    ensures Covered(segs, wires + [w]) == Covered(segs, wires) + segs[w].length
  {
    TotalLengthPrefix(segs, wires, wires + [w], |wires|);
  }

  lemma {:induction false} TotalLengthPrefix(segs: seq<WireSegment>, a: seq<nat>, b: seq<nat>, n: nat)
    requires n <= |a| && a <= b
    ensures TotalLength(segs, a, n) == TotalLength(segs, b, n)
  {
    if n > 0 { TotalLengthPrefix(segs, a, b, n - 1); }
  }

  /** The options of a run that the tiling depends on. */
  datatype Options = Options(simpleSegment: bool, vertexBuffers: bool, vertexBufferLength: int, bufferDistance: int,
                             minInputCap: nat, slewThreshold: nat, maxSegmentLength: Byte, range: Range)

  /** What one look-up hands to the next: the chosen segments, the capacitance and slew at their end,
      and how far the next buffer is away. */
  datatype Tiling = Tiling(wires: seq<nat>, inputCap: nat, inputSlew: nat, remainingLength: int, storedLength: int)

  /** Whether a buffer is forced, where it is expected, and how far the next one is away then. */
  function Spacing(o: Options, segmentLength: nat, c: Length, last: bool, remaining: int): (bool, int, int) {
    var rest := remaining - c;
    if segmentLength >= o.vertexBufferLength && last && o.vertexBuffers then (true, 0, o.bufferDistance)
    else if rest <= 0 then (true, rest, rest + o.bufferDistance)
    else (false, rest, rest)
  }

  /** What is looked up next for a segment length, and how far the next buffer is away then. */
  function Look(segs: seq<WireSegment>, o: Options, segmentLength: nat, c: Length, last: bool, t: Tiling): (Picked, int) {
    if o.simpleSegment then
      var (force, expected, rest) := Spacing(o, segmentLength, c, last, t.remainingLength);
      (Picked(Forced(segs, c, o.range, force, expected), 0, 0), rest)
    else (MinDelay(segs, c, o.range, t.inputCap, t.inputSlew, o.slewThreshold, 1), t.remainingLength)
  }

  /** Look-ups for any length, for the last segment of that length or not, from anywhere. */
  type Lookup = (Length, bool, Tiling) -> (Picked, int)

  function LookIn(segs: seq<WireSegment>, o: Options, segmentLength: nat): Lookup {
    (c: Length, last: bool, t: Tiling) => Look(segs, o, segmentLength, c, last, t)
  }

  /** One look-up, and the segment added if there is one. */
  function Pick(look: Lookup, minCap: nat, c: Length, last: bool, t: Tiling): Tiling {
    var (p, rest) := look(c, last, t);
    if p.key == None then t.(remainingLength := rest)
    else Tiling(t.wires + [p.key.value], Larger(p.outputCap, minCap), p.outputSlew, rest, rest)
  }

  /** The first n of numWires look-ups for one segment length. */
  function Picks(look: Lookup, minCap: nat, c: Length, numWires: nat, n: nat, t: Tiling): Tiling
    requires n <= numWires
  {
    if n == 0 then t else Pick(look, minCap, c, n >= numWires, Picks(look, minCap, c, numWires, n - 1, t))
  }

  /** How many segments of one length fit into what is left. */
  function Fitting(segs: seq<WireSegment>, segmentLength: nat, c: Length, t: Tiling): nat {
    if Covered(segs, t.wires) <= segmentLength then (segmentLength - Covered(segs, t.wires)) / c else 0
  }

  /** The level with all lengths from c down to `stop` tried, each as often as it fits into what is
      left. */
  function Tile(look: Lookup, segs: seq<WireSegment>, minCap: nat, segmentLength: nat, c: Byte, stop: Length, t: Tiling): Tiling
    decreases c
  {
    if c < stop then t
    else
      var n := Fitting(segs, segmentLength, c, t);
      Tile(look, segs, minCap, segmentLength, c - 1, stop, Picks(look, minCap, c, n, n, t))
  }

  function TileLevel(segs: seq<WireSegment>, o: Options, segmentLength: nat, t: Tiling): Tiling {
    Tile(LookIn(segs, o, segmentLength), segs, o.minInputCap, segmentLength, o.maxSegmentLength, 1, t)
  }

  /** The segments that are found are in the table and have the length that was looked for. */
  ghost predicate Sound(look: Lookup, segs: seq<WireSegment>) {
    forall c: Length, last: bool, t: Tiling {:trigger look(c, last, t)} ::
      var key := look(c, last, t).0.key; key.Some? ==> key.value < |segs| && segs[key.value].length == c
  }

  lemma {:induction false} ForcedLength(segs: seq<WireSegment>, length: Length, range: Range, force: bool, expected: int)
    ensures var key := Forced(segs, length, range, force, expected); key.Some? ==> segs[key.value].length == length
    ensures Found(segs, length, range, Plain).Some? ==> Forced(segs, length, range, force, expected).Some?
  {
    FoundLength(segs, length, range, BufferNear((length as real + expected as real) / length as real));
    FoundLength(segs, length, range, SingleBuffer);
    FoundLength(segs, length, range, Plain);
  }

  /** A found segment has the length that was looked for. */
  lemma {:induction false} FoundLength(segs: seq<WireSegment>, length: Byte, range: Range, f: Filter)
    ensures var key := Found(segs, length, range, f); key.Some? ==> segs[key.value].length == length
  {
    ChoiceIsLeast(segs, length, range.maxLoad, range.maxSlew, f);
  }

  lemma {:induction false} LookSound(segs: seq<WireSegment>, o: Options, segmentLength: nat)
    ensures Sound(LookIn(segs, o, segmentLength), segs)
  {
    forall c: Length, last: bool, t: Tiling
      ensures var key := Look(segs, o, segmentLength, c, last, t).0.key;
              key.Some? ==> key.value < |segs| && segs[key.value].length == c
    {
      if o.simpleSegment {
        var (force, expected, rest) := Spacing(o, segmentLength, c, last, t.remainingLength);
        ForcedLength(segs, c, o.range, force, expected);
      } else {
        var at, buffered := MinDelayIs(segs, c, o.range, t.inputCap, t.inputSlew, o.slewThreshold, 1);
      }
    }
  }

  // ----- the loops -----

  /** One look-up with a buffer forced at regular distances. */
  method LookForced(table: SegmentTable, o: Options, segmentLength: nat, charSegLength: Length, lastWire: bool, remaining: int)
    returns (key: Option<nat>, remainingLength: int)
    requires table.Valid()
    ensures var (force, expected, rest) := Spacing(o, segmentLength, charSegLength, lastWire, remaining);
            key == Forced(table.wireSegments, charSegLength, o.range, force, expected) && remainingLength == rest
  {
    remainingLength := remaining - charSegLength;
    if segmentLength >= o.vertexBufferLength && lastWire && o.vertexBuffers {
      remainingLength := 0;
      key := ComputeForcedSegment(table, o.range, charSegLength, true, remainingLength);
      remainingLength := remainingLength + o.bufferDistance;
    } else if remainingLength <= 0 {
      key := ComputeForcedSegment(table, o.range, charSegLength, true, remainingLength);
      remainingLength := remainingLength + o.bufferDistance;
    } else {
      key := ComputeForcedSegment(table, o.range, charSegLength, false, remainingLength);
    }
  }

  /** One look-up and what follows from it. */
  method PickSegment(table: SegmentTable, o: Options, segmentLength: nat, charSegLength: Length, lastWire: bool, t: Tiling)
    returns (found: bool, t': Tiling)
    requires table.Valid()
    ensures t' == Pick(LookIn(table.wireSegments, o, segmentLength), o.minInputCap, charSegLength, lastWire, t)
    ensures Covered(table.wireSegments, t'.wires) == Covered(table.wireSegments, t.wires) + if found then charSegLength else 0
  {
    var key, outSlew, outCap, remainingLength := None, 0, 0, t.remainingLength;
    if o.simpleSegment {
      key, remainingLength := LookForced(table, o, segmentLength, charSegLength, lastWire, t.remainingLength);
    } else {
      key, outSlew, outCap := ComputeMinDelaySegment(table, o.range, charSegLength, t.inputSlew, t.inputCap,
                                                     o.slewThreshold, 1, 0, 0);
    }
    LookSound(table.wireSegments, o, segmentLength);
    assert LookIn(table.wireSegments, o, segmentLength)(charSegLength, lastWire, t)
           == (Picked(key, outSlew, outCap), remainingLength);
    found := key.Some?;
    if found {
      CoveredSnoc(table.wireSegments, t.wires, key.value);
      t' := Tiling(t.wires + [key.value], Larger(outCap, o.minInputCap), outSlew, remainingLength, remainingLength);
    } else {
      t' := t.(remainingLength := remainingLength);
    }
  }

  /** Look-up n of numWires for one length, and the length covered then. */
  method PickNext(table: SegmentTable, o: Options, segmentLength: nat, charSegLength: Length, numWires: nat, n: nat,
                  ghost t0: Tiling, t: Tiling, length: nat)
    returns (t': Tiling, length': nat)
    requires table.Valid() && n < numWires && length == Covered(table.wireSegments, t.wires)
    requires t == Picks(LookIn(table.wireSegments, o, segmentLength), o.minInputCap, charSegLength, numWires, n, t0)
    ensures t' == Picks(LookIn(table.wireSegments, o, segmentLength), o.minInputCap, charSegLength, numWires, n + 1, t0)
    ensures length' == Covered(table.wireSegments, t'.wires)
  {
    var found;
    found, t' := PickSegment(table, o, segmentLength, charSegLength, n + 1 >= numWires, t);
    length' := if found then length + charSegLength else length;
  }

  /** As many segments of one length as fit. */
  method PickSegments(table: SegmentTable, o: Options, segmentLength: nat, charSegLength: Length, numWires: nat,
                      t0: Tiling, length0: nat)
    returns (t: Tiling, length: nat)
    requires table.Valid() && length0 == Covered(table.wireSegments, t0.wires)
    ensures t == Picks(LookIn(table.wireSegments, o, segmentLength), o.minInputCap, charSegLength, numWires, numWires, t0)
    ensures length == Covered(table.wireSegments, t.wires)
  {
    t, length := t0, length0;
    var wireCount := 0;
    while wireCount < numWires
      invariant wireCount <= numWires
      invariant t == Picks(LookIn(table.wireSegments, o, segmentLength), o.minInputCap, charSegLength, numWires, wireCount, t0)
      invariant length == Covered(table.wireSegments, t.wires)
    {
      t, length := PickNext(table, o, segmentLength, charSegLength, numWires, wireCount, t0, t, length);
      wireCount := wireCount + 1;
    }
  }

  /** Once the level is covered, nothing more fits. */
  lemma {:induction false} FullStays(look: Lookup, segs: seq<WireSegment>, minCap: nat, segmentLength: nat, c: Byte, t: Tiling)
    requires Covered(segs, t.wires) == segmentLength
    ensures Tile(look, segs, minCap, segmentLength, c, 1, t) == t
    decreases c
  {
    if c > 0 { FullStays(look, segs, minCap, segmentLength, c - 1, t); }
  }

  /** One length, if it fits at all. */
  method TryLength(table: SegmentTable, o: Options, segmentLength: nat, charSegLength: Length, t0: Tiling, length0: nat)
    returns (tried: bool, t: Tiling, length: nat)
    requires table.Valid() && length0 == Covered(table.wireSegments, t0.wires) <= segmentLength
    ensures var n := Fitting(table.wireSegments, segmentLength, charSegLength, t0);
            t == Picks(LookIn(table.wireSegments, o, segmentLength), o.minInputCap, charSegLength, n, n, t0)
    ensures length == Covered(table.wireSegments, t.wires) <= segmentLength
  {
    var numWires := (segmentLength - length0) / charSegLength;
    LookSound(table.wireSegments, o, segmentLength);
    PicksFit(LookIn(table.wireSegments, o, segmentLength), table.wireSegments, o.minInputCap, segmentLength, charSegLength, t0);
    tried, t, length := numWires >= 1, t0, length0;
    if tried {
      t, length := PickSegments(table, o, segmentLength, charSegLength, numWires, t0, length0);
    }
  }

  /** The segments of a level, from the longest length down to one.  The loop ends early once the
      level is covered, which makes no difference. */
  method ComputeLevelTopology(table: SegmentTable, o: Options, segmentLength: nat, t0: Tiling)
    returns (t: Tiling, length: nat)
    requires table.Valid() && t0.wires == []
    ensures t == TileLevel(table.wireSegments, o, segmentLength, t0)
    ensures length == Covered(table.wireSegments, t.wires) <= segmentLength
  {
    t, length := t0, 0;
    var charSegLength: nat := o.maxSegmentLength;
    while charSegLength >= 1
      invariant charSegLength <= o.maxSegmentLength && length == Covered(table.wireSegments, t.wires) <= segmentLength
      invariant Tile(LookIn(table.wireSegments, o, segmentLength), table.wireSegments, o.minInputCap, segmentLength,
                     charSegLength, 1, t) == TileLevel(table.wireSegments, o, segmentLength, t0)
    {
      var tried;
      tried, t, length := TryLength(table, o, segmentLength, charSegLength, t, length);
      charSegLength := charSegLength - 1;
      if tried && length == segmentLength {
        FullStays(LookIn(table.wireSegments, o, segmentLength), table.wireSegments, o.minInputCap, segmentLength,
                  charSegLength, t);
        break;
      }
    }
  }

  function Times(n: nat, c: nat): nat {
    if n == 0 then 0 else Times(n - 1, c) + c
  }

  lemma {:induction false} TimesFits(n: nat, a: nat, c: nat)
    requires c > 0 && n * c <= a
    ensures Times(n, c) <= a
  {
    if n > 0 {
      assert n * c == (n - 1) * c + c;
      TimesFits(n - 1, a - c, c);
    }
  }

  lemma {:induction false} PickAdds(look: Lookup, segs: seq<WireSegment>, minCap: nat, c: Length, last: bool, t: Tiling)
    requires Sound(look, segs)
    ensures Covered(segs, Pick(look, minCap, c, last, t).wires)
            == Covered(segs, t.wires) + if look(c, last, t).0.key.Some? then c else 0
  {
    var key := look(c, last, t).0.key;
    if key.Some? { CoveredSnoc(segs, t.wires, key.value); }
  }

  lemma {:induction false} PicksAdd(look: Lookup, segs: seq<WireSegment>, minCap: nat, c: Length, numWires: nat, n: nat, t: Tiling)
    requires Sound(look, segs) && n <= numWires
    ensures var covered := Covered(segs, Picks(look, minCap, c, numWires, n, t).wires);
            Covered(segs, t.wires) <= covered <= Covered(segs, t.wires) + Times(n, c)
  {
    if n > 0 {
      PicksAdd(look, segs, minCap, c, numWires, n - 1, t);
      PickAdds(look, segs, minCap, c, n >= numWires, Picks(look, minCap, c, numWires, n - 1, t));
    }
  }

  /** What fits does not cover more than the level. */
  lemma {:induction false} PicksFit(look: Lookup, segs: seq<WireSegment>, minCap: nat, segmentLength: nat, c: Length, t: Tiling)
    requires Sound(look, segs) && Covered(segs, t.wires) <= segmentLength
    ensures var n := Fitting(segs, segmentLength, c, t);
            && n == (segmentLength - Covered(segs, t.wires)) / c
            && Covered(segs, Picks(look, minCap, c, n, n, t).wires) <= segmentLength
  {
    var n := Fitting(segs, segmentLength, c, t);
    TimesFits(n, segmentLength - Covered(segs, t.wires), c);
    PicksAdd(look, segs, minCap, c, n, n, t);
  }

  /** The first level begins with the smallest capacitance and slew, and each further level where the
      one before has ended. */
  function StartOf(o: Options, before: seq<Tiling>): Tiling {
    if before == [] then Tiling([], o.minInputCap, 1, o.bufferDistance, 0)
    else var p := before[|before| - 1]; Tiling([], p.inputCap, p.inputSlew, p.storedLength, 0)
  }

  /** The first n levels, one below the other. */
  function Levels(segs: seq<WireSegment>, o: Options, lengths: seq<nat>, n: nat): (levels: seq<Tiling>)
    requires n <= |lengths|
    ensures |levels| == n
  {
    if n == 0 then []
    else
      var before := Levels(segs, o, lengths, n - 1);
      before + [TileLevel(segs, o, lengths[n - 1], StartOf(o, before))]
  }

  /** All levels of a tree. */
  method ComputeLevels(table: SegmentTable, o: Options, lengths: seq<nat>) returns (levels: seq<Tiling>)
    requires table.Valid()
    ensures levels == Levels(table.wireSegments, o, lengths, |lengths|)
  {
    levels := [];
    for level := 0 to |lengths|
      invariant levels == Levels(table.wireSegments, o, lengths, level)
    {
      var t, length := ComputeLevelTopology(table, o, lengths[level], StartOf(o, levels));
      levels := levels + [t];
    }
  }
}
