/** What is handed from one segment of a tiling to the next: each segment fits the capacitance and the
    slew that the one before leaves behind. */
module TilingChains {
  import opened SegmentLut
  import opened SegmentChoice
  import opened LevelTiling
  import opened TilingResults

  /** The capacitance in front of segment i: that at the start, or the load of the segment before,
      but not less than the smallest one. */
  function CapAt(segs: seq<WireSegment>, o: Options, wires: seq<nat>, i: nat, start: nat): nat
    requires i <= |wires| && Known(segs, wires)
  {
    if i == 0 then start else Larger(segs[wires[i - 1]].load, o.minInputCap)
  }

  /** The slew in front of segment i.  A buffer that is due resets it, and anything else lets it rise. */
  function SlewAt(segs: seq<WireSegment>, o: Options, wires: seq<nat>, i: nat, start: nat): nat
    requires i <= |wires| && Known(segs, wires)
  {
    if i == 0 then start
    else
      var slew, seg := SlewAt(segs, o, wires, i - 1, start), segs[wires[i - 1]];
      if slew >= o.slewThreshold && seg.Buffered() then seg.outputSlew else Larger(seg.outputSlew, slew + 1)
  }

  /** Segment w is within a tolerance of 10 of a capacitance and a slew. */
  predicate Suits(segs: seq<WireSegment>, w: nat, cap: nat, slew: nat)
    requires w < |segs|
  {
    cap - 10 <= segs[w].inputCap <= cap + 10 && slew - 10 <= segs[w].inputSlew <= slew + 10
  }

  /** And it is what a look-up for its length answers there. */
  predicate Answers(segs: seq<WireSegment>, o: Options, w: nat, cap: nat, slew: nat)
    requires w < |segs|
  {
    var key := MinDelay(segs, segs[w].length, o.range, cap, slew, o.slewThreshold, 1).key;
    Suits(segs, w, cap, slew) && key.Some? && key.value == w
  }

  predicate AnswersAt(segs: seq<WireSegment>, o: Options, wires: seq<nat>, i: nat, cap: nat, slew: nat)
    requires i < |wires| && Known(segs, wires)
  {
    Answers(segs, o, wires[i], CapAt(segs, o, wires, i, cap), SlewAt(segs, o, wires, i, slew))
  }

  /** A chain of segments from a capacitance and a slew to others. */
  ghost predicate Chain(segs: seq<WireSegment>, o: Options, wires: seq<nat>, cap: nat, slew: nat, cap': nat, slew': nat) {
    && Known(segs, wires)
    && (forall i {:trigger AnswersAt(segs, o, wires, i, cap, slew)} :: 0 <= i < |wires| ==> AnswersAt(segs, o, wires, i, cap, slew))
    && cap' == CapAt(segs, o, wires, |wires|, cap) && slew' == SlewAt(segs, o, wires, |wires|, slew)
  }

  lemma {:induction false} SlewPrefix(segs: seq<WireSegment>, o: Options, a: seq<nat>, b: seq<nat>, i: nat, start: nat)
    requires i <= |a| && a <= b && Known(segs, b)
    ensures Known(segs, a) && SlewAt(segs, o, a, i, start) == SlewAt(segs, o, b, i, start)
  {
    if i > 0 { SlewPrefix(segs, o, a, b, i - 1, start); }
  }

  /** What one segment leaves behind. */
  predicate Leaves(segs: seq<WireSegment>, o: Options, w: nat, slew: nat, cap': nat, slew': nat)
    requires w < |segs|
  {
    && cap' == Larger(segs[w].load, o.minInputCap)
    && slew' == if slew >= o.slewThreshold && segs[w].Buffered() then segs[w].outputSlew
                else Larger(segs[w].outputSlew, slew + 1)
  }

  lemma {:induction false} OneMoreLink(segs: seq<WireSegment>, o: Options, wires: seq<nat>, w: nat, cap0: nat, slew0: nat,
                                       cap: nat, slew: nat, cap': nat, slew': nat)
    requires Chain(segs, o, wires, cap0, slew0, cap, slew) && w < |segs| && Answers(segs, o, w, cap, slew)
    requires Leaves(segs, o, w, slew, cap', slew')
    ensures Chain(segs, o, wires + [w], cap0, slew0, cap', slew')
  {
    var more := wires + [w];
    assert Known(segs, more);
    forall i {:trigger AnswersAt(segs, o, more, i, cap0, slew0)} | 0 <= i < |more|
      ensures AnswersAt(segs, o, more, i, cap0, slew0)
    {
      SlewPrefix(segs, o, wires, more, i, slew0);
      assert i < |wires| ==> AnswersAt(segs, o, wires, i, cap0, slew0);
    }
    SlewPrefix(segs, o, wires, more, |wires|, slew0);
  }

  /** A look-up without result changes neither, and what one with a result adds has been answered. */
  ghost predicate Links(segs: seq<WireSegment>, o: Options, t: Tiling, r: Tiling) {
    if r.wires == t.wires then r.inputCap == t.inputCap && r.inputSlew == t.inputSlew
    else exists w: nat :: && w < |segs| && r.wires == t.wires + [w] && Answers(segs, o, w, t.inputCap, t.inputSlew)
                          && Leaves(segs, o, w, t.inputSlew, r.inputCap, r.inputSlew)
  }

  lemma {:induction false} AnswerLinks(segs: seq<WireSegment>, o: Options, c: Length, cap: nat, slew: nat)
    ensures var p := MinDelay(segs, c, o.range, cap, slew, o.slewThreshold, 1);
            p.key.Some? ==> && Answers(segs, o, p.key.value, cap, slew)
                            && Leaves(segs, o, p.key.value, slew, Larger(p.outputCap, o.minInputCap), p.outputSlew)
  {
    var at, buffered := MinDelayIs(segs, c, o.range, cap, slew, o.slewThreshold, 1);
    var p := MinDelay(segs, c, o.range, cap, slew, o.slewThreshold, 1);
    if p.key.Some? && slew >= o.slewThreshold && segs[p.key.value].Buffered() {
      assert InReach(segs, c, o.range, cap, slew, MAX_TOLERANCE, true, p.key.value);
    }
  }

  lemma {:induction false} PickLinks(segs: seq<WireSegment>, o: Options, segmentLength: nat, c: Length, last: bool, t: Tiling)
    requires !o.simpleSegment
    ensures Links(segs, o, t, Pick(LookIn(segs, o, segmentLength), o.minInputCap, c, last, t))
  {
    AnswerLinks(segs, o, c, t.inputCap, t.inputSlew);
    var p, r := MinDelay(segs, c, o.range, t.inputCap, t.inputSlew, o.slewThreshold, 1),
                Pick(LookIn(segs, o, segmentLength), o.minInputCap, c, last, t);
    if p.key.Some? {
      assert r.wires == t.wires + [p.key.value];
    }
  }

  /** A chain from the start through the segments above and the ones of this level. */
  ghost predicate ChainTo(segs: seq<WireSegment>, o: Options, above: seq<nat>, t: Tiling, cap: nat, slew: nat) {
    Chain(segs, o, above + t.wires, cap, slew, t.inputCap, t.inputSlew)
  }

  lemma {:induction false} LinkChains(segs: seq<WireSegment>, o: Options, above: seq<nat>, t: Tiling, r: Tiling, cap: nat, slew: nat)
    requires ChainTo(segs, o, above, t, cap, slew) && Links(segs, o, t, r)
    ensures ChainTo(segs, o, above, r, cap, slew)
  {
    if r.wires != t.wires {
      var w: nat :| && w < |segs| && r.wires == t.wires + [w] && Answers(segs, o, w, t.inputCap, t.inputSlew)
                    && Leaves(segs, o, w, t.inputSlew, r.inputCap, r.inputSlew);
      OneMoreLink(segs, o, above + t.wires, w, cap, slew, t.inputCap, t.inputSlew, r.inputCap, r.inputSlew);
      assert above + r.wires == above + t.wires + [w];
    }
  }

  ghost predicate Linking(look: Lookup, segs: seq<WireSegment>, o: Options) {
    forall c: Length, last: bool, t: Tiling {:trigger Pick(look, o.minInputCap, c, last, t)} ::
      Links(segs, o, t, Pick(look, o.minInputCap, c, last, t))
  }

  lemma {:induction false} LookLinks(segs: seq<WireSegment>, o: Options, segmentLength: nat)
    requires !o.simpleSegment
    ensures Linking(LookIn(segs, o, segmentLength), segs, o)
  {
    var look := LookIn(segs, o, segmentLength);
    forall c: Length, last: bool, t: Tiling {:trigger Pick(look, o.minInputCap, c, last, t)}
      ensures Links(segs, o, t, Pick(look, o.minInputCap, c, last, t))
    {
      PickLinks(segs, o, segmentLength, c, last, t);
    }
  }

  lemma {:induction false} PicksChain(look: Lookup, segs: seq<WireSegment>, o: Options, c: Length, numWires: nat, n: nat,
                                      above: seq<nat>, t: Tiling, cap: nat, slew: nat)
    requires Linking(look, segs, o) && n <= numWires && ChainTo(segs, o, above, t, cap, slew)
    ensures ChainTo(segs, o, above, Picks(look, o.minInputCap, c, numWires, n, t), cap, slew)
  {
    if n > 0 {
      var before := Picks(look, o.minInputCap, c, numWires, n - 1, t);
      PicksChain(look, segs, o, c, numWires, n - 1, above, t, cap, slew);
      var after := Pick(look, o.minInputCap, c, n >= numWires, before);
      LinkChains(segs, o, above, before, after, cap, slew);
    }
  }

  lemma {:induction false} TileChains(look: Lookup, segs: seq<WireSegment>, o: Options, segmentLength: nat, c: Byte, above: seq<nat>,
                                      t: Tiling, cap: nat, slew: nat)
    requires Linking(look, segs, o) && ChainTo(segs, o, above, t, cap, slew)
    ensures ChainTo(segs, o, above, Tile(look, segs, o.minInputCap, segmentLength, c, 1, t), cap, slew)
    decreases c
  {
    if c > 0 {
      var n := Fitting(segs, segmentLength, c, t);
      PicksChain(look, segs, o, c, n, n, above, t, cap, slew);
      TileChains(look, segs, o, segmentLength, c - 1, above, Picks(look, o.minInputCap, c, n, n, t), cap, slew);
    }
  }

  /** The segments of a level are a chain from where it starts to where it ends. */
  lemma {:induction false} LevelChains(segs: seq<WireSegment>, o: Options, segmentLength: nat, t: Tiling)
    requires !o.simpleSegment && t.wires == []
    ensures var r := TileLevel(segs, o, segmentLength, t);
            Chain(segs, o, r.wires, t.inputCap, t.inputSlew, r.inputCap, r.inputSlew)
  {
    var r := TileLevel(segs, o, segmentLength, t);
    assert [] + t.wires == t.wires && [] + r.wires == r.wires;
    LookLinks(segs, o, segmentLength);
    TileChains(LookIn(segs, o, segmentLength), segs, o, segmentLength, o.maxSegmentLength, [], t, t.inputCap, t.inputSlew);
  }

  /** All segments from the root down through the levels are one chain, from the smallest capacitance
      and slew on. */
  lemma {:induction false} PathChains(segs: seq<WireSegment>, o: Options, lengths: seq<nat>, n: nat)
    requires !o.simpleSegment && n <= |lengths|
    ensures var levels := Levels(segs, o, lengths, n);
            Chain(segs, o, Path(levels, n), o.minInputCap, 1, StartOf(o, levels).inputCap, StartOf(o, levels).inputSlew)
  {
    if n > 0 {
      var before, levels := Levels(segs, o, lengths, n - 1), Levels(segs, o, lengths, n);
      PathChains(segs, o, lengths, n - 1);
      var above, t := Path(before, n - 1), StartOf(o, before);
      assert above + t.wires == above;
      LookLinks(segs, o, lengths[n - 1]);
      TileChains(LookIn(segs, o, lengths[n - 1]), segs, o, lengths[n - 1], o.maxSegmentLength, above, t, o.minInputCap, 1);
      PathPrefix(before, levels, n - 1);
    }
  }
}
