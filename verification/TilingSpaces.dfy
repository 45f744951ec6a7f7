/** Where buffers are put when they are forced at regular distances. */
module TilingSpaces {
  import opened ClockNets
  import opened SegmentLut
  import opened SegmentChoice
  import opened LevelTiling
  import opened TilingResults

  // ----- which segment is taken -----

  /** Of the segments of a length that pass a filter, i is one of least delay. */
  ghost predicate LeastOf(segs: seq<WireSegment>, length: Byte, range: Range, f: Filter, i: nat) {
    && Findable(segs, length, range.maxLoad, range.maxSlew, f, i)
    && forall k: nat :: Findable(segs, length, range.maxLoad, range.maxSlew, f, k) ==> segs[i].delay <= segs[k].delay
  }

  /** What is looked for: no buffer, a single one, or a single one that is less than a tenth of the place
      away from it. */
  lemma {:induction false} FiltersAre(seg: WireSegment, place: real)
    requires place > 0.0
    ensures Admits(Plain, seg) <==> seg.bufferLocations == []
    ensures Admits(SingleBuffer, seg) <==> |seg.bufferLocations| == 1
    ensures Admits(BufferNear(place), seg) <==>
              |seg.bufferLocations| == 1 && -place < 10.0 * (seg.bufferLocations[0] - place) < place
  {
  }

  ghost predicate Any(segs: seq<WireSegment>, length: Byte, range: Range, f: Filter) {
    exists i: nat :: Findable(segs, length, range.maxLoad, range.maxSlew, f, i)
  }

  /** The segment is one with a single buffer near the place, given as a part of its length, if there
      is one, else any one with a single buffer, and else, or if no buffer is due, a plain one. */
  ghost predicate BestAt(segs: seq<WireSegment>, length: Length, range: Range, due: bool, place: real, i: nat) {
    if due && Any(segs, length, range, BufferNear(place)) then LeastOf(segs, length, range, BufferNear(place), i)
    else if due && Any(segs, length, range, SingleBuffer) then LeastOf(segs, length, range, SingleBuffer, i)
    else LeastOf(segs, length, range, Plain, i)
  }

  /** There is nothing to take exactly if there is no plain segment, nor one with a single buffer while
      a buffer is due. */
  ghost predicate Best(segs: seq<WireSegment>, length: Length, range: Range, due: bool, place: real, key: Option<nat>) {
    && (key == None <==> !Any(segs, length, range, Plain) && !(due && Any(segs, length, range, SingleBuffer)))
    && (key.Some? ==> BestAt(segs, length, range, due, place, key.value))
  }

  lemma {:induction false} NearIsSingle(segs: seq<WireSegment>, length: Length, range: Range, place: real)
    requires Any(segs, length, range, BufferNear(place))
    ensures Any(segs, length, range, SingleBuffer)
  {
    var i: nat :| Findable(segs, length, range.maxLoad, range.maxSlew, BufferNear(place), i);
    assert Findable(segs, length, range.maxLoad, range.maxSlew, SingleBuffer, i);
  }

  lemma {:induction false} ForcedIsBest(segs: seq<WireSegment>, length: Length, range: Range, due: bool, expected: int)
    ensures Best(segs, length, range, due, (length + expected) as real / length as real, Forced(segs, length, range, due, expected))
  {
    var place := (length as real + expected as real) / length as real;
    assert place == (length + expected) as real / length as real;
    if Any(segs, length, range, BufferNear(place)) { NearIsSingle(segs, length, range, place); }
    ChoiceIsLeast(segs, length, range.maxLoad, range.maxSlew, BufferNear(place));
    ChoiceIsLeast(segs, length, range.maxLoad, range.maxSlew, SingleBuffer);
    ChoiceIsLeast(segs, length, range.maxLoad, range.maxSlew, Plain);
  }

  // ----- where buffers are due -----

  /** One look-up: for which length, whether it is the last one for that length, and what it finds. */
  datatype Attempt = Attempt(length: Length, last: bool, key: Option<nat>)

  /** The lengths of the first n look-ups, found or not. */
  function Tried(a: seq<Attempt>, n: nat): nat
    requires n <= |a|
  {
    if n == 0 then 0 else Tried(a, n - 1) + a[n - 1].length
  }

  /** What they find. */
  function Keys(a: seq<Attempt>, n: nat): seq<nat>
    requires n <= |a|
  {
    if n == 0 then [] else Keys(a, n - 1) + if a[n - 1].key.Some? then [a[n - 1].key.value] else []
  }

  /** At the end of each length tried in this level, there is a buffer. */
  predicate AtVertices(o: Options, length: nat) {
    o.vertexBuffers && length >= o.vertexBufferLength
  }

  /** The place of the next buffer, in front of look-up i and measured from where the level starts. */
  function NextBuffer(o: Options, length: nat, a: seq<Attempt>, i: nat, rest: int): int
    requires i <= |a|
  {
    if i == 0 then rest
    else
      var next, at := NextBuffer(o, length, a, i - 1, rest), Tried(a, i);
      if AtVertices(o, length) && a[i - 1].last then at + o.bufferDistance
      else if next <= at then next + o.bufferDistance
      else next
  }

  /** The place of the buffer for look-up i. */
  function BufferPlace(o: Options, length: nat, a: seq<Attempt>, i: nat, rest: int): int
    requires i < |a|
  {
    if AtVertices(o, length) && a[i].last then Tried(a, i + 1) else NextBuffer(o, length, a, i, rest)
  }

  /** Look-up i asks for a buffer exactly if one is due on its length, and as near to its place as there
      is one. */
  ghost predicate SpacedAt(segs: seq<WireSegment>, o: Options, length: nat, a: seq<Attempt>, i: nat, rest: int)
    requires i < |a|
  {
    var c, from, at := a[i].length, Tried(a, i), BufferPlace(o, length, a, i, rest);
    Best(segs, c, o.range, at <= from + c, (at - from) as real / c as real, a[i].key)
  }

  ghost predicate Spaced(segs: seq<WireSegment>, o: Options, length: nat, a: seq<Attempt>, rest: int) {
    forall i {:trigger SpacedAt(segs, o, length, a, i, rest)} :: 0 <= i < |a| ==> SpacedAt(segs, o, length, a, i, rest)
  }

  /** How far the next buffer is away behind the last segment found. */
  function Stored(o: Options, length: nat, a: seq<Attempt>, i: nat, rest: int, stored: int): int
    requires i <= |a|
  {
    if i == 0 then stored
    else if a[i - 1].key.Some? then NextBuffer(o, length, a, i, rest) - Tried(a, i)
    else Stored(o, length, a, i - 1, rest, stored)
  }

  /** The look-ups so far, begun from t0, have led to t. */
  ghost predicate SpacedTo(segs: seq<WireSegment>, o: Options, length: nat, a: seq<Attempt>, t0: Tiling, t: Tiling) {
    && Spaced(segs, o, length, a, t0.remainingLength) && t.wires == Keys(a, |a|)
    && t.remainingLength == NextBuffer(o, length, a, |a|, t0.remainingLength) - Tried(a, |a|)
    && t.storedLength == Stored(o, length, a, |a|, t0.remainingLength, t0.storedLength)
  }

  lemma {:induction false} AttemptsPrefix(o: Options, length: nat, a: seq<Attempt>, b: seq<Attempt>, i: nat, rest: int, stored: int)
    requires i <= |a| && a <= b
    ensures Tried(a, i) == Tried(b, i) && Keys(a, i) == Keys(b, i)
    ensures NextBuffer(o, length, a, i, rest) == NextBuffer(o, length, b, i, rest)
    ensures Stored(o, length, a, i, rest, stored) == Stored(o, length, b, i, rest, stored)
  {
    if i > 0 { AttemptsPrefix(o, length, a, b, i - 1, rest, stored); }
  }

  lemma {:induction false} SpacedOn(segs: seq<WireSegment>, o: Options, length: nat, a: seq<Attempt>, x: Attempt, rest: int)
    requires Spaced(segs, o, length, a, rest) && SpacedAt(segs, o, length, a + [x], |a|, rest)
    ensures Spaced(segs, o, length, a + [x], rest)
  {
    var more := a + [x];
    forall i {:trigger SpacedAt(segs, o, length, more, i, rest)} | 0 <= i < |more|
      ensures SpacedAt(segs, o, length, more, i, rest)
    {
      if i < |a| {
        assert SpacedAt(segs, o, length, a, i, rest);
        AttemptsPrefix(o, length, a, more, i, rest, 0);
        AttemptsPrefix(o, length, a, more, i + 1, rest, 0);
      }
    }
  }

  /** The look-up that is made from t. */
  function AttemptAt(segs: seq<WireSegment>, o: Options, length: nat, c: Length, last: bool, t: Tiling): Attempt {
    Attempt(c, last, Look(segs, o, length, c, last, t).0.key)
  }

  lemma {:induction false} PickSpaced(segs: seq<WireSegment>, o: Options, length: nat, c: Length, last: bool, a: seq<Attempt>,
                                      t0: Tiling, t: Tiling)
    requires o.simpleSegment && SpacedTo(segs, o, length, a, t0, t)
    ensures SpacedTo(segs, o, length, a + [AttemptAt(segs, o, length, c, last, t)], t0,
                     Pick(LookIn(segs, o, length), o.minInputCap, c, last, t))
  {
    var (due, expected, left) := Spacing(o, length, c, last, t.remainingLength);
    ForcedIsBest(segs, c, o.range, due, expected);
    var x := AttemptAt(segs, o, length, c, last, t);
    var more := a + [x];
    AttemptsPrefix(o, length, a, more, |a|, t0.remainingLength, t0.storedLength);
    assert SpacedAt(segs, o, length, more, |a|, t0.remainingLength);
    SpacedOn(segs, o, length, a, x, t0.remainingLength);
  }

  // ----- which look-ups there are -----

  /** How many of the first n look-ups are for length c. */
  function Count(a: seq<Attempt>, c: Length, n: nat): nat
    requires n <= |a|
  {
    if n == 0 then 0 else Count(a, c, n - 1) + if a[n - 1].length == c then 1 else 0
  }

  /** What they find of lengths above c. */
  function FoundAbove(a: seq<Attempt>, c: nat, n: nat): nat
    requires n <= |a|
  {
    if n == 0 then 0
    else FoundAbove(a, c, n - 1) + if a[n - 1].length > c && a[n - 1].key.Some? then a[n - 1].length else 0
  }

  /** Length c is tried as often as it fits into what the longer ones have left. */
  predicate Fits(a: seq<Attempt>, length: nat, c: Length) {
    FoundAbove(a, c, |a|) <= length && Count(a, c, |a|) == (length - FoundAbove(a, c, |a|)) / c
  }

  predicate Closes(a: seq<Attempt>, i: nat)
    requires i < |a|
  {
    i + 1 == |a| || a[i + 1].length != a[i].length
  }

  predicate EndsAre(a: seq<Attempt>) {
    forall i: nat :: i < |a| ==> a[i].last == Closes(a, i)
  }

  predicate Falling(a: seq<Attempt>) {
    forall i, k :: 0 <= i < k < |a| ==> a[i].length >= a[k].length
  }

  /** All lengths from the longest down to the shortest, each as often as it fits, the last one of each
      marked. */
  ghost predicate AllTried(a: seq<Attempt>, o: Options, length: nat, above: nat) {
    && Falling(a) && EndsAre(a) && (forall i :: 0 <= i < |a| ==> above < a[i].length <= o.maxSegmentLength)
    && forall c: Length {:trigger Fits(a, length, c)} :: above < c <= o.maxSegmentLength ==> Fits(a, length, c)
  }

  /** The n look-ups for one length that are made from t. */
  function Attempts(segs: seq<WireSegment>, o: Options, length: nat, c: Length, numWires: nat, n: nat, t: Tiling): (a: seq<Attempt>)
    requires n <= numWires
    ensures |a| == n && forall i :: 0 <= i < n ==> a[i].length == c && (a[i].last <==> i + 1 == numWires)
  {
    if n == 0 then []
    else
      Attempts(segs, o, length, c, numWires, n - 1, t)
      + [AttemptAt(segs, o, length, c, n >= numWires, Picks(LookIn(segs, o, length), o.minInputCap, c, numWires, n - 1, t))]
  }

  lemma {:induction false} PicksSpaced(segs: seq<WireSegment>, o: Options, length: nat, c: Length, numWires: nat, n: nat,
                                       a: seq<Attempt>, t0: Tiling, t: Tiling)
    requires o.simpleSegment && n <= numWires && SpacedTo(segs, o, length, a, t0, t)
    ensures SpacedTo(segs, o, length, a + Attempts(segs, o, length, c, numWires, n, t), t0,
                     Picks(LookIn(segs, o, length), o.minInputCap, c, numWires, n, t))
  {
    if n == 0 {
      assert a + [] == a;
    } else {
      var before := Picks(LookIn(segs, o, length), o.minInputCap, c, numWires, n - 1, t);
      var b := Attempts(segs, o, length, c, numWires, n - 1, t);
      PicksSpaced(segs, o, length, c, numWires, n - 1, a, t0, t);
      PickSpaced(segs, o, length, c, n >= numWires, a + b, t0, before);
      assert a + Attempts(segs, o, length, c, numWires, n, t)
             == a + b + [AttemptAt(segs, o, length, c, n >= numWires, before)];
    }
  }

  lemma {:induction false} CountsJoin(a: seq<Attempt>, b: seq<Attempt>, c: Length, n: nat)
    requires n <= |b|
    ensures Count(a + b, c, |a| + n) == Count(a, c, |a|) + Count(b, c, n)
    ensures FoundAbove(a + b, c, |a| + n) == FoundAbove(a, c, |a|) + FoundAbove(b, c, n)
  {
    if n > 0 {
      CountsJoin(a, b, c, n - 1);
    } else {
      CountsPrefix(a, a + b, c, |a|);
    }
  }

  lemma {:induction false} CountsPrefix(a: seq<Attempt>, b: seq<Attempt>, c: Length, n: nat)
    requires n <= |a| && a <= b
    ensures Count(a, c, n) == Count(b, c, n) && FoundAbove(a, c, n) == FoundAbove(b, c, n)
  {
    if n > 0 { CountsPrefix(a, b, c, n - 1); }
  }

  lemma {:induction false} SameLength(b: seq<Attempt>, d: Length, c: Length, n: nat)
    requires n <= |b| && forall i :: 0 <= i < |b| ==> b[i].length == d
    ensures d == c ==> Count(b, c, n) == n
    ensures d != c ==> Count(b, c, n) == 0
    ensures d <= c ==> FoundAbove(b, c, n) == 0
  {
    if n > 0 { SameLength(b, d, c, n - 1); }
  }

  lemma {:induction false} NoneAt(a: seq<Attempt>, c: Length, n: nat)
    requires n <= |a| && forall i :: 0 <= i < |a| ==> a[i].length > c
    ensures Count(a, c, n) == 0
  {
    if n > 0 { NoneAt(a, c, n - 1); }
  }

  ghost predicate RightLength(segs: seq<WireSegment>, x: Attempt) {
    x.key.Some? ==> x.key.value < |segs| && segs[x.key.value].length == x.length
  }

  /** What a spaced look-up finds has the length that was looked for. */
  lemma {:induction false} SpacedLength(segs: seq<WireSegment>, o: Options, length: nat, a: seq<Attempt>, i: nat, rest: int)
    requires i < |a| && SpacedAt(segs, o, length, a, i, rest)
    ensures RightLength(segs, a[i])
  {
  }

  /** With all longer lengths tried, what has been found so far is what the level covers. */
  lemma {:induction false} FoundIsCovered(segs: seq<WireSegment>, o: Options, length: nat, a: seq<Attempt>, c: nat, n: nat, rest: int)
    requires n <= |a| && Spaced(segs, o, length, a, rest) && forall i :: 0 <= i < |a| ==> a[i].length > c
    ensures FoundAbove(a, c, n) == Covered(segs, Keys(a, n))
  {
    if n > 0 {
      FoundIsCovered(segs, o, length, a, c, n - 1, rest);
      assert RightLength(segs, a[n - 1]) by {
        assert SpacedAt(segs, o, length, a, n - 1, rest);
        SpacedLength(segs, o, length, a, n - 1, rest);
      }
      if a[n - 1].key.Some? {
        CoveredSnoc(segs, Keys(a, n - 1), a[n - 1].key.value);
      } else {
        assert Keys(a, n) == Keys(a, n - 1);
      }
    }
  }

  lemma {:induction false} BatchFits(a: seq<Attempt>, b: seq<Attempt>, length: nat, c: Length, d: Length)
    requires (forall i :: 0 <= i < |a| ==> a[i].length > c) && (forall i :: 0 <= i < |b| ==> b[i].length == c)
    requires if d > c then Fits(a, length, d)
             else d == c && FoundAbove(a, c, |a|) <= length && |b| == (length - FoundAbove(a, c, |a|)) / c
    ensures Fits(a + b, length, d)
  {
    CountsJoin(a, b, d, |b|);
    SameLength(b, c, d, |b|);
    if d == c { NoneAt(a, c, |a|); }
  }

  lemma {:induction false} BatchTried(a: seq<Attempt>, b: seq<Attempt>, o: Options, length: nat, c: Length)
    requires c <= o.maxSegmentLength && AllTried(a, o, length, c)
    requires forall i :: 0 <= i < |b| ==> b[i].length == c && (b[i].last <==> i + 1 == |b|)
    requires FoundAbove(a, c, |a|) <= length && |b| == (length - FoundAbove(a, c, |a|)) / c
    ensures AllTried(a + b, o, length, c - 1)
  {
    forall d: Length {:trigger Fits(a + b, length, d)} | c - 1 < d <= o.maxSegmentLength ensures Fits(a + b, length, d) {
      if d > c { assert Fits(a, length, d); }
      BatchFits(a, b, length, c, d);
    }
    BatchEnds(a, b, c);
  }

  lemma {:induction false} BatchEnds(a: seq<Attempt>, b: seq<Attempt>, c: Length)
    requires EndsAre(a) && forall i :: 0 <= i < |a| ==> a[i].length > c
    requires forall i :: 0 <= i < |b| ==> b[i].length == c && (b[i].last <==> i + 1 == |b|)
    ensures EndsAre(a + b)
  {
    var all := a + b;
    forall i: nat | i < |all| ensures all[i].last == Closes(all, i) {
      assert i < |a| ==> a[i].last == Closes(a, i);
    }
  }

  lemma {:induction false} TileSpaced(segs: seq<WireSegment>, o: Options, length: nat, c: Byte, a: seq<Attempt>, t0: Tiling, t: Tiling)
    returns (all: seq<Attempt>)
    requires o.simpleSegment && c <= o.maxSegmentLength && SpacedTo(segs, o, length, a, t0, t) && AllTried(a, o, length, c)
    requires Covered(segs, t.wires) <= length
    ensures SpacedTo(segs, o, length, all, t0, Tile(LookIn(segs, o, length), segs, o.minInputCap, length, c, 1, t))
    ensures AllTried(all, o, length, 0)
    decreases c
  {
    all := a;
    if c > 0 {
      var n, look := Fitting(segs, length, c, t), LookIn(segs, o, length);
      FoundIsCovered(segs, o, length, a, c, |a|, t0.remainingLength);
      PicksSpaced(segs, o, length, c, n, n, a, t0, t);
      BatchTried(a, Attempts(segs, o, length, c, n, n, t), o, length, c);
      LookSound(segs, o, length);
      PicksFit(look, segs, o.minInputCap, length, c, t);
      all := TileSpaced(segs, o, length, c - 1, a + Attempts(segs, o, length, c, n, n, t), t0, Picks(look, o.minInputCap, c, n, n, t));
    }
  }

  /** A level with forced buffers: all lengths are tried from the longest down, each as often as it fits;
      a look-up asks for a buffer exactly where one is due, and takes it as near to its place as there
      is one; the segments found make up the level, and what is left to the next buffer is handed on. */
  lemma {:induction false} LevelSpaced(segs: seq<WireSegment>, o: Options, length: nat, t: Tiling) returns (a: seq<Attempt>)
    requires o.simpleSegment && t.wires == []
    ensures AllTried(a, o, length, 0) && Spaced(segs, o, length, a, t.remainingLength)
    ensures var r := TileLevel(segs, o, length, t);
            && r.wires == Keys(a, |a|)
            && r.remainingLength == NextBuffer(o, length, a, |a|, t.remainingLength) - Tried(a, |a|)
            && r.storedLength == Stored(o, length, a, |a|, t.remainingLength, t.storedLength)
  {
    a := TileSpaced(segs, o, length, o.maxSegmentLength, [], t, t);
  }

  /** How far the first buffer is away at the start of level k: one distance from the root, and what the
      last segment found above has left. */
  function RestAt(o: Options, lengths: seq<nat>, all: seq<seq<Attempt>>, k: nat): int
    requires k <= |all| <= |lengths|
  {
    if k == 0 then o.bufferDistance
    else Stored(o, lengths[k - 1], all[k - 1], |all[k - 1]|, RestAt(o, lengths, all, k - 1), 0)
  }

  ghost predicate LevelAttempts(segs: seq<WireSegment>, o: Options, lengths: seq<nat>, all: seq<seq<Attempt>>, k: nat, wires: seq<nat>)
    requires k < |all| <= |lengths|
  {
    && AllTried(all[k], o, lengths[k], 0) && Spaced(segs, o, lengths[k], all[k], RestAt(o, lengths, all, k))
    && wires == Keys(all[k], |all[k]|)
  }

  ghost predicate PathAttempts(segs: seq<WireSegment>, o: Options, lengths: seq<nat>, all: seq<seq<Attempt>>, levels: seq<Tiling>) {
    && |all| == |levels| <= |lengths|
    && forall k: nat {:trigger LevelAttempts(segs, o, lengths, all, k, levels[k].wires)} :: k < |all| ==>
         LevelAttempts(segs, o, lengths, all, k, levels[k].wires)
  }

  lemma {:induction false} RestPrefix(o: Options, lengths: seq<nat>, a: seq<seq<Attempt>>, b: seq<seq<Attempt>>, k: nat)
    requires k <= |a| && a <= b && |b| <= |lengths|
    ensures RestAt(o, lengths, a, k) == RestAt(o, lengths, b, k)
  {
    if k > 0 { RestPrefix(o, lengths, a, b, k - 1); }
  }

  lemma {:induction false} OneMoreLevel(segs: seq<WireSegment>, o: Options, lengths: seq<nat>, all: seq<seq<Attempt>>, levels: seq<Tiling>,
                                        a: seq<Attempt>, t: Tiling)
    requires PathAttempts(segs, o, lengths, all, levels) && |all| < |lengths|
    requires LevelAttempts(segs, o, lengths, all + [a], |all|, t.wires)
    ensures PathAttempts(segs, o, lengths, all + [a], levels + [t])
  {
    var more, levels' := all + [a], levels + [t];
    forall k: nat {:trigger LevelAttempts(segs, o, lengths, more, k, levels'[k].wires)} | k < |more|
      ensures LevelAttempts(segs, o, lengths, more, k, levels'[k].wires)
    {
      if k < |all| {
        assert LevelAttempts(segs, o, lengths, all, k, levels[k].wires);
        RestPrefix(o, lengths, all, more, k);
      }
    }
  }

  /** The same from level to level: the distances run on through the whole path. */
  lemma {:induction false} PathSpaced(segs: seq<WireSegment>, o: Options, lengths: seq<nat>, n: nat) returns (all: seq<seq<Attempt>>)
    requires o.simpleSegment && n <= |lengths|
    ensures PathAttempts(segs, o, lengths, all, Levels(segs, o, lengths, n))
    ensures StartOf(o, Levels(segs, o, lengths, n)).remainingLength == RestAt(o, lengths, all, n)
  {
    all := [];
    if n > 0 {
      var before := PathSpaced(segs, o, lengths, n - 1);
      var levels := Levels(segs, o, lengths, n - 1);
      var a := LevelSpaced(segs, o, lengths[n - 1], StartOf(o, levels));
      all := before + [a];
      RestPrefix(o, lengths, before, all, n - 1);
      OneMoreLevel(segs, o, lengths, before, levels, a, TileLevel(segs, o, lengths[n - 1], StartOf(o, levels)));
    }
  }

  // ----- the distances of the buffers -----

  /** Without buffers at vertices they are due at equal distances: in front of each look-up, the next one
      is the first of these places that is not behind. */
  lemma {:induction false} EqualDistances(o: Options, length: nat, a: seq<Attempt>, i: nat, rest: int) returns (m: nat)
    requires i <= |a| && !AtVertices(o, length) && rest > 0
    requires forall k :: 0 <= k < |a| ==> a[k].length <= o.bufferDistance
    ensures var next := NextBuffer(o, length, a, i, rest);
            && next == rest + m * o.bufferDistance
            && next > Tried(a, i)
            && (m > 0 ==> next - o.bufferDistance <= Tried(a, i))
  {
    m := 0;
    if i > 0 {
      m := EqualDistances(o, length, a, i - 1, rest);
      if NextBuffer(o, length, a, i - 1, rest) <= Tried(a, i) {
        OneMoreDistance(m, o.bufferDistance);
        m := m + 1;
      }
    }
  }

  lemma {:induction false} OneMoreDistance(m: nat, d: int)
    ensures (m + 1) * d == m * d + d
  {
  }

  lemma {:induction false} Between(k: nat, m: nat, d: int)
    requires k < m && d >= 0
    ensures k * d <= m * d - d
  {
    OneMoreDistance(m - 1, d);
    if k < m - 1 { Between(k, m - 1, d); }
  }

  /** A look-up has a buffer due exactly if one of these places lies on its length. */
  lemma {:induction false} DueIff(o: Options, length: nat, a: seq<Attempt>, i: nat, rest: int)
    requires i < |a| && !AtVertices(o, length) && rest > 0
    requires forall k :: 0 <= k < |a| ==> a[k].length <= o.bufferDistance
    ensures BufferPlace(o, length, a, i, rest) <= Tried(a, i + 1)
            <==> exists m: nat :: Tried(a, i) < rest + m * o.bufferDistance <= Tried(a, i + 1)
  {
    var m := EqualDistances(o, length, a, i, rest);
    forall k: nat | Tried(a, i) < rest + k * o.bufferDistance <= Tried(a, i + 1)
      ensures rest + m * o.bufferDistance <= Tried(a, i + 1)
    {
      if k < m { Between(k, m, o.bufferDistance); }
      if k > m { Between(m, k, o.bufferDistance); }
    }
  }
}
