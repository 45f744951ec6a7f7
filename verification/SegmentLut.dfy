/** The look-up table of characterized wire segments, with its packed-key index. */
module SegmentLut {

  type Byte = x: nat | x < 256

  datatype WireSegment = WireSegment(
    length: Byte, load: Byte, outputSlew: Byte,
    power: real, delay: nat, inputCap: Byte, inputSlew: Byte,
    bufferLocations: seq<real>, bufferMasters: seq<string>)
  {
    predicate Buffered() {
      bufferLocations != []
    }
  }

  /** The number whose bits are those of a and those of b. */
  function Or(a: nat, b: nat): nat
    decreases a + b
  {
    if a == 0 && b == 0 then 0 else 2 * Or(a / 2, b / 2) + if a % 2 == 1 || b % 2 == 1 then 1 else 0
  }

  function Shifted(a: nat, bits: nat): nat {
    if bits == 0 then a else 2 * Shifted(a, bits - 1)
  }

  /** Ten bits for each of the three fields, joined. */
  function Joined(length: Byte, load: Byte, outputSlew: Byte): nat {
    Or(Or(length, Shifted(load, 10)), Shifted(outputSlew, 20))
  }

  function Key(length: Byte, load: Byte, outputSlew: Byte): nat {
    length + 0x400 * load + 0x10_0000 * outputSlew
  }

  lemma {:induction false} OrZero(b: nat)
    ensures Or(0, b) == b
  {
    if b > 0 { OrZero(b / 2); }
  }

  /** Bits below those of another number are added. */
  lemma {:induction false} OrAdds(a: nat, b: nat, bits: nat)
    requires a < Shifted(1, bits)
    ensures Or(a, Shifted(b, bits)) == a + Shifted(b, bits)
  {
    if bits == 0 {
      OrZero(b);
    } else {
      OrAdds(a / 2, b, bits - 1);
    }
  }

  /** The fields do not overlap, so joining them is adding them. */
  lemma {:induction false} JoiningIsAdding(length: Byte, load: Byte, outputSlew: Byte)
    ensures Joined(length, load, outputSlew) == Key(length, load, outputSlew)
  {
    TenBits(load, 0);
    TenBits(outputSlew, 10);
    TenBits(outputSlew, 0);
    TenBits(1, 10);
    TenBits(1, 0);
    OrAdds(length, load, 10);
    OrAdds(length + 0x400 * load, outputSlew, 20);
  }

  lemma {:induction false} TenBits(a: nat, bits: nat)
    ensures Shifted(a, bits + 10) == 0x400 * Shifted(a, bits)
  {
    FiveBits(a, bits);
    FiveBits(a, bits + 5);
  }

  lemma {:induction false} FiveBits(a: nat, bits: nat)
    ensures Shifted(a, bits + 5) == 32 * Shifted(a, bits)
  {
    assert Shifted(a, bits + 2) == 4 * Shifted(a, bits);
    assert Shifted(a, bits + 4) == 4 * Shifted(a, bits + 2);
  }

  lemma {:induction false} KeyInjective(l: Byte, d: Byte, s: Byte, l': Byte, d': Byte, s': Byte)
    requires Key(l, d, s) == Key(l', d', s')
    ensures l == l' && d == d' && s == s'
  {
  }

  predicate Matches(seg: WireSegment, length: Byte, load: Byte, outputSlew: Byte) {
    seg.length == length && seg.load == load && seg.outputSlew == outputSlew
  }

  /** The linear scan: the positions of the matching segments among the first n, in order. */
  function Scan(segs: seq<WireSegment>, n: nat, length: Byte, load: Byte, outputSlew: Byte): seq<nat>
    requires n <= |segs|
  {
    if n == 0 then []
    else
      Scan(segs, n - 1, length, load, outputSlew) +
      if Matches(segs[n - 1], length, load, outputSlew) then [n - 1] else []
  }

  lemma {:induction false} ScanFrame(a: seq<WireSegment>, b: seq<WireSegment>, n: nat, l: Byte, d: Byte, s: Byte)
    requires n <= |a| && n <= |b|
    requires forall i :: 0 <= i < n ==> (Matches(a[i], l, d, s) <==> Matches(b[i], l, d, s))
    ensures Scan(a, n, l, d, s) == Scan(b, n, l, d, s)
  {
    if n > 0 { ScanFrame(a, b, n - 1, l, d, s); }
  }

  /** What a scan finds: exactly the matching positions, in increasing order. */
  lemma {:induction false} ScanExact(segs: seq<WireSegment>, n: nat, l: Byte, d: Byte, s: Byte)
    requires n <= |segs|
    ensures var r := Scan(segs, n, l, d, s);
            && (forall i :: i in r <==> 0 <= i < n && Matches(segs[i], l, d, s))
            && (forall p, q :: 0 <= p < q < |r| ==> r[p] < r[q])
  {
    if n > 0 {
      ScanExact(segs, n - 1, l, d, s);
      var before := Scan(segs, n - 1, l, d, s);
      assert forall p :: 0 <= p < |before| ==> before[p] in before;
    }
  }

  /** Converting a power to a whole number drops its fraction. */
  function Truncate(x: real): real {
    if x >= 0.0 then x.Floor as real else -((-x).Floor as real)
  }

  /** The copy made of a segment for another length. */
  function FakeCopy(seg: WireSegment, fakeLength: Byte): WireSegment {
    seg.(length := fakeLength, power := Truncate(seg.power))
  }

  /** One segment is another one for a different length: all else is the same, but for the fraction of
      its power. */
  predicate IsCopy(copy: WireSegment, seg: WireSegment, fakeLength: Byte) {
    && copy.length == fakeLength && copy.load == seg.load && copy.outputSlew == seg.outputSlew
    && copy.delay == seg.delay && copy.inputCap == seg.inputCap && copy.inputSlew == seg.inputSlew
    && copy.bufferLocations == seg.bufferLocations && copy.bufferMasters == seg.bufferMasters
    && copy.power == copy.power.Floor as real
    && (seg.power >= 0.0 ==> 0.0 <= copy.power <= seg.power < copy.power + 1.0)
    && (seg.power <= 0.0 ==> copy.power - 1.0 < seg.power <= copy.power <= 0.0)
  }

  lemma {:induction false} FakeCopyIs(seg: WireSegment, fakeLength: Byte)
    ensures IsCopy(FakeCopy(seg, fakeLength), seg, fakeLength)
  {
    var power := Truncate(seg.power);
    var whole := if seg.power >= 0.0 then seg.power.Floor else -(-seg.power).Floor;
    assert power == whole as real;
  }

  function FakeCopies(segs: seq<WireSegment>, sources: seq<nat>, fakeLength: Byte): (r: seq<WireSegment>)
    requires forall i :: i in sources ==> i < |segs|
    ensures |r| == |sources|
  {
    seq(|sources|, i requires 0 <= i < |sources| => assert sources[i] in sources; FakeCopy(segs[sources[i]], fakeLength))
  }

  /** The table still holds all segments, and behind them a copy of each source. */
  ghost predicate CopiesEach(segs: seq<WireSegment>, now: seq<WireSegment>, sources: seq<nat>, fakeLength: Byte) {
    && |now| == |segs| + |sources| && segs <= now
    && forall k :: 0 <= k < |sources| ==>
         sources[k] < |segs| && IsCopy(now[|segs| + k], segs[sources[k]], fakeLength)
  }

  lemma {:induction false} CopiesAre(segs: seq<WireSegment>, sources: seq<nat>, fakeLength: Byte)
    requires forall i :: i in sources ==> i < |segs|
    ensures CopiesEach(segs, segs + FakeCopies(segs, sources, fakeLength), sources, fakeLength)
  {
    var now := segs + FakeCopies(segs, sources, fakeLength);
    forall k | 0 <= k < |sources|
      ensures sources[k] < |segs| && IsCopy(now[|segs| + k], segs[sources[k]], fakeLength)
    {
      assert sources[k] in sources;
      FakeCopyIs(segs[sources[k]], fakeLength);
    }
  }

  class SegmentTable {
    var wireSegments: seq<WireSegment>
    var keyToWireSegments: map<nat, seq<nat>>

    /** The indices filed under a key. */
    function Filed(key: nat): seq<nat>
      reads this
    {
      if key in keyToWireSegments then keyToWireSegments[key] else []
    }

    /** Looking up a key finds what a linear scan of the whole table would find. */
    ghost predicate Valid()
      reads this
    {
      forall l: Byte, d: Byte, s: Byte ::
        Filed(Key(l, d, s)) == Scan(wireSegments, |wireSegments|, l, d, s)
    }

    constructor ()
      ensures Valid() && wireSegments == []
    {
      wireSegments, keyToWireSegments := [], map[];
    }

    method CreateWireSegment(length: Byte, load: Byte, outputSlew: Byte,
                             power: real, delay: nat, inputCap: Byte, inputSlew: Byte)
      returns (idx: nat)
      requires Valid()
      modifies this
      ensures Valid()
      ensures idx == |old(wireSegments)|
      ensures wireSegments == old(wireSegments)
              + [WireSegment(length, load, outputSlew, power, delay, inputCap, inputSlew, [], [])]
    {
      wireSegments := wireSegments
      + [WireSegment(length, load, outputSlew, power, delay, inputCap, inputSlew, [], [])];
      idx := |wireSegments| - 1;
      var key := Key(length, load, outputSlew);
      if key !in keyToWireSegments {
        keyToWireSegments := keyToWireSegments[key := []];
      }
      keyToWireSegments := keyToWireSegments[key := keyToWireSegments[key] + [idx]];
      forall l: Byte, d: Byte, s: Byte
        ensures Filed(Key(l, d, s)) == Scan(wireSegments, |wireSegments|, l, d, s)
      {
        ScanFrame(old(wireSegments), wireSegments, idx, l, d, s);
        assert old(Filed(Key(l, d, s))) == Scan(old(wireSegments), idx, l, d, s);
        if Key(l, d, s) == key { KeyInjective(l, d, s, length, load, outputSlew); }
      }
    }

    method AddBuffer(idx: nat, location: real)
      requires Valid() && idx < |wireSegments|
      modifies this
      ensures Valid() && wireSegments == old(wireSegments)[idx := old(wireSegments)[idx].(
                bufferLocations := old(wireSegments)[idx].bufferLocations + [location])]
    {
      var seg := wireSegments[idx];
      wireSegments := wireSegments[idx := seg.(bufferLocations := seg.bufferLocations + [location])];
      KeepsIndex();
    }

    method AddBufferMaster(idx: nat, name: string)
      requires Valid() && idx < |wireSegments|
      modifies this
      ensures Valid() && wireSegments == old(wireSegments)[idx := old(wireSegments)[idx].(
                bufferMasters := old(wireSegments)[idx].bufferMasters + [name])]
    {
      var seg := wireSegments[idx];
      wireSegments := wireSegments[idx := seg.(bufferMasters := seg.bufferMasters + [name])];
      KeepsIndex();
    }

    twostate lemma {:induction false} KeepsIndex()
      requires old(Valid()) && keyToWireSegments == old(keyToWireSegments)
      requires |wireSegments| == |old(wireSegments)|
      requires forall i :: 0 <= i < |wireSegments| ==>
                             Matches(wireSegments[i], old(wireSegments)[i].length,
                                     old(wireSegments)[i].load, old(wireSegments)[i].outputSlew)
      ensures Valid()
    {
      forall l: Byte, d: Byte, s: Byte
        ensures Filed(Key(l, d, s)) == Scan(wireSegments, |wireSegments|, l, d, s)
      {
        assert old(Filed(Key(l, d, s))) == Scan(old(wireSegments), |wireSegments|, l, d, s);
        ScanFrame(old(wireSegments), wireSegments, |wireSegments|, l, d, s);
      }
    }

    /** The segments a keyed visit hands to its callback, in order. */
    method VisitWireSegments(length: Byte, load: Byte, outputSlew: Byte) returns (visited: seq<nat>)
      requires Valid()
      ensures visited == Scan(wireSegments, |wireSegments|, length, load, outputSlew)
      ensures forall i :: i in visited ==> i < |wireSegments|
    {
      visited := Filed(Key(length, load, outputSlew));
      ScanExact(wireSegments, |wireSegments|, length, load, outputSlew);
    }

    method CopyBuffers(from: nat, to: nat)
      requires Valid() && from < |wireSegments| && to < |wireSegments| && from != to
      requires wireSegments[to].bufferLocations == [] && wireSegments[to].bufferMasters == []
      requires |wireSegments[from].bufferMasters| == |wireSegments[from].bufferLocations|
      modifies this
      ensures Valid()
      ensures wireSegments == old(wireSegments)[to := old(wireSegments)[to].(
                bufferLocations := old(wireSegments)[from].bufferLocations,
                bufferMasters := old(wireSegments)[from].bufferMasters)]
    {
      var seg := wireSegments[from];
      var buf := 0;
      while buf < |seg.bufferLocations|
        invariant buf <= |seg.bufferLocations|
        invariant Valid()
        invariant wireSegments == old(wireSegments)[to := old(wireSegments)[to].(
                    bufferLocations := seg.bufferLocations[..buf],
                    bufferMasters := seg.bufferMasters[..buf])]
      {
        AddBuffer(to, seg.bufferLocations[buf]);
        AddBufferMaster(to, seg.bufferMasters[buf]);
        buf := buf + 1;
        assert seg.bufferLocations[..buf] == seg.bufferLocations[..buf - 1] + [seg.bufferLocations[buf - 1]];
        assert seg.bufferMasters[..buf] == seg.bufferMasters[..buf - 1] + [seg.bufferMasters[buf - 1]];
      }
      assert seg.bufferLocations[..buf] == seg.bufferLocations && seg.bufferMasters[..buf] == seg.bufferMasters;
    }

    /** Copy one segment to another length. */
    method CopySegment(from: nat, fakeLength: Byte)
      requires Valid() && from < |wireSegments|
      requires |wireSegments[from].bufferMasters| == |wireSegments[from].bufferLocations|
      modifies this
      ensures Valid() && wireSegments == old(wireSegments) + [FakeCopy(old(wireSegments)[from], fakeLength)]
    {
      var seg := wireSegments[from];
      var to := CreateWireSegment(fakeLength, seg.load, seg.outputSlew, Truncate(seg.power),
                                  seg.delay, seg.inputCap, seg.inputSlew);
      CopyBuffers(from, to);
    }

    /** One cell of the table: copy every segment of the given key, reading the live index list
        while the table grows.  The copies go to another key, so that list stays as it is. */
    method CopyCell(length: Byte, load: Byte, outputSlew: Byte, fakeLength: Byte)
      requires Valid() && length != fakeLength
      requires Paired(wireSegments)
      modifies this
      ensures Valid()
      ensures forall i :: i in old(Scan(wireSegments, |wireSegments|, length, load, outputSlew)) ==> i < |old(wireSegments)|
      ensures wireSegments == old(wireSegments) + FakeCopies(old(wireSegments),
                old(Scan(wireSegments, |wireSegments|, length, load, outputSlew)), fakeLength)
    {
      var key := Key(length, load, outputSlew);
      ghost var segs := wireSegments;
      ghost var sources := Scan(segs, |segs|, length, load, outputSlew);
      ScanExact(segs, |segs|, length, load, outputSlew);
      var j := 0;
      while j < |Filed(key)|
        invariant Valid() && j <= |sources| && Filed(key) == sources
        invariant Copied(segs, wireSegments, sources, j, fakeLength)
        decreases |sources| - j
      {
        var from := Filed(key)[j];
        CopiedStep(segs, wireSegments, sources, j, fakeLength);
        CopySegment(from, fakeLength);
        j := j + 1;
        CopiesDoNotMatch(segs, sources, j, fakeLength, length, load, outputSlew);
      }
    }

    /** Add a copy under fakeLength of every segment of the given length.  Lengths, capacitances
        and slews fit 8 bits. */
    method CreateFakeEntries(length: Byte, fakeLength: Byte, maxCapacitance: Byte, maxSlew: Byte)
      requires Valid() && Paired(wireSegments)
      modifies this
      ensures Valid() && Paired(wireSegments)
      ensures length == fakeLength ==> wireSegments == old(wireSegments)
      ensures length != fakeLength ==>
                CopiesEach(old(wireSegments), wireSegments, Sources(old(wireSegments), length, maxCapacitance, maxSlew), fakeLength)
    {
      ghost var segs := wireSegments;
      SourcesExact(segs, length, maxCapacitance, maxSlew);
      if length == fakeLength {
        return;
      }
      CopyRows(length, fakeLength, maxCapacitance, maxSlew);
      CopiesAre(segs, Sources(segs, length, maxCapacitance, maxSlew), fakeLength);
    }

    /** The outer loop: all loads. */
    method CopyRows(length: Byte, fakeLength: Byte, maxCapacitance: Byte, maxSlew: Byte)
      requires Valid() && Paired(wireSegments) && length != fakeLength
      modifies this
      ensures Valid()
      ensures Grown(old(wireSegments), wireSegments, Sources(old(wireSegments), length, maxCapacitance, maxSlew), fakeLength)
    {
      ghost var segs := wireSegments;
      var load := 1;
      while load <= maxCapacitance
        invariant 1 <= load <= maxCapacitance + 1
        invariant Valid() && Grown(segs, wireSegments, Sources(segs, length, load - 1, maxSlew), fakeLength)
      {
        CopyRow(length, load, fakeLength, maxSlew, segs, Sources(segs, length, load - 1, maxSlew));
        load := load + 1;
      }
    }

    /** The inner loop: one load, all output slews. */
    method CopyRow(length: Byte, load: Byte, fakeLength: Byte, maxSlew: Byte,
                   ghost segs: seq<WireSegment>, ghost done: seq<nat>)
      requires Valid() && length != fakeLength && Paired(segs)
      requires Grown(segs, wireSegments, done, fakeLength)
      modifies this
      ensures Valid()
      ensures Grown(segs, wireSegments, done + Row(segs, length, load, maxSlew), fakeLength)
    {
      var outSlew := 1;
      assert done + [] == done;
      while outSlew <= maxSlew
        invariant 1 <= outSlew <= maxSlew + 1
        invariant Valid()
        invariant Grown(segs, wireSegments, done + Row(segs, length, load, outSlew - 1), fakeLength)
      {
        ghost var before := wireSegments;
        CopyCell(length, load, outSlew, fakeLength);
        GrownCell(segs, before, done, length, load, outSlew, fakeLength);
        outSlew := outSlew + 1;
      }
    }
  }

  /** The first j copies have been appended. */
  ghost predicate Copied(segs: seq<WireSegment>, now: seq<WireSegment>, sources: seq<nat>, j: nat, fakeLength: Byte) {
    && j <= |sources| && (forall i :: i in sources ==> i < |segs|)
    && now == segs + FakeCopies(segs, sources, fakeLength)[..j]
  }

  lemma {:induction false} CopiedStep(segs: seq<WireSegment>, now: seq<WireSegment>, sources: seq<nat>, j: nat, fakeLength: Byte)
    requires Paired(segs) && Copied(segs, now, sources, j, fakeLength) && j < |sources|
    ensures var from := sources[j];
            && from < |now| && |now[from].bufferMasters| == |now[from].bufferLocations|
            && Copied(segs, now + [FakeCopy(now[from], fakeLength)], sources, j + 1, fakeLength)
  {
    assert sources[j] in sources;
    assert now[sources[j]] == segs[sources[j]];
    var copies := FakeCopies(segs, sources, fakeLength);
    assert copies[..j + 1] == copies[..j] + [FakeCopy(segs[sources[j]], fakeLength)];
    assert segs + (copies[..j] + [copies[j]]) == segs + copies[..j] + [copies[j]];
  }

  /** Every segment names as many buffer masters as it has buffer locations. */
  predicate Paired(segs: seq<WireSegment>) {
    forall i :: 0 <= i < |segs| ==> |segs[i].bufferMasters| == |segs[i].bufferLocations|
  }

  /** The segments of one length and load and a slew of 1 up to maxSlew, slew by slew. */
  function Row(segs: seq<WireSegment>, length: Byte, load: Byte, maxSlew: Byte): seq<nat> {
    if maxSlew == 0 then []
    else Row(segs, length, load, maxSlew - 1) + Scan(segs, |segs|, length, load, maxSlew)
  }

  /** The segments of one length that the fake entries are copied from, load by load. */
  function Sources(segs: seq<WireSegment>, length: Byte, maxLoad: Byte, maxSlew: Byte): seq<nat> {
    if maxLoad == 0 then []
    else Sources(segs, length, maxLoad - 1, maxSlew) + Row(segs, length, maxLoad, maxSlew)
  }

  predicate InRow(segs: seq<WireSegment>, i: nat, length: Byte, load: Byte, maxSlew: Byte) {
    i < |segs| && segs[i].length == length && segs[i].load == load && 1 <= segs[i].outputSlew <= maxSlew
  }

  predicate InTable(segs: seq<WireSegment>, i: nat, length: Byte, maxLoad: Byte, maxSlew: Byte) {
    1 <= maxLoad && i < |segs| && 1 <= segs[i].load <= maxLoad && InRow(segs, i, length, segs[i].load, maxSlew)
  }

  predicate Distinct(s: seq<nat>) {
    forall p, q :: 0 <= p < q < |s| ==> s[p] != s[q]
  }

  lemma {:induction false} DistinctJoin(a: seq<nat>, b: seq<nat>)
    requires Distinct(a) && Distinct(b) && forall i :: i in a ==> i !in b
    ensures Distinct(a + b)
  {
    assert forall p :: 0 <= p < |a| ==> a[p] in a;
    assert forall q :: 0 <= q < |b| ==> b[q] in b;
  }

  lemma {:induction false} RowExact(segs: seq<WireSegment>, length: Byte, load: Byte, maxSlew: Byte)
    ensures var r := Row(segs, length, load, maxSlew);
            && Distinct(r)
            && forall i :: i in r <==> InRow(segs, i, length, load, maxSlew)
  {
    if maxSlew > 0 {
      RowExact(segs, length, load, maxSlew - 1);
      ScanExact(segs, |segs|, length, load, maxSlew);
      DistinctJoin(Row(segs, length, load, maxSlew - 1), Scan(segs, |segs|, length, load, maxSlew));
    }
  }

  /** The copies are made from exactly the segments of that length inside the table's load and
      slew ranges, and from each of them once. */
  lemma {:induction false} SourcesExact(segs: seq<WireSegment>, length: Byte, maxLoad: Byte, maxSlew: Byte)
    ensures var r := Sources(segs, length, maxLoad, maxSlew);
            && Distinct(r)
            && forall i :: i in r <==> InTable(segs, i, length, maxLoad, maxSlew)
  {
    if maxLoad > 0 {
      SourcesExact(segs, length, maxLoad - 1, maxSlew);
      RowExact(segs, length, maxLoad, maxSlew);
      DistinctJoin(Sources(segs, length, maxLoad - 1, maxSlew), Row(segs, length, maxLoad, maxSlew));
    }
  }

  /** The table now is the table before plus the copies made from `sources`. */
  ghost predicate Grown(segs: seq<WireSegment>, now: seq<WireSegment>, sources: seq<nat>, fakeLength: Byte) {
    && Paired(now)
    && (forall i :: i in sources ==> i < |segs|)
    && now == segs + FakeCopies(segs, sources, fakeLength)
  }

  lemma {:induction false} GrownScan(segs: seq<WireSegment>, now: seq<WireSegment>, sources: seq<nat>, fakeLength: Byte,
                  l: Byte, d: Byte, s: Byte)
    requires Grown(segs, now, sources, fakeLength) && l != fakeLength
    ensures Scan(now, |now|, l, d, s) == Scan(segs, |segs|, l, d, s)
  {
    var copies := FakeCopies(segs, sources, fakeLength);
    assert copies[..|sources|] == copies;
    CopiesDoNotMatch(segs, sources, |sources|, fakeLength, l, d, s);
  }

  lemma {:induction false} GrownCell(segs: seq<WireSegment>, before: seq<WireSegment>, done: seq<nat>,
                  l: Byte, d: Byte, s: Byte, fakeLength: Byte)
    requires l != fakeLength && s > 0 && Paired(segs)
    requires Grown(segs, before, done + Row(segs, l, d, s - 1), fakeLength)
    ensures var cell := Scan(before, |before|, l, d, s);
            && (forall i :: i in cell ==> i < |before|)
            && Grown(segs, before + FakeCopies(before, cell, fakeLength), done + Row(segs, l, d, s), fakeLength)
  {
    var sofar, cell := done + Row(segs, l, d, s - 1), Scan(segs, |segs|, l, d, s);
    ScanExact(segs, |segs|, l, d, s);
    GrownScan(segs, before, sofar, fakeLength, l, d, s);
    GrownMore(segs, sofar, cell, fakeLength);
    assert done + Row(segs, l, d, s) == sofar + cell;
  }

  lemma {:induction false} GrownMore(segs: seq<WireSegment>, done: seq<nat>, cell: seq<nat>, fakeLength: Byte)
    requires Paired(segs)
    requires (forall i :: i in done ==> i < |segs|) && forall i :: i in cell ==> i < |segs|
    ensures var now := segs + FakeCopies(segs, done, fakeLength);
            && (forall i :: i in cell ==> i < |now|)
            && Grown(segs, now + FakeCopies(now, cell, fakeLength), done + cell, fakeLength)
  {
    assert forall p :: 0 <= p < |done| ==> done[p] in done;
    assert forall p :: 0 <= p < |cell| ==> cell[p] in cell;
  }

  lemma {:induction false} CopiesDoNotMatch(segs: seq<WireSegment>, sources: seq<nat>, j: nat, fakeLength: Byte,
                         l: Byte, d: Byte, s: Byte)
    requires l != fakeLength && j <= |sources|
    requires forall i :: i in sources ==> i < |segs|
    ensures var grown := segs + FakeCopies(segs, sources, fakeLength)[..j];
            Scan(grown, |grown|, l, d, s) == Scan(segs, |segs|, l, d, s)
  {
    var copies := FakeCopies(segs, sources, fakeLength)[..j];
    ScanSkips(segs, copies, j, l, d, s);
    assert copies[..j] == copies;
  }

  lemma {:induction false} ScanSkips(segs: seq<WireSegment>, more: seq<WireSegment>, j: nat, l: Byte, d: Byte, s: Byte)
    requires j <= |more| && forall i :: 0 <= i < j ==> !Matches(more[i], l, d, s)
    ensures Scan(segs + more, |segs| + j, l, d, s) == Scan(segs, |segs|, l, d, s)
  {
    if j == 0 {
      ScanFrame(segs, segs + more, |segs|, l, d, s);
    } else {
      ScanSkips(segs, more, j - 1, l, d, s);
    }
  }
}
