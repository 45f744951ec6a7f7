/** Turning characterization results into wire segments of the look-up table. */
module LutCompiler {
  import opened Descriptors
  import opened SegmentLut
  import opened Characterization

  /** One entry of a normalized topology: a wire as a fraction of the tested length, or a buffer. */
  datatype Part = Fraction(value: real) | Buffer(name: string)

  datatype ResultData = ResultData(
    load: nat, inSlew: nat, wirelength: nat, pinSlew: nat, pinArrival: nat, totalcap: nat,
    totalPower: real, isPureWire: bool, topology: seq<Part>)

  function ToByte(x: nat): Byte {
    x % 256
  }

  /** Dividing the wires of a descriptor by the tested length of n nodes. */
  function Normalize(d: Descriptor, n: nat): (parts: seq<Part>)
    requires n > 0
    ensures |parts| == |d|
  {
    seq(|d|, i requires 0 <= i < |d| =>
      match d[i]
      case Wire(k) => Fraction(k as real / n as real)
      case Master(b) => Buffer(b))
  }

  function Locations(parts: seq<Part>, n: nat): seq<real>
    requires n <= |parts|
  {
    if n == 0 then [] else Locations(parts, n - 1) + if parts[n - 1].Fraction? then [parts[n - 1].value] else []
  }

  function Names(parts: seq<Part>, n: nat): seq<string>
    requires n <= |parts|
  {
    if n == 0 then [] else Names(parts, n - 1) + if parts[n - 1].Buffer? then [parts[n - 1].name] else []
  }

  /** The wire after the last buffer is not read. */
  function MaxIndex(size: nat): (m: nat)
    ensures m <= size && m % 2 == 0
  {
    if size % 2 == 0 then size else size - 1
  }

  /** A pure wire is made to degrade the slew. */
  function OutputSlew(line: ResultData): nat {
    if line.isPureWire && line.pinSlew <= line.inSlew then line.pinSlew + 1 else line.pinSlew
  }

  function Bare(line: ResultData, lengthUnitRatio: nat): WireSegment {
    WireSegment(ToByte(line.wirelength * lengthUnitRatio), ToByte(line.load), ToByte(OutputSlew(line)),
                line.totalPower, line.pinArrival, ToByte(line.totalcap), ToByte(line.inSlew), [], [])
  }

  /** The table entry a result line stands for. */
  function Compiled(line: ResultData, lengthUnitRatio: nat): WireSegment {
    if line.isPureWire then Bare(line, lengthUnitRatio)
    else
      var m := MaxIndex(|line.topology|);
      Bare(line, lengthUnitRatio).(bufferLocations := Locations(line.topology, m), bufferMasters := Names(line.topology, m))
  }

  /** The fields of an entry come from the fields of its line, in the table's units and widths; only the
      output slew of a pure wire that has not got worse on the way is made one worse. */
  predicate FromLine(seg: WireSegment, line: ResultData, lengthUnitRatio: nat) {
    && seg.length == (line.wirelength * lengthUnitRatio) % 256 && seg.load == line.load % 256
    && seg.delay == line.pinArrival && seg.power == line.totalPower
    && seg.inputCap == line.totalcap % 256 && seg.inputSlew == line.inSlew % 256
    && seg.outputSlew == (if line.isPureWire && line.pinSlew <= line.inSlew then line.pinSlew + 1 else line.pinSlew) % 256
    && (line.isPureWire ==> seg.bufferLocations == [] && seg.bufferMasters == [])
  }

  /** As far as 8 bits go, a pure wire makes the slew worse in the table exactly if it has not made it
      better when it was characterized. */
  lemma {:induction false} PureWireDegrades(line: ResultData, lengthUnitRatio: nat)
    requires line.isPureWire && line.inSlew < 256 && line.pinSlew < 255
    ensures Compiled(line, lengthUnitRatio).outputSlew > Compiled(line, lengthUnitRatio).inputSlew <==> line.pinSlew >= line.inSlew
  {
  }

  method CompileLine(table: SegmentTable, line: ResultData, lengthUnitRatio: nat)
    requires table.Valid()
    modifies table
    ensures table.Valid()
    ensures table.wireSegments == old(table.wireSegments) + [Compiled(line, lengthUnitRatio)]
    ensures FromLine(table.wireSegments[|old(table.wireSegments)|], line, lengthUnitRatio)
  {
    var pinSlew := line.pinSlew;
    if line.isPureWire && line.pinSlew <= line.inSlew {
      pinSlew := pinSlew + 1;
    }
    var segment := table.CreateWireSegment(ToByte(line.wirelength * lengthUnitRatio), ToByte(line.load),
                                           ToByte(pinSlew), line.totalPower, line.pinArrival,
                                           ToByte(line.totalcap), ToByte(line.inSlew));
    if !line.isPureWire {
      var maxIndex := MaxIndex(|line.topology|);
      var topologyIndex := 0;
      while topologyIndex < maxIndex
        invariant topologyIndex <= maxIndex
        invariant table.Valid() && |table.wireSegments| == segment + 1
        invariant table.wireSegments[..segment] == old(table.wireSegments)
        invariant table.wireSegments[segment] == Bare(line, lengthUnitRatio).(
                    bufferLocations := Locations(line.topology, topologyIndex),
                    bufferMasters := Names(line.topology, topologyIndex))
      {
        match line.topology[topologyIndex] {
          case Fraction(value) => table.AddBuffer(segment, value);
          case Buffer(name) => table.AddBufferMaster(segment, name);
        }
        topologyIndex := topologyIndex + 1;
      }
    }
  }

  /** Every result line becomes one segment, in order, and the index stays exact. */
  method CompileLut(table: SegmentTable, lutSols: seq<ResultData>, lengthUnitRatio: nat)
    requires table.Valid()
    modifies table
    ensures table.Valid()
    ensures |table.wireSegments| == |old(table.wireSegments)| + |lutSols|
    ensures table.wireSegments[..|old(table.wireSegments)|] == old(table.wireSegments)
    ensures forall i :: 0 <= i < |lutSols| ==>
              table.wireSegments[|old(table.wireSegments)| + i] == Compiled(lutSols[i], lengthUnitRatio)
  {
    for i := 0 to |lutSols|
      invariant table.Valid()
      invariant |table.wireSegments| == |old(table.wireSegments)| + i
      invariant table.wireSegments[..|old(table.wireSegments)|] == old(table.wireSegments)
      invariant forall j :: 0 <= j < i ==>
                  table.wireSegments[|old(table.wireSegments)| + j] == Compiled(lutSols[j], lengthUnitRatio)
    {
      CompileLine(table, lutSols[i], lengthUnitRatio);
    }
  }

  // ----- what the compiled segment of a pattern says about the pattern -----

  /** Hops in nodes as fractions of n nodes. */
  function Scale(hops: seq<nat>, n: nat): (r: seq<real>)
    requires n > 0
    ensures |r| == |hops|
  {
    seq(|hops|, i requires 0 <= i < |hops| => hops[i] as real / n as real)
  }

  predicate Alternating(d: Descriptor) {
    forall i :: 0 <= i < |d| ==> (d[i].Wire? <==> i % 2 == 0)
  }

  /** The first j wire-and-buffer pairs: the locations read are the hops, the names the masters. */
  lemma {:induction false} PairsRead(d: Descriptor, n: nat, j: nat)
    requires Alternating(d) && n > 0 && 2 * j <= |d|
    ensures |Hops(d[..2 * j])| == |Masters(d[..2 * j])| == j
    ensures Locations(Normalize(d, n), 2 * j) == Scale(Hops(d[..2 * j]), n)
    ensures Names(Normalize(d, n), 2 * j) == Masters(d[..2 * j])
  {
    if j > 0 {
      PairsRead(d, n, j - 1);
      PairSnoc(d, j);
      OnePair(Normalize(d, n), j);
    }
  }

  lemma {:induction false} PairSnoc(d: Descriptor, j: nat)
    requires Alternating(d) && 0 < 2 * j <= |d|
    ensures d[2 * j - 2].Wire? && d[2 * j - 1].Master?
    ensures Hops(d[..2 * j]) == Hops(d[..2 * (j - 1)]) + [d[2 * j - 2].nodes]
    ensures Masters(d[..2 * j]) == Masters(d[..2 * (j - 1)]) + [d[2 * j - 1].name]
  {
    var p, w, b := d[..2 * (j - 1)], d[2 * j - 2], d[2 * j - 1];
    PairEnds(d, j);
    EntrySnoc(p, w);
    EntrySnoc(p + [w], b);
  }

  lemma {:induction false} PairEnds(d: Descriptor, j: nat)
    requires Alternating(d) && 0 < 2 * j <= |d|
    ensures d[2 * j - 2].Wire? && d[2 * j - 1].Master?
    ensures d[..2 * j] == d[..2 * (j - 1)] + [d[2 * j - 2]] + [d[2 * j - 1]]
  {
    assert (2 * j - 2) % 2 == 0 && (2 * j - 1) % 2 == 1;
  }

  lemma {:induction false} OnePair(parts: seq<Part>, j: nat)
    requires 0 < 2 * j <= |parts| && parts[2 * j - 2].Fraction? && parts[2 * j - 1].Buffer?
    ensures Locations(parts, 2 * j) == Locations(parts, 2 * (j - 1)) + [parts[2 * j - 2].value]
    ensures Names(parts, 2 * j) == Names(parts, 2 * (j - 1)) + [parts[2 * j - 1].name]
  {
  }

  lemma {:induction false} SameHops(d: Descriptor, e: Descriptor)
    requires SameWires(d, e)
    ensures Hops(d) == Hops(e)
  {
    if d != [] { SameHops(d[..|d| - 1], e[..|e| - 1]); }
  }

  /** A wire at the end of a descriptor carries neither a hop nor a master. */
  lemma {:induction false} Usable(d: Descriptor)
    requires Alternating(d)
    ensures Hops(d) == Hops(d[..MaxIndex(|d|)]) && Masters(d) == Masters(d[..MaxIndex(|d|)])
  {
    var m := MaxIndex(|d|);
    if m < |d| {
      assert d == d[..m] + [d[m]];
      EntrySnoc(d[..m], d[m]);
    } else {
      assert d == d[..m];
    }
  }

  lemma {:induction false} PatternHops(mask: seq<bool>, buf: string)
    ensures PrefixSums(Hops(Describe(mask, buf))) == Taps(mask, |mask|)
    ensures Alternating(Describe(mask, buf))
    ensures |Masters(Describe(mask, buf))| == CountSet(mask, |mask|)
  {
    DescribeWellFormed(mask, buf);
    HopsAreTaps(mask, |mask|, buf);
    var d, t := Buffered(mask, |mask|, buf), Trailing(mask, |mask|);
    EntrySnoc(d, Wire(t));
    assert t == 0 ==> Describe(mask, buf) == d;
  }

  /** A buffered pattern, in whatever sizes its buffers were tested, compiles to one location and
      one master per buffer; the masters come in order, and the locations are the hops, which
      summed up are the positions of the set bits of the pattern's mask. */
  lemma {:induction false} CompiledPattern(mask: seq<bool>, buf: string, d: Descriptor, line: ResultData, ratio: nat)
    requires |mask| > 0 && SameWires(Describe(mask, buf), d)
    requires !line.isPureWire && line.topology == Normalize(d, |mask|)
    ensures var seg := Compiled(line, ratio);
            && |seg.bufferLocations| == |seg.bufferMasters| == CountSet(mask, |mask|)
            && seg.bufferMasters == Masters(d)
            && seg.bufferLocations == Scale(Hops(d), |mask|)
            && PrefixSums(Hops(d)) == Taps(mask, |mask|)
  {
    var d0, m := Describe(mask, buf), MaxIndex(|d|);
    assert Alternating(d) by { PatternHops(mask, buf); }
    assert PrefixSums(Hops(d)) == Taps(mask, |mask|) by { PatternHops(mask, buf); SameHops(d0, d); }
    assert |Masters(d)| == CountSet(mask, |mask|) by { PatternHops(mask, buf); SameCounts(d0, d); }
    Usable(d);
    PairsRead(d, |mask|, m / 2);
    assert 2 * (m / 2) == m;
  }

  lemma {:induction false} SameCounts(d: Descriptor, e: Descriptor)
    requires SameWires(d, e)
    ensures |Masters(d)| == |Masters(e)|
  {
    if d != [] { SameCounts(d[..|d| - 1], e[..|e| - 1]); }
  }

  /** A result line of a pure wire, or of a pattern in some sizes of its buffers. */
  ghost predicate FromPattern(line: ResultData) {
    line.isPureWire || exists mask, buf, d :: LineOf(line, mask, buf, d)
  }

  ghost predicate LineOf(line: ResultData, mask: seq<bool>, buf: string, d: Descriptor) {
    |mask| > 0 && SameWires(Describe(mask, buf), d) && line.topology == Normalize(d, |mask|)
  }

  /** The segments compiled from such lines have as many masters as locations, which is what copying
      them relies on. */
  lemma {:induction false} CompiledArePaired(before: seq<WireSegment>, after: seq<WireSegment>, lines: seq<ResultData>, ratio: nat)
    requires Paired(before) && |after| == |before| + |lines| && after[..|before|] == before
    requires forall i :: 0 <= i < |lines| ==> FromPattern(lines[i]) && after[|before| + i] == Compiled(lines[i], ratio)
    ensures Paired(after)
  {
    forall k | 0 <= k < |after| ensures |after[k].bufferMasters| == |after[k].bufferLocations| {
      if k < |before| {
        assert after[k] == after[..|before|][k];
      } else {
        assert after[|before| + (k - |before|)] == Compiled(lines[k - |before|], ratio);
        CompiledIsPaired(lines[k - |before|], ratio);
      }
    }
  }

  lemma {:induction false} CompiledIsPaired(line: ResultData, ratio: nat)
    requires FromPattern(line)
    ensures |Compiled(line, ratio).bufferMasters| == |Compiled(line, ratio).bufferLocations|
  {
    if !line.isPureWire {
      var mask, buf, d :| LineOf(line, mask, buf, d);
      CompiledPattern(mask, buf, d, line, ratio);
    }
  }
}
