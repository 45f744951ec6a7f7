/** The characterization engine: it builds one pattern per buffer mask, walks every pattern
    through all monotone drive-strength configurations, and compiles the results into the
    look-up table. */
module Characterization {
  import opened BufferConfigs
  import opened Descriptors

  /** Position of the first entry equal to x, or the length when there is none. */
  function IndexOf(names: seq<string>, x: string): (i: nat)
    ensures i <= |names| && (i < |names| ==> names[i] == x)
    ensures x in names ==> i < |names|
  {
    if names == [] || names[0] == x then 0 else 1 + IndexOf(names[1..], x)
  }

  lemma {:induction false} IndexOfOnly(names: seq<string>, i: nat)
    requires i < |names| && forall p, q :: 0 <= p < q < |names| ==> names[p] != names[q]
    ensures IndexOf(names, names[i]) == i
  {
    assert names[i] in names;
  }

  /** Same wires in the same places, and masters in the same places. */
  predicate SameWires(d: Descriptor, e: Descriptor) {
    |d| == |e| && forall i :: 0 <= i < |d| ==> if d[i].Wire? then d[i] == e[i] else e[i].Master?
  }

  lemma {:induction false} MasterSnoc(d: Descriptor, e: Entry)
    ensures Masters(d + [e]) == Masters(d) + if e.Master? then [e.name] else []
  {
    EntrySnoc(d, e);
  }

  lemma {:induction false} MastersAppend(d: Descriptor, e: Descriptor)
    ensures Masters(d + e) == Masters(d) + Masters(e)
  {
    if e == [] {
      assert d + e == d;
    } else {
      MastersAppend(d, e[..|e| - 1]);
      MasterSnoc(d + e[..|e| - 1], e[|e| - 1]);
      assert d + e == d + e[..|e| - 1] + [e[|e| - 1]];
    }
  }

  lemma {:induction false} MastersReplace(d: Descriptor, i: nat, name: string)
    requires i < |d| && d[i].Master?
    ensures |Masters(d[..i])| < |Masters(d)|
    ensures Masters(d[i := Master(name)]) == Masters(d)[|Masters(d[..i])| := name]
  {
    var d' := d[i := Master(name)];
    var before, after := Masters(d[..i]), Masters(d[i + 1..]);
    assert Masters(d) == before + [d[i].name] + after by { MastersSplit(d, i); }
    assert Masters(d') == before + [name] + after by {
      MastersSplit(d', i);
      assert d'[..i] == d[..i] && d'[i + 1..] == d[i + 1..];
    }
  }

  lemma {:induction false} MastersSplit(d: Descriptor, i: nat)
    requires i < |d| && d[i].Master?
    ensures Masters(d) == Masters(d[..i]) + [d[i].name] + Masters(d[i + 1..])
  {
    var p := d[..i] + [d[i]];
    assert d == p + d[i + 1..];
    MastersAppend(p, d[i + 1..]);
    MasterSnoc(d[..i], d[i]);
  }

  /** Equal wires and equal masters make equal descriptors. */
  lemma {:induction false} WiresAndMasters(d: Descriptor, e: Descriptor)
    requires SameWires(d, e) && Masters(d) == Masters(e)
    ensures d == e
  {
    if d != [] {
      var d', e' := d[..|d| - 1], e[..|e| - 1];
      var m := Masters(d);
      if d[|d| - 1].Master? {
        assert m[|m| - 1] == d[|d| - 1].name == e[|e| - 1].name;
        assert Masters(d') == m[..|m| - 1] == Masters(e');
      } else {
        assert Masters(d') == m == Masters(e');
      }
      WiresAndMasters(d', e');
      assert d == d' + [d[|d| - 1]] && e == e' + [e[|e| - 1]];
    }
  }

  /** One characterization pattern.  A pure wire holds one null instance, written here as the
      empty master name. */
  class SolutionData {
    var instVector: seq<string>
    var topologyDescriptor: Descriptor
    const isPureWire: bool

    constructor (instVector: seq<string>, topologyDescriptor: Descriptor, isPureWire: bool)
      ensures this.instVector == instVector && this.topologyDescriptor == topologyDescriptor
      ensures this.isPureWire == isPureWire
    {
      this.instVector, this.topologyDescriptor := instVector, topologyDescriptor;
      this.isPureWire := isPureWire;
    }
  }

  class Characterizer {
    const masterNames: seq<string>
    const charBuf: string
    var bufferingComboTable: map<(nat, nat), nat>

    ghost predicate Valid()
      reads this
    {
      && charBuf in masterNames
      && (forall p, q :: 0 <= p < q < |masterNames| ==> masterNames[p] != masterNames[q])
      && (forall key :: key in bufferingComboTable ==>
            bufferingComboTable[key] == |AllMonotone(key.0, key.1)|)
    }

    constructor (masterNames: seq<string>, charBuf: string)
      requires charBuf in masterNames
      requires forall p, q :: 0 <= p < q < |masterNames| ==> masterNames[p] != masterNames[q]
      ensures Valid() && this.masterNames == masterNames && this.charBuf == charBuf
    {
      this.masterNames, this.charBuf, bufferingComboTable := masterNames, charBuf, map[];
    }

    static method IsTopologyMonotonic(row: Config) returns (monotonic: bool)
      ensures monotonic <==> Monotone(row)
    {
      monotonic := true;
      var i := 1;
      while i < |row|
        invariant 1 <= i
        invariant monotonic <==> forall p :: 1 <= p < i && p < |row| ==> row[p - 1] <= row[p]
        decreases |row| - i
      {
        if row[i] < row[i - 1] {
          monotonic := false;
        }
        i := i + 1;
      }
    }

    /** The digits of a number, lowest first. */
    static method ReadDigits(number: nat, n: nat, k: nat) returns (digits: Config)
      requires k == 0 || n > 0
      ensures digits == Digits(n, k, number)
    {
      digits := [];
      var rest: nat, i: nat := number, 0;
      while i < k
        invariant i <= k
        invariant digits + Digits(n, k - i, rest) == Digits(n, k, number)
      {
        digits := digits + [rest % n];
        rest := rest / n;
        i := i + 1;
      }
    }

    /** The first monotone configuration after the current one, wrapping round at n^k. */
    method GetNextConfig(currConfig: Config) returns (nextConfig: Config)
      requires |masterNames| > 0
      ensures Follows(|masterNames|, currConfig, nextConfig)
    {
      var n, k := |masterNames|, |currConfig|;
      var currNumber, i := 0, 0;
      while i < k
        invariant i <= k
        invariant currNumber + Pow(n, i) * Code(n, currConfig[i..]) == Code(n, currConfig)
      {
        PlaceValue(n, i, currConfig[i], Code(n, currConfig[i + 1..]));
        assert currConfig[i..][1..] == currConfig[i + 1..];
        currNumber := currNumber + currConfig[i] * Pow(n, i);
        i := i + 1;
      }
      assert currConfig[k..] == [];
      ghost var start := currNumber;
      PowPositive(n, k);
      ghost var q := start / Pow(n, k) + 1;
      NextMultiple(start, Pow(n, k));
      DigitsOfMultiple(n, k, q);
      while true
        invariant start <= currNumber < q * Pow(n, k)
        invariant forall u :: start < u <= currNumber ==> !MonotoneCode(n, k, u)
        decreases q * Pow(n, k) - currNumber
      {
        currNumber := currNumber + 1;
        nextConfig := ReadDigits(currNumber, n, k);
        var monotonic := IsTopologyMonotonic(nextConfig);
        if monotonic {
          break;
        }
      }
      assert FirstMonotoneAfter(n, k, Code(n, currConfig), currNumber);
    }

    /** Count the monotone configurations by listing all n^k of them, unless the count is known. */
    method GetBufferingCombo(numBuffers: nat, numNodes: nat) returns (numMonotonic: nat)
      requires Valid()
      modifies `bufferingComboTable
      ensures Valid()
      ensures numMonotonic == |AllMonotone(numBuffers, numNodes)|
    {
      if (numBuffers, numNodes) in bufferingComboTable {
        return bufferingComboTable[(numBuffers, numNodes)];
      }
      PowZero(numNodes);
      var matrix := ListRows(numBuffers, numNodes, Pow(numBuffers, numNodes));
      numMonotonic := CountMonotone(numBuffers, numNodes, matrix);
      bufferingComboTable := bufferingComboTable[(numBuffers, numNodes) := numMonotonic];
    }

    static method ListRows(n: nat, k: nat, totalRows: nat) returns (matrix: seq<Config>)
      requires k == 0 || n > 0 || totalRows == 0
      ensures |matrix| == totalRows && forall v :: 0 <= v < totalRows ==> matrix[v] == Digits(n, k, v)
    {
      matrix := [];
      var row := 0;
      while row < totalRows
        invariant row <= totalRows && |matrix| == row
        invariant forall v :: 0 <= v < row ==> matrix[v] == Digits(n, k, v)
      {
        var digits := ReadDigits(row, n, k);
        matrix := matrix + [digits];
        row := row + 1;
      }
    }

    static method CountMonotone(n: nat, k: nat, matrix: seq<Config>) returns (numMonotonic: nat)
      requires k == 0 || n > 0 || matrix == []
      requires forall v :: 0 <= v < |matrix| ==> matrix[v] == Digits(n, k, v)
      ensures numMonotonic == |MonotoneBelow(n, k, |matrix|)|
    {
      numMonotonic := 0;
      for r := 0 to |matrix|
        invariant numMonotonic == |MonotoneBelow(n, k, r)|
      {
        var monotonic := IsTopologyMonotonic(matrix[r]);
        if monotonic {
          numMonotonic := numMonotonic + 1;
        }
      }
    }

    // ----- patterns -----

    /** One pattern per number below 2^nodes. */
    method CreatePatterns(setupWirelength: nat, wireSegmentUnit: nat) returns (topologies: seq<SolutionData>)
      requires wireSegmentUnit > 0
      ensures var nodes := setupWirelength / wireSegmentUnit;
              && |topologies| == Pow2(nodes)
              && forall c :: 0 <= c < |topologies| ==>
                   fresh(topologies[c]) && PatternOf(topologies[c], Mask(c, nodes))
    {
      var numberOfNodes := setupWirelength / wireSegmentUnit;
      var numberOfTopologies := Pow2(numberOfNodes);
      topologies := [];
      var counter := 0;
      while counter < numberOfTopologies
        invariant counter <= numberOfTopologies && |topologies| == counter
        invariant forall c :: 0 <= c < counter ==>
                    fresh(topologies[c]) && PatternOf(topologies[c], Mask(c, numberOfNodes))
      {
        var topology := CreatePattern(Mask(counter, numberOfNodes));
        topologies := topologies + [topology];
        counter := counter + 1;
      }
    }

    /** The pattern of a mask: its descriptor, and one instance of the characterization buffer
        for every buffer in it. */
    ghost predicate PatternOf(s: SolutionData, mask: seq<bool>)
      reads s
    {
      && s.topologyDescriptor == Describe(mask, charBuf)
      && s.isPureWire == (CountSet(mask, |mask|) == 0)
      && s.instVector == if s.isPureWire then [""] else seq(CountSet(mask, |mask|), _ => charBuf)
    }

    method CreatePattern(mask: seq<bool>) returns (topology: SolutionData)
      ensures fresh(topology) && PatternOf(topology, mask)
    {
      var descriptor: Descriptor, insts: seq<string> := [], [];
      var nodesWithoutBuf, isPureWire := 0, true;
      var nodeIndex := 0;
      while nodeIndex < |mask|
        invariant nodeIndex <= |mask|
        invariant nodesWithoutBuf == Trailing(mask, nodeIndex)
        invariant descriptor == Buffered(mask, nodeIndex, charBuf)
        invariant insts == seq(CountSet(mask, nodeIndex), _ => charBuf)
        invariant isPureWire == (CountSet(mask, nodeIndex) == 0)
      {
        nodesWithoutBuf := nodesWithoutBuf + 1;
        if mask[nodeIndex] {
          insts := insts + [charBuf];
          descriptor := descriptor + [Wire(nodesWithoutBuf), Master(charBuf)];
          nodesWithoutBuf := 0;
          isPureWire := false;
        }
        nodeIndex := nodeIndex + 1;
      }
      if isPureWire {
        insts := insts + [""];
      }
      if nodesWithoutBuf != 0 {
        descriptor := descriptor + [Wire(nodesWithoutBuf)];
      }
      topology := new SolutionData(insts, descriptor, isPureWire);
    }

    // ----- stepping a pattern -----

    /** The configuration of a list of masters. */
    function ConfigOf(insts: seq<string>): Config {
      seq(|insts|, i requires 0 <= i < |insts| => IndexOf(masterNames, insts[i]))
    }

    /** The descriptor names the masters of the instances, in order, and all are known. */
    ghost predicate Consistent(s: SolutionData)
      reads s
    {
      && !s.isPureWire
      && Masters(s.topologyDescriptor) == s.instVector
      && forall i :: 0 <= i < |s.instVector| ==> s.instVector[i] in masterNames
    }

    method GetCurrConfig(solution: SolutionData) returns (config: Config)
      ensures config == ConfigOf(solution.instVector)
    {
      config := [];
      for i := 0 to |solution.instVector|
        invariant config == ConfigOf(solution.instVector)[..i]
      {
        config := config + [IndexOf(masterNames, solution.instVector[i])];
      }
    }

    /** Rename the buffer number nodeIndex of a descriptor. */
    method SwapTopologyBuffer(solution: SolutionData, nodeIndex: nat, newMasterName: string)
      requires forall i :: 0 <= i < |Masters(solution.topologyDescriptor)| ==>
                             Masters(solution.topologyDescriptor)[i] in masterNames
      requires nodeIndex < |Masters(solution.topologyDescriptor)|
      modifies solution`topologyDescriptor
      ensures Masters(solution.topologyDescriptor)
              == old(Masters(solution.topologyDescriptor))[nodeIndex := newMasterName]
      ensures SameWires(old(solution.topologyDescriptor), solution.topologyDescriptor)
    {
      var topologyCounter, topologyIndex := 0, 0;
      ghost var d := solution.topologyDescriptor;
      assert d[..|d|] == d;
      while topologyIndex < |solution.topologyDescriptor|
        invariant topologyIndex <= |d| && solution.topologyDescriptor == d
        invariant topologyCounter == |Masters(d[..topologyIndex])| <= nodeIndex
      {
        var entry := solution.topologyDescriptor[topologyIndex];
        MasterKnown(d, topologyIndex);
        if entry.Master? && entry.name in masterNames {
          if topologyCounter == nodeIndex {
            MastersReplace(d, topologyIndex, newMasterName);
            solution.topologyDescriptor := solution.topologyDescriptor[topologyIndex := Master(newMasterName)];
            return;
          }
          topologyCounter := topologyCounter + 1;
        }
        topologyIndex := topologyIndex + 1;
      }
      assert false;
    }

    lemma {:induction false} MasterKnown(d: Descriptor, i: nat)
      requires i < |d|
      ensures |Masters(d[..i + 1])| == |Masters(d[..i])| + if d[i].Master? then 1 else 0
      ensures d[i].Master? ==> |Masters(d[..i])| < |Masters(d)| && Masters(d)[|Masters(d[..i])|] == d[i].name
    {
      assert d[..i + 1] == d[..i] + [d[i]];
      assert d == d[..i + 1] + d[i + 1..];
      MasterSnoc(d[..i], d[i]);
      MastersAppend(d[..i + 1], d[i + 1..]);
    }

    /** Move a pattern to its next configuration: instances and descriptor together. */
    method UpdateBufferTopologies(solution: SolutionData)
      requires Valid() && Consistent(solution)
      modifies solution
      ensures Consistent(solution) && |solution.instVector| == |old(solution.instVector)|
      ensures SameWires(old(solution.topologyDescriptor), solution.topologyDescriptor)
      ensures Follows(|masterNames|, ConfigOf(old(solution.instVector)), ConfigOf(solution.instVector))
    {
      var currConfig := GetCurrConfig(solution);
      var nextConfig := GetNextConfig(currConfig);
      ghost var k := |solution.instVector|;
      var nodeIndex := 0;
      while nodeIndex < |solution.instVector|
        invariant nodeIndex <= |solution.instVector| == k
        invariant Consistent(solution)
        invariant SameWires(old(solution.topologyDescriptor), solution.topologyDescriptor)
        invariant forall i :: 0 <= i < nodeIndex ==> solution.instVector[i] == masterNames[nextConfig[i]]
      {
        var oldMaster := solution.instVector[nodeIndex];
        var newMaster := GetMasterFromConfig(nextConfig, nodeIndex);
        if newMaster != oldMaster {
          solution.instVector := solution.instVector[nodeIndex := newMaster];
          SwapTopologyBuffer(solution, nodeIndex, newMaster);
        }
        nodeIndex := nodeIndex + 1;
      }
      forall i | 0 <= i < k
        ensures IndexOf(masterNames, solution.instVector[i]) == nextConfig[i]
      {
        IndexOfOnly(masterNames, nextConfig[i]);
      }
      assert ConfigOf(solution.instVector) == nextConfig;
    }

    method GetMasterFromConfig(nextConfig: Config, nodeIndex: nat) returns (master: string)
      requires nodeIndex < |nextConfig| && Below(nextConfig, |masterNames|)
      ensures master == masterNames[nextConfig[nodeIndex]]
    {
      var i := 0;
      while i < |masterNames|
        invariant i <= nextConfig[nodeIndex]
      {
        if nextConfig[nodeIndex] == i {
          return masterNames[i];
        }
        i := i + 1;
      }
      assert false;
    }

    /** How often a pure wire is tested: its one empty instance counts as a node, so it is tested
        once per master, and once only exactly if there is a single master. */
    lemma {:induction false} PureWireTests(solution: SolutionData)
      requires solution.instVector == [""] && |masterNames| > 0
      ensures |AllMonotone(|masterNames|, |solution.instVector|)| == |masterNames|
      ensures |AllMonotone(|masterNames|, |solution.instVector|)| == 1 <==> |masterNames| == 1
    {
      CountForOneNode(|masterNames|);
    }

    /** Test a pattern in every configuration.  A pure wire is tested unchanged each time. */
    method Characterize(solution: SolutionData) returns (tested: seq<Config>)
      requires Valid()
      requires !solution.isPureWire ==> Consistent(solution) && Monotone(ConfigOf(solution.instVector))
      modifies this`bufferingComboTable, solution
      ensures Valid()
      ensures |tested| == |AllMonotone(|masterNames|, |solution.instVector|)| > 0
      ensures solution.instVector == old(solution.instVector)
      ensures solution.topologyDescriptor == old(solution.topologyDescriptor)
      ensures !solution.isPureWire ==>
                && var all := AllMonotone(|masterNames|, |solution.instVector|);
                && var i := |MonotoneBelow(|masterNames|, |solution.instVector|,
                              Code(|masterNames|, ConfigOf(solution.instVector)))|;
                && i < |all| && all[i] == ConfigOf(solution.instVector)
                && tested == Rotation(all, i)
    {
      ghost var n, k := |masterNames|, |solution.instVector|;
      ghost var i := |MonotoneBelow(n, k, Code(n, ConfigOf(solution.instVector)))|;
      FirstEntry(n, k);
      if !solution.isPureWire {
        PositionOf(n, ConfigOf(solution.instVector));
      }
      var buffersUpdate := GetBufferingCombo(|masterNames|, |solution.instVector|);
      tested := TestAll(solution, buffersUpdate, i);
      if !solution.isPureWire {
        SameConfig(solution.instVector, old(solution.instVector));
        WiresAndMasters(solution.topologyDescriptor, old(solution.topologyDescriptor));
      }
    }

    /** The loop over the configurations of one pattern. */
    method TestAll(solution: SolutionData, buffersUpdate: nat, ghost i: nat) returns (tested: seq<Config>)
      requires Valid() && 0 < buffersUpdate == |AllMonotone(|masterNames|, |solution.instVector|)|
      requires !solution.isPureWire ==> Walked(solution, |masterNames|, |solution.instVector|, i, [])
      modifies solution
      ensures Valid() && |tested| == buffersUpdate && |solution.instVector| == |old(solution.instVector)|
      ensures !solution.isPureWire ==> Walked(solution, |masterNames|, |solution.instVector|, i, tested)
      ensures SameWires(old(solution.topologyDescriptor), solution.topologyDescriptor)
      ensures solution.isPureWire ==> unchanged(solution)
    {
      ghost var n, k := |masterNames|, |solution.instVector|;
      tested := [];
      var left := buffersUpdate;
      while true
        invariant Valid() && |solution.instVector| == k
        invariant |tested| + left == buffersUpdate && left > 0
        invariant !solution.isPureWire ==> Walked(solution, n, k, i, tested)
        invariant SameWires(old(solution.topologyDescriptor), solution.topologyDescriptor)
        invariant solution.isPureWire ==> unchanged(solution)
        decreases left
      {
        var config := GetCurrConfig(solution);
        tested := tested + [config];
        if !solution.isPureWire {
          UpdateBufferTopologies(solution);
          WalkOn(n, k, i, tested[..|tested| - 1], ConfigOf(solution.instVector));
        }
        left := left - 1;
        if left == 0 {
          break;
        }
      }
    }

    // ----- all patterns of one wirelength -----

    /** A pattern with buffers is consistent when it has been created, and all its buffers are the
        characterization buffer. */
    lemma {:induction false} NewPattern(s: SolutionData, mask: seq<bool>)
      requires Valid() && PatternOf(s, mask) && !s.isPureWire
      ensures Consistent(s) && Monotone(ConfigOf(s.instVector))
    {
      DescribeWellFormed(mask, charBuf);
      AllAlike(Masters(Describe(mask, charBuf)), charBuf);
    }

    lemma {:induction false} AllAlike(names: seq<string>, name: string)
      requires forall b :: b in names ==> b == name
      ensures names == seq(|names|, _ => name)
    {
      assert forall i :: 0 <= i < |names| ==> names[i] in names;
    }

    /** What a pattern is tested with: with every monotone configuration of its buffers exactly
        once, and without buffers once per master. */
    ghost predicate AllTested(mask: seq<bool>, tested: seq<Config>) {
      var n, k := |masterNames|, CountSet(mask, |mask|);
      if k == 0 then |tested| == n
      else forall c :: multiset(tested)[c] == if |c| == k && Below(c, n) && Monotone(c) then 1 else 0
    }

    lemma {:induction false} RotationTests(mask: seq<bool>, tested: seq<Config>, i: nat)
      requires var n, k := |masterNames|, CountSet(mask, |mask|);
               n > 0 && k > 0 && i <= |AllMonotone(n, k)| && tested == Rotation(AllMonotone(n, k), i)
      ensures AllTested(mask, tested)
    {
      forall c ensures multiset(tested)[c] == if |c| == CountSet(mask, |mask|) && Below(c, |masterNames|) && Monotone(c) then 1 else 0 {
        RotationCoversOnce(|masterNames|, CountSet(mask, |mask|), i, c);
      }
    }

    /** Test one new pattern. */
    method CharacterizeNew(solution: SolutionData, ghost mask: seq<bool>) returns (tested: seq<Config>)
      requires Valid() && PatternOf(solution, mask)
      modifies this`bufferingComboTable, solution
      ensures Valid() && PatternOf(solution, mask) && AllTested(mask, tested)
      ensures solution.instVector == old(solution.instVector)
      ensures solution.topologyDescriptor == old(solution.topologyDescriptor)
    {
      if !solution.isPureWire { NewPattern(solution, mask); }
      tested := Characterize(solution);
      ghost var n, k := |masterNames|, |solution.instVector|;
      if solution.isPureWire {
        PureWireTests(solution);
      } else {
        RotationTests(mask, tested, |MonotoneBelow(n, k, Code(n, ConfigOf(solution.instVector)))|);
      }
    }

    /** Create the patterns of one wirelength, and test each of them. */
    method CharacterizeAll(setupWirelength: nat, wireSegmentUnit: nat) returns (tested: seq<seq<Config>>)
      requires Valid() && wireSegmentUnit > 0
      modifies `bufferingComboTable
      ensures Valid()
      ensures var nodes := setupWirelength / wireSegmentUnit;
              |tested| == Pow2(nodes) && TestedSo(nodes, tested)
    {
      var topologies := CreatePatterns(setupWirelength, wireSegmentUnit);
      ghost var nodes := setupWirelength / wireSegmentUnit;
      tested := [];
      for t := 0 to |topologies|
        invariant Valid() && |tested| == t && TestedSo(nodes, tested)
        invariant forall c :: 0 <= c < |topologies| ==> fresh(topologies[c])
        invariant forall c :: 0 <= c < |topologies| ==> PatternOf(topologies[c], Mask(c, nodes))
      {
        var configs := CharacterizeNew(topologies[t], Mask(t, nodes));
        OneMoreTested(nodes, tested, configs);
        tested := tested + [configs];
      }
    }

    ghost predicate TestedSo(nodes: nat, tested: seq<seq<Config>>) {
      forall c :: 0 <= c < |tested| ==> AllTested(Mask(c, nodes), tested[c])
    }

    lemma {:induction false} OneMoreTested(nodes: nat, tested: seq<seq<Config>>, configs: seq<Config>)
      requires TestedSo(nodes, tested) && AllTested(Mask(|tested|, nodes), configs)
      ensures TestedSo(nodes, tested + [configs])
    {
    }

    /** The configurations tested so far are the first ones of the rotation that starts at
        position i, and the pattern stands at the next one. */
    ghost predicate Walked(s: SolutionData, n: nat, k: nat, i: nat, tested: seq<Config>)
      reads s
    {
      && Consistent(s)
      && TestedTo(n, k, i, tested, ConfigOf(s.instVector))
    }

    ghost predicate TestedTo(n: nat, k: nat, i: nat, tested: seq<Config>, current: Config) {
      var all := AllMonotone(n, k);
      && i < |all| && |tested| <= |all|
      && tested == Rotation(all, i)[..|tested|]
      && current == all[Turn(i, |tested|, |all|)]
    }

    lemma {:induction false} WalkOn(n: nat, k: nat, i: nat, tested: seq<Config>, next: Config)
      requires n > 0 && i < |AllMonotone(n, k)| && |tested| < |AllMonotone(n, k)|
      requires var current := AllMonotone(n, k)[Turn(i, |tested|, |AllMonotone(n, k)|)];
               TestedTo(n, k, i, tested, current) && Follows(n, current, next)
      ensures var current := AllMonotone(n, k)[Turn(i, |tested|, |AllMonotone(n, k)|)];
              TestedTo(n, k, i, tested + [current], next)
    {
      var all := AllMonotone(n, k);
      StepIsCyclicSuccessor(n, k, Turn(i, |tested|, |all|), next);
      assert Rotation(all, i)[|tested|] == all[Turn(i, |tested|, |all|)];
    }

    lemma {:induction false} SameConfig(a: seq<string>, b: seq<string>)
      requires ConfigOf(a) == ConfigOf(b)
      requires forall i :: 0 <= i < |a| ==> a[i] in masterNames
      requires forall i :: 0 <= i < |b| ==> b[i] in masterNames
      ensures a == b
    {
      assert |a| == |ConfigOf(a)| == |b|;
      forall i | 0 <= i < |a|
        ensures a[i] == b[i]
      {
        assert ConfigOf(a)[i] == ConfigOf(b)[i];
      }
    }
  }

  /** The position t places after i, cyclically. */
  function Turn(i: nat, t: nat, size: nat): (p: nat)
    requires i < size && t <= size
    ensures p < size
    ensures t < size ==> p == i + t || p == i + t - size
  {
    if i + t < size then i + t else i + t - size
  }

  lemma {:induction false} PlaceValue(n: nat, i: nat, digit: nat, rest: nat)
    ensures Pow(n, i) * (digit + n * rest) == digit * Pow(n, i) + Pow(n, i + 1) * rest
  {
  }

  lemma {:induction false} NextMultiple(v: nat, p: nat)
    requires p > 0
    ensures v < (v / p + 1) * p
  {
  }
}
