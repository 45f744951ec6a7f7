/** Choosing wire segments from the look-up table. */
module SegmentChoice {
  import opened ClockNets
  import opened SegmentLut

  const UNSIGNED_MAX: nat := 0xFFFF_FFFF
  const MAX_TOLERANCE: nat := 10

  /** Which segments are looked for. */
  datatype Filter =
    | Near(inputCap: nat, inputSlew: nat, tolerance: nat, buffered: bool)
    | Plain
    | SingleBuffer
    | BufferNear(place: real)

  function Distance(a: nat, b: nat): (d: nat)
    ensures a - d == b || b - d == a
  {
    if a <= b then b - a else a - b
  }

  predicate Admits(f: Filter, seg: WireSegment) {
    match f
    case Near(inputCap, inputSlew, tolerance, buffered) =>
      && Distance(seg.inputCap, inputCap) <= tolerance && Distance(seg.inputSlew, inputSlew) <= tolerance
      && (buffered ==> seg.Buffered())
    case Plain => !seg.Buffered()
    case SingleBuffer => |seg.bufferLocations| == 1
    case BufferNear(place) =>
      |seg.bufferLocations| == 1 && place * 0.9 < seg.bufferLocations[0] < place * 1.1
  }

  function DelayOf(segs: seq<WireSegment>, key: Option<nat>): nat
    requires key.Some? ==> key.value < |segs|
  {
    if key == None then UNSIGNED_MAX else segs[key.value].delay
  }

  /** The running minimum over the first n positions of a list. */
  function Fastest(segs: seq<WireSegment>, order: seq<nat>, n: nat, f: Filter): (key: Option<nat>)
    requires n <= |order| && forall i :: i in order ==> i < |segs|
    ensures key.Some? ==> key.value < |segs|
  {
    if n == 0 then None
    else
      var key := Fastest(segs, order, n - 1, f);
      assert order[n - 1] in order;
      var seg := segs[order[n - 1]];
      if Admits(f, seg) && seg.delay < DelayOf(segs, key) then Some(order[n - 1]) else key
  }

  /** Position p holds a segment that can be found at all: its delay is below the largest number. */
  predicate Eligible(segs: seq<WireSegment>, order: seq<nat>, f: Filter, p: nat)
    requires p < |order| && forall i :: i in order ==> i < |segs|
  {
    assert order[p] in order;
    Admits(f, segs[order[p]]) && segs[order[p]].delay < UNSIGNED_MAX
  }

  function DelayAt(segs: seq<WireSegment>, order: seq<nat>, p: nat): nat
    requires p < |order| && forall i :: i in order ==> i < |segs|
  {
    assert order[p] in order;
    segs[order[p]].delay
  }

  /** What the running minimum finds: the first among the eligible segments of least delay, if there
      is an eligible one. */
  lemma {:induction false} FastestIsLeast(segs: seq<WireSegment>, order: seq<nat>, n: nat, f: Filter) returns (p: nat)
    requires n <= |order| && forall i :: i in order ==> i < |segs|
    ensures var key := Fastest(segs, order, n, f);
            if key == None then forall q :: 0 <= q < n ==> !Eligible(segs, order, f, q)
            else && p < n && key == Some(order[p]) && Eligible(segs, order, f, p)
                 && (forall q :: 0 <= q < n && Eligible(segs, order, f, q) ==> DelayAt(segs, order, p) <= DelayAt(segs, order, q))
                 && (forall q :: 0 <= q < p && Eligible(segs, order, f, q) ==> DelayAt(segs, order, p) < DelayAt(segs, order, q))
  {
    p := 0;
    if n > 0 {
      p := FastestIsLeast(segs, order, n - 1, f);
      var key := Fastest(segs, order, n - 1, f);
      assert order[n - 1] in order;
      if Admits(f, segs[order[n - 1]]) && segs[order[n - 1]].delay < DelayOf(segs, key) {
        p := n - 1;
      }
    }
  }

  /** The positions looked through: load by load, slew by slew, in table order. */
  function Order(segs: seq<WireSegment>, length: Byte, maxLoad: Byte, maxSlew: Byte): (r: seq<nat>)
    ensures forall i :: i in r ==> i < |segs|
  {
    SourcesExact(segs, length, maxLoad, maxSlew);
    Sources(segs, length, maxLoad, maxSlew)
  }

  /** The fastest of all admitted segments of a length in the table. */
  function Choice(segs: seq<WireSegment>, length: Byte, maxLoad: Byte, maxSlew: Byte, f: Filter): (key: Option<nat>)
    ensures key.Some? ==> key.value < |segs|
  {
    var order := Order(segs, length, maxLoad, maxSlew);
    Fastest(segs, order, |order|, f)
  }

  /** A segment that the look-up can find. */
  predicate Findable(segs: seq<WireSegment>, length: Byte, maxLoad: Byte, maxSlew: Byte, f: Filter, i: nat) {
    InTable(segs, i, length, maxLoad, maxSlew) && Admits(f, segs[i]) && segs[i].delay < UNSIGNED_MAX
  }

  /** A choice is a findable segment of least delay, and there is one exactly if there is a findable
      segment. */
  lemma {:induction false} ChoiceIsLeast(segs: seq<WireSegment>, length: Byte, maxLoad: Byte, maxSlew: Byte, f: Filter)
    ensures var key := Choice(segs, length, maxLoad, maxSlew, f);
            if key == None then forall i: nat :: !Findable(segs, length, maxLoad, maxSlew, f, i)
            else && Findable(segs, length, maxLoad, maxSlew, f, key.value)
                 && forall i: nat :: Findable(segs, length, maxLoad, maxSlew, f, i) ==> segs[key.value].delay <= segs[i].delay
  {
    var order := Order(segs, length, maxLoad, maxSlew);
    SourcesExact(segs, length, maxLoad, maxSlew);
    var p := FastestIsLeast(segs, order, |order|, f);
    assert p < |order| ==> order[p] in order;
    var key := Choice(segs, length, maxLoad, maxSlew, f);
    forall i: nat | Findable(segs, length, maxLoad, maxSlew, f, i)
      ensures key.Some? && segs[key.value].delay <= segs[i].delay
    {
      assert i in order;
      var q :| 0 <= q < |order| && order[q] == i;
      assert Eligible(segs, order, f, q);
    }
  }

  lemma {:induction false} FastestPrefix(segs: seq<WireSegment>, a: seq<nat>, b: seq<nat>, n: nat, f: Filter)
    requires n <= |a| && a <= b && forall i :: i in b ==> i < |segs|
    ensures (forall i :: i in a ==> i < |segs|) && Fastest(segs, a, n, f) == Fastest(segs, b, n, f)
  {
    assert forall i :: i in a ==> i in b;
    if n > 0 { FastestPrefix(segs, a, b, n - 1, f); }
  }

  lemma {:induction false} OrderRow(segs: seq<WireSegment>, length: Byte, load: Byte, maxSlew: Byte)
    requires load > 0
    ensures Order(segs, length, load, maxSlew) == Order(segs, length, load - 1, maxSlew) + Row(segs, length, load, maxSlew)
  {
  }

  /** The running minima, one for each of the filters. */
  ghost predicate AllFastest(segs: seq<WireSegment>, order: seq<nat>, n: nat, fs: seq<Filter>, keys: seq<Option<nat>>) {
    && n <= |order| && (forall i :: i in order ==> i < |segs|) && |keys| == |fs|
    && forall c :: 0 <= c < |fs| ==> keys[c] == Fastest(segs, order, n, fs[c])
  }

  lemma {:induction false} AllPrefix(segs: seq<WireSegment>, a: seq<nat>, b: seq<nat>, fs: seq<Filter>, keys: seq<Option<nat>>)
    requires AllFastest(segs, a, |a|, fs, keys) && a <= b && forall i :: i in b ==> i < |segs|
    ensures AllFastest(segs, b, |a|, fs, keys)
  {
    forall c | 0 <= c < |fs|
      ensures keys[c] == Fastest(segs, b, |a|, fs[c])
    {
      FastestPrefix(segs, a, b, |a|, fs[c]);
    }
  }

  /** Look through one cell of the table, for all filters at once. */
  method ScanCell(table: SegmentTable, length: Byte, load: Byte, outSlew: Byte, fs: seq<Filter>, keys0: seq<Option<nat>>,
                  ghost before: seq<nat>)
    returns (keys: seq<Option<nat>>)
    requires table.Valid() && AllFastest(table.wireSegments, before, |before|, fs, keys0)
    ensures var after := before + Scan(table.wireSegments, |table.wireSegments|, length, load, outSlew);
            AllFastest(table.wireSegments, after, |after|, fs, keys)
  {
    var found := table.VisitWireSegments(length, load, outSlew);
    ghost var segs, after := table.wireSegments, before + found;
    keys := keys0;
    AllPrefix(segs, before, after, fs, keys);
    for i := 0 to |found|
      invariant AllFastest(segs, after, |before| + i, fs, keys)
    {
      assert after[|before| + i] == found[i] && found[i] in found;
      keys := Improve(table, found[i], fs, keys);
      assert forall c :: 0 <= c < |fs| ==> keys[c] == Fastest(segs, after, |before| + i + 1, fs[c]);
    }
  }

  /** Compare one segment with the best so far, for each filter. */
  method Improve(table: SegmentTable, key: nat, fs: seq<Filter>, keys0: seq<Option<nat>>) returns (keys: seq<Option<nat>>)
    requires key < |table.wireSegments| && |keys0| == |fs|
    requires forall c :: 0 <= c < |fs| ==> keys0[c].Some? ==> keys0[c].value < |table.wireSegments|
    ensures |keys| == |fs|
    ensures forall c :: 0 <= c < |fs| ==>
              keys[c] == if Admits(fs[c], table.wireSegments[key])
                            && table.wireSegments[key].delay < DelayOf(table.wireSegments, keys0[c])
                         then Some(key) else keys0[c]
  {
    var seg := table.wireSegments[key];
    keys := keys0;
    for c := 0 to |fs|
      invariant |keys| == |fs| && forall b :: c <= b < |fs| ==> keys[b] == keys0[b]
      invariant forall b :: 0 <= b < c ==>
                  keys[b] == if Admits(fs[b], seg) && seg.delay < DelayOf(table.wireSegments, keys0[b])
                             then Some(key) else keys0[b]
    {
      if Admits(fs[c], seg) && seg.delay < DelayOf(table.wireSegments, keys[c]) {
        keys := keys[c := Some(key)];
      }
    }
  }

  /** Look through the whole table. */
  method ScanTable(table: SegmentTable, length: Byte, maxLoad: Byte, maxSlew: Byte, fs: seq<Filter>) returns (keys: seq<Option<nat>>)
    requires table.Valid()
    ensures |keys| == |fs|
    ensures forall c :: 0 <= c < |fs| ==> keys[c] == Choice(table.wireSegments, length, maxLoad, maxSlew, fs[c])
  {
    ghost var segs := table.wireSegments;
    keys := seq(|fs|, _ => None);
    var load: nat := 1;
    while load <= maxLoad
      invariant 1 <= load <= maxLoad + 1
      invariant AllFastest(segs, Order(segs, length, load - 1, maxSlew), |Order(segs, length, load - 1, maxSlew)|, fs, keys)
    {
      keys := ScanRow(table, length, load, maxSlew, fs, keys);
      load := load + 1;
    }
  }

  method ScanRow(table: SegmentTable, length: Byte, load: Byte, maxSlew: Byte, fs: seq<Filter>, keys0: seq<Option<nat>>)
    returns (keys: seq<Option<nat>>)
    requires table.Valid() && load > 0
    requires var order := Order(table.wireSegments, length, load - 1, maxSlew);
             AllFastest(table.wireSegments, order, |order|, fs, keys0)
    ensures var order := Order(table.wireSegments, length, load, maxSlew);
            AllFastest(table.wireSegments, order, |order|, fs, keys)
  {
    ghost var segs := table.wireSegments;
    ghost var rows := Order(segs, length, load - 1, maxSlew);
    OrderRow(segs, length, load, maxSlew);
    keys := keys0;
    var outSlew: nat := 1;
    RowBegins(segs, rows, length, load);
    while outSlew <= maxSlew
      invariant 1 <= outSlew <= maxSlew + 1
      invariant RowDone(segs, rows, length, load, outSlew - 1, fs, keys)
    {
      keys := ScanCell(table, length, load, outSlew, fs, keys, rows + Row(segs, length, load, outSlew - 1));
      RowMore(segs, rows, length, load, outSlew);
      outSlew := outSlew + 1;
    }
  }

  /** The rows before and a row up to a slew have been looked through. */
  ghost predicate RowDone(segs: seq<WireSegment>, rows: seq<nat>, length: Byte, load: Byte, outSlew: Byte, fs: seq<Filter>,
                          keys: seq<Option<nat>>) {
    var order := rows + Row(segs, length, load, outSlew);
    AllFastest(segs, order, |order|, fs, keys)
  }

  lemma {:induction false} RowBegins(segs: seq<WireSegment>, rows: seq<nat>, length: Byte, load: Byte)
    ensures rows + Row(segs, length, load, 0) == rows
  {
  }

  lemma {:induction false} RowMore(segs: seq<WireSegment>, rows: seq<nat>, length: Byte, load: Byte, outSlew: Byte)
    requires outSlew > 0
    ensures rows + Row(segs, length, load, outSlew)
            == rows + Row(segs, length, load, outSlew - 1) + Scan(segs, |segs|, length, load, outSlew)
  {
    assert Row(segs, length, load, outSlew) == Row(segs, length, load, outSlew - 1) + Scan(segs, |segs|, length, load, outSlew);
  }
}
