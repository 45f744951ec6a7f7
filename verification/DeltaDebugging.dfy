/** The delta debugger's search loop around an arbitrary step command. */
module DeltaDebugging {
  import opened DeltaBlocks

  datatype Db = Db(insts: seq<nat>, nets: seq<nat>)

  datatype CutLevel = Nets | Insts

  function Elms(db: Db, level: CutLevel): seq<nat> {
    if level == Insts then db.insts else db.nets
  }

  /** A list without one stretch. */
  function Drop<T>(s: seq<T>, start: nat, end: nat): (r: seq<T>)
    requires start <= end <= |s|
    ensures |r| == |s| - (end - start)
  {
    s[..start] + s[end..]
  }

  /** The elements that a level leaves alone. */
  function Rest(db: Db, level: CutLevel): seq<nat> {
    if level == Insts then db.nets else db.insts
  }

  function WithElms(db: Db, level: CutLevel, elms: seq<nat>): Db {
    if level == Insts then db.(insts := elms) else db.(nets := elms)
  }

  function Least(a: nat, b: nat): (r: nat)
    ensures r <= a && r <= b && (r == a || r == b)
  {
    if a <= b then a else b
  }

  // ----- sub-collections -----

  ghost predicate Increasing(idx: seq<nat>, n: nat) {
    (forall i :: 0 <= i < |idx| ==> idx[i] < n) && forall i, j :: 0 <= i < j < |idx| ==> idx[i] < idx[j]
  }

  /** s keeps some of the elements of t, in order. */
  ghost predicate Within(s: seq<nat>, t: seq<nat>) {
    exists idx :: WithinBy(s, t, idx)
  }

  ghost predicate WithinBy(s: seq<nat>, t: seq<nat>, idx: seq<nat>) {
    |idx| == |s| && Increasing(idx, |t|) && forall i :: 0 <= i < |s| ==> s[i] == t[idx[i]]
  }

  lemma {:induction false} WithinSelf(s: seq<nat>)
    ensures Within(s, s)
  {
    assert WithinBy(s, s, seq(|s|, i => i));
  }

  lemma {:induction false} WithinAgain(s: seq<nat>, t: seq<nat>, u: seq<nat>)
    requires Within(s, t) && Within(t, u)
    ensures Within(s, u)
  {
    var a :| WithinBy(s, t, a);
    var b :| WithinBy(t, u, b);
    assert WithinBy(s, u, seq(|s|, i requires 0 <= i < |s| => b[a[i]]));
  }

  lemma {:induction false} DropWithin(s: seq<nat>, t: seq<nat>, start: nat, end: nat)
    requires Within(s, t) && start <= end <= |s|
    ensures Within(Drop(s, start, end), t)
  {
    var idx :| WithinBy(s, t, idx);
    assert WithinBy(Drop(s, start, end), t, Drop(idx, start, end));
  }

  ghost predicate SubDb(a: Db, b: Db) {
    Within(a.insts, b.insts) && Within(a.nets, b.nets)
  }

  // ----- steps -----

  /** A step stops at the assertion that there is something to cut, or it reports whether the error
      showed and how many blocks what is left would be cut into. */
  datatype StepResult = Stopped | Stepped(error: bool, cuts: nat)

  /** The database without block j. */
  function Cut(db: Db, level: CutLevel, parts: nat, j: nat): Db
    requires 0 < parts && |Elms(db, level)| > 0 && j < Least(parts, |Elms(db, level)|)
  {
    var elms := Elms(db, level);
    var cuts := Least(parts, |elms|);
    BlockFits(|elms|, cuts, j);
    WithElms(db, level, Drop(elms, Start(|elms|, cuts, j), Start(|elms|, cuts, j + 1)))
  }

  /** A cut takes something away, and keeps the order of the rest. */
  lemma {:induction false} CutShrinks(db: Db, original: Db, level: CutLevel, parts: nat, j: nat)
    requires 0 < parts && |Elms(db, level)| > 0 && j < Least(parts, |Elms(db, level)|) && SubDb(db, original)
    ensures |Elms(Cut(db, level, parts, j), level)| < |Elms(db, level)| && SubDb(Cut(db, level, parts, j), original)
  {
    var elms := Elms(db, level);
    var cuts := Least(parts, |elms|);
    BlockFits(|elms|, cuts, j);
    DropWithin(elms, Elms(original, level), Start(|elms|, cuts, j), Start(|elms|, cuts, j + 1));
  }

  lemma {:induction false} CutKeepsRest(db: Db, start: Db, level: CutLevel, parts: nat, j: nat)
    requires 0 < parts && |Elms(db, level)| > 0 && j < Least(parts, |Elms(db, level)|)
    requires Rest(db, level) == Rest(start, level) && Within(Elms(db, level), Elms(start, level))
    ensures var cut := Cut(db, level, parts, j);
            Rest(cut, level) == Rest(start, level) && Within(Elms(cut, level), Elms(start, level))
  {
    var elms := Elms(db, level);
    var cuts := Least(parts, |elms|);
    BlockFits(|elms|, cuts, j);
    DropWithin(elms, Elms(start, level), Start(|elms|, cuts, j), Start(|elms|, cuts, j + 1));
  }

  /** How many blocks what is left would be cut into, once block j has been cut. */
  function CutsLeft(num: nat, parts: nat, j: nat): nat
    requires 0 < parts && 0 < num && j < Least(parts, num)
  {
    var cuts := Least(parts, num);
    BlockFits(num, cuts, j);
    Least(parts, num - (Start(num, cuts, j + 1) - Start(num, cuts, j)))
  }

  /** How many blocks a pass without errors tries: all of them if there is only one element or more
      elements than blocks, and all but the last otherwise. */
  function BlocksTried(num: nat, parts: nat): nat
    requires num > 0
  {
    if num == 1 || num > parts then Least(parts, num) else num - 1
  }

  lemma {:induction false} MoreToTry(num: nat, parts: nat, j: nat)
    requires parts >= 2 && num > 0 && j < Least(parts, num)
    ensures j + 1 < CutsLeft(num, parts, j) <==> j + 1 < BlocksTried(num, parts)
    ensures CutsLeft(num, parts, j) <= Least(parts, num)
  {
    var cuts := Least(parts, num);
    BlockFits(num, cuts, j);
    if num > parts {
      if j + 1 < cuts {
        EnoughLeft(num, cuts, j);
      }
    } else {
      SingleBlock(num, j);
      SingleBlock(num, j + 1);
    }
  }

  /** After every block but the last the loop goes on, as long as no error shows, exactly if there is
      one element only or there are more elements than blocks. */
  lemma {:induction false} TriesAllBlocks(num: nat, parts: nat)
    requires num > 0 && parts >= 2
    ensures (forall j: nat :: j + 1 < Least(parts, num) ==> j + 1 < CutsLeft(num, parts, j)) <==> num == 1 || num > parts
  {
    forall j: nat | j + 1 < Least(parts, num)
      ensures j + 1 < CutsLeft(num, parts, j) <==> j + 1 < BlocksTried(num, parts)
    {
      MoreToTry(num, parts, j);
    }
    if 1 < num <= parts {
      var last := num - 2;
      assert last + 1 < Least(parts, num) && !(last + 1 < CutsLeft(num, parts, last));
    }
  }

  /** With two elements and two blocks, the second element alone is never cut. */
  lemma {:induction false} SecondOfTwoUntried()
    ensures Least(2, 2) == 2 && CutsLeft(2, 2, 0) == 1 && BlocksTried(2, 2) == 1
  {
    SingleBlock(2, 0);
    SingleBlock(2, 1);
  }

  function Pow2(k: nat): nat {
    if k == 0 then 1 else 2 * Pow2(k - 1)
  }

  /** If nothing is left to cut then, there was one element. */
  lemma {:induction false} NoCutsLeft(num: nat, parts: nat, j: nat)
    requires parts >= 2 && num > 0 && j < Least(parts, num) && CutsLeft(num, parts, j) == 0
    ensures num == 1
  {
    if num > 1 { LeavesSome(num, Least(parts, num), j); }
  }

  lemma {:induction false} LeavesSome(num: nat, cuts: nat, j: nat)
    requires 2 <= cuts <= num && j < cuts
    ensures Start(num, cuts, j + 1) - Start(num, cuts, j) < num
  {
    BlockFits(num, cuts, j);
    if j > 0 {
      BlockFits(num, cuts, j - 1);
    } else {
      BlockFits(num, cuts, cuts - 1);
      StartsRise(num, cuts, 1, cuts - 1);
    }
  }

  lemma {:induction false} StartsRise(num: nat, cuts: nat, i: nat, j: nat)
    requires 0 < cuts <= num && i <= j < cuts
    ensures Start(num, cuts, i) <= Start(num, cuts, j)
  {
    if i < j {
      StartsRise(num, cuts, i, j - 1);
      BlockFits(num, cuts, j - 1);
    }
  }

  lemma {:induction false} PartsPositive(n: nat, m: nat)
    requires n > 0 && m > 0
    ensures n * m > 0 && (n >= 2 ==> n * m >= 2)
  {
    DeltaBlocks.MulMono(1, m, n);
  }

  lemma {:induction false} Pow2Grows(i: nat, j: nat)
    requires i <= j
    ensures Pow2(i) <= Pow2(j) && (1 <= i ==> Pow2(i) >= 2)
  {
    if i < j {
      Pow2Grows(i, j - 1);
    } else if i > 1 {
      Pow2Grows(i - 1, i - 1);
    }
  }

  /** A step that has been performed: the database it ran on, and whether the error showed. */
  datatype Step = Step(db: Db, error: bool)

  datatype Outcome = NoError | AssertionFailed | Done

  class DeltaDebugger {
    const persistence: nat
    const multiplier: nat
    /** Whether the error shows when the step command runs on a database, which may depend on when
        it runs. */
    const fails: (nat, Db) -> bool
    const original: Db

    var tempDb: Db
    var n: nat
    var stepCount: nat

    /** The steps performed so far.  Step number k is entry k - 1. */
    ghost var log: seq<Step>

    ghost predicate Valid()
      reads this
    {
      && multiplier > 0 && SubDb(tempDb, original)
      && |log| + 1 == stepCount
      && (forall k {:trigger Answered(log, k)} :: 0 <= k < |log| ==> Answered(log, k))
      && (tempDb == original || Step(tempDb, true) in log)
    }

    /** Entry k says what the command has answered when it ran as step k + 1. */
    ghost predicate Answered(steps: seq<Step>, k: nat)
      requires k < |steps|
    {
      steps[k].error == fails(k + 1, steps[k].db)
    }

    constructor (original: Db, persistence: nat, multiplier: nat, fails: (nat, Db) -> bool)
      requires multiplier > 0
      ensures Valid() && tempDb == original && this.original == original && stepCount == 1 && log == []
      ensures this.persistence == persistence && this.multiplier == multiplier && this.fails == fails
    {
      this.original, this.persistence, this.multiplier, this.fails := original, persistence, multiplier, fails;
      tempDb, n, stepCount, log := original, 2, 1, [];
      WithinSelf(original.insts);
      WithinSelf(original.nets);
    }

    lemma {:induction false} OneMoreStep(steps: seq<Step>, s: Step)
      requires forall k {:trigger Answered(steps, k)} :: 0 <= k < |steps| ==> Answered(steps, k)
      requires s.error == fails(|steps| + 1, s.db)
      ensures var more := steps + [s]; forall k {:trigger Answered(more, k)} :: 0 <= k < |more| ==> Answered(more, k)
    {
      var more := steps + [s];
      forall k {:trigger Answered(more, k)} | 0 <= k < |more| ensures Answered(more, k) {
        assert k < |steps| ==> Answered(steps, k);
      }
    }

    /** Run the step command on a database, which replaces the current one if the error shows. */
    method Perform(baseDb: Db) returns (error: bool)
      requires Valid() && SubDb(baseDb, original)
      modifies `tempDb, `stepCount, `log
      ensures Valid() && error == fails(old(stepCount), baseDb) && log == old(log) + [Step(baseDb, error)]
      ensures tempDb == if error then baseDb else old(tempDb)
    {
      error := fails(stepCount, baseDb);
      OneMoreStep(log, Step(baseDb, error));
      log := log + [Step(baseDb, error)];
      stepCount := stepCount + 1;
      if error {
        tempDb := baseDb;
      }
      assert log[|log| - 1] == Step(baseDb, error);
      InLonger(old(log), log);
    }

    /** Cut block j and run the step command.  The cut database replaces the current one if the
        error shows. */
    method TryCut(level: CutLevel, j: nat) returns (r: StepResult)
      requires Valid() && n > 0
      requires Elms(tempDb, level) != [] ==> j < Least(n * multiplier, |Elms(tempDb, level)|)
      modifies `tempDb, `stepCount, `log
      ensures Valid()
      ensures r.Stopped? <==> Elms(old(tempDb), level) == []
      ensures r.Stopped? ==> log == old(log)
      ensures r.Stopped? ==> tempDb == old(tempDb)
      ensures r.Stepped? ==>
                && r.error == fails(old(stepCount), Cut(old(tempDb), level, n * multiplier, j))
                && r.cuts == CutsLeft(|Elms(old(tempDb), level)|, n * multiplier, j)
                && log == old(log) + [Step(Cut(old(tempDb), level, n * multiplier, j), r.error)]
                && tempDb == (if r.error then Cut(old(tempDb), level, n * multiplier, j) else old(tempDb))
    {
      var elms := Elms(tempDb, level);
      if elms == [] {
        return Stopped;
      }
      PartsPositive(n, multiplier);
      var cuts := Least(n * multiplier, |elms|);
      BlockFits(|elms|, cuts, j);
      CutShrinks(tempDb, original, level, n * multiplier, j);
      var start, end := Start(|elms|, cuts, j), Start(|elms|, cuts, j + 1);
      var baseDb := WithElms(tempDb, level, Drop(elms, start, end));
      var left := Least(n * multiplier, |Elms(baseDb, level)|);
      var error := Perform(baseDb);
      r := Stepped(error, left);
    }

    /** A step performed has run on the database with block j cut at granularity g, and the error has
        not shown. */
    ghost predicate HarmlessAt(level: CutLevel, db: Db, g: nat, j: nat, steps: seq<Step>)
      requires multiplier > 0 && g > 0
    {
      PartsPositive(g, multiplier);
      && Elms(db, level) != [] && j < Least(g * multiplier, |Elms(db, level)|)
      && Step(Cut(db, level, g * multiplier, j), false) in steps
    }

    /** The same for the first blocks. */
    ghost predicate HarmlessBelow(level: CutLevel, db: Db, g: nat, blocks: nat, steps: seq<Step>)
      requires multiplier > 0 && g > 0
    {
      forall j :: 0 <= j < blocks ==> HarmlessAt(level, db, g, j, steps)
    }

    /** The same for every block that a pass without errors tries. */
    ghost predicate Harmless(level: CutLevel, db: Db, g: nat, steps: seq<Step>)
      requires multiplier > 0 && g > 0
    {
      PartsPositive(g, multiplier);
      && Elms(db, level) != []
      && HarmlessBelow(level, db, g, BlocksTried(|Elms(db, level)|, g * multiplier), steps)
    }

    lemma {:induction false} HarmlessLater(level: CutLevel, db: Db, g: nat, blocks: nat, steps: seq<Step>, more: seq<Step>)
      requires multiplier > 0 && g > 0 && HarmlessBelow(level, db, g, blocks, steps) && steps <= more
      ensures HarmlessBelow(level, db, g, blocks, more)
    {
      forall j | 0 <= j < blocks ensures HarmlessAt(level, db, g, j, more) {
        assert HarmlessAt(level, db, g, j, steps);
        InLonger(steps, more);
      }
    }

    lemma {:induction false} InLonger(steps: seq<Step>, more: seq<Step>)
      requires steps <= more
      ensures forall s :: s in steps ==> s in more
    {
      assert forall i :: 0 <= i < |steps| ==> steps[i] == more[i];
    }

    lemma {:induction false} HarmlessNext(level: CutLevel, db: Db, g: nat, j: nat, steps: seq<Step>, more: seq<Step>)
      requires multiplier > 0 && g > 0 && HarmlessBelow(level, db, g, j, steps) && HarmlessAt(level, db, g, j, more)
      requires steps <= more
      ensures HarmlessBelow(level, db, g, j + 1, more)
    {
      HarmlessLater(level, db, g, j, steps, more);
    }

    /** A pass that has tried the first j blocks: either an error has shown and something is gone, or
        nothing has changed and no block so far has shown the error. */
    ghost predicate PassAt(level: CutLevel, start: Db, now: Db, g: nat, j: nat, cuts: nat, error: bool, steps: seq<Step>)
      requires multiplier > 0 && g >= 2
    {
      PartsPositive(g, multiplier);
      var num, left, parts := |Elms(start, level)|, |Elms(now, level)|, g * multiplier;
      && (j == 0 ==> !error)
      && (j > 0 ==> num > 0 && cuts <= Least(parts, left) && (cuts == 0 ==> left <= 1))
      && (if error then left < num
          else && now == start
               && (j > 0 ==> && j <= Least(parts, num) && j <= BlocksTried(num, parts) && cuts == CutsLeft(num, parts, j - 1))
               && HarmlessBelow(level, start, g, j, steps))
    }

    lemma {:induction false} PassStep(level: CutLevel, start: Db, before: Db, after: Db, g: nat, j: nat, cuts: nat,
                                      error: bool, r: StepResult, steps: seq<Step>)
      requires multiplier > 0 && g >= 2 && r.Stepped? && g * multiplier > 0 && Elms(before, level) != []
      requires PassAt(level, start, before, g, j, cuts, error, steps) && (j == 0 || j < cuts)
      requires j < Least(g * multiplier, |Elms(before, level)|)
      requires r.cuts == CutsLeft(|Elms(before, level)|, g * multiplier, j)
      requires after == if r.error then Cut(before, level, g * multiplier, j) else before
      ensures PassAt(level, start, after, g, j + 1, r.cuts, error || r.error,
                     steps + [Step(Cut(before, level, g * multiplier, j), r.error)])
    {
      var num, parts := |Elms(before, level)|, g * multiplier;
      PartsPositive(g, multiplier);
      MoreToTry(num, parts, j);
      BlockFits(num, Least(parts, num), j);
      if r.cuts == 0 {
        NoCutsLeft(num, parts, j);
      }
      if !error && !r.error {
        HarmlessNext(level, start, g, j, steps, steps + [Step(Cut(before, level, g * multiplier, j), false)]);
        if j > 0 {
          MoreToTry(num, parts, j - 1);
        }
      }
    }

    lemma {:induction false} PassDone(level: CutLevel, start: Db, now: Db, g: nat, j: nat, cuts: nat, error: bool,
                                      steps: seq<Step>)
      requires multiplier > 0 && g >= 2 && PassAt(level, start, now, g, j, cuts, error, steps) && 0 < j && cuts <= j
      ensures error ==> |Elms(now, level)| < |Elms(start, level)|
      ensures !error ==> now == start && Harmless(level, now, g, steps) && j == BlocksTried(|Elms(start, level)|, g * multiplier)
      ensures cuts == 0 ==> |Elms(now, level)| <= 1
    {
      PartsPositive(g, multiplier);
      if !error {
        MoreToTry(|Elms(start, level)|, g * multiplier, j - 1);
      }
    }

    /** One pass over the blocks.  Without an error it performs one step for each block it tries. */
    method Pass(level: CutLevel) returns (stopped: bool, errorInRange: bool, cuts: nat)
      requires Valid() && n >= 2
      modifies `tempDb, `stepCount, `log
      ensures Valid()
      ensures stopped <==> Elms(old(tempDb), level) == []
      ensures stopped ==> !errorInRange
      ensures errorInRange ==> |Elms(tempDb, level)| < |Elms(old(tempDb), level)|
      ensures !errorInRange ==> tempDb == old(tempDb)
      ensures !stopped && !errorInRange ==> Harmless(level, tempDb, n, log)
      ensures !stopped && !errorInRange ==>
                |log| == |old(log)| + BlocksTried(|Elms(old(tempDb), level)|, n * multiplier)
      ensures old(log) <= log
      ensures !stopped && cuts == 0 ==> |Elms(tempDb, level)| <= 1
      ensures Rest(tempDb, level) == Rest(old(tempDb), level) && Within(Elms(tempDb, level), Elms(old(tempDb), level))
    {
      PartsPositive(n, multiplier);
      stopped, errorInRange, cuts := false, false, 0;
      ghost var start := tempDb;
      WithinSelf(Elms(start, level));
      var j: nat := 0;
      while j == 0 || j < cuts
        invariant Valid() && n == old(n) && PassAt(level, start, tempDb, n, j, cuts, errorInRange, log)
        invariant old(log) <= log && |log| == |old(log)| + j
        invariant Rest(tempDb, level) == Rest(start, level) && Within(Elms(tempDb, level), Elms(start, level))
        decreases n * multiplier - j
      {
        ghost var before, steps := tempDb, log;
        var r := TryCut(level, j);
        if r.Stopped? {
          stopped := true;
          return;
        }
        if r.error { CutKeepsRest(before, start, level, n * multiplier, j); }
        PassStep(level, start, before, tempDb, n, j, cuts, errorInRange, r, steps);
        errorInRange := errorInRange || r.error;
        cuts := r.cuts;
        j := j + 1;
      }
      PassDone(level, start, tempDb, n, j, cuts, errorInRange, log);
    }

    /** The passes at granularities 2, 4 and so on up to 2^i have shown no error. */
    ghost predicate HarmlessTo(level: CutLevel, db: Db, i: nat, steps: seq<Step>)
      requires multiplier > 0
    {
      forall k: nat {:trigger PassedAt(level, db, k, steps)} :: 1 <= k <= i ==> PassedAt(level, db, k, steps)
    }

    ghost predicate PassedAt(level: CutLevel, db: Db, k: nat, steps: seq<Step>)
      requires multiplier > 0
    {
      Pow2(k) > 0 && Harmless(level, db, Pow2(k), steps)
    }

    lemma {:induction false} HarmlessToLater(level: CutLevel, db: Db, i: nat, steps: seq<Step>, more: seq<Step>)
      requires multiplier > 0 && HarmlessTo(level, db, i, steps) && steps <= more
      ensures HarmlessTo(level, db, i, more)
    {
      forall k: nat {:trigger PassedAt(level, db, k, more)} | 1 <= k <= i ensures PassedAt(level, db, k, more) {
        assert PassedAt(level, db, k, steps);
        PartsPositive(Pow2(k), multiplier);
        HarmlessLater(level, db, Pow2(k), BlocksTried(|Elms(db, level)|, Pow2(k) * multiplier), steps, more);
      }
    }

    lemma {:induction false} HarmlessToNext(level: CutLevel, db: Db, i: nat, steps: seq<Step>, more: seq<Step>)
      requires multiplier > 0 && i >= 1 && HarmlessTo(level, db, i - 1, steps) && steps <= more
      requires Pow2(i) > 0 && Harmless(level, db, Pow2(i), more)
      ensures HarmlessTo(level, db, i, more)
    {
      HarmlessToLater(level, db, i - 1, steps, more);
      assert PassedAt(level, db, i, more);
    }

    /** If some granularity cuts single elements, then for every element but the last a step has run on
        the database without that one element, and the error has not shown. */
    lemma {:induction false} OneMinimalButLast(level: CutLevel, db: Db, k: nat, j: nat, steps: seq<Step>) 
      requires multiplier > 0 && HarmlessTo(level, db, persistence, steps) && 1 <= k <= persistence
      requires 2 <= |Elms(db, level)| <= Pow2(k) * multiplier && j < |Elms(db, level)| - 1
      ensures Step(WithElms(db, level, Drop(Elms(db, level), j, j + 1)), false) in steps
    {
      var num := |Elms(db, level)|;
      assert PassedAt(level, db, k, steps);
      assert HarmlessAt(level, db, Pow2(k), j, steps);
      SingleBlock(num, j);
      SingleBlock(num, j + 1);
    }

    /** What a finished search at one level leaves: all granularities have been passed without an
        error, or there is at most one element. */
    ghost predicate Reduced(level: CutLevel, db: Db, steps: seq<Step>)
      requires multiplier > 0
    {
      HarmlessTo(level, db, persistence, steps) || |Elms(db, level)| <= 1
    }

    /** Cut finer after a pass without errors, coarser after one with errors, and no more after one with
        errors that was among the coarsest. */
    method NextGranularity(errorInRange: bool, ghost i: nat) returns (more: bool, ghost i': nat)
      requires n == Pow2(i) && i >= 1
      modifies `n
      ensures n == Pow2(i') && i' >= 1
      ensures !errorInRange ==> more && i' == i + 1 && n == 2 * old(n) > old(n)
      ensures errorInRange ==> more == (old(n) >= 8) && n == if more then old(n) / 2 else old(n)
    {
      more, i' := true, i;
      Pow2Grows(1, i);
      if !errorInRange {
        n, i' := n * 2, i + 1;
      } else if n >= 8 {
        n, i' := n / 2, i - 1;
      } else {
        more := false;
      }
    }

    /** The passes from granularity 2 on: coarser after errors, finer without. */
    method Search(level: CutLevel) returns (stopped: bool, err: bool, cuts: nat)
      requires Valid()
      modifies `tempDb, `stepCount, `log, `n
      ensures Valid()
      ensures stopped ==> Elms(tempDb, level) == []
      ensures err ==> |Elms(tempDb, level)| < |Elms(old(tempDb), level)|
      ensures !stopped && !err ==> tempDb == old(tempDb) && HarmlessTo(level, tempDb, persistence, log)
      ensures !stopped && err && cuts == 0 ==> |Elms(tempDb, level)| <= 1
      ensures old(log) <= log && Rest(tempDb, level) == Rest(old(tempDb), level)
      ensures Within(Elms(tempDb, level), Elms(old(tempDb), level))
    {
      stopped, err, cuts := false, false, 0;
      n := 2;
      ghost var i: nat := 1;
      ghost var start := tempDb;
      WithinSelf(Elms(start, level));
      while n <= Pow2(persistence)
        invariant Valid() && n == Pow2(i) && i >= 1
        invariant err ==> |Elms(tempDb, level)| < |Elms(start, level)|
        invariant !err ==> tempDb == start && HarmlessTo(level, start, i - 1, log)
        invariant err && cuts == 0 ==> |Elms(tempDb, level)| <= 1
        invariant old(log) <= log && Rest(tempDb, level) == Rest(start, level)
        invariant Within(Elms(tempDb, level), Elms(start, level))
        decreases |Elms(tempDb, level)|, Pow2(persistence) + 1 - n
      {
        Pow2Grows(1, i);
        var errorInRange;
        ghost var steps, before := log, tempDb;
        stopped, errorInRange, cuts := Pass(level);
        WithinAgain(Elms(tempDb, level), Elms(before, level), Elms(start, level));
        if stopped {
          return;
        }
        if !err && !errorInRange { HarmlessToNext(level, start, i, steps, log); }
        err := err || errorInRange;
        var more;
        more, i := NextGranularity(errorInRange, i);
        if !more {
          break;
        }
      }
      if !err {
        NoneLeft(persistence, i);
      }
    }

    lemma {:induction false} NoneLeft(p: nat, i: nat)
      requires Pow2(p) < Pow2(i)
      ensures p < i
    {
      if i <= p { Pow2Grows(i, p); }
    }

    /** Search at one level until nothing more is gained. */
    method Reduce(level: CutLevel) returns (stopped: bool)
      requires Valid()
      modifies `tempDb, `stepCount, `log, `n
      ensures Valid()
      ensures stopped ==> Elms(tempDb, level) == []
      ensures !stopped ==> Reduced(level, tempDb, log)
      ensures old(log) <= log && Rest(tempDb, level) == Rest(old(tempDb), level)
      ensures Within(Elms(tempDb, level), Elms(old(tempDb), level))
    {
      ghost var start := tempDb;
      WithinSelf(Elms(start, level));
      while true
        invariant Valid() && old(log) <= log && Rest(tempDb, level) == Rest(start, level)
        invariant Within(Elms(tempDb, level), Elms(start, level))
        decreases |Elms(tempDb, level)|
      {
        var err, cuts;
        ghost var before := tempDb;
        stopped, err, cuts := Search(level);
        WithinAgain(Elms(tempDb, level), Elms(before, level), Elms(start, level));
        if stopped || !err || cuts == 0 {
          return;
        }
      }
    }

    /** With the first k steps instances have been cut from the database there was, and nothing else, as
        far as that goes; what has been cut since is nets. */
    ghost predicate InstsDone(start: Db, before: seq<Step>, between: Db, k: nat)
      requires multiplier > 0
      reads `tempDb, `log
    {
      && before <= log && |before| <= k <= |log| && Reduced(Insts, between, log[..k])
      && Within(between.insts, start.insts) && between.nets == start.nets
      && tempDb.insts == between.insts && Within(tempDb.nets, between.nets)
    }

    ghost predicate InstsFirst(start: Db, before: seq<Step>)
      requires multiplier > 0
      reads `tempDb, `log
    {
      exists between, k: nat :: InstsDone(start, before, between, k)
    }

    /** The whole run: if no time limit is given, make sure first that the original shows the error;
        then cut instances, then nets. */
    method Debug(timeoutKnown: bool) returns (outcome: Outcome)
      requires Valid()
      modifies `tempDb, `stepCount, `log, `n
      ensures Valid()
      ensures outcome == NoError <==> !timeoutKnown && !fails(old(stepCount), old(tempDb))
      ensures outcome == NoError ==> tempDb == old(tempDb)
      ensures outcome == AssertionFailed ==>
                || (tempDb.insts == [] && tempDb.nets == old(tempDb).nets)
                || (tempDb.nets == [] && InstsFirst(old(tempDb), old(log)))
      ensures outcome == Done ==> Reduced(Nets, tempDb, log) && InstsFirst(old(tempDb), old(log))
    {
      if !timeoutKnown {
        var error := fails(stepCount, tempDb);
        if !error {
          return NoError;
        }
      }
      var stopped := Reduce(Insts);
      if !stopped {
        ghost var between, steps := tempDb, log;
        stopped := Reduce(Nets);
        assert log[..|steps|] == steps;
        assert InstsDone(old(tempDb), old(log), between, |steps|);
      }
      outcome := if stopped then AssertionFailed else Done;
    }
  }
}
