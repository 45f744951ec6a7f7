/** The order in which buffer configurations are gone through, without counting: the later nodes
    decide first. */
module ConfigOrder {
  import opened BufferConfigs

  /** In the last node in which they differ, d has the larger buffer. */
  ghost predicate Above(c: Config, d: Config) {
    |c| == |d| && exists i: nat :: AboveAt(c, d, i)
  }

  ghost predicate AboveAt(c: Config, d: Config, i: nat) {
    i < |c| == |d| && c[i] < d[i] && forall j :: i < j < |c| ==> c[j] == d[j]
  }

  lemma {:induction false} AboveTail(c: Config, d: Config)
    requires |c| == |d| > 0
    ensures Above(c, d) <==> Above(c[1..], d[1..]) || (c[1..] == d[1..] && c[0] < d[0])
  {
    var c', d' := c[1..], d[1..];
    if Above(c, d) {
      var i: nat :| AboveAt(c, d, i);
      if i > 0 {
        assert AboveAt(c', d', i - 1);
      } else {
        assert c' == d';
      }
    }
    if Above(c', d') {
      var i: nat :| AboveAt(c', d', i);
      forall j | i + 1 < j < |c| ensures c[j] == d[j] {
        assert c'[j - 1] == d'[j - 1];
      }
      assert AboveAt(c, d, i + 1);
    }
    if c' == d' && c[0] < d[0] {
      forall j | 0 < j < |c| ensures c[j] == d[j] {
        assert c'[j - 1] == d'[j - 1];
      }
      assert AboveAt(c, d, 0);
    }
  }

  lemma {:induction false} Places(n: nat, a: nat, b: nat, p: nat, q: nat)
    requires a < n && b < n
    ensures a + n * p < b + n * q <==> p < q || (p == q && a < b)
  {
    if p < q { DigitBound(n, a, p, q); }
    if q < p { DigitBound(n, b, q, p); }
  }

  /** This is the order of the codes. */
  lemma {:induction false} CodeOrder(n: nat, c: Config, d: Config)
    requires |c| == |d| && Below(c, n) && Below(d, n)
    ensures Code(n, c) < Code(n, d) <==> Above(c, d)
    ensures Code(n, c) == Code(n, d) <==> c == d
  {
    if c != [] {
      CodeOrder(n, c[1..], d[1..]);
      AboveTail(c, d);
      Places(n, c[0], d[0], Code(n, c[1..]), Code(n, d[1..]));
      Places(n, d[0], c[0], Code(n, d[1..]), Code(n, c[1..]));
      assert c == [c[0]] + c[1..] && d == [d[0]] + d[1..];
    }
  }

  /** A configuration that never falls and comes after c. */
  ghost predicate Later(n: nat, c: Config, d: Config) {
    Below(d, n) && Monotone(d) && Above(c, d)
  }

  lemma {:induction false} LaterCode(n: nat, c: Config, d: Config)
    requires n > 0 && Below(c, n) && Later(n, c, d)
    ensures Code(n, c) < Code(n, d) < Pow(n, |c|) && MonotoneCode(n, |c|, Code(n, d))
  {
    CodeOrder(n, c, d);
    CodeBound(n, d);
    DigitsOfCode(n, d);
  }

  /** The first non-decreasing configuration after c, or, if there is none, the smallest buffers
      everywhere. */
  ghost predicate IsNext(n: nat, c: Config, next: Config) {
    && Below(next, n) && Monotone(next)
    && if exists d :: Later(n, c, d)
       then Above(c, next) && forall d :: Later(n, c, d) ==> d == next || Above(next, d)
       else next == seq(|c|, _ => 0)
  }

  /** A step leads to it. */
  lemma {:induction false} StepIsNext(n: nat, c: Config, next: Config)
    requires n > 0 && Below(c, n) && Follows(n, c, next)
    ensures IsNext(n, c, next)
  {
    var k := |c|;
    var w: nat :| FirstMonotoneAfter(n, k, Code(n, c), w) && next == Digits(n, k, w);
    CodeBound(n, c);
    DigitsOfMultiple(n, k, 1);
    if w < Pow(n, k) {
      StepIsFirst(n, c, w);
    } else {
      forall d | Later(n, c, d) ensures false {
        LaterCode(n, c, d);
      }
    }
  }

  lemma {:induction false} StepIsFirst(n: nat, c: Config, w: nat)
    requires n > 0 && Below(c, n) && FirstMonotoneAfter(n, |c|, Code(n, c), w) && w < Pow(n, |c|)
    ensures var next := Digits(n, |c|, w);
            Later(n, c, next) && forall d :: Later(n, c, d) ==> d == next || Above(next, d)
  {
    var next := Digits(n, |c|, w);
    CodeOfDigits(n, |c|, w);
    CodeOrder(n, c, next);
    forall d | Later(n, c, d) ensures d == next || Above(next, d) {
      LaterCode(n, c, d);
      CodeOrder(n, next, d);
    }
  }
}
