/** Cutting a list into blocks of nearly equal size. */
module DeltaBlocks {

  /** Where block j begins when num elements are cut into `cuts` blocks. */
  function Start(num: nat, cuts: nat, j: nat): nat
    requires cuts > 0
  {
    num * j / cuts
  }

  lemma {:induction false} FloorLess(a: nat, c: nat, q: nat)
    requires c > 0 && a < c * q
    ensures a / c < q
  {
    var r := a / c - q;
    assert c * (a / c) == c * q + c * r;
  }

  lemma {:induction false} FloorAtLeast(a: nat, c: nat, q: nat)
    requires c > 0 && c * q <= a
    ensures q <= a / c
  {
    var r := q - 1 - a / c;
    assert c * q == c * (a / c) + c * r + c;
  }

  lemma {:induction false} FloorStep(a: nat, b: nat, c: nat)
    requires c > 0 && a + c <= b
    ensures a / c < b / c
  {
    FloorAtLeast(b, c, a / c + 1);
  }

  lemma {:induction false} MulMono(a: nat, b: nat, c: nat)
    requires a <= b
    ensures a * c <= b * c && c * a <= c * b && (a < b && c > 0 ==> a * c < b * c)
  {
    assert b * c == a * c + (b - a) * c;
  }

  lemma {:induction false} MulNext(a: nat, j: nat)
    ensures a * (j + 1) == a * j + a
  {
  }

  /** No block is empty, and the blocks lie within the list. */
  lemma {:induction false} BlockFits(num: nat, cuts: nat, j: nat)
    requires 0 < cuts <= num && j < cuts
    ensures Start(num, cuts, j) < Start(num, cuts, j + 1) <= num
  {
    MulNext(num, j);
    FloorStep(num * j, num * (j + 1), cuts);
    MulMono(j + 1, cuts, num);
    MulNext(cuts, num);
    FloorLess(num * (j + 1), cuts, num + 1);
  }

  /** The blocks begin and end with the list, and no two of them differ by more than one element. */
  lemma {:induction false} BlocksEven(num: nat, cuts: nat, j: nat)
    requires 0 < cuts && j < cuts
    ensures Start(num, cuts, 0) == 0 && Start(num, cuts, cuts) == num
    ensures num / cuts <= Start(num, cuts, j + 1) - Start(num, cuts, j) <= num / cuts + 1
  {
    MulNext(num, j);
    Quotient(num * j, num, cuts);
    FloorAtLeast(num * cuts, cuts, num);
    MulNext(cuts, num);
    FloorLess(num * cuts, cuts, num + 1);
  }

  /** Adding b adds b / c, or one more. */
  lemma {:induction false} Quotient(a: nat, b: nat, c: nat)
    requires c > 0
    ensures a / c + b / c <= (a + b) / c <= a / c + b / c + 1
  {
    Distribute(c, a / c, b / c);
    FloorAtLeast(a + b, c, a / c + b / c);
    Distribute(c, a / c + b / c, 2);
    FloorLess(a + b, c, a / c + b / c + 2);
  }

  /** With one block per element, block j is element j. */
  lemma {:induction false} SingleBlock(num: nat, j: nat)
    requires num > 0
    ensures Start(num, num, j) == j
  {
    FloorAtLeast(num * j, num, j);
    FloorLess(num * j, num, j + 1);
  }

  lemma {:induction false} LastTakesMore(num: nat, cuts: nat, k: nat, room: nat)
    requires cuts == k + room && room > 0 && cuts < num
    ensures room <= num && num * k < cuts * (num - room)
  {
    MulMono(cuts, num, room);
    Distribute(num, k, room);
    Distribute(cuts, num - room, room);
  }

  lemma {:induction false} Distribute(a: nat, b: nat, c: nat)
    ensures a * (b + c) == a * b + a * c
  {
  }

  /** With fewer blocks than elements, what is left without a block other than the last is at
      least one element for each block. */
  lemma {:induction false} EnoughLeft(num: nat, cuts: nat, j: nat)
    requires 0 < cuts < num && j + 1 < cuts
    ensures num - (Start(num, cuts, j + 1) - Start(num, cuts, j)) >= cuts
  {
    MulMono(cuts, num, j);
    FloorAtLeast(num * j, cuts, j);
    LastTakesMore(num, cuts, j + 1, cuts - (j + 1));
    FloorLess(num * (j + 1), cuts, num - (cuts - (j + 1)));
  }
}
