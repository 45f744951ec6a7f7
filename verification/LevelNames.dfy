/** Names of the buffers that level balancing inserts.  The cluster number and the running
    counter are joined without a separator. */
module LevelNames {

  function DigitChar(d: nat): char
    requires d < 10
  {
    "0123456789"[d]
  }

  function Decimal(n: nat): (s: string)
    ensures |s| > 0
    ensures forall i :: 0 <= i < |s| ==> s[i] != '_'
  {
    if n < 10 then [DigitChar(n)] else Decimal(n / 10) + [DigitChar(n % 10)]
  }

  lemma {:induction false} DecimalInjective(a: nat, b: nat)
    requires Decimal(a) == Decimal(b)
    ensures a == b
  {
    var s, t := Decimal(a), Decimal(b);
    assert s[|s| - 1] == DigitChar(a % 10) && t[|t| - 1] == DigitChar(b % 10);
    if a >= 10 && b >= 10 {
      assert Decimal(a / 10) == s[..|s| - 1] == t[..|t| - 1] == Decimal(b / 10);
      DecimalInjective(a / 10, b / 10);
    }
  }

  lemma {:induction false} DecimalLonger(a: nat, b: nat)
    requires a <= b
    ensures |Decimal(a)| <= |Decimal(b)|
  {
    if a >= 10 {
      DecimalLonger(a / 10, b / 10);
    }
  }

  /** What a name is made from. */
  datatype Stamp = Stamp(level: nat, subCluster: nat, cluster: nat, count: nat)

  function Suffix(subCluster: nat, cluster: nat): string {
    Decimal(subCluster) + "_" + Decimal(cluster)
  }

  function BufferName(level: nat, suffix: string, count: nat): string {
    "clkbuf_level_" + Decimal(level) + "_" + suffix + Decimal(count)
  }

  function StampName(s: Stamp): string {
    BufferName(s.level, Suffix(s.subCluster, s.cluster), s.count)
  }

  lemma {:induction false} SplitAtUnderscore(a: string, r: string, a': string, r': string)
    requires (forall i :: 0 <= i < |a| ==> a[i] != '_') && forall i :: 0 <= i < |a'| ==> a'[i] != '_'
    requires a + "_" + r == a' + "_" + r'
    ensures a == a' && r == r'
  {
    var s, s' := a + "_" + r, a' + "_" + r';
    assert s[|a|] == '_' && s'[|a'|] == '_';
    assert (forall i :: 0 <= i < |a| ==> s[i] != '_') && forall i :: 0 <= i < |a'| ==> s'[i] != '_';
    assert a == s[..|a|] && a' == s'[..|a'|];
    assert r == s[|a| + 1..] && r' == s'[|a'| + 1..];
  }

  const HEAD := "clkbuf_level_"

  function Numbers(x: Stamp): string {
    Decimal(x.cluster) + Decimal(x.count)
  }

  function AfterLevel(x: Stamp): string {
    Decimal(x.subCluster) + "_" + Numbers(x)
  }

  lemma {:induction false} NameParts(x: Stamp)
    ensures StampName(x) == HEAD + (Decimal(x.level) + "_" + AfterLevel(x))
  {
    assert Suffix(x.subCluster, x.cluster) + Decimal(x.count) == AfterLevel(x);
  }

  lemma {:induction false} StripHead(h: string, a: string, b: string)
    requires h + a == h + b
    ensures a == b
  {
    assert (h + a)[|h|..] == a && (h + b)[|h|..] == b;
  }

  lemma {:induction false} SplitName(x: Stamp, y: Stamp)
    requires StampName(x) == StampName(y)
    ensures Numbers(x) == Numbers(y)
  {
    NameParts(x);
    NameParts(y);
    StripHead(HEAD, Decimal(x.level) + "_" + AfterLevel(x), Decimal(y.level) + "_" + AfterLevel(y));
    SplitAtUnderscore(Decimal(x.level), AfterLevel(x), Decimal(y.level), AfterLevel(y));
    SplitAtUnderscore(Decimal(x.subCluster), Numbers(x), Decimal(y.subCluster), Numbers(y));
  }

  /** Two stamps with different counters give different names as long as the cluster number has
      not gone down in between. */
  lemma {:induction false} StampNamesDiffer(x: Stamp, y: Stamp)
    requires x.cluster <= y.cluster && x.count < y.count
    ensures StampName(x) != StampName(y)
  {
    if StampName(x) == StampName(y) {
      SplitName(x, y);
      DecimalLonger(x.cluster, y.cluster);
      DecimalLonger(x.count, y.count);
      var cx, cy := Numbers(x), Numbers(y);
      assert cx[|Decimal(x.cluster)|..] == Decimal(x.count) && cy[|Decimal(y.cluster)|..] == Decimal(y.count);
      DecimalInjective(x.count, y.count);
    }
  }

  /** The join itself is ambiguous: the order of the stamps is what keeps names apart. */
  lemma {:induction false} JoinIsAmbiguous()
    ensures StampName(Stamp(0, 1, 1, 12)) == StampName(Stamp(0, 1, 11, 2))
  {
    assert Decimal(12) == Decimal(1) + Decimal(2) && Decimal(11) == Decimal(1) + Decimal(1);
  }

  /** Counters go up, cluster numbers never go down. */
  predicate InOrder(stamps: seq<Stamp>) {
    forall i, j :: 0 <= i < j < |stamps| ==>
      stamps[i].count < stamps[j].count && stamps[i].cluster <= stamps[j].cluster
  }

  lemma {:induction false} StampedNamesDistinct(stamps: seq<Stamp>)
    requires InOrder(stamps)
    ensures forall i, j :: 0 <= i < j < |stamps| ==> StampName(stamps[i]) != StampName(stamps[j])
  {
    forall i, j | 0 <= i < j < |stamps|
      ensures StampName(stamps[i]) != StampName(stamps[j])
    {
      StampNamesDiffer(stamps[i], stamps[j]);
    }
  }
}
