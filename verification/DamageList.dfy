/** How much damage over time is dealt per turn (font/condition.cpp, `ConditionDamage::generateDamageList`),
    with exact quotients in the place of floating-point ones. */
module DamageList {
  import opened Arithmetic

  function Sum(list: seq<int>): int {
    if list == [] then 0 else Sum(list[..|list| - 1]) + list[|list| - 1]
  }

  /** 1 + 2 + ... + n */
  function Triangle(n: nat): nat { if n == 0 then 0 else Triangle(n - 1) + n }

  lemma {:induction false} TriangleIs(n: nat)
    ensures 2 * Triangle(n) == n * (n + 1)
  {
    if n > 0 { TriangleIs(n - 1); }
  }

  function AbsReal(x: real): real { if x < 0.0 then -x else x }

  /** How far a sum is from a positive goal, relative to the goal. */
  function Off(sum: int, goal: int): real
    requires goal > 0
  {
    AbsReal(1.0 - sum as real / goal as real)
  }

  /** Another `i` brings the sum nearer exactly when more than half of it is missing. */
  lemma {:induction false} NearerMeans(sum: int, i: int, goal: int)
    requires goal > 0 && i > 0
    ensures Off(sum + i, goal) < Off(sum, goal) <==> 2 * (goal - sum) > i
  {
    hide Off;
    Scaled(sum, goal);
    Scaled(sum + i, goal);
    ScaledLess(Off(sum + i, goal), Off(sum, goal), goal as real);
    var a := goal - sum;
    assert goal - (sum + i) == a - i;
    assert Abs(a - i) < Abs(a) <==> 2 * a > i;
    assert Abs(a - i) as real < Abs(a) as real <==> Abs(a - i) < Abs(a);
  }

  lemma {:induction false} ScaledLess(a: real, b: real, g: real)
    requires g > 0.0
    ensures a < b <==> a * g < b * g
  {
    assert b * g - a * g == (b - a) * g;
    if a < b {
      assert (b - a) * g > 0.0;
    } else {
      assert (a - b) * g >= 0.0;
    }
  }

  lemma {:induction false} Scaled(sum: int, goal: int)
    requires goal > 0
    ensures Off(sum, goal) * (goal as real) == Abs(goal - sum) as real
  {
    var g, s := goal as real, sum as real;
    assert (1.0 - s / g) * g == g - s;
  }

  /** The values handed out so far: from `start` down to `i`, each at least once. */
  predicate Descends(list: seq<int>, start: int, i: int) {
    && (forall j :: 0 <= j < |list| ==> i <= list[j] <= start)
    && (forall j, k :: 0 <= j < k < |list| ==> list[j] >= list[k])
    && (forall v :: i <= v <= start ==> v in list)
  }

  /** What should be dealt after `n` of `start` values. */
  function Due(n: nat, amount: nat, start: nat): (med: nat)
    requires start > 0
  {
    n * amount / start
  }

  /** It is the whole part of `n * amount / start`. */
  lemma {:induction false} DueIsShare(n: nat, amount: nat, start: nat)
    requires start > 0
    ensures start * Due(n, amount, start) <= n * amount < start * (Due(n, amount, start) + 1)
  {
    var a, q := n * amount, Due(n, amount, start);
    assert a == start * q + a % start;
    assert start * (q + 1) == start * q + start;
  }

  lemma {:induction false} AllDue(amount: nat, start: nat)
    requires start > 0
    ensures Due(start, amount, start) == amount
  {
    DivUnique(start * amount, start, amount, 0);
  }

  /** The part of the goal not yet due is at least what the values still to come add up to, and more. */
  lemma {:induction false} NotYetDue(amount: nat, start: nat, n: nat, goal: nat)
    requires 1 <= n <= start && amount <= goal && start * (start + 1) <= 2 * goal
    ensures 2 * (goal - Due(n, amount, start)) >= (start - n) * (start + 1)
  {
    var med := Due(n, amount, start);
    var k := start - n;
    Floor(n * amount, start);
    assert start * med <= n * amount;
    assert n * amount <= n * goal by { Commutes(n, amount); Commutes(n, goal); ScaleMonotone(amount, goal, n); }
    Spread(goal, start, n);
    assert start * goal - n * goal == k * goal by { Commutes(goal, start); Commutes(goal, n); Commutes(goal, k); }
    Spread(start, goal, med);
    assert start * (goal - med) >= k * goal;
    ScaleMonotone(start * (start + 1), 2 * goal, k);
    Reorder(k, start, goal);
    DoubleIt(start, goal - med);
    Cancel(start, 2 * (goal - med), k * (start + 1));
  }

  lemma {:induction false} Floor(a: nat, d: nat)
    requires d > 0
    ensures d * (a / d) <= a
  {
  }

  lemma {:induction false} Commutes(a: int, b: int)
    ensures a * b == b * a
  {
  }

  lemma {:induction false} Reorder(k: nat, s: nat, g: nat)
    ensures s * (s + 1) * k == s * (k * (s + 1)) && 2 * g * k == 2 * (k * g)
  {
    Product3(s, k, s + 1);
  }

  lemma {:induction false} DoubleIt(s: nat, d: int)
    ensures s * (2 * d) == 2 * (s * d)
  {
  }

  /** What is still to come, at least once each, always fits into the goal. */
  lemma {:induction false} StillFits(amount: nat, start: nat, i: nat, goal: nat, sum: int)
    requires 1 <= i <= start && amount <= goal && Triangle(start) <= goal
    requires 2 * (Due(start + 1 - i, amount, start) - sum) > i
    ensures sum + i + Triangle(i - 1) <= goal
  {
    hide Due;
    TriangleIs(start);
    TriangleIs(i - 1);
    NotYetDue(amount, start, start + 1 - i, goal);
    ScaleMonotone(i + 1, start + 1, i - 1);
    Commutes(i - 1, start + 1);
    Squares(i);
  }

  lemma {:induction false} Squares(i: int)
    ensures (i + 1) * (i - 1) == i * i - 1 && (i - 1) * (i - 1 + 1) == i * i - i
  {
  }

  lemma {:induction false} Cancel(s: nat, a: int, b: int)
    requires s > 0 && s * a >= s * b
    ensures a >= b
  {
    if a < b {
      assert s * b == s * a + s * (b - a);
      ScaleAtLeast(s, b - a);
    }
  }

  lemma {:induction false} Nothing(goal: nat, start: int)
    ensures Descends([], start, start + 1) && Sum([]) == 0
    ensures start > 0 ==> Paced([], goal, start)
  {
  }

  /** Without its last value, a list hands out the same values or all but that one. */
  lemma {:induction false} WithoutLast(list: seq<int>, start: int, i: int)
    requires Descends(list, start, i) && i <= start
    ensures |list| > 0 && list[|list| - 1] == i
    ensures Descends(list[..|list| - 1], start, i) || Descends(list[..|list| - 1], start, i + 1)
  {
    assert i in list;
    var n := |list| - 1;
    var init := list[..n];
    var p :| 0 <= p <= n && list[p] == i;
    assert list[n] == i;
    forall v | i <= v <= start && v != i
      ensures v in init
    {
      assert v in list;
    }
    if i !in init {
      assert forall j :: 0 <= j < n ==> init[j] in init;
    }
  }

  /** A list that hands out every value from `start` down to `i` adds up to at least those. */
  lemma {:induction false} AtLeastEach(list: seq<int>, start: nat, i: nat)
    requires 1 <= i <= start + 1 && Descends(list, start, i)
    ensures Sum(list) >= Triangle(start) - Triangle(i - 1) && Triangle(start) >= Triangle(i - 1)
    decreases |list|, start + 1 - i
  {
    if i <= start {
      WithoutLast(list, start, i);
      var init := list[..|list| - 1];
      if Descends(init, start, i) {
        AtLeastEach(init, start, i);
      } else {
        AtLeastEach(init, start, i + 1);
      }
    } else {
      SumOfNaturals(list);
    }
  }

  lemma {:induction false} SumOfNaturals(list: seq<int>)
    requires forall j :: 0 <= j < |list| ==> list[j] >= 0
    ensures Sum(list) >= 0
  {
    if list != [] { SumOfNaturals(list[..|list| - 1]); }
  }

  /** After value `j` of the list more than half of another such value is missing from what is due. */
  predicate Wants(list: seq<int>, j: nat, goal: nat, start: nat)
    requires j < |list| && start > 0
  {
    var v := list[j];
    2 * (Due(if v <= start then start + 1 - v else 0, goal, start) - Sum(list[..j + 1])) > v
  }

  /** A value is repeated exactly as long as it is wanted. */
  predicate Paced(list: seq<int>, goal: nat, start: nat)
    requires start > 0
  {
    forall j: nat {:trigger Wants(list, j, goal, start)} :: j < |list| - 1 ==>
      (list[j + 1] == list[j] <==> Wants(list, j, goal, start))
  }

  lemma {:induction false} PacedOneMore(list: seq<int>, i: int, goal: nat, start: nat)
    requires start > 0 && Paced(list, goal, start)
    requires list != [] ==> (list[|list| - 1] == i <==> Wants(list, |list| - 1, goal, start))
    ensures Paced(list + [i], goal, start)
  {
    var more := list + [i];
    forall j: nat {:trigger Wants(more, j, goal, start)} | j < |more| - 1
      ensures more[j + 1] == more[j] <==> Wants(more, j, goal, start)
    {
      assert more[..j + 1] == list[..j + 1];
      assert Wants(more, j, goal, start) == Wants(list, j, goal, start);
    }
  }

  /** The list is nonincreasing, hands out every value from `start` down to 1, each as long as more than half
      of it is missing from what is due, and adds up to exactly the amount, or to 1 + ... + start where the
      amount is less than that. */
  method GenerateDamageList(amount: int, start: int) returns (list: seq<int>)
    ensures start <= 0 ==> list == []
    ensures start > 0 ==> Descends(list, start, 1) && Paced(list, Abs(amount), start)
    ensures start > 0 ==> Sum(list) == Max(Abs(amount), Triangle(start))
  {
    hide Due, Off, Descends, Sum, Paced, Wants;
    list := [];
    var goal := Abs(amount);
    Nothing(goal, start);
    ghost var most := if start > 0 then Max(goal, Triangle(start)) else 0;
    var sum, i := 0, start;
    while i > 0
      invariant start <= 0 ==> list == [] && i == start
      invariant start > 0 ==> 0 <= i <= start && Descends(list, start, i + 1)
      invariant start > 0 ==> sum == Sum(list) >= 0 && sum + Triangle(i) <= most
      invariant start > 0 ==> Paced(list, goal, start)
      invariant start > 0 && list != [] ==> list[|list| - 1] == i + 1 && !Wants(list, |list| - 1, goal, start)
      invariant start > 0 && i == 0 ==> sum >= goal
      decreases i
    {
      var n := start + 1 - i;
      var med := Due(n, goal, start);
      var more := true;
      while more
        invariant sum == Sum(list) >= 0
        invariant if more then sum + i + Triangle(i - 1) <= most else sum + Triangle(i - 1) <= most && 2 * (med - sum) <= i
        invariant Descends(list, start, i + 1) || Descends(list, start, i)
        invariant !more ==> Descends(list, start, i) && list != [] && list[|list| - 1] == i
        invariant Paced(list, goal, start)
        invariant list != [] ==> (more && list[|list| - 1] == i <==> Wants(list, |list| - 1, goal, start))
        decreases if more then 1 + Max(0, med - sum) else 0
      {
        sum := sum + i;
        ghost var before := list;
        list := list + [i];
        Append(before, i, start);
        PacedOneMore(before, i, goal, start);
        WantsLast(list, goal, start);
        more := false;
        if med != 0 {
          NearerMeans(sum, i, med);
          more := Off(sum + i, med) < Off(sum, med);
        }
        if more { StillFits(goal, start, i, most, sum); }
      }
      if i == 1 { AllDue(goal, start); }
      i := i - 1;
    }
    if start > 0 { AtLeastEach(list, start, 1); }
  }

  lemma {:induction false} WantsLast(list: seq<int>, goal: nat, start: nat)
    requires start > 0 && list != [] && list[|list| - 1] <= start
    ensures var i := list[|list| - 1];
      Wants(list, |list| - 1, goal, start) <==> 2 * (Due(start + 1 - i, goal, start) - Sum(list)) > i
  {
    assert list[..|list|] == list;
  }

  lemma {:induction false} Append(list: seq<int>, i: int, start: int)
    requires i <= start && (Descends(list, start, i + 1) || Descends(list, start, i))
    ensures Descends(list + [i], start, i) && Sum(list + [i]) == Sum(list) + i
  {
    var more := list + [i];
    assert more[..|list|] == list;
    forall v | i <= v <= start
      ensures v in more
    {
      assert more[|list|] == i;
      if v != i { assert v in list; }
    }
  }

  /** The amount is met exactly when it is no less than what the values alone add up to. */
  lemma {:induction false} MetExactly(amount: int, start: nat)
    ensures Max(Abs(amount), Triangle(start)) == Abs(amount) <==> 2 * Abs(amount) >= start * (start + 1)
  {
    TriangleIs(start);
  }
}
