/**
 The Fisher-Yates loop of the password generator (packages/vault/src/generator.ts): from the top position down, swap
 with a chosen position at or below it.
 */
module Shuffle {

  function Swap<T>(s: seq<T>, i: nat, j: nat): (r: seq<T>)
    requires i < |s| && j < |s|
    ensures |r| == |s|
  {
    s[i := s[j]][j := s[i]]
  }

  /** Choices for a shuffle of the first `size` positions: each below the number of positions still open. */
  ghost predicate Choices(size: nat, choices: seq<nat>) {
    |choices| <= size && forall m | 0 <= m < |choices| :: choices[m] < size - m
  }

  function Shuffled<T>(s: seq<T>, size: nat, choices: seq<nat>): (r: seq<T>)
    requires size <= |s| && Choices(size, choices)
    ensures |r| == |s|
    decreases choices
  {
    if choices == [] then s else Shuffled(Swap(s, size - 1, choices[0]), size - 1, choices[1..])
  }

  lemma {:induction false} ShuffledSnoc<T>(s: seq<T>, size: nat, choices: seq<nat>, last: nat)
    requires size <= |s| && Choices(size, choices) && last < size - |choices|
    ensures Choices(size, choices + [last])
    ensures Shuffled(s, size, choices + [last]) == Swap(Shuffled(s, size, choices), size - |choices| - 1, last)
    decreases choices
  {
    if choices != [] {
      assert (choices + [last])[1..] == choices[1..] + [last];
      ShuffledSnoc(Swap(s, size - 1, choices[0]), size - 1, choices[1..], last);
    }
  }

  // ----- choices correspond one to one to permutations

  lemma {:induction false} SwapPermutes<T>(s: seq<T>, i: nat, j: nat)
    requires i < |s| && j < |s|
    ensures multiset(Swap(s, i, j)) == multiset(s)
  {
    var a := s[i := s[j]];
    assert multiset(a) == multiset(s) - multiset{s[i]} + multiset{s[j]};
    assert multiset(a[j := s[i]]) == multiset(a) - multiset{a[j]} + multiset{s[i]};
  }

  lemma {:induction false} ShufflePermutes<T>(s: seq<T>, size: nat, choices: seq<nat>)
    requires size <= |s| && Choices(size, choices)
    ensures multiset(Shuffled(s, size, choices)) == multiset(s)
    decreases choices
  {
    if choices != [] {
      SwapPermutes(s, size - 1, choices[0]);
      ShufflePermutes(Swap(s, size - 1, choices[0]), size - 1, choices[1..]);
    }
  }

  /** Positions at `size` and above are settled. */
  lemma {:induction false} ShuffleKeepsSettled<T>(s: seq<T>, size: nat, choices: seq<nat>)
    requires size <= |s| && Choices(size, choices)
    ensures Shuffled(s, size, choices)[size..] == s[size..]
    decreases choices
  {
    if choices != [] {
      var t := Swap(s, size - 1, choices[0]);
      ShuffleKeepsSettled(t, size - 1, choices[1..]);
      assert t[size - 1..][1..] == s[size..];
      assert Shuffled(s, size, choices)[size - 1..][1..] == Shuffled(s, size, choices)[size..];
    }
  }

  ghost predicate Distinct<T>(s: seq<T>) {
    forall i, j | 0 <= i < |s| && 0 <= j < |s| && s[i] == s[j] :: i == j
  }

  lemma {:induction false} SwapDistinct<T>(s: seq<T>, i: nat, j: nat)
    requires i < |s| && j < |s| && Distinct(s)
    ensures Distinct(Swap(s, i, j))
  {
    var r := Swap(s, i, j);
    forall a, b | 0 <= a < |r| && 0 <= b < |r| && r[a] == r[b]
      ensures a == b
    {
      var x := if a == i then j else if a == j then i else a;
      var y := if b == i then j else if b == j then i else b;
      assert r[a] == s[x] && r[b] == s[y];
    }
  }

  /** The top position takes the chosen element for good. */
  lemma {:induction false} TopTakesChoice<T>(s: seq<T>, size: nat, choices: seq<nat>)
    requires size <= |s| && Choices(size, choices) && choices != []
    ensures Shuffled(s, size, choices)[size - 1] == s[choices[0]]
  {
    var t := Swap(s, size - 1, choices[0]);
    ShuffleKeepsSettled(t, size - 1, choices[1..]);
    assert Shuffled(s, size, choices)[size - 1..][0] == t[size - 1..][0];
  }

  /** Different choices make different arrangements. */
  lemma {:induction false} ShuffleInjective<T>(s: seq<T>, size: nat, a: seq<nat>, b: seq<nat>)
    requires size <= |s| && Distinct(s) && Choices(size, a) && Choices(size, b) && |a| == |b|
    requires Shuffled(s, size, a) == Shuffled(s, size, b)
    ensures a == b
    decreases a
  {
    if a != [] {
      TopTakesChoice(s, size, a);
      TopTakesChoice(s, size, b);
      assert s[a[0]] == s[b[0]];
      SwapDistinct(s, size - 1, a[0]);
      ShuffleInjective(Swap(s, size - 1, a[0]), size - 1, a[1..], b[1..]);
      assert a == [a[0]] + a[1..] && b == [b[0]] + b[1..];
    }
  }

  /** The position of an element in a sequence that holds it. */
  function Position<T(==)>(s: seq<T>, x: T): (k: nat)
    requires x in s
    ensures k < |s| && s[k] == x
  {
    if s[0] == x then 0 else 1 + Position(s[1..], x)
  }

  lemma {:induction false} StillOpen<T>(s: seq<T>, p: seq<T>, size: nat)
    requires 0 < size <= |s| == |p| && multiset(s) == multiset(p) && s[size..] == p[size..]
    ensures p[size - 1] in s[..size]
  {
    var x := p[size - 1];
    assert s == s[..size] + s[size..];
    assert p == p[..size] + p[size..];
    assert multiset(s)[x] == multiset(s[..size])[x] + multiset(s[size..])[x];
    assert multiset(p)[x] == multiset(p[..size])[x] + multiset(p[size..])[x];
    assert p[..size][size - 1] == x;
    assert x in multiset(p[..size]);
  }

  lemma {:induction false} SwapSettles<T>(s: seq<T>, p: seq<T>, size: nat, j: nat)
    requires j < size <= |s| == |p| && s[j] == p[size - 1] && s[size..] == p[size..]
    ensures Swap(s, size - 1, j)[size - 1..] == p[size - 1..]
  {
    var t := Swap(s, size - 1, j);
    forall k | size - 1 <= k < |s|
      ensures t[k] == p[k]
    {
      if k >= size {
        assert s[size..][k - size] == p[size..][k - size];
      }
    }
  }

  /** Every arrangement of the open positions is reached by some choices. */
  lemma {:induction false} ShuffleOnto<T>(s: seq<T>, p: seq<T>, size: nat)
    requires size <= |s| == |p| && multiset(s) == multiset(p) && s[size..] == p[size..]
    ensures exists choices :: |choices| == size && Choices(size, choices) && Shuffled(s, size, choices) == p
    decreases size
  {
    if size == 0 {
      assert s == s[0..] && p == p[0..];
      assert Choices(size, []) && Shuffled(s, size, []) == p;
    } else {
      var top := size - 1;
      StillOpen(s, p, size);
      var j := Position(s[..size], p[top]);
      var t := Swap(s, top, j);
      SwapSettles(s, p, size, j);
      SwapPermutes(s, top, j);
      ShuffleOnto(t, p, top);
      var rest :| |rest| == top && Choices(top, rest) && Shuffled(t, top, rest) == p;
      ChosenFirst(s, size, j, rest);
    }
  }

  lemma {:induction false} ChosenFirst<T>(s: seq<T>, size: nat, j: nat, rest: seq<nat>)
    requires j < size <= |s| && Choices(size - 1, rest)
    ensures Choices(size, [j] + rest)
    ensures Shuffled(s, size, [j] + rest) == Shuffled(Swap(s, size - 1, j), size - 1, rest)
  {
    assert ([j] + rest)[1..] == rest;
  }
}
