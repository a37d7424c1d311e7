/** Sequences laid end to end. */
module Sequences {

  lemma {:induction false} Snoc<T>(s: seq<T>, x: T)
    ensures (s + [x])[..|s + [x]| - 1] == s && (s + [x])[|s + [x]| - 1] == x
  {
  }

  lemma {:induction false} InitLast<T>(s: seq<T>)
    requires s != []
    ensures s == s[..|s| - 1] + [s[|s| - 1]]
  {
  }

  lemma {:induction false} Associate<T>(a: seq<T>, b: seq<T>, c: seq<T>)
    ensures a + (b + c) == a + b + c
  {
  }

  function Joined<T>(parts: seq<seq<T>>): seq<T> {
    if parts == [] then [] else Joined(parts[..|parts| - 1]) + parts[|parts| - 1]
  }

  lemma {:induction false} JoinedOne<T>(parts: seq<seq<T>>, i: nat)
    requires i < |parts|
    ensures Joined(parts[..i + 1]) == Joined(parts[..i]) + parts[i]
  {
    assert parts[..i + 1][..i] == parts[..i];
  }

  lemma {:induction false} JoinedConcat<T>(a: seq<seq<T>>, b: seq<seq<T>>)
    ensures Joined(a + b) == Joined(a) + Joined(b)
  {
    if b == [] {
      assert a + b == a;
    } else {
      var n := |b| - 1;
      assert (a + b)[..|a + b| - 1] == a + b[..n];
      JoinedConcat(a, b[..n]);
    }
  }

  /** Where part `i` begins. */
  function Start<T>(parts: seq<seq<T>>, i: nat): nat
    requires i <= |parts|
  {
    if i == 0 then 0 else Start(parts, i - 1) + |parts[i - 1]|
  }

  lemma {:induction false} StartIsLength<T>(parts: seq<seq<T>>, i: nat)
    requires i <= |parts|
    ensures Start(parts, i) == |Joined(parts[..i])|
  {
    if i > 0 {
      StartIsLength(parts, i - 1);
      JoinedOne(parts, i - 1);
    }
  }

  lemma {:induction false} StartAtEnd<T>(parts: seq<seq<T>>)
    ensures Start(parts, |parts|) == |Joined(parts)|
  {
    StartIsLength(parts, |parts|);
    assert parts[..|parts|] == parts;
  }

  /** Each part stands in the whole, after the parts before it. */
  lemma {:induction false} JoinedAt<T>(parts: seq<seq<T>>, i: nat)
    requires i < |parts|
    ensures Start(parts, i) + |parts[i]| == Start(parts, i + 1) <= |Joined(parts)|
    ensures Joined(parts)[Start(parts, i)..Start(parts, i + 1)] == parts[i]
  {
    StartIsLength(parts, i);
    StartIsLength(parts, i + 1);
    JoinedOne(parts, i);
    assert parts == parts[..i + 1] + parts[i + 1..];
    JoinedConcat(parts[..i + 1], parts[i + 1..]);
  }

  lemma {:induction false} JoinedMore<T>(parts: seq<seq<T>>, part: seq<T>)
    ensures Joined(parts + [part]) == Joined(parts) + part
  {
    Snoc(parts, part);
  }

  /** What is in a whole is in one of its parts. */
  lemma {:induction false} JoinedMember<T>(parts: seq<seq<T>>, x: T) returns (k: nat)
    requires x in Joined(parts)
    ensures k < |parts| && x in parts[k]
  {
    var n := |parts| - 1;
    if x in parts[n] {
      k := n;
    } else {
      k := JoinedMember(parts[..n], x);
    }
  }

  lemma {:induction false} MemberJoined<T>(parts: seq<seq<T>>, k: nat, x: T)
    requires k < |parts| && x in parts[k]
    ensures x in Joined(parts)
    decreases |parts|
  {
    var n := |parts| - 1;
    if k < n {
      MemberJoined(parts[..n], k, x);
    }
  }

  /** Wholes that each add one part to the one before. */
  lemma {:induction false} Accumulates<T>(wholes: seq<seq<T>>, parts: seq<seq<T>>, n: nat)
    requires |wholes| == |parts| + 1 && n <= |parts| && wholes[0] == []
    requires forall k | 0 <= k < |parts| :: wholes[k + 1] == wholes[k] + parts[k]
    ensures wholes[n] == Joined(parts[..n])
  {
    if n > 0 {
      var k := n - 1;
      Accumulates(wholes, parts, k);
      JoinedOne(parts, k);
      assert wholes[k + 1] == wholes[k] + parts[k];
    }
  }
}
