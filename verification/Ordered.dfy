/** Fixed-width integers. */
module Integers {
  const TWO_31 := 0x8000_0000
  const TWO_32 := 0x1_0000_0000

  type int32 = x: int | -TWO_31 <= x < TWO_31
  type int64 = x: int | -0x8000_0000_0000_0000 <= x < 0x8000_0000_0000_0000
  type uint32 = x: int | 0 <= x < TWO_32
  type uint16 = x: int | 0 <= x < 0x1_0000

  /** The value an integer has after it is cut to 32 bits with a sign. */
  function Int32(x: int): int32 {
    if x % TWO_32 < TWO_31 then x % TWO_32 else x % TWO_32 - TWO_32
  }

  /** It is the one 32-bit value that differs by a multiple of 2 to the 32. */
  lemma Int32Exactly(x: int, r: int32)
    ensures Int32(x) == r <==> (x - r) % 0x1_0000_0000 == 0
  {
  }

  lemma SameInt32(x: int, y: int)
    ensures Int32(x) == Int32(y) <==> (x - y) % TWO_32 == 0
  {
    var r := Int32(y);
    Int32Exactly(x, r);
    Int32Exactly(y, r);
    hide Int32;
    var k := (y - r) / TWO_32;
    assert x - r == x - y + TWO_32 * k;
    WholeTurns(x - y, k);
  }

  lemma WholeTurns(a: int, k: int)
    ensures (a + TWO_32 * k) % TWO_32 == a % TWO_32
  {
  }
}

/** Sets of integers visited in order. */
module Ordered {
  import opened Integers

  predicate Increasing(s: seq<int32>) {
    forall i, j :: 0 <= i < j < |s| ==> s[i] < s[j]
  }

  ghost predicate IsLeast(s: set<int32>, m: int32) {
    m in s && forall x :: x in s ==> m <= x
  }

  lemma {:induction false} LeastExists(s: set<int32>)
    requires s != {}
    ensures exists m :: IsLeast(s, m)
    decreases |s|
  {
    var x :| x in s;
    var rest := s - {x};
    assert s == rest + {x};
    if rest == {} {
      assert IsLeast(s, x);
    } else {
      LeastExists(rest);
      var m :| IsLeast(rest, m);
      assert IsLeast(s, if x < m then x else m);
    }
  }

  ghost function Least(s: set<int32>): (m: int32)
    requires s != {}
    ensures IsLeast(s, m)
  {
    LeastExists(s);
    var m :| IsLeast(s, m);
    m
  }

  /** The elements in increasing order. */
  ghost function Sorted(s: set<int32>): seq<int32>
    decreases |s|
  {
    if s == {} then [] else [Least(s)] + Sorted(s - {Least(s)})
  }

  lemma {:induction false} SortedIs(s: set<int32>)
    ensures |Sorted(s)| == |s| && Increasing(Sorted(s))
    ensures forall x :: x in Sorted(s) <==> x in s
    decreases |s|
  {
    if s != {} {
      var m := Least(s);
      var rest := Sorted(s - {m});
      SortedIs(s - {m});
      forall i | 0 <= i < |rest| ensures m < rest[i] {
        assert rest[i] in s - {m};
      }
    }
  }

  lemma FirstIsLeast(s: set<int32>, v: seq<int32>)
    requires v != [] && Increasing(v) && forall x :: x in v <==> x in s
    ensures v[0] in s && Least(s) == v[0]
    ensures Increasing(v[1..]) && forall x :: x in v[1..] <==> x in s - {v[0]}
  {
    assert v[0] in v;
    assert Least(s) in v;
    forall x ensures x in v[1..] <==> x in s - {v[0]} {
      if x in v[1..] {
        var i :| 1 <= i < |v| && v[i] == x;
        assert x in v && v[0] < x;
      } else if x in s {
        assert x in v;
      }
    }
  }

  /** An increasing sequence with the right elements is the sorted one. */
  lemma {:induction false} SortedUnique(s: set<int32>, v: seq<int32>)
    requires Increasing(v) && forall x :: x in v <==> x in s
    ensures v == Sorted(s)
    decreases |s|
  {
    hide IsLeast, Increasing;
    if v == [] {
      assert forall x :: x in s ==> x in v;
      assert s == {};
    } else {
      FirstIsLeast(s, v);
      SortedUnique(s - {v[0]}, v[1..]);
    }
  }

  ghost function Below(s: set<int32>, v: int): set<int32> { set x | x in s && x < v }

  lemma BelowWithout(s: set<int32>, m: int32, v: int)
    requires m in s && m < v
    ensures |Below(s, v)| == |Below(s - {m}, v)| + 1
  {
    assert Below(s, v) == Below(s - {m}, v) + {m};
  }

  lemma SortedStep(s: set<int32>, j: nat)
    requires 0 < j < |s|
    ensures j < |Sorted(s)| && j - 1 < |Sorted(s - {Least(s)})|
    ensures Sorted(s)[j] == Sorted(s - {Least(s)})[j - 1] && Least(s) < Sorted(s)[j]
  {
    hide IsLeast, Increasing;
    SortedIs(s);
    SortedIs(s - {Least(s)});
    assert Sorted(s - {Least(s)})[j - 1] in Sorted(s - {Least(s)});
    LeastBelow(s, Sorted(s)[j]);
  }

  lemma LeastBelow(s: set<int32>, x: int32)
    requires s != {} && x in s - {Least(s)}
    ensures Least(s) < x
  {
  }

  /** Element `j` of the sorted sequence has exactly `j` smaller elements. */
  lemma {:induction false} NthSmallest(s: set<int32>, j: nat)
    requires j < |s|
    ensures j < |Sorted(s)| && |Below(s, Sorted(s)[j])| == j
    decreases |s|
  {
    if j == 0 {
      NothingBelowLeast(s);
    } else {
      hide Sorted, Below, IsLeast;
      LeastIn(s);
      SortedStep(s, j);
      NthSmallest(s - {Least(s)}, j - 1);
      BelowWithout(s, Least(s), Sorted(s)[j]);
    }
  }

  lemma LeastIn(s: set<int32>)
    requires s != {}
    ensures Least(s) in s && |s - {Least(s)}| == |s| - 1
  {
  }

  lemma NothingBelowLeast(s: set<int32>)
    requires s != {}
    ensures Sorted(s) != [] && Sorted(s)[0] == Least(s) && |Below(s, Least(s))| == 0
  {
    assert Below(s, Least(s)) == {};
  }
}
