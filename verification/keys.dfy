/** Primary-key bookkeeping for the table model: the ascending key order
    in which rows are listed, and the key the table hands to a new row. */
module Keys {

  predicate StrictlyIncreasing(ks: seq<int>) {
    forall i, j :: 0 <= i < j < |ks| ==> ks[i] < ks[j]
  }

  predicate IsLeast(m: int, s: set<int>) {
    m in s && forall k :: k in s ==> m <= k
  }

  lemma PickOne(s: set<int>) returns (x: int)
    requires s != {}
    ensures x in s
  {
    if forall e :: e !in s {
      assert false;
    }
    var e :| e in s;
    x := e;
  }

  lemma {:induction false} LeastExists(s: set<int>)
    requires s != {}
    ensures exists m :: IsLeast(m, s)
    decreases |s|
  {
    var x := PickOne(s);
    if s != {x} {
      var rest := s - {x};
      LeastExists(rest);
      var m :| IsLeast(m, rest);
      assert forall k :: k in s ==> k == x || k in rest;
      if x < m {
        assert IsLeast(x, s);
      } else {
        assert IsLeast(m, s);
      }
    } else {
      assert forall k :: k in s ==> k == x;
      assert IsLeast(x, s);
    }
  }

  function Least(s: set<int>): (m: int)
    requires s != {}
    ensures IsLeast(m, s)
  {
    LeastExists(s);
    var m :| IsLeast(m, s);
    m
  }

  /** The keys of `s` in ascending order. */
  function Ascending(s: set<int>): (ks: seq<int>)
    ensures StrictlyIncreasing(ks)
    ensures forall k :: k in ks <==> k in s
    ensures |ks| == |s|
    decreases |s|
  {
    if s == {} then []
    else
      var m := Least(s);
      [m] + Ascending(s - {m})
  }

  lemma HeadIsLeast(a: seq<int>)
    requires StrictlyIncreasing(a) && a != []
    ensures forall k :: k in a ==> a[0] <= k
  {
    forall k | k in a ensures a[0] <= k {
      var i :| 0 <= i < |a| && a[i] == k;
    }
  }

  lemma TailMembers(a: seq<int>)
    requires StrictlyIncreasing(a) && a != []
    ensures forall k :: k in a[1..] <==> k in a && k != a[0]
  {
    forall k ensures k in a[1..] <==> k in a && k != a[0] {
      if k in a && k != a[0] {
        var i :| 0 <= i < |a| && a[i] == k;
        assert a[1..][i - 1] == k;
      }
    }
  }

  /** A strictly increasing sequence is fixed by the values it holds. */
  lemma {:induction false} IncreasingUnique(a: seq<int>, b: seq<int>)
    requires StrictlyIncreasing(a) && StrictlyIncreasing(b)
    requires forall k :: k in a <==> k in b
    ensures a == b
    decreases |a|
  {
    assert a != [] ==> a[0] in a;
    assert b != [] ==> b[0] in b;
    if a != [] && b != [] {
      HeadIsLeast(a);
      HeadIsLeast(b);
      assert a[0] == b[0];
      TailMembers(a);
      TailMembers(b);
      IncreasingUnique(a[1..], b[1..]);
      assert a == [a[0]] + a[1..];
      assert b == [b[0]] + b[1..];
    }
  }

  /** The key the table assigns to the next inserted row: one past the
      largest key in use, and at least 1, as AUTO_INCREMENT does on a table
      whose newest rows were never deleted. */
  function NextKey(s: set<int>): (k: int)
    ensures k >= 1
    ensures forall j :: j in s ==> j < k
    ensures k !in s
  {
    var ks := Ascending(s);
    if ks == [] then 1
    else
      var top := ks[|ks| - 1];
      assert forall j :: j in s ==> j <= top by {
        forall j | j in s ensures j <= top {
          var i :| 0 <= i < |ks| && ks[i] == j;
        }
      }
      if top < 1 then 1 else top + 1
  }
}
