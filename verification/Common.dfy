/** What several modules need: optional values, machine words, and lists without repetition. */
module Common {

  datatype Option<+T> = None | Some(value: T)

  /** One more than the largest number of 32 and of 64 bits. */
  const WORD := 0x1_0000_0000
  const WORD64 := 0x1_0000_0000_0000_0000

  function Max(x: int, y: int): int { if x < y then y else x }

  ghost predicate Distinct<T>(s: seq<T>) { forall i, j :: 0 <= i < j < |s| ==> s[i] != s[j] }

  ghost function SetOf<T>(s: seq<T>): set<T> { set i | 0 <= i < |s| :: s[i] }

  lemma SetOfNext<T>(front: seq<T>, last: T)
    ensures SetOf(front + [last]) == SetOf(front) + {last}
  {
    var all := front + [last];
    forall x | x in SetOf(front) + {last} ensures x in SetOf(all) {
      if x == last {
        assert all[|front|] == x;
      } else {
        var k :| 0 <= k < |front| && front[k] == x;
        assert all[k] == x;
      }
    }
  }

  /** A list has as many different members as members exactly when none is repeated. */
  lemma {:induction false} DistinctSize<T>(s: seq<T>)
    ensures |SetOf(s)| <= |s| && (|SetOf(s)| == |s| <==> Distinct(s))
    decreases |s|
  {
    if s != [] {
      var front, last := s[..|s| - 1], s[|s| - 1];
      DistinctSize(front);
      SetOfNext(front, last);
      assert s == front + [last];
      if last in SetOf(front) {
        var k :| 0 <= k < |front| && front[k] == last;
        assert s[k] == s[|s| - 1];
      } else {
        assert forall k :: 0 <= k < |front| ==> front[k] in SetOf(front);
        assert Distinct(s) <==> Distinct(front);
      }
    }
  }

  lemma {:induction false} SubsetSize<T>(a: set<T>, b: set<T>)
    requires a <= b
    ensures |a| <= |b| && (|a| == |b| ==> a == b)
    decreases |a|
  {
    if a != {} {
      var x :| x in a;
      SubsetSize(a - {x}, b - {x});
      assert a == a - {x} + {x} && b == b - {x} + {x};
    } else if b != {} {
      var x :| x in b;
      assert b == b - {x} + {x};
    }
  }
}
