/** Counting the rows of a table that have a property, given as one flag per row. */
module Tallies {
  function Tally(flags: seq<bool>): nat {
    if flags == [] then 0
    else Tally(flags[..|flags| - 1]) + (if flags[|flags| - 1] then 1 else 0)
  }

  lemma {:induction false} TallySplit(a: seq<bool>, b: seq<bool>)
    ensures Tally(a + b) == Tally(a) + Tally(b)
  {
    if b == [] {
      assert a + b == a;
    } else {
      TallySplit(a, b[..|b| - 1]);
      assert (a + b)[..|a + b| - 1] == a + b[..|b| - 1];
    }
  }

  lemma TallyOne(b: bool)
    ensures Tally([b]) == if b then 1 else 0
  {
    assert [b][..0] == [];
  }

  lemma {:induction false} TallyUpdate(flags: seq<bool>, i: nat, b: bool)
    requires i < |flags|
    ensures Tally(flags[i := b]) == Tally(flags) - (if flags[i] then 1 else 0) + (if b then 1 else 0)
  {
    var last := |flags| - 1;
    if i == last {
      assert flags[i := b][..last] == flags[..last];
    } else {
      assert flags[i := b][..last] == flags[..last][i := b];
      TallyUpdate(flags[..last], i, b);
    }
  }

  lemma {:induction false} TallyWithin(a: seq<bool>, b: seq<bool>)
    requires |a| == |b| && forall i :: 0 <= i < |a| && a[i] ==> b[i]
    ensures Tally(a) <= Tally(b)
    ensures (exists i :: 0 <= i < |a| && b[i] && !a[i]) ==> Tally(a) < Tally(b)
  {
    if a != [] {
      var last := |a| - 1;
      TallyWithin(a[..last], b[..last]);
      if i :| 0 <= i < |a| && b[i] && !a[i] {
        assert i == last || (b[..last][i] && !a[..last][i]);
      }
    }
  }

  lemma {:induction false} TallyZero(flags: seq<bool>)
    ensures Tally(flags) == 0 <==> forall i :: 0 <= i < |flags| ==> !flags[i]
  {
    if flags != [] {
      TallyZero(flags[..|flags| - 1]);
      assert forall i :: 0 <= i < |flags| - 1 ==> flags[..|flags| - 1][i] == flags[i];
    }
  }

  /** At most one row has the property exactly when no two do. */
  lemma {:induction false} TallyAtMostOne(flags: seq<bool>)
    ensures Tally(flags) <= 1 <==> forall i, j :: 0 <= i < j < |flags| ==> !(flags[i] && flags[j])
  {
    if flags != [] {
      var last := |flags| - 1;
      var front := flags[..last];
      TallyAtMostOne(front);
      TallyZero(front);
      assert forall i :: 0 <= i < last ==> front[i] == flags[i];
      if Tally(flags) <= 1 {
        forall i, j | 0 <= i < j < |flags|
          ensures !(flags[i] && flags[j])
        {
          if j < last {
            assert !(front[i] && front[j]);
          }
        }
      }
    }
  }
}
