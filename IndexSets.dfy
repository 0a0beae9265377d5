/** Swift's `IndexSet` as the list views hand it to `delete(at:)`: a set of
    offsets into the list. Iterating it visits the offsets in ascending
    order, and `Array.remove(atOffsets:)` drops the elements at them. */
module IndexSets {

  /** The offsets of `o` below `n`, in ascending order. */
  function Ascending(o: set<nat>, n: nat): (r: seq<nat>)
    ensures forall i: nat :: i in r <==> i in o && i < n
    ensures forall k :: 0 <= k < |r| ==> r[k] < n
    ensures forall j, k :: 0 <= j < k < |r| ==> r[j] < r[k]
  {
    if n == 0 then [] else Ascending(o, n - 1) + (if n - 1 in o then [n - 1] else [])
  }

  /** The offsets below `n` that are NOT in `o`, in ascending order. */
  function Survivors(o: set<nat>, n: nat): (r: seq<nat>)
    ensures forall i: nat :: i in r <==> i !in o && i < n
    ensures forall k :: 0 <= k < |r| ==> r[k] < n
    ensures forall j, k :: 0 <= j < k < |r| ==> r[j] < r[k]
  {
    if n == 0 then [] else Survivors(o, n - 1) + (if n - 1 in o then [] else [n - 1])
  }

  /** Every offset below `n` is either visited or survives. */
  lemma {:induction false} AscendingSurvivorsSplit(o: set<nat>, n: nat)
    ensures |Ascending(o, n)| + |Survivors(o, n)| == n
  {
    if n > 0 {
      AscendingSurvivorsSplit(o, n - 1);
    }
  }

  /** The offsets of `o` below `n`. */
  ghost function Below(o: set<nat>, n: nat): set<nat> {
    set i | i in o && i < n
  }

  /** Raising the bound by one adds the offset `n - 1` when `o` has it. */
  lemma BelowStep(o: set<nat>, n: nat)
    requires n > 0
    ensures |Below(o, n)| == |Below(o, n - 1)| + (if n - 1 in o then 1 else 0)
  {
    if n - 1 in o {
      assert Below(o, n) == Below(o, n - 1) + {n - 1};
    } else {
      assert Below(o, n) == Below(o, n - 1);
    }
  }

  /** Iteration visits each offset below `n` exactly once. */
  lemma {:induction false} AscendingCount(o: set<nat>, n: nat)
    ensures |Ascending(o, n)| == |Below(o, n)|
  {
    if n == 0 {
      assert Below(o, 0) == {};
    } else {
      AscendingCount(o, n - 1);
      BelowStep(o, n);
    }
  }

  /** When every offset is in range, iteration visits each one exactly once. */
  lemma AscendingLength(o: set<nat>, n: nat)
    requires forall i :: i in o ==> i < n
    ensures |Ascending(o, n)| == |o|
  {
    AscendingCount(o, n);
    assert Below(o, n) == o;
  }

  /** `Array.remove(atOffsets:)`: `s` without the elements at the offsets in `o`. */
  function RemoveOffsets<T>(s: seq<T>, o: set<nat>): (r: seq<T>)
    ensures |r| <= |s|
  {
    if s == [] then []
    else RemoveOffsets(s[..|s| - 1], o) + (if |s| - 1 in o then [] else [s[|s| - 1]])
  }

  /** What survives the removal is exactly the elements at the offsets not in
      `o`, and they keep their relative order. */
  lemma {:induction false} RemoveOffsetsKeepsSurvivors<T>(s: seq<T>, o: set<nat>)
    ensures |RemoveOffsets(s, o)| == |Survivors(o, |s|)|
    ensures forall k :: 0 <= k < |Survivors(o, |s|)| ==>
      RemoveOffsets(s, o)[k] == s[Survivors(o, |s|)[k]]
  {
    if s != [] {
      var n := |s| - 1;
      var init := s[..n];
      RemoveOffsetsKeepsSurvivors(init, o);
      forall k | 0 <= k < |Survivors(o, n)|
        ensures RemoveOffsets(s, o)[k] == s[Survivors(o, |s|)[k]]
      {
        assert Survivors(o, n)[k] in Survivors(o, n);
        assert init[Survivors(o, n)[k]] == s[Survivors(o, n)[k]];
      }
    }
  }

  /** With every offset in range, the list shrinks by exactly the number of
      offsets. */
  lemma RemoveOffsetsLength<T>(s: seq<T>, o: set<nat>)
    requires forall i :: i in o ==> i < |s|
    ensures |RemoveOffsets(s, o)| == |s| - |o|
  {
    RemoveOffsetsKeepsSurvivors(s, o);
    AscendingSurvivorsSplit(o, |s|);
    AscendingLength(o, |s|);
  }
}
