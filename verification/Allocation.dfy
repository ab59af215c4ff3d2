/** Which scripts each worker slot of the pool serves. */
module Allocation {
  import opened Results
  import opened Sequences

  /** An entry of the dict of scripts and the number of workers each may have, in dict order. */
  datatype Need = Need(script: string, workers: int)

  predicate DistinctScripts(needs: seq<Need>) {
    forall i, j :: 0 <= i < j < |needs| ==> needs[i].script != needs[j].script
  }

  function Min(a: int, b: int): int {
    if a < b then a else b
  }

  /** `max(workers_required.values())` of a non-empty dict. */
  function Highest(needs: seq<Need>): int
    requires needs != []
  {
    var last := needs[|needs| - 1].workers;
    if |needs| == 1 then last else
      var rest := Highest(needs[..|needs| - 1]);
      if last > rest then last else rest
  }

  /** The index of a need with the highest number of workers. */
  lemma {:induction false} HighestIsMaximum(needs: seq<Need>) returns (i: nat)
    requires needs != []
    ensures i < |needs| && needs[i].workers == Highest(needs)
    ensures forall j :: 0 <= j < |needs| ==> needs[j].workers <= Highest(needs)
  {
    var n := |needs| - 1;
    if n == 0 {
      i := 0;
    } else {
      i := HighestIsMaximum(needs[..n]);
      assert forall j :: 0 <= j < n ==> needs[..n][j] == needs[j];
      if needs[n].workers > Highest(needs[..n]) {
        i := n;
      }
    }
  }

  /** The size of the pool; `max` raises when no client module is configured. */
  function PoolSize(workers: int, needs: seq<Need>): Result<int> {
    if needs == [] then Failure("ValueError") else Success(Min(workers, Highest(needs)))
  }

  /** The scripts that still need a worker once i slots have been filled. */
  function Slot(needs: seq<Need>, i: nat): seq<string> {
    if needs == [] then [] else
      Slot(needs[..|needs| - 1], i)
      + (if i < needs[|needs| - 1].workers then [needs[|needs| - 1].script] else [])
  }

  /** The needs left once i slots have been filled. */
  function Left(needs: seq<Need>, i: nat): (r: seq<Need>)
    ensures |r| == |needs|
  {
    seq(|needs|, k requires 0 <= k < |needs| =>
      Need(needs[k].script, if needs[k].workers <= i then Min(needs[k].workers, 0) else needs[k].workers - i))
  }

  lemma {:induction false} SlotOfLeft(needs: seq<Need>, i: nat, k: nat)
    requires k <= |needs|
    ensures Slot(needs[..k], i) == Slot(Left(needs, i)[..k], 0)
  {
    if k > 0 {
      SlotOfLeft(needs, i, k - 1);
      assert needs[..k][..k - 1] == needs[..k - 1] && Left(needs, i)[..k][..k - 1] == Left(needs, i)[..k - 1];
    }
  }

  /** One slot: the scripts with workers left, each of which then has one less. */
  method FillSlot(left: seq<Need>) returns (scripts: seq<string>, after: seq<Need>)
    ensures scripts == Slot(left, 0) && |after| == |left|
    ensures forall k :: 0 <= k < |left| ==>
              after[k] == if left[k].workers > 0 then Need(left[k].script, left[k].workers - 1) else left[k]
  {
    scripts, after := [], left;
    for k := 0 to |left|
      invariant |after| == |left| && scripts == Slot(left[..k], 0)
      invariant forall l :: 0 <= l < k ==>
                  after[l] == if left[l].workers > 0 then Need(left[l].script, left[l].workers - 1) else left[l]
      invariant forall l :: k <= l < |left| ==> after[l] == left[l]
    {
      assert left[..k + 1][..k] == left[..k];
      if after[k].workers > 0 {
        scripts := scripts + [after[k].script];
        after := after[k := Need(after[k].script, after[k].workers - 1)];
      }
    }
    assert left[..|left|] == left;
  }

  /** `_get_worker_init_args`: the script list of each slot. The dict is copied first. */
  method InitScripts(poolSize: int, needs: seq<Need>) returns (slots: seq<seq<string>>)
    ensures |slots| == if poolSize < 0 then 0 else poolSize
    ensures forall i :: 0 <= i < |slots| ==> slots[i] == Slot(needs, i)
  {
    var left := needs;
    slots := [];
    var i := 0;
    assert Left(needs, 0) == needs by {
      forall k | 0 <= k < |needs| ensures Left(needs, 0)[k] == needs[k] {
      }
    }
    while i < poolSize
      invariant 0 <= i == |slots| && (i <= poolSize || i == 0)
      invariant left == Left(needs, i)
      invariant forall j :: 0 <= j < i ==> slots[j] == Slot(needs, j)
    {
      SlotOfLeft(needs, i, |needs|);
      assert needs[..|needs|] == needs && left[..|needs|] == left;
      var scripts, after := FillSlot(left);
      assert after == Left(needs, i + 1);
      left := after;
      slots := slots + [scripts];
      i := i + 1;
    }
  }

  /** Script s is in slot i exactly if it may have more than i workers. */
  lemma {:induction false} InSlotIff(needs: seq<Need>, i: nat, s: string)
    ensures s in Slot(needs, i) <==> exists n :: n in needs && n.script == s && i < n.workers
  {
    if needs != [] {
      var k := |needs| - 1;
      InSlotIff(needs[..k], i, s);
      assert needs == needs[..k] + [needs[k]];
      if i < needs[k].workers && needs[k].script == s {
        assert needs[k] in needs;
      }
    }
  }

  lemma InOwnSlots(needs: seq<Need>, i: nat, n: Need)
    requires DistinctScripts(needs) && n in needs
    ensures n.script in Slot(needs, i) <==> i < n.workers
  {
    InSlotIff(needs, i, n.script);
    forall o | o in needs && o.script == n.script ensures o == n {
      var j :| 0 <= j < |needs| && needs[j] == o;
      var k :| 0 <= k < |needs| && needs[k] == n;
      assert j == k;
    }
  }

  /** How many of the first m slots serve the script. */
  function Served(needs: seq<Need>, m: nat, s: string): nat {
    if m == 0 then 0 else Served(needs, m - 1, s) + (if s in Slot(needs, m - 1) then 1 else 0)
  }

  function Clamp(workers: int, m: nat): nat {
    if workers < 0 then 0 else Min(workers, m)
  }

  /** A script is served by as many slots as it may have workers, as far as there are slots. */
  lemma {:induction false} ServedIs(needs: seq<Need>, m: nat, n: Need)
    requires DistinctScripts(needs) && n in needs
    ensures Served(needs, m, n.script) == Clamp(n.workers, m)
  {
    hide Slot;
    hide DistinctScripts;
    if m > 0 {
      ServedIs(needs, m - 1, n);
      InOwnSlots(needs, m - 1, n);
    }
  }

  /** b has the elements of a that satisfy some condition, in the same order. */
  ghost predicate Subsequence(b: seq<string>, a: seq<string>) {
    if b == [] then true
    else a != [] && (Subsequence(b, a[..|a| - 1])
                     || (b[|b| - 1] == a[|a| - 1] && Subsequence(b[..|b| - 1], a[..|a| - 1])))
  }

  lemma SubsequenceSnoc(b: seq<string>, a: seq<string>, x: string)
    requires Subsequence(b, a)
    ensures Subsequence(b, a + [x]) && Subsequence(b + [x], a + [x])
  {
    assert (a + [x])[..|a|] == a && (b + [x])[..|b|] == b;
  }

  /** Each slot serves a subsequence of what the slot before it serves. */
  lemma {:induction false} SlotsAreNested(needs: seq<Need>, i: nat)
    ensures Subsequence(Slot(needs, i + 1), Slot(needs, i))
  {
    if needs != [] {
      var k := |needs| - 1;
      SlotsAreNested(needs[..k], i);
      SubsequenceSnoc(Slot(needs[..k], i + 1), Slot(needs[..k], i), needs[k].script);
      assert Slot(needs[..k], i) + [] == Slot(needs[..k], i);
      assert Slot(needs[..k], i + 1) + [] == Slot(needs[..k], i + 1);
    }
  }

  function Scripts(needs: seq<Need>): (r: seq<string>)
    ensures |r| == |needs|
  {
    seq(|needs|, k requires 0 <= k < |needs| => needs[k].script)
  }

  /** A slot serves its scripts in the order of the dict. */
  lemma {:induction false} SlotFollowsDict(needs: seq<Need>, i: nat)
    ensures Subsequence(Slot(needs, i), Scripts(needs))
  {
    if needs != [] {
      var k := |needs| - 1;
      SlotFollowsDict(needs[..k], i);
      SubsequenceSnoc(Slot(needs[..k], i), Scripts(needs[..k]), needs[k].script);
      assert Scripts(needs) == Scripts(needs[..k]) + [needs[k].script];
      assert Slot(needs[..k], i) + [] == Slot(needs[..k], i);
    }
  }

  /** And none twice. */
  lemma {:induction false} SlotHasNoRepeats(needs: seq<Need>, i: nat)
    requires DistinctScripts(needs)
    ensures Distinct(Slot(needs, i))
  {
    if needs != [] {
      var k := |needs| - 1;
      SlotHasNoRepeats(needs[..k], i);
      if i < needs[k].workers {
        InSlotIff(needs[..k], i, needs[k].script);
        forall n | n in needs[..k] ensures n.script != needs[k].script {
          var j :| 0 <= j < k && needs[..k][j] == n;
          assert needs[j] == n;
        }
        DistinctConcat(Slot(needs[..k], i), [needs[k].script]);
      } else {
        assert Slot(needs[..k], i) + [] == Slot(needs[..k], i);
      }
    }
  }

  /** The pool has as many workers as the setting allows, but not more than some script may use. */
  lemma PoolSizeIs(workers: int, needs: seq<Need>)
    ensures PoolSize(workers, needs).Success? <==> needs != []
    ensures needs != [] ==>
              var size := PoolSize(workers, needs).value;
              && size <= workers && (exists n :: n in needs && size <= n.workers)
              && (size == workers || ((exists n :: n in needs && n.workers == size)
                                      && forall n :: n in needs ==> n.workers <= size))
  {
    if needs != [] {
      var i := HighestIsMaximum(needs);
      assert needs[i] in needs;
      forall n | n in needs ensures n.workers <= Highest(needs) {
        var j :| 0 <= j < |needs| && needs[j] == n;
      }
    }
  }

  /** No worker of the pool is left without a script. */
  lemma NoEmptySlot(workers: int, needs: seq<Need>, i: nat)
    requires PoolSize(workers, needs).Success? && i < PoolSize(workers, needs).value
    ensures Slot(needs, i) != []
  {
    var k := HighestIsMaximum(needs);
    InSlotIff(needs, i, needs[k].script);
  }
}
