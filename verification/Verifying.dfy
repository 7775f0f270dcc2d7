/** Choosing the archives that a verification looks at (verify.go): the random draws are a parameter. */
module Verifying {
  import opened Basics

  function Clamped(percentage: int): nat {
    if percentage > 100 then 100 else if percentage < 0 then 0 else percentage
  }

  function Ceiling(hundredths: nat): (r: nat)
    ensures hundredths <= 100 * r < hundredths + 100
  {
    (hundredths + 99) / 100
  }

  lemma Scaled(n: nat, p: nat)
    requires p <= 100
    ensures n * p <= 100 * n
    ensures p == 100 ==> n * p == 100 * n
  {
  }

  /** The number of archives to select: the given percentage of `n`, rounded up. */
  function Target(n: nat, percentage: int): (r: nat)
    ensures 0 <= percentage <= 100 ==> n * percentage <= 100 * r < n * percentage + 100
    ensures r <= n
    ensures percentage >= 100 ==> r == n
    ensures percentage <= 0 ==> r == 0
  {
    Scaled(n, Clamped(percentage));
    Ceiling(n * Clamped(percentage))
  }

  /**
   The selection loop of VerifySnapshot (and of VerifyVolume and VerifyRepo) on the draws that rand.Intn will
   give. The set never holds more keys than wanted; while it holds fewer there is a key that was not picked,
   so the loop can still make progress; and draws that hit every index are enough to end it.
   */
  method SelectArchives(archives: seq<string>, percentage: int, draws: seq<nat>)
    returns (selected: set<string>, finished: bool)
    requires Distinct(archives) && forall j :: 0 <= j < |draws| ==> draws[j] < |archives|
    ensures selected <= Elements(archives) && |selected| <= Target(|archives|, percentage)
    ensures finished <==> |selected| == Target(|archives|, percentage)
    ensures !finished ==> exists k :: k in archives && k !in selected
    ensures (forall i: nat :: i < |archives| ==> i in draws) ==> finished
    ensures finished && percentage >= 100 ==> selected == Elements(archives)
  {
    var wanted := Target(|archives|, percentage);
    selected := {};
    var j := 0;
    DistinctSize(archives);
    while j < |draws| && |selected| < wanted
      invariant j <= |draws| && selected <= Elements(archives) && |selected| <= wanted
      invariant forall i :: 0 <= i < j ==> archives[draws[i]] in selected
    {
      var key := archives[draws[j]];
      assert |selected + {key}| <= |selected| + 1;
      selected := selected + {key};
      j := j + 1;
    }
    finished := |selected| >= wanted;
    SubsetSize(selected, Elements(archives));
    if (forall i: nat :: i < |archives| ==> i in draws) && !finished {
      forall k | k in Elements(archives) ensures k in selected {
        var i :| 0 <= i < |archives| && archives[i] == k;
        assert i in draws;
        var d :| 0 <= d < |draws| && draws[d] == i;
        assert archives[draws[d]] in selected;
      }
      SubsetSize(Elements(archives), selected);
    }
  }
}
