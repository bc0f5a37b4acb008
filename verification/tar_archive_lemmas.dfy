/** When `extractfile` runs out of links to follow: the chain of links from a
    member, and the fact that a RecursionError at fuel `|ms|` is exactly a
    chain that comes back to a member it already visited, a cycle that must
    pass through a symbolic link because hard links only look backwards. */
module TarArchiveLemmas {
  import opened Results
  import opened Exceptions
  import opened TarArchive

  /** `k` steps of a partial step function from `i`; None once a step fails. */
  function Iterate(next: nat -> Option<nat>, i: nat, k: nat): Option<nat>
    decreases k
  {
    if k == 0 then Some(i)
    else
      match Iterate(next, i, k - 1)
      case None => None
      case Some(j) => next(j)
  }

  /** The step of the link chain: the member a link names. */
  function LinkNext(ms: seq<Member>): nat -> Option<nat> {
    (j: nat) => if j < |ms| then LinkStep(ms, j) else None
  }

  /** A step function that stays below `n` keeps an iteration below `n`. */
  lemma {:induction false} IterateInRange(next: nat -> Option<nat>, i: nat, k: nat, n: nat)
    requires i < n
    requires forall j :: next(j).Some? ==> next(j).value < n
    ensures Iterate(next, i, k).Some? ==> Iterate(next, i, k).value < n
    decreases k
  {
    if k > 0 {
      IterateInRange(next, i, k - 1, n);
    }
  }

  /** The member reached from `i` after following `k` links; None once a
      member on the way is not a link or its target is missing. */
  function Follow(ms: seq<Member>, i: nat, k: nat): (r: Option<nat>)
    requires i < |ms|
    ensures r.Some? ==> r.value < |ms|
  {
    IterateInRange(LinkNext(ms), i, k, |ms|);
    Iterate(LinkNext(ms), i, k)
  }

  /** Following `k` links from `i` visits a link at every step `0..k`. */
  ghost predicate LinkChain(ms: seq<Member>, i: nat, k: nat)
    requires i < |ms|
  {
    forall n :: 0 <= n <= k ==> Follow(ms, i, n).Some? && ms[Follow(ms, i, n).value].IsLink()
  }

  /** The chain of links from `i` comes back at step `k2` to the member it
      visited at step `k1`. */
  ghost predicate Revisits(ms: seq<Member>, i: nat, k1: nat, k2: nat)
    requires i < |ms|
  {
    k1 < k2 && LinkChain(ms, i, k2) && Follow(ms, i, k1) == Follow(ms, i, k2)
  }

  /** One more step of the chain follows the link reached so far. */
  lemma FollowNext(ms: seq<Member>, i: nat, k: nat)
    requires i < |ms|
    ensures Follow(ms, i, k).None? ==> Follow(ms, i, k + 1).None?
    ensures Follow(ms, i, k).Some? ==> Follow(ms, i, k + 1) == LinkStep(ms, Follow(ms, i, k).value)
  {
  }

  /** Taking one step and then `k` more is taking `k + 1`. */
  lemma {:induction false} IterateShift(next: nat -> Option<nat>, i: nat, j: nat, k: nat)
    requires next(i) == Some(j)
    ensures Iterate(next, i, k + 1) == Iterate(next, j, k)
    decreases k
  {
    if k > 0 {
      IterateShift(next, i, j, k - 1);
    }
  }

  /** Once an iteration returns to a point, it repeats with that period. */
  lemma {:induction false} IteratePeriodic(next: nat -> Option<nat>, i: nat, k1: nat, p: nat, k: nat)
    requires Iterate(next, i, k1) == Iterate(next, i, k1 + p) && k1 <= k
    ensures Iterate(next, i, k + p) == Iterate(next, i, k)
    decreases k - k1
  {
    if k > k1 {
      IteratePeriodic(next, i, k1, p, k - 1);
      assert k - 1 + p + 1 == k + p;
    }
  }

  /** An iteration that returns to a point never fails. */
  lemma {:induction false} IterateForever(next: nat -> Option<nat>, i: nat, k1: nat, k2: nat, k: nat)
    requires k1 < k2 && Iterate(next, i, k1) == Iterate(next, i, k2)
    requires forall n :: 0 <= n <= k2 ==> Iterate(next, i, n).Some?
    ensures Iterate(next, i, k).Some?
    decreases k
  {
    if k > k2 {
      IterateForever(next, i, k1, k2, k - (k2 - k1));
      IteratePeriodic(next, i, k1, k2 - k1, k - (k2 - k1));
    }
  }

  /** `extractfile` raises RecursionError at a given fuel exactly when the
      links it follows form a chain one step longer than the fuel. */
  lemma {:induction false} RecursionErrorIffChain(ms: seq<Member>, i: nat, fuel: nat)
    requires i < |ms|
    ensures ExtractFile(ms, i, fuel) == Err(RecursionError) <==> LinkChain(ms, i, fuel)
    decreases fuel
  {
    assert Follow(ms, i, 0) == Some(i);
    FollowNext(ms, i, 0);
    if fuel > 0 && ms[i].IsLink() && LinkStep(ms, i).Some? {
      var j := LinkStep(ms, i).value;
      RecursionErrorIffChain(ms, j, fuel - 1);
      forall n | 0 <= n < fuel
        ensures Follow(ms, i, n + 1) == Follow(ms, j, n)
      {
        IterateShift(LinkNext(ms), i, j, n);
      }
      if LinkChain(ms, j, fuel - 1) {
        forall n | 0 <= n <= fuel
          ensures Follow(ms, i, n).Some? && ms[Follow(ms, i, n).value].IsLink()
        {
          if n > 0 {
            assert Follow(ms, i, n) == Follow(ms, j, n - 1);
          }
        }
      }
      if LinkChain(ms, i, fuel) {
        forall n | 0 <= n <= fuel - 1
          ensures Follow(ms, j, n).Some? && ms[Follow(ms, j, n).value].IsLink()
        {
          assert Follow(ms, i, n + 1) == Follow(ms, j, n);
        }
      }
    } else if fuel > 0 {
      assert !LinkChain(ms, i, fuel);
    }
  }

  /** Along a stretch of hard links the member index strictly decreases. */
  lemma {:induction false} HardLinksGoBack(ms: seq<Member>, i: nat, k1: nat, k2: nat)
    requires i < |ms| && k1 < k2
    requires forall n :: 0 <= n <= k2 ==> Follow(ms, i, n).Some?
    requires forall n :: k1 <= n < k2 ==> ms[Follow(ms, i, n).value].HardLink?
    ensures Follow(ms, i, k2).value < Follow(ms, i, k1).value
    decreases k2
  {
    FollowNext(ms, i, k2 - 1);
    if k1 < k2 - 1 {
      HardLinksGoBack(ms, i, k1, k2 - 1);
    }
  }

  /** Among `n + 1` numbers below `n` two are equal. */
  lemma {:induction false} Pigeonhole(s: seq<nat>, n: nat)
    requires |s| == n + 1
    requires forall k :: 0 <= k < |s| ==> s[k] < n
    ensures exists a, b :: 0 <= a < b < |s| && s[a] == s[b]
    decreases n
  {
    var v := s[n];
    if exists a :: 0 <= a < n && s[a] == v {
      var a :| 0 <= a < n && s[a] == v;
      assert s[a] == s[n];
    } else {
      // Rename the value n - 1 to v; the first n numbers then stay below n - 1.
      var t := seq(n, k requires 0 <= k < n => if s[k] == n - 1 then v else s[k]);
      assert n > 0;
      Pigeonhole(t, n - 1);
      var a, b :| 0 <= a < b < |t| && t[a] == t[b];
      assert s[a] == s[b];
    }
  }

  /** A cycle keeps the chain of links going forever. */
  lemma RevisitsForever(ms: seq<Member>, i: nat, k1: nat, k2: nat, k: nat)
    requires i < |ms| && Revisits(ms, i, k1, k2)
    ensures Follow(ms, i, k).Some? && ms[Follow(ms, i, k).value].IsLink()
  {
    assert forall n :: 0 <= n <= k2 ==> Iterate(LinkNext(ms), i, n) == Follow(ms, i, n);
    IterateForever(LinkNext(ms), i, k1, k2, k + 1);
    FollowNext(ms, i, k);
  }

  /** On a cycle of links `extractfile` raises RecursionError whatever the
      fuel, and every cycle passes through a symbolic link. */
  lemma CycleRaises(ms: seq<Member>, i: nat, k1: nat, k2: nat, fuel: nat)
    requires i < |ms| && Revisits(ms, i, k1, k2)
    ensures ExtractFile(ms, i, fuel) == Err(RecursionError)
    ensures exists n :: k1 <= n < k2 && ms[Follow(ms, i, n).value].SymLink?
  {
    forall n | 0 <= n <= fuel
      ensures Follow(ms, i, n).Some? && ms[Follow(ms, i, n).value].IsLink()
    {
      RevisitsForever(ms, i, k1, k2, n);
    }
    RecursionErrorIffChain(ms, i, fuel);
    if forall n :: k1 <= n < k2 ==> !ms[Follow(ms, i, n).value].SymLink? {
      HardLinksGoBack(ms, i, k1, k2);
      assert false;
    }
  }

  /** With the fuel the zone loader gives it, `extractfile` raises
      RecursionError exactly when the chain of links from the member comes
      back to a member it visited. */
  lemma RecursionErrorIffCycle(ms: seq<Member>, i: nat)
    requires i < |ms|
    ensures ExtractFile(ms, i, |ms|) == Err(RecursionError) <==> exists k1, k2 :: Revisits(ms, i, k1, k2)
  {
    RecursionErrorIffChain(ms, i, |ms|);
    if ExtractFile(ms, i, |ms|) == Err(RecursionError) {
      var s := seq(|ms| + 1, k requires 0 <= k <= |ms| => Follow(ms, i, k).value);
      Pigeonhole(s, |ms|);
      var a, b :| 0 <= a < b < |s| && s[a] == s[b];
      assert Revisits(ms, i, a, b);
    }
    if exists k1, k2 :: Revisits(ms, i, k1, k2) {
      var k1, k2 :| Revisits(ms, i, k1, k2);
      CycleRaises(ms, i, k1, k2, |ms|);
    }
  }
}
