/** Least-recently-used replacement, described by the history of accesses alone.

Given the sequence of all keys used so far, a key is resident in a store of `n` places iff
fewer than `n` other keys have been used since its last use.  `among` selects the keys that
compete for the same places.  The lemmas say how this set changes with one more access, which
is what an implementation with time stamps has to match. */
module Recency {

  ghost function LastUse<K>(tr: seq<K>, k: K): (i: int)
    ensures -1 <= i < |tr|
    ensures k in tr <==> i >= 0
    ensures i >= 0 ==> tr[i] == k
  {
    if tr == [] then -1
    else if tr[|tr| - 1] == k then |tr| - 1
    else LastUse(tr[..|tr| - 1], k)
  }

  /** The competing keys used since the last use of `k`. */
  ghost function Newer<K(!new)>(tr: seq<K>, among: K -> bool, k: K): set<K> {
    set x | x in tr && among(x) && LastUse(tr, x) > LastUse(tr, k)
  }

  ghost predicate IsResident<K(!new)>(tr: seq<K>, among: K -> bool, n: nat, k: K) {
    k in tr && among(k) && |Newer(tr, among, k)| < n
  }

  ghost function Residents<K(!new)>(tr: seq<K>, among: K -> bool, n: nat): set<K> {
    set k | k in tr && IsResident(tr, among, n, k)
  }

  lemma LastUseAppend<K>(tr: seq<K>, x: K, k: K)
    ensures LastUse(tr + [x], k) == if k == x then |tr| else LastUse(tr, k)
  {
    assert (tr + [x])[..|tr|] == tr;
  }

  lemma SameLastUse<K>(tr: seq<K>, a: K, b: K)
    requires a in tr && LastUse(tr, a) == LastUse(tr, b)
    ensures a == b
  {
  }

  lemma SubsetSize<K>(a: set<K>, b: set<K>)
    requires a <= b
    ensures |a| <= |b|
    ensures a != b ==> |a| < |b|
  {
    assert b == a + (b - a);
  }

  /** One more use: nothing is newer than `x`, and `x` is newer than everything else. */
  lemma NewerAppend<K(!new)>(tr: seq<K>, among: K -> bool, x: K, k: K)
    ensures Newer(tr + [x], among, k) ==
              if k == x then {} else if among(x) then Newer(tr, among, k) + {x} else Newer(tr, among, k)
  {
    forall y ensures LastUse(tr + [x], y) == if y == x then |tr| else LastUse(tr, y) { LastUseAppend(tr, x, y); }
  }

  /** Using a key outside the competition changes nothing in it. */
  lemma OtherKeepsResidents<K(!new)>(tr: seq<K>, among: K -> bool, n: nat, x: K)
    requires !among(x)
    ensures Residents(tr + [x], among, n) == Residents(tr, among, n)
  {
    forall k | among(k) ensures IsResident(tr + [x], among, n, k) == IsResident(tr, among, n, k) {
      NewerAppend(tr, among, x, k);
    }
  }

  /** What is newer than a newer key is newer. */
  lemma NewerNested<K(!new)>(tr: seq<K>, among: K -> bool, k: K, y: K)
    requires y in Newer(tr, among, k)
    ensures Newer(tr, among, y) + {y} <= Newer(tr, among, k)
    ensures |Newer(tr, among, y)| < |Newer(tr, among, k)|
  {
    SubsetSize(Newer(tr, among, y), Newer(tr, among, k));
    assert y !in Newer(tr, among, y);
  }

  /** Everything newer than a resident key is resident. */
  lemma NewerAreResident<K(!new)>(tr: seq<K>, among: K -> bool, n: nat, k: K)
    requires IsResident(tr, among, n, k)
    ensures Newer(tr, among, k) <= Residents(tr, among, n) - {k}
  {
    forall y | y in Newer(tr, among, k) ensures IsResident(tr, among, n, y) {
      NewerNested(tr, among, k, y);
    }
  }

  /** A key that is not resident comes back, or comes in: the rank of every resident key
      grows by one. */
  lemma MissShifts<K(!new)>(tr: seq<K>, among: K -> bool, n: nat, x: K, k: K)
    requires among(x) && !IsResident(tr, among, n, x) && IsResident(tr, among, n, k)
    ensures |Newer(tr + [x], among, k)| == |Newer(tr, among, k)| + 1
  {
    if x in Newer(tr, among, k) { NewerNested(tr, among, k, x); }
    NewerAppend(tr, among, x, k);
  }

  lemma NotResidentStays<K(!new)>(tr: seq<K>, among: K -> bool, n: nat, x: K, k: K)
    requires k != x && !IsResident(tr, among, n, k)
    ensures !IsResident(tr + [x], among, n, k)
  {
    NewerAppend(tr, among, x, k);
    SubsetSize(Newer(tr, among, k), Newer(tr + [x], among, k));
  }

  lemma UsedIsResident<K(!new)>(tr: seq<K>, among: K -> bool, n: nat, x: K)
    requires among(x) && n >= 1
    ensures IsResident(tr + [x], among, n, x)
  {
    NewerAppend(tr, among, x, x);
  }

  /** A hit replaces nothing. */
  lemma HitKeepsResidents<K(!new)>(tr: seq<K>, among: K -> bool, n: nat, x: K)
    requires IsResident(tr, among, n, x)
    ensures Residents(tr + [x], among, n) == Residents(tr, among, n)
  {
    forall k ensures IsResident(tr + [x], among, n, k) == IsResident(tr, among, n, k) {
      if k == x {
        UsedIsResident(tr, among, n, x);
      } else if !IsResident(tr, among, n, k) {
        NotResidentStays(tr, among, n, x, k);
      } else {
        NewerAppend(tr, among, x, k);
        if x !in Newer(tr, among, k) {
          if LastUse(tr, k) == LastUse(tr, x) { SameLastUse(tr, k, x); }
          NewerNested(tr, among, x, k);
        }
      }
    }
  }

  /** A miss while there is room adds the key. */
  lemma MissFills<K(!new)>(tr: seq<K>, among: K -> bool, n: nat, x: K)
    requires among(x) && !IsResident(tr, among, n, x) && |Residents(tr, among, n)| < n
    ensures Residents(tr + [x], among, n) == Residents(tr, among, n) + {x}
  {
    forall k ensures IsResident(tr + [x], among, n, k) <==> k == x || IsResident(tr, among, n, k) {
      if k == x {
        UsedIsResident(tr, among, n, x);
      } else if !IsResident(tr, among, n, k) {
        NotResidentStays(tr, among, n, x, k);
      } else {
        MissShifts(tr, among, n, x, k);
        NewerAreResident(tr, among, n, k);
        SubsetSize(Newer(tr, among, k), Residents(tr, among, n) - {k});
        assert k in Residents(tr, among, n);
      }
    }
  }

  /** `o` is the least recently used resident key. */
  ghost predicate IsOldest<K(!new)>(tr: seq<K>, among: K -> bool, n: nat, o: K) {
    o in Residents(tr, among, n) && forall k | k in Residents(tr, among, n) :: LastUse(tr, o) <= LastUse(tr, k)
  }

  lemma OldestRank<K(!new)>(tr: seq<K>, among: K -> bool, n: nat, o: K)
    requires IsOldest(tr, among, n, o)
    ensures |Newer(tr, among, o)| == |Residents(tr, among, n)| - 1
  {
    var rs := Residents(tr, among, n);
    forall k | k in rs && k != o ensures k in Newer(tr, among, o) {
      if LastUse(tr, k) == LastUse(tr, o) { SameLastUse(tr, k, o); }
    }
    NewerAreResident(tr, among, n, o);
    assert Newer(tr, among, o) == rs - {o};
  }

  /** A miss takes its place from the least recently used key, and from no other. */
  lemma MissEvictsOldest<K(!new)>(tr: seq<K>, among: K -> bool, n: nat, x: K, o: K, k: K)
    requires among(x) && !IsResident(tr, among, n, x) && |Residents(tr, among, n)| == n
    requires IsOldest(tr, among, n, o) && IsResident(tr, among, n, k)
    ensures IsResident(tr + [x], among, n, k) <==> k != o
  {
    hide Residents;
    MissShifts(tr, among, n, x, k);
    OldestRank(tr, among, n, o);
    if k != o { NewerThanOldest(tr, among, n, o, k); }
  }

  lemma NewerThanOldest<K(!new)>(tr: seq<K>, among: K -> bool, n: nat, o: K, k: K)
    requires IsOldest(tr, among, n, o) && IsResident(tr, among, n, k) && k != o
    ensures |Newer(tr, among, k)| < |Residents(tr, among, n)| - 1
  {
    var rs := Residents(tr, among, n);
    NewerAreResident(tr, among, n, k);
    assert k in rs && o in rs && o !in Newer(tr, among, k);
    SubsetSize(Newer(tr, among, k), rs - {k, o});
    assert |rs - {k, o}| == |rs| - 2 by { assert rs == rs - {k, o} + {k, o}; }
  }

  lemma InResidents<K(!new)>(tr: seq<K>, among: K -> bool, n: nat, k: K)
    ensures k in Residents(tr, among, n) <==> IsResident(tr, among, n, k)
  {
  }

  lemma ResidentAfterMiss<K(!new)>(tr: seq<K>, among: K -> bool, n: nat, x: K, o: K, k: K)
    requires among(x) && !IsResident(tr, among, n, x) && |Residents(tr, among, n)| == n
    requires IsOldest(tr, among, n, o)
    ensures IsResident(tr + [x], among, n, k) <==> k == x || (k != o && IsResident(tr, among, n, k))
  {
    hide IsResident, IsOldest, Residents;
    if k == x {
      InResidents(tr, among, n, x);
      OldestIsThere(tr, among, n, o);
      UsedIsResident(tr, among, n, x);
    } else if !IsResident(tr, among, n, k) {
      NotResidentStays(tr, among, n, x, k);
    } else {
      MissEvictsOldest(tr, among, n, x, o, k);
    }
  }

  lemma OldestIsThere<K(!new)>(tr: seq<K>, among: K -> bool, n: nat, o: K)
    requires IsOldest(tr, among, n, o)
    ensures o in Residents(tr, among, n) && |Residents(tr, among, n)| >= 1
  {
  }

  /** A miss without room replaces exactly the least recently used key. */
  lemma MissEvicts<K(!new)>(tr: seq<K>, among: K -> bool, n: nat, x: K, o: K)
    requires among(x) && !IsResident(tr, among, n, x) && |Residents(tr, among, n)| == n
    requires IsOldest(tr, among, n, o)
    ensures Residents(tr + [x], among, n) == Residents(tr, among, n) - {o} + {x}
  {
    hide IsResident, IsOldest, Residents;
    forall k ensures k in Residents(tr + [x], among, n) <==> k in Residents(tr, among, n) - {o} + {x} {
      ResidentAfterMiss(tr, among, n, x, o, k);
      InResidents(tr, among, n, k);
      InResidents(tr + [x], among, n, k);
    }
  }

  /** More places keep at least as much. */
  lemma MorePlacesKeepMore<K(!new)>(tr: seq<K>, among: K -> bool, n: nat, m: nat, k: K)
    requires n <= m && IsResident(tr, among, n, k)
    ensures IsResident(tr, among, m, k)
  {
  }
}
