/** Loading the target and choosing candidates for it (app/routers/ai_match.py):
    the primary-key lookup, the age corridor and the candidate query with its
    `LIMIT`. The `profiles` table is a sequence of rows. */
module Prefilter {
  import opened Wrappers
  import opened Profiles

  /** An inclusive age range. */
  datatype Corridor = Corridor(low: int, high: int)

  predicate InCorridor(c: Corridor, age: int) {
    c.low <= age <= c.high
  }

  /** The age-gap policy: at most 3 years apart for a child of 12 or under,
      at most 4 years apart from 13 on. */
  predicate WithinGap(targetAge: int, age: int) {
    var gap := if age < targetAge then targetAge - age else age - targetAge;
    (targetAge <= 12 && gap <= 3) || (targetAge >= 13 && gap <= 4)
  }

  /** The inclusive age range around the target's age: three years either side
      up to age 12, four years either side from 13 on. */
  function AgeCorridor(age: int): (r: Corridor)
    ensures r.low <= age <= r.high
    ensures r.high - r.low == (if age <= 12 then 6 else 8)
    ensures forall x :: InCorridor(r, x) <==> WithinGap(age, x)
  {
    var low := if age <= 12 then age - 3 else age - 4;
    var high := if age <= 12 then age + 3 else age + 4;
    Corridor(low, high)
  }

  /** The filters of the candidate query: not the target, age `between` the
      corridor's ends, and the target's exact city when `sameCity` is set. */
  predicate Qualifies(p: Profile, target: Profile, targetId: int, sameCity: bool) {
    p.id != targetId
    && InCorridor(AgeCorridor(target.childAge), p.childAge)
    && (sameCity ==> p.city == target.city)
  }

  /** The rows of the filtered query before `LIMIT`, in table order. */
  function Qualifying(store: seq<Profile>, target: Profile, targetId: int, sameCity: bool): (r: seq<Profile>)
    ensures forall k :: 0 <= k < |r| ==> r[k] in store && Qualifies(r[k], target, targetId, sameCity)
    ensures forall p :: p in store && Qualifies(p, target, targetId, sameCity) ==> p in r
  {
    if store == [] then []
    else
      var rest := Qualifying(store[1..], target, targetId, sameCity);
      assert store == [store[0]] + store[1..];
      (if Qualifies(store[0], target, targetId, sameCity) then [store[0]] else []) + rest
  }

  /** The query returns every qualifying row exactly as often as the table
      holds it, and no other row. */
  lemma {:induction false} QualifyingSubMultiset(store: seq<Profile>, target: Profile, targetId: int, sameCity: bool)
    ensures multiset(Qualifying(store, target, targetId, sameCity)) <= multiset(store)
    ensures forall p :: multiset(Qualifying(store, target, targetId, sameCity))[p] ==
                        (if Qualifies(p, target, targetId, sameCity) then multiset(store)[p] else 0)
  {
    if store != [] {
      QualifyingSubMultiset(store[1..], target, targetId, sameCity);
      assert store == [store[0]] + store[1..];
    }
  }

  /** The filtered query capped at `maxCandidates` rows. The query has no
      ordering, so which qualifying rows survive the cap is the store's choice;
      the model takes a prefix of `Qualifying`, and the contract promises only
      how many rows come back, that each is a qualifying row of the table, and
      that no row comes back more often than the table holds it. */
  function Candidates(store: seq<Profile>, target: Profile, targetId: int, sameCity: bool,
                      maxCandidates: int): (r: seq<Profile>)
    requires 1 <= maxCandidates <= 200
    ensures |r| == Min(maxCandidates, |Qualifying(store, target, targetId, sameCity)|)
    ensures forall k :: 0 <= k < |r| ==> r[k] in store && Qualifies(r[k], target, targetId, sameCity)
    ensures multiset(r) <= multiset(store)
    ensures r == [] <==> forall p :: p in store ==> !Qualifies(p, target, targetId, sameCity)
    ensures |Qualifying(store, target, targetId, sameCity)| <= maxCandidates ==>
      forall p :: p in store && Qualifies(p, target, targetId, sameCity) ==> p in r
  {
    var q := Qualifying(store, target, targetId, sameCity);
    QualifyingSubMultiset(store, target, targetId, sameCity);
    assert q != [] ==> q[0] in store && Qualifies(q[0], target, targetId, sameCity);
    if |q| <= maxCandidates then q
    else
      assert q == q[..maxCandidates] + q[maxCandidates..];
      q[..maxCandidates]
  }

  /** The primary-key lookup: the row with that id, if any. */
  function Lookup(store: seq<Profile>, id: int): (r: Option<Profile>)
    ensures r.Some? ==> r.value in store && r.value.id == id
    ensures r.None? <==> forall p :: p in store ==> p.id != id
  {
    if store == [] then None
    else if store[0].id == id then Some(store[0])
    else Lookup(store[1..], id)
  }

  /** The target is never its own candidate. */
  lemma TargetNotCandidate(store: seq<Profile>, target: Profile, sameCity: bool, maxCandidates: int)
    requires 1 <= maxCandidates <= 200
    ensures target !in Candidates(store, target, target.id, sameCity, maxCandidates)
  {
  }

  /** The boundary ages of the corridor: 12 and 13 are where the radius
      changes from 3 to 4. */
  lemma CorridorBoundaries()
    ensures InCorridor(AgeCorridor(12), 15) && !InCorridor(AgeCorridor(12), 16)
    ensures InCorridor(AgeCorridor(12), 9) && !InCorridor(AgeCorridor(12), 8)
    ensures InCorridor(AgeCorridor(13), 17) && !InCorridor(AgeCorridor(13), 18)
    ensures InCorridor(AgeCorridor(13), 9) && !InCorridor(AgeCorridor(13), 8)
  {
  }

  /** Profiles A (10, Wonderland), B (12, Wonderland) and C (20, Wonderland):
      matching from A within the same city keeps B and drops C and A. */
  lemma WonderlandExample()
    ensures
      var a := Profile(1, 10, "Wonderland", None, None, None);
      var b := Profile(2, 12, "Wonderland", None, None, None);
      var c := Profile(3, 20, "Wonderland", None, None, None);
      Candidates([a, b, c], a, 1, true, 50) == [b]
  {
    var a := Profile(1, 10, "Wonderland", None, None, None);
    var b := Profile(2, 12, "Wonderland", None, None, None);
    var c := Profile(3, 20, "Wonderland", None, None, None);
    var store := [a, b, c];
    assert store[1..] == [b, c] && store[1..][1..] == [c] && store[1..][1..][1..] == [];
    assert !Qualifies(a, a, 1, true) && Qualifies(b, a, 1, true) && !Qualifies(c, a, 1, true);
    assert Qualifying([c], a, 1, true) == [];
    assert Qualifying([b, c], a, 1, true) == [b];
  }
}
