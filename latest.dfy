/**
 * The latest report of each car: the `reduce` over `reportes` that keeps,
 * for every IdCoche, the first report it meets and never overwrites it.
 * `reportes` is fetched newest first, so "first" is "latest".
 */
module LatestReports {
  import opened Wrappers
  import opened Sequences
  import opened Reports

  lemma CarIdsConcat(s: seq<Report>, t: seq<Report>)
    ensures CarIds(s + t) == CarIds(s) + CarIds(t)
  {
    forall c | c in CarIds(s + t) ensures c in CarIds(s) + CarIds(t) {
      var r :| r in s + t && r.car == c;
      assert r in s || r in t;
    }
    forall c | c in CarIds(s) + CarIds(t) ensures c in CarIds(s + t) {
      var r :| (r in s || r in t) && r.car == c;
      assert r in s + t;
    }
  }

  /** Reports added after the first report of a car do not move it. */
  lemma {:induction false} FirstIndexConcat(s: seq<Report>, t: seq<Report>, car: int)
    ensures FirstIndex(s + t, car) ==
      if car in CarIds(s) then FirstIndex(s, car) else |s| + FirstIndex(t, car)
  {
    if s == [] {
      assert s + t == t;
    } else {
      assert (s + t)[1..] == s[1..] + t;
      assert CarIds(s) == {s[0].car} + CarIds(s[1..]) by {
        CarIdsConcat([s[0]], s[1..]);
        assert s == [s[0]] + s[1..];
      }
      FirstIndexConcat(s[1..], t, car);
    }
  }

  /**
   * The reference result of the reduction: one entry per car that occurs in
   * `rs`, holding that car's first report in list order.
   */
  function Latest(rs: seq<Report>): (m: map<int, Report>)
    ensures m.Keys == CarIds(rs)
  {
    map c | c in CarIds(rs) :: rs[FirstIndex(rs, c)]
  }

  /**
   * Every car of the list has an entry, and it is exactly the first report for
   * that car: what `find` returns for it.
   */
  lemma LatestHoldsFirstReport(rs: seq<Report>, car: int)
    ensures car in Latest(rs) <==> car in CarIds(rs)
    ensures car in Latest(rs) ==> IsFirstFor(rs, car, Latest(rs)[car])
    ensures car in Latest(rs) ==> Find(rs, car) == Some(Latest(rs)[car])
  {
  }

  /**
   * The property keys of the accumulator object after the first `n` reports,
   * in the order they were created: each car of those reports once, in the
   * order of its first report.
   */
  function FirstSeen(rs: seq<Report>, n: nat): (keys: seq<int>)
    requires n <= |rs|
    ensures forall c :: c in keys <==> FirstIndex(rs, c) < n
    ensures forall i, j :: 0 <= i < j < |keys| ==> FirstIndex(rs, keys[i]) < FirstIndex(rs, keys[j])
    ensures Distinct(keys)
  {
    if n == 0 then []
    else
      var keys := FirstSeen(rs, n - 1);
      if FirstIndex(rs, rs[n - 1].car) == n - 1 then keys + [rs[n - 1].car] else keys
  }

  /** After all reports, the keys are exactly the cars that occur in them. */
  lemma FirstSeenIsCarIds(rs: seq<Report>)
    ensures forall c :: c in FirstSeen(rs, |rs|) <==> c in CarIds(rs)
  {
    forall c ensures c in FirstSeen(rs, |rs|) <==> c in CarIds(rs) {
      FirstIndexFound(rs, c);
    }
  }

  /**
   * Later reports never replace an entry: extending the list keeps every
   * entry already in the map and only adds cars not seen before.
   */
  lemma LatestNeverOverwritten(rs: seq<Report>, more: seq<Report>)
    ensures Latest(rs).Keys <= Latest(rs + more).Keys
    ensures forall c :: c in Latest(rs) ==> Latest(rs + more)[c] == Latest(rs)[c]
  {
    CarIdsConcat(rs, more);
    forall c | c in Latest(rs) ensures Latest(rs + more)[c] == Latest(rs)[c] {
      FirstIndexConcat(rs, more, c);
      assert (rs + more)[FirstIndex(rs, c)] == rs[FirstIndex(rs, c)];
    }
  }

  /**
   * With `reportes` in descending FechaHora order, the entry kept for a car is
   * one of its newest reports: no report of that car is more recent.
   */
  lemma LatestIsNewest(rs: seq<Report>, car: int, r: Report)
    requires forall i, j :: 0 <= i < j < |rs| ==> rs[i].time >= rs[j].time
    requires car in Latest(rs) && r in rs && r.car == car
    ensures r.time <= Latest(rs)[car].time
  {
    var k :| 0 <= k < |rs| && rs[k] == r;
    assert FirstIndex(rs, car) <= k;
  }

  lemma LatestKeys(rs: seq<Report>, m: map<int, Report>)
    requires forall c :: c in m <==> FirstIndex(rs, c) < |rs|
    ensures m.Keys == Latest(rs).Keys
  {
    forall c ensures c in m.Keys <==> c in CarIds(rs) {
      var i := FirstIndex(rs, c);
      assert i < |rs| <==> c in CarIds(rs);
    }
  }

  /** A map with the keys and entries of `Latest(rs)` is `Latest(rs)`. */
  lemma LatestUnique(rs: seq<Report>, m: map<int, Report>)
    requires forall c :: c in m <==> FirstIndex(rs, c) < |rs|
    requires forall c :: c in m ==> m[c] == rs[FirstIndex(rs, c)]
    ensures m == Latest(rs)
  {
    LatestKeys(rs, m);
  }

  /**
   * The accumulator after the first `n` reports: an entry for exactly the cars
   * whose first report is among them, holding that first report.
   */
  ghost predicate Accumulated(rs: seq<Report>, n: nat, latest: map<int, Report>)
    requires n <= |rs|
  {
    (forall c :: c in latest <==> FirstIndex(rs, c) < n) &&
    (forall c :: c in latest ==> latest[c] == rs[FirstIndex(rs, c)])
  }

  /** One step of the `reduce`: add the report's car when it has no entry yet. */
  lemma AccumulateStep(rs: seq<Report>, n: nat, latest: map<int, Report>)
    requires n < |rs| && Accumulated(rs, n, latest)
    ensures rs[n].car in latest <==> FirstIndex(rs, rs[n].car) < n
    ensures Accumulated(rs, n + 1, if rs[n].car in latest then latest else latest[rs[n].car := rs[n]])
  {
  }

  /**
   * The `reduce` of the dashboard: walks `reportes` once, adding a property
   * for each IdCoche not yet present and leaving present ones alone. Returns
   * the accumulator's entries and its keys in creation order.
   */
  method CollectLatest(reportes: seq<Report>) returns (latest: map<int, Report>, keys: seq<int>)
    ensures latest == Latest(reportes)
    ensures keys == FirstSeen(reportes, |reportes|)
  {
    latest, keys := map[], [];
    for i := 0 to |reportes|
      invariant Accumulated(reportes, i, latest)
      invariant keys == FirstSeen(reportes, i)
    {
      var r := reportes[i];
      AccumulateStep(reportes, i, latest);
      if r.car !in latest {
        latest := latest[r.car := r];
        keys := keys + [r.car];
      }
    }
    LatestUnique(reportes, latest);
  }
}
