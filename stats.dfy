/** The summary statistics: four counts over the fixture rows. */
module Stats {
  import opened Tables

  /** The status is "active". */
  predicate IsActive(f: Fixture) {
    SqlEq(f.status, "active")
  }

  /** Wear is tracked by a use counter. */
  predicate IsCountType(f: Fixture) {
    SqlEq(f.lifeType, "count")
  }

  /** A counted fixture used fewer times than its life value: still usable. */
  predicate UnderLifespan(f: Fixture) {
    IsCountType(f) && f.used < f.lifeValue
  }

  /** A counted fixture used at least its life value: due for replacement. */
  predicate NeedsReplacement(f: Fixture) {
    IsCountType(f) && f.used >= f.lifeValue
  }

  /** The number of fixture rows satisfying `p`. */
  function CountWhere(fixtures: seq<Fixture>, p: Fixture -> bool): (n: nat)
    ensures n <= |fixtures|
    ensures n == 0 <==> forall f :: f in fixtures ==> !p(f)
  {
    if |fixtures| == 0 then 0
    else
      var last := fixtures[|fixtures| - 1];
      assert fixtures == fixtures[..|fixtures| - 1] + [last];
      CountWhere(fixtures[..|fixtures| - 1], p) + (if p(last) then 1 else 0)
  }

  datatype Summary = Summary(
    totalFixtures: nat, activeFixtures: nat, underLifespan: nat, needReplacement: nat)

  /** stats_summary over the fixture table. */
  function StatsSummary(fixtures: seq<Fixture>): (s: Summary)
    ensures s.totalFixtures == |fixtures|
    ensures s.activeFixtures <= s.totalFixtures
    ensures s.underLifespan + s.needReplacement == CountWhere(fixtures, IsCountType)
    ensures s.underLifespan + s.needReplacement <= s.totalFixtures
  {
    CountSplit(fixtures);
    Summary(|fixtures|, CountWhere(fixtures, IsActive),
            CountWhere(fixtures, UnderLifespan), CountWhere(fixtures, NeedsReplacement))
  }

  /** The two lifespan classes partition the `count`-type rows: each such row
      is either under its lifespan or due for replacement, never both. */
  lemma {:induction false} CountSplit(fixtures: seq<Fixture>)
    ensures CountWhere(fixtures, UnderLifespan) + CountWhere(fixtures, NeedsReplacement)
         == CountWhere(fixtures, IsCountType)
  {
    if |fixtures| > 0 {
      CountSplit(fixtures[..|fixtures| - 1]);
    }
  }

  /** Adding one fixture row changes the total by one and each other count by
      at most one, according to the row's own classification. */
  lemma AddFixture(fixtures: seq<Fixture>, f: Fixture)
    ensures var before := StatsSummary(fixtures);
            var after := StatsSummary(fixtures + [f]);
            && after.totalFixtures == before.totalFixtures + 1
            && after.activeFixtures == before.activeFixtures + (if IsActive(f) then 1 else 0)
            && after.underLifespan == before.underLifespan + (if UnderLifespan(f) then 1 else 0)
            && after.needReplacement == before.needReplacement + (if NeedsReplacement(f) then 1 else 0)
  {
    assert (fixtures + [f])[..|fixtures|] == fixtures;
  }
}
