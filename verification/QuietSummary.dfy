/** Alerts aggregated during quiet hours (internal/notification/quiet_summary.go): one summary per
    subscription, host, container and period, its hits grouped by fingerprint. */
module QuietSummaries {
  import opened Basics
  import opened KeyText

  /** One aggregated notification: the parts of its key, the fingerprint and the shortened text of
      its detail, and when it was hit. */
  datatype Hit = Hit(sub: int, host: string, container: string, period: int,
                     fingerprint: string, example: string, time: int)

  datatype Group = Group(fingerprint: string, count: int, firstSeen: int, lastSeen: int,
                         firstExample: string, lastExample: string)

  datatype Summary = Summary(total: int, groups: seq<Group>)

  // ---- The reference: what the hits say about each fingerprint ----

  function Times(hs: seq<Hit>, fp: string): (n: nat)
    ensures n <= |hs|
  {
    if hs == [] then 0 else Times(hs[..|hs| - 1], fp) + if hs[|hs| - 1].fingerprint == fp then 1 else 0
  }

  /** Position of the first hit with this fingerprint; |hs| if there is none. */
  function First(hs: seq<Hit>, fp: string): (i: nat)
    ensures i <= |hs| && (i < |hs| ==> hs[i].fingerprint == fp)
    ensures forall j :: 0 <= j < i ==> hs[j].fingerprint != fp
  {
    if hs == [] then 0
    else
      var i := First(hs[..|hs| - 1], fp);
      if i < |hs| - 1 || hs[|hs| - 1].fingerprint == fp then i else |hs|
  }

  /** Position of the last hit with this fingerprint; |hs| if there is none. */
  function Last(hs: seq<Hit>, fp: string): (i: nat)
    ensures i <= |hs| && (i < |hs| <==> First(hs, fp) < |hs|) && (i < |hs| ==> hs[i].fingerprint == fp)
    ensures forall j :: i < j < |hs| ==> hs[j].fingerprint != fp
  {
    if hs == [] then 0
    else if hs[|hs| - 1].fingerprint == fp then |hs| - 1
    else
      var i := Last(hs[..|hs| - 1], fp);
      if i < |hs| - 1 then i else |hs|
  }

  /** The group tells how often its fingerprint was hit, and its first and last hit. */
  ghost predicate TrueOf(hs: seq<Hit>, g: Group) {
    var f, l := First(hs, g.fingerprint), Last(hs, g.fingerprint);
    && f < |hs| && l < |hs|
    && g.count == Times(hs, g.fingerprint)
    && g.firstSeen == hs[f].time && g.firstExample == hs[f].example
    && g.lastSeen == hs[l].time && g.lastExample == hs[l].example
  }

  ghost predicate InOrder(hs: seq<Hit>, gs: seq<Group>) {
    forall i, j :: 0 <= i < j < |gs| ==> First(hs, gs[i].fingerprint) < First(hs, gs[j].fingerprint)
  }

  predicate Has(gs: seq<Group>, fp: string) { exists i :: 0 <= i < |gs| && gs[i].fingerprint == fp }

  /** One true group per fingerprint, in the order of their first hits. */
  ghost predicate Describes(hs: seq<Hit>, gs: seq<Group>) {
    && (forall i :: 0 <= i < |gs| ==> TrueOf(hs, gs[i]))
    && InOrder(hs, gs)
    && (forall fp :: Has(gs, fp) <==> First(hs, fp) < |hs|)
  }

  /** The hits with this fingerprint. */
  ghost function HitsOf(hs: seq<Hit>, fp: string): set<int> { set i | 0 <= i < |hs| && hs[i].fingerprint == fp }

  lemma {:induction false} TimesIsCount(hs: seq<Hit>, fp: string)
    ensures Times(hs, fp) == |HitsOf(hs, fp)|
  {
    if hs != [] {
      var n := |hs| - 1;
      TimesIsCount(hs[..n], fp);
      HitsOfNext(hs[..n], hs[n], fp);
      assert hs == hs[..n] + [hs[n]];
    }
  }

  lemma HitsOfNext(hs: seq<Hit>, hit: Hit, fp: string)
    ensures |HitsOf(hs + [hit], fp)| == |HitsOf(hs, fp)| + if hit.fingerprint == fp then 1 else 0
  {
    var all := hs + [hit];
    assert forall i :: 0 <= i < |hs| ==> all[i] == hs[i];
    assert HitsOf(all, fp) == HitsOf(hs, fp) + if hit.fingerprint == fp then {|hs|} else {};
  }

  /** The group counts the hits with its fingerprint, and tells time and example of the first and the last. */
  ghost predicate Tells(hs: seq<Hit>, g: Group) {
    var mine := HitsOf(hs, g.fingerprint);
    && g.count == |mine|
    && (exists f :: f in mine && g.firstSeen == hs[f].time && g.firstExample == hs[f].example &&
          forall i :: i in mine ==> f <= i)
    && (exists l :: l in mine && g.lastSeen == hs[l].time && g.lastExample == hs[l].example &&
          forall i :: i in mine ==> i <= l)
  }

  lemma TrueTells(hs: seq<Hit>, g: Group)
    requires TrueOf(hs, g)
    ensures Tells(hs, g)
  {
    var f, l := First(hs, g.fingerprint), Last(hs, g.fingerprint);
    TimesIsCount(hs, g.fingerprint);
    var mine := HitsOf(hs, g.fingerprint);
    assert f in mine && l in mine;
    forall i | i in mine ensures f <= i <= l {
    }
  }

  // ---- Aggregation ----

  function Opened(hit: Hit): Group {
    Group(hit.fingerprint, 1, hit.time, hit.time, hit.example, hit.example)
  }

  function Extended(g: Group, hit: Hit): Group {
    g.(count := g.count + 1, lastSeen := hit.time, lastExample := hit.example)
  }

  lemma FirstOfNext(hs: seq<Hit>, hit: Hit, fp: string)
    ensures First(hs + [hit], fp) == if First(hs, fp) < |hs| || hit.fingerprint == fp then First(hs, fp) else |hs| + 1
    ensures Last(hs + [hit], fp) ==
            if hit.fingerprint == fp then |hs| else if Last(hs, fp) < |hs| then Last(hs, fp) else |hs| + 1
    ensures Times(hs + [hit], fp) == Times(hs, fp) + if hit.fingerprint == fp then 1 else 0
  {
  }

  lemma {:induction false} AbsentIff(hs: seq<Hit>, fp: string)
    ensures Times(hs, fp) == 0 <==> First(hs, fp) == |hs|
  {
    if hs != [] {
      AbsentIff(hs[..|hs| - 1], fp);
    }
  }

  lemma OtherStaysTrue(hs: seq<Hit>, hit: Hit, g: Group)
    requires TrueOf(hs, g) && g.fingerprint != hit.fingerprint
    ensures TrueOf(hs + [hit], g)
  {
  }

  lemma ExtendedIsTrue(hs: seq<Hit>, hit: Hit, g: Group)
    requires TrueOf(hs, g) && g.fingerprint == hit.fingerprint
    ensures TrueOf(hs + [hit], Extended(g, hit))
  {
  }

  lemma OpenedIsTrue(hs: seq<Hit>, hit: Hit)
    requires First(hs, hit.fingerprint) == |hs|
    ensures TrueOf(hs + [hit], Opened(hit)) && First(hs + [hit], hit.fingerprint) == |hs|
  {
    FirstOfNext(hs, hit, hit.fingerprint);
    AbsentIff(hs, hit.fingerprint);
  }

  lemma FirstsStay(hs: seq<Hit>, hit: Hit, gs: seq<Group>)
    requires forall i :: 0 <= i < |gs| ==> TrueOf(hs, gs[i])
    ensures forall i :: 0 <= i < |gs| ==> First(hs + [hit], gs[i].fingerprint) == First(hs, gs[i].fingerprint)
  {
  }

  lemma ExtendKeepsTrue(hs: seq<Hit>, hit: Hit, gs: seq<Group>, k: nat, i: nat)
    requires Describes(hs, gs) && k < |gs| && i < |gs| && gs[k].fingerprint == hit.fingerprint
    ensures TrueOf(hs + [hit], if i == k then Extended(gs[k], hit) else gs[i])
  {
    assert TrueOf(hs, gs[i]);
    if i == k {
      ExtendedIsTrue(hs, hit, gs[k]);
    } else {
      assert First(hs, gs[i].fingerprint) != First(hs, gs[k].fingerprint);
      OtherStaysTrue(hs, hit, gs[i]);
    }
  }

  lemma ExtendKeepsHas(hs: seq<Hit>, hit: Hit, gs: seq<Group>, fp: string)
    requires Describes(hs, gs) && Has(gs, hit.fingerprint)
    ensures Has(gs, fp) <==> First(hs + [hit], fp) < |hs + [hit]|
  {
    assert Has(gs, fp) <==> First(hs, fp) < |hs|;
    FirstOfNext(hs, hit, fp);
  }

  /** A hit with a known fingerprint extends its group. */
  lemma ExtendDescribes(hs: seq<Hit>, hit: Hit, gs: seq<Group>, k: nat)
    requires Describes(hs, gs) && k < |gs| && gs[k].fingerprint == hit.fingerprint
    ensures Describes(hs + [hit], gs[k := Extended(gs[k], hit)])
  {
    var gs', hs' := gs[k := Extended(gs[k], hit)], hs + [hit];
    FirstsStay(hs, hit, gs);
    assert forall i :: 0 <= i < |gs| ==> gs'[i].fingerprint == gs[i].fingerprint;
    assert InOrder(hs', gs');
    forall i | 0 <= i < |gs'| ensures TrueOf(hs', gs'[i]) {
      ExtendKeepsTrue(hs, hit, gs, k, i);
    }
    forall fp ensures Has(gs', fp) <==> First(hs', fp) < |hs'| {
      SameHas(gs, gs', fp);
      ExtendKeepsHas(hs, hit, gs, fp);
    }
  }

  lemma SameHas(gs: seq<Group>, gs': seq<Group>, fp: string)
    requires |gs| == |gs'| && forall i :: 0 <= i < |gs| ==> gs'[i].fingerprint == gs[i].fingerprint
    ensures Has(gs, fp) <==> Has(gs', fp)
  {
  }

  /** A hit with a new fingerprint opens a group at the end. */
  lemma OpenDescribes(hs: seq<Hit>, hit: Hit, gs: seq<Group>)
    requires Describes(hs, gs) && !Has(gs, hit.fingerprint)
    ensures Describes(hs + [hit], gs + [Opened(hit)])
  {
    var gs', hs' := gs + [Opened(hit)], hs + [hit];
    FirstsStay(hs, hit, gs);
    OpenedIsTrue(hs, hit);
    forall i | 0 <= i < |gs'| ensures TrueOf(hs', gs'[i]) {
      if i < |gs| {
        assert TrueOf(hs, gs[i]) && gs[i].fingerprint != hit.fingerprint;
        OtherStaysTrue(hs, hit, gs[i]);
      }
    }
    forall fp ensures Has(gs', fp) <==> First(hs', fp) < |hs'| {
      HasNext(gs, Opened(hit), fp);
      assert Has(gs, fp) <==> First(hs, fp) < |hs|;
      FirstOfNext(hs, hit, fp);
    }
  }

  lemma HasNext(gs: seq<Group>, g: Group, fp: string)
    ensures Has(gs + [g], fp) <==> Has(gs, fp) || g.fingerprint == fp
  {
    if Has(gs, fp) {
      var i :| 0 <= i < |gs| && gs[i].fingerprint == fp;
      assert (gs + [g])[i].fingerprint == fp;
    }
    assert (gs + [g])[|gs|] == g;
  }

  /** The grouping loop: whatever has been aggregated, the groups go on to describe it. */
  method AddToGroups(gs: seq<Group>, hit: Hit, ghost hs: seq<Hit>) returns (gs': seq<Group>)
    requires Describes(hs, gs)
    ensures Describes(hs + [hit], gs')
  {
    for i := 0 to |gs|
      invariant forall j :: 0 <= j < i ==> gs[j].fingerprint != hit.fingerprint
    {
      if gs[i].fingerprint == hit.fingerprint {
        ExtendDescribes(hs, hit, gs, i);
        return gs[i := Extended(gs[i], hit)];
      }
    }
    OpenDescribes(hs, hit, gs);
    gs' := gs + [Opened(hit)];
  }

  // ---- What the groups add up to ----

  function Sum(gs: seq<Group>): int { if gs == [] then 0 else Sum(gs[..|gs| - 1]) + gs[|gs| - 1].count }

  /** How many hits have one of the groups' fingerprints. */
  ghost function Covered(hs: seq<Hit>, gs: seq<Group>): nat {
    if hs == [] then 0 else Covered(hs[..|hs| - 1], gs) + if Has(gs, hs[|hs| - 1].fingerprint) then 1 else 0
  }

  lemma {:induction false} CoveredNext(hs: seq<Hit>, gs: seq<Group>, g: Group)
    requires !Has(gs, g.fingerprint)
    ensures Covered(hs, gs + [g]) == Covered(hs, gs) + Times(hs, g.fingerprint)
  {
    if hs != [] {
      CoveredNext(hs[..|hs| - 1], gs, g);
      HasNext(gs, g, hs[|hs| - 1].fingerprint);
    }
  }

  lemma {:induction false} CoveredByNone(hs: seq<Hit>)
    ensures Covered(hs, []) == 0
  {
    if hs != [] {
      CoveredByNone(hs[..|hs| - 1]);
    }
  }

  lemma {:induction false} CoveredByAll(hs: seq<Hit>, gs: seq<Group>)
    requires forall i :: 0 <= i < |hs| ==> Has(gs, hs[i].fingerprint)
    ensures Covered(hs, gs) == |hs|
  {
    if hs != [] {
      CoveredByAll(hs[..|hs| - 1], gs);
    }
  }

  /** One group per fingerprint, each with its number of hits. */
  ghost predicate Counts(hs: seq<Hit>, gs: seq<Group>) {
    gs == [] ||
    var init, g := gs[..|gs| - 1], gs[|gs| - 1];
    Counts(hs, init) && g.count == Times(hs, g.fingerprint) && !Has(init, g.fingerprint)
  }

  /** The counts of such groups add up to the number of hits they cover. */
  lemma {:induction false} SumIsCovered(hs: seq<Hit>, gs: seq<Group>)
    requires Counts(hs, gs)
    ensures Sum(gs) == Covered(hs, gs)
  {
    if gs == [] {
      CoveredByNone(hs);
    } else {
      var init, g := gs[..|gs| - 1], gs[|gs| - 1];
      SumIsCovered(hs, init);
      CoveredNext(hs, init, g);
      assert init + [g] == gs;
    }
  }

  lemma {:induction false} DescribesCounts(hs: seq<Hit>, gs: seq<Group>)
    requires (forall i :: 0 <= i < |gs| ==> TrueOf(hs, gs[i])) && InOrder(hs, gs)
    ensures Counts(hs, gs)
  {
    if gs != [] {
      DescribesCounts(hs, gs[..|gs| - 1]);
      assert TrueOf(hs, gs[|gs| - 1]);
    }
  }

  lemma {:induction false} FirstIsFirst(hs: seq<Hit>, k: nat)
    requires k < |hs|
    ensures First(hs, hs[k].fingerprint) <= k
  {
    if k < |hs| - 1 {
      FirstIsFirst(hs[..|hs| - 1], k);
    }
  }

  /** Fingerprints are distinct, each group tells of its hits, and the counts sum to the number of hits. */
  lemma GroupsAddUp(hs: seq<Hit>, gs: seq<Group>)
    requires Describes(hs, gs)
    ensures forall i :: 0 <= i < |gs| ==> Tells(hs, gs[i])
    ensures forall i, j :: 0 <= i < j < |gs| ==> gs[i].fingerprint != gs[j].fingerprint
    ensures Sum(gs) == |hs|
  {
    DescribesCounts(hs, gs);
    SumIsCovered(hs, gs);
    forall i | 0 <= i < |gs| ensures Tells(hs, gs[i]) {
      assert TrueOf(hs, gs[i]);
      TrueTells(hs, gs[i]);
    }
    forall k | 0 <= k < |hs| ensures Has(gs, hs[k].fingerprint) {
      FirstIsFirst(hs, k);
    }
    CoveredByAll(hs, gs);
  }

  // ---- Keys ----

  function SummaryKey(h: Hit): string {
    Decimal(h.sub) + (":" + ((h.host + (":" + h.container)) + (":" + Decimal(h.period))))
  }

  lemma SameParts(a: string, m: string, z: string, a': string, m': string, z': string)
    requires ':' !in a && ':' !in z && ':' !in a' && ':' !in z'
    requires a + (":" + (m + (":" + z))) == a' + (":" + (m' + (":" + z')))
    ensures a == a' && m == m' && z == z'
  {
    SplitFirst(a, m + (":" + z));
    SplitFirst(a', m' + (":" + z'));
    SplitLast(m, z);
    SplitLast(m', z');
  }

  /** Two hits share a summary exactly when subscription and period agree and so does the text
      "host:container"; with container ids free of colons that means host and container agree. */
  lemma SameSummaryIff(a: Hit, b: Hit)
    ensures SummaryKey(a) == SummaryKey(b) <==>
            a.sub == b.sub && a.period == b.period && a.host + (":" + a.container) == b.host + (":" + b.container)
    ensures ':' !in a.container && ':' !in b.container && SummaryKey(a) == SummaryKey(b) ==>
            a.host == b.host && a.container == b.container
  {
    DecimalRoundTrip(a.sub);
    DecimalRoundTrip(b.sub);
    DecimalRoundTrip(a.period);
    DecimalRoundTrip(b.period);
    if SummaryKey(a) == SummaryKey(b) {
      SameParts(Decimal(a.sub), a.host + (":" + a.container), Decimal(a.period),
                Decimal(b.sub), b.host + (":" + b.container), Decimal(b.period));
      if ':' !in a.container && ':' !in b.container {
        SplitLast(a.host, a.container);
        SplitLast(b.host, b.container);
      }
    }
  }

  /** Container "c" on host "a:b" and container "b:c" on host "a" share their summaries. */
  lemma SharedSummaryExample()
    ensures SummaryKey(Hit(1, "a:b", "c", 0, "", "", 0)) == SummaryKey(Hit(1, "a", "b:c", 0, "", "", 0))
  {
    var a, b := Hit(1, "a:b", "c", 0, "", "", 0), Hit(1, "a", "b:c", 0, "", "", 0);
    assert a.host + (":" + a.container) == "a:b:c" == b.host + (":" + b.container);
    SameSummaryIff(a, b);
  }

  // ---- The stored summaries ----

  function HasKey(key: string): Hit -> bool { h => SummaryKey(h) == key }

  ghost function Of(hs: seq<Hit>, key: string): seq<Hit> { Filter(HasKey(key), hs) }

  lemma OfNext(hs: seq<Hit>, hit: Hit, key: string)
    ensures Of(hs + [hit], key) == if SummaryKey(hit) == key then Of(hs, key) + [hit] else Of(hs, key)
  {
    FilterOfAppend(HasKey(key), hs, hit);
  }

  class SummaryBook {
    var rows: map<string, Summary>
    ghost var history: seq<Hit>

    /** The row describes exactly the hits that have its key. */
    ghost predicate Right(key: string)
      reads this
    {
      var mine := Of(history, key);
      if key in rows then rows[key].total == |mine| && Describes(mine, rows[key].groups) else mine == []
    }

    ghost predicate Valid()
      reads this
    {
      forall key :: Right(key)
    }

    constructor ()
      ensures Valid() && history == []
    {
      rows, history := map[], [];
    }

    method Aggregate(hit: Hit)
      requires Valid()
      modifies this
      ensures Valid() && history == old(history) + [hit]
      ensures SummaryKey(hit) in rows && rows.Keys == old(rows.Keys) + {SummaryKey(hit)}
      ensures rows[SummaryKey(hit)].total == |Where(HasKey(SummaryKey(hit)), history)|
    {
      var key := SummaryKey(hit);
      assert Right(key);
      ghost var mine := Of(history, key);
      var summary := Summary(0, []);
      if key in rows {
        summary := rows[key];
      }
      assert summary.total == |mine| && Describes(mine, summary.groups);
      var groups := AddToGroups(summary.groups, hit, mine);
      Store(key, Summary(summary.total + 1, groups), hit);
      assert Right(key);
      FilterCount(HasKey(key), history);
    }

    method Store(key: string, summary: Summary, hit: Hit)
      requires Valid() && key == SummaryKey(hit)
      requires summary.total == |Of(history, key)| + 1 && Describes(Of(history, key) + [hit], summary.groups)
      modifies this
      ensures Valid() && history == old(history) + [hit] && rows == old(rows)[key := summary]
    {
      rows, history := rows[key := summary], history + [hit];
      forall k ensures Right(k) {
        assert old(Right(k));
        OfNext(old(history), hit, k);
      }
    }
  }
}

/** Rendering a summary (internal/notification/quiet_summary.go, `renderQuietSummary`). Strings are
    sequences of bytes. */
module QuietRendering {
  import opened KeyText
  import opened QuietSummaries
  import opened Text

  const DEFAULT_GROUPS := 10
  const MAX_GROUPS := 50
  const MAX_LENGTH := 12000

  function Limit(maxGroups: int): (n: nat)
    ensures maxGroups < 1 ==> n == 10
    ensures 1 <= maxGroups <= 50 ==> n == maxGroups
    ensures maxGroups > 50 ==> n == 50
  {
    if maxGroups < 1 then DEFAULT_GROUPS else if maxGroups > MAX_GROUPS then MAX_GROUPS else maxGroups
  }

  // ---- Stable sorting: more hits first, then first seen first ----

  predicate Precedes(a: Group, b: Group) { a.count > b.count || (a.count == b.count && a.firstSeen < b.firstSeen) }

  ghost predicate Sorted(gs: seq<Group>) { forall i, j :: 0 <= i < j < |gs| ==> !Precedes(gs[j], gs[i]) }

  predicate Ties(a: Group, b: Group) { !Precedes(a, b) && !Precedes(b, a) }

  /** The groups that tie with x, in order. */
  function Like(gs: seq<Group>, x: Group): seq<Group> {
    if gs == [] then []
    else Like(gs[..|gs| - 1], x) + if Ties(gs[|gs| - 1], x) then [gs[|gs| - 1]] else []
  }

  function Insert(gs: seq<Group>, g: Group): (r: seq<Group>)
    ensures |r| == |gs| + 1
  {
    if gs == [] || !Precedes(g, gs[|gs| - 1]) then gs + [g]
    else Insert(gs[..|gs| - 1], g) + [gs[|gs| - 1]]
  }

  function Sort(gs: seq<Group>): (r: seq<Group>)
    ensures |r| == |gs|
  {
    if gs == [] then [] else Insert(Sort(gs[..|gs| - 1]), gs[|gs| - 1])
  }

  lemma LikeNext(gs: seq<Group>, g: Group, x: Group)
    ensures Like(gs + [g], x) == Like(gs, x) + if Ties(g, x) then [g] else []
  {
  }

  lemma {:induction false} InsertIsStable(gs: seq<Group>, g: Group, x: Group)
    ensures Like(Insert(gs, g), x) == Like(gs, x) + if Ties(g, x) then [g] else []
  {
    if gs == [] || !Precedes(g, gs[|gs| - 1]) {
      LikeNext(gs, g, x);
    } else {
      var init, last := gs[..|gs| - 1], gs[|gs| - 1];
      InsertIsStable(init, g, x);
      LikeNext(Insert(init, g), last, x);
    }
  }

  lemma {:induction false} InsertPermutes(gs: seq<Group>, g: Group)
    ensures multiset(Insert(gs, g)) == multiset(gs) + multiset{g}
  {
    if gs != [] && Precedes(g, gs[|gs| - 1]) {
      InsertPermutes(gs[..|gs| - 1], g);
      assert gs == gs[..|gs| - 1] + [gs[|gs| - 1]];
    }
  }

  lemma {:induction false} InsertSorts(gs: seq<Group>, g: Group)
    requires Sorted(gs)
    ensures Sorted(Insert(gs, g))
    ensures gs != [] && Precedes(g, gs[|gs| - 1]) ==>
              forall i :: 0 <= i <= |gs| ==> !Precedes(gs[|gs| - 1], Insert(gs, g)[i])
  {
    if gs == [] || !Precedes(g, gs[|gs| - 1]) {
      var r := gs + [g];
      forall i, j | 0 <= i < j < |r| ensures !Precedes(r[j], r[i]) {
        if j == |gs| {
          assert !Precedes(g, gs[|gs| - 1]);
          assert i < |gs| - 1 ==> !Precedes(gs[|gs| - 1], gs[i]);
        }
      }
    } else {
      var init, last := gs[..|gs| - 1], gs[|gs| - 1];
      InsertSorts(init, g);
      InsertKeeps(init, g, last);
    }
  }

  /** What precedes neither the new group nor any other does not precede any after insertion. */
  lemma {:induction false} InsertKeeps(gs: seq<Group>, g: Group, x: Group)
    requires !Precedes(x, g) && forall i :: 0 <= i < |gs| ==> !Precedes(x, gs[i])
    ensures forall i :: 0 <= i <= |gs| ==> !Precedes(x, Insert(gs, g)[i])
  {
    if gs != [] && Precedes(g, gs[|gs| - 1]) {
      InsertKeeps(gs[..|gs| - 1], g, x);
    }
  }

  lemma {:induction false} SortIsSorted(gs: seq<Group>)
    ensures Sorted(Sort(gs))
  {
    if gs != [] {
      SortIsSorted(gs[..|gs| - 1]);
      InsertSorts(Sort(gs[..|gs| - 1]), gs[|gs| - 1]);
    }
  }

  lemma {:induction false} SortPermutes(gs: seq<Group>)
    ensures multiset(Sort(gs)) == multiset(gs)
  {
    if gs != [] {
      SortPermutes(gs[..|gs| - 1]);
      InsertPermutes(Sort(gs[..|gs| - 1]), gs[|gs| - 1]);
      assert gs == gs[..|gs| - 1] + [gs[|gs| - 1]];
    }
  }

  /** More hits first, then first seen first; nothing lost or added. */
  lemma SortSorts(gs: seq<Group>)
    ensures Sorted(Sort(gs)) && multiset(Sort(gs)) == multiset(gs)
  {
    SortIsSorted(gs);
    SortPermutes(gs);
  }

  /** In the fields: more hits first, then first seen first. */
  lemma SortedByCount(gs: seq<Group>, i: nat, j: nat)
    requires i < j < |gs|
    ensures var r := Sort(gs);
            r[i].count > r[j].count || (r[i].count == r[j].count && r[i].firstSeen <= r[j].firstSeen)
  {
    SortSorts(gs);
    assert !Precedes(Sort(gs)[j], Sort(gs)[i]);
  }

  lemma TiesIff(a: Group, b: Group)
    ensures Ties(a, b) <==> a.count == b.count && a.firstSeen == b.firstSeen
  {
  }

  /** Groups that tie keep their order. */
  lemma {:induction false} SortIsStable(gs: seq<Group>, x: Group)
    ensures Like(Sort(gs), x) == Like(gs, x)
  {
    if gs != [] {
      SortIsStable(gs[..|gs| - 1], x);
      InsertIsStable(Sort(gs[..|gs| - 1]), gs[|gs| - 1], x);
    }
  }

  // ---- The text ----

  /** How dates and times of day print. */
  datatype Layout = Layout(date: int -> string, clock: int -> string) {
    function Section(k: nat, g: Group): string {
      "\n" + Decimal(k + 1) + ". " + Decimal(g.count) + "x (" +
      clock(g.firstSeen) + "-" + clock(g.lastSeen) + ")\nFirst: " +
      g.firstExample + "\n" + if g.lastExample != g.firstExample then "Last: " + g.lastExample + "\n" else ""
    }
  }

  function Header(f: Layout, total: int, from: int, to: int): string {
    "Quiet-hours summary: " + Decimal(total) + " hits\nPeriod: " + f.date(from) + "-" + f.date(to) + "\n"
  }

  /** The header and the first k groups. */
  function Body(section: (nat, Group) -> string, header: string, gs: seq<Group>, k: nat): string
    requires k <= |gs|
  {
    if k == 0 then header else Body(section, header, gs, k - 1) + section(k - 1, gs[k - 1])
  }

  function Other(groups: int, hits: int): string {
    "\nOther: " + Decimal(groups) + " message groups, " + Decimal(hits) + " hits"
  }

  /** k is as many groups as are allowed and fit. */
  ghost predicate Fits(section: (nat, Group) -> string, header: string, gs: seq<Group>, limit: nat, k: nat) {
    && k <= |gs| && k <= limit
    && (k > 0 ==> |Body(section, header, gs, k)| <= 12000)
    && (k == |gs| || k == limit || |Body(section, header, gs, k + 1)| > 12000)
  }

  method RenderGroups(section: (nat, Group) -> string, header: string, gs: seq<Group>, limit: nat)
    returns (b: string, shown: nat, shownHits: int)
    ensures Fits(section, header, gs, limit, shown) && b == Body(section, header, gs, shown)
    ensures shownHits == Sum(gs[..shown])
  {
    b, shown, shownHits := header, 0, 0;
    while shown < |gs| && shown < limit
      invariant shown <= |gs| && shown <= limit
      invariant b == Body(section, header, gs, shown) && (shown > 0 ==> |b| <= MAX_LENGTH)
      invariant shownHits == Sum(gs[..shown])
      decreases |gs| - shown
    {
      var text := section(shown, gs[shown]);
      if |b| + |text| > MAX_LENGTH {
        break;
      }
      assert gs[..shown + 1][..shown] == gs[..shown];
      b := b + text;
      shownHits := shownHits + gs[shown].count;
      shown := shown + 1;
    }
  }

  /** The text before trimming, with k groups shown. */
  function Rendered(section: (nat, Group) -> string, header: string, gs: seq<Group>, total: int, k: nat): string
    requires k <= |gs|
  {
    if k < |gs| then Body(section, header, gs, k) + Other(|gs| - k, total - Sum(gs[..k]))
    else Body(section, header, gs, k)
  }

  method RenderText(section: (nat, Group) -> string, header: string, gs: seq<Group>, total: int, limit: nat)
    returns (b: string, shown: nat)
    ensures Fits(section, header, gs, limit, shown) && b == Rendered(section, header, gs, total, shown)
  {
    var shownHits;
    b, shown, shownHits := RenderGroups(section, header, gs, limit);
    if shown < |gs| {
      b := b + Other(|gs| - shown, total - shownHits);
    }
  }

  /** The text is what is shown, and if a group is not shown, what is left of groups and hits. */
  lemma RenderedIs(section: (nat, Group) -> string, header: string, gs: seq<Group>, total: int, k: nat)
    requires k <= |gs|
    ensures k < |gs| ==>
              Rendered(section, header, gs, total, k) ==
              Body(section, header, gs, k) + Other(|gs| - k, total - Sum(gs[..k]))
    ensures k == |gs| ==> Rendered(section, header, gs, total, k) == Body(section, header, gs, k)
  {
  }

  /** Returns the text and how many groups it shows. */
  method RenderQuietSummary(f: Layout, s: Summary, from: int, to: int, maxGroups: int)
    returns (detail: string, shown: nat)
    ensures Fits(f.Section, Header(f, s.total, from, to), Sort(s.groups), Limit(maxGroups), shown)
    ensures detail == TrimSpace(Rendered(f.Section, Header(f, s.total, from, to), Sort(s.groups), s.total, shown))
  {
    var b;
    b, shown := RenderText(f.Section, Header(f, s.total, from, to), Sort(s.groups), s.total, Limit(maxGroups));
    detail := TrimSpace(b);
  }

  /** Dates of up to 20 bytes and totals of up to 19 digits leave room for the header, so the text
      before the "Other" line never exceeds the limit. */
  lemma BodyFits(f: Layout, total: nat, from: int, to: int, gs: seq<Group>, limit: nat, k: nat)
    requires |f.date(from)| <= 20 && |f.date(to)| <= 20 && total < Power(19)
    requires Fits(f.Section, Header(f, total, from, to), gs, limit, k)
    ensures |Body(f.Section, Header(f, total, from, to), gs, k)| <= 12000
  {
    DigitsLength(total, 19);
  }

  function Power(k: nat): nat { if k == 0 then 1 else 10 * Power(k - 1) }

  lemma {:induction false} DigitsLength(n: nat, k: nat)
    requires 0 < k && n < Power(k)
    ensures |Digits(n)| <= k
  {
    if n >= 10 {
      assert k > 1;
      DigitsLength(n / 10, k - 1);
    }
  }

  lemma Then(text: string, more: string, whole: string)
    requires |whole| == |text| + |more| && text <= whole && whole[|text|..] == more
    ensures text + more == whole
  {
  }

  /** A section as it reads. */
  lemma SectionExample(f: Layout, g: Group)
    requires f.clock(g.firstSeen) == "t" && f.clock(g.lastSeen) == "u"
    requires g.count == 7 && g.firstExample == "a" && g.lastExample == "b"
    ensures f.Section(0, g) == "\n1. 7x (t-u)\nFirst: a\nLast: b\n"
  {
    assert Decimal(1) == "1" && Decimal(7) == "7";
    Then("\n", "1", "\n1");
    Then("\n1", ". ", "\n1. ");
    Then("\n1. ", "7", "\n1. 7");
    Then("\n1. 7", "x (", "\n1. 7x (");
    Then("\n1. 7x (", "t", "\n1. 7x (t");
    Then("\n1. 7x (t", "-", "\n1. 7x (t-");
    Then("\n1. 7x (t-", "u", "\n1. 7x (t-u");
    Then("\n1. 7x (t-u", ")\nFirst: ", "\n1. 7x (t-u)\nFirst: ");
    Then("\n1. 7x (t-u)\nFirst: ", "a", "\n1. 7x (t-u)\nFirst: a");
    Then("\n1. 7x (t-u)\nFirst: a", "\n", "\n1. 7x (t-u)\nFirst: a\n");
    Then("Last: ", "b", "Last: b");
    Then("Last: b", "\n", "Last: b\n");
    Then("\n1. 7x (t-u)\nFirst: a\n", "Last: b\n", "\n1. 7x (t-u)\nFirst: a\nLast: b\n");
  }

  /** The header as it reads. */
  lemma HeaderExample(f: Layout)
    requires f.date(1) == "d" && f.date(2) == "e"
    ensures Header(f, 9, 1, 2) == "Quiet-hours summary: 9 hits\nPeriod: d-e\n"
  {
    assert Decimal(9) == "9";
    Then("Quiet-hours summary: ", "9", "Quiet-hours summary: 9");
    Then("Quiet-hours summary: 9", " hits\nPeriod: ", "Quiet-hours summary: 9 hits\nPeriod: ");
    Then("Quiet-hours summary: 9 hits\nPeriod: ", "d", "Quiet-hours summary: 9 hits\nPeriod: d");
    Then("Quiet-hours summary: 9 hits\nPeriod: d", "-", "Quiet-hours summary: 9 hits\nPeriod: d-");
    Then("Quiet-hours summary: 9 hits\nPeriod: d-", "e", "Quiet-hours summary: 9 hits\nPeriod: d-e");
    Then("Quiet-hours summary: 9 hits\nPeriod: d-e", "\n", "Quiet-hours summary: 9 hits\nPeriod: d-e\n");
  }

  /** The last line as it reads. */
  lemma OtherExample()
    ensures Other(3, 9) == "\nOther: 3 message groups, 9 hits"
  {
    assert Decimal(3) == "3" && Decimal(9) == "9";
    Then("\nOther: ", "3", "\nOther: 3");
    Then("\nOther: 3", " message groups, ", "\nOther: 3 message groups, ");
    Then("\nOther: 3 message groups, ", "9", "\nOther: 3 message groups, 9");
    Then("\nOther: 3 message groups, 9", " hits", "\nOther: 3 message groups, 9 hits");
  }

  // ---- What the text accounts for ----

  lemma {:induction false} SumSplits(gs: seq<Group>, k: nat)
    requires k <= |gs|
    ensures Sum(gs) == Sum(gs[..k]) + Sum(gs[k..])
  {
    if k == |gs| {
      assert gs[..k] == gs;
    } else {
      var init := gs[..|gs| - 1];
      SumSplits(init, k);
      assert init[..k] == gs[..k] && gs[k..][..|gs| - k - 1] == init[k..];
    }
  }

  lemma {:induction false} CountsOfPrefix(hs: seq<Hit>, gs: seq<Group>, k: nat)
    requires Counts(hs, gs) && k <= |gs|
    ensures Counts(hs, gs[..k])
  {
    if k == |gs| {
      assert gs[..k] == gs;
    } else {
      CountsOfPrefix(hs, gs[..|gs| - 1], k);
      assert gs[..|gs| - 1][..k] == gs[..k];
    }
  }

  lemma SumNext(gs: seq<Group>, g: Group)
    ensures Sum(gs + [g]) == Sum(gs) + g.count
  {
  }

  lemma CountsNext(hs: seq<Hit>, gs: seq<Group>, g: Group)
    requires Counts(hs, gs) && g.count == Times(hs, g.fingerprint) && !Has(gs, g.fingerprint)
    ensures Counts(hs, gs + [g])
  {
  }

  lemma {:induction false} InsertCounts(hs: seq<Hit>, gs: seq<Group>, g: Group)
    requires Counts(hs, gs) && g.count == Times(hs, g.fingerprint) && !Has(gs, g.fingerprint)
    ensures Counts(hs, Insert(gs, g)) && Sum(Insert(gs, g)) == Sum(gs) + g.count
    ensures forall fp :: Has(Insert(gs, g), fp) <==> Has(gs, fp) || fp == g.fingerprint
  {
    if gs == [] || !Precedes(g, gs[|gs| - 1]) {
      CountsNext(hs, gs, g);
      SumNext(gs, g);
      forall fp ensures Has(gs + [g], fp) <==> Has(gs, fp) || fp == g.fingerprint { HasNext(gs, g, fp); }
    } else {
      var init, last := gs[..|gs| - 1], gs[|gs| - 1];
      assert gs == init + [last];
      HasNext(init, last, g.fingerprint);
      InsertCounts(hs, init, g);
      assert !Has(Insert(init, g), last.fingerprint);
      CountsNext(hs, Insert(init, g), last);
      SumNext(Insert(init, g), last);
      forall fp ensures Has(Insert(gs, g), fp) <==> Has(gs, fp) || fp == g.fingerprint {
        HasNext(init, last, fp);
        HasNext(Insert(init, g), last, fp);
      }
    }
  }

  lemma {:induction false} SortCounts(hs: seq<Hit>, gs: seq<Group>)
    requires Counts(hs, gs)
    ensures Counts(hs, Sort(gs)) && Sum(Sort(gs)) == Sum(gs)
    ensures forall fp :: Has(Sort(gs), fp) <==> Has(gs, fp)
  {
    if gs != [] {
      var init, g := gs[..|gs| - 1], gs[|gs| - 1];
      SortCounts(hs, init);
      InsertCounts(hs, Sort(init), g);
      HasInit(gs);
    }
  }

  lemma HasInit(gs: seq<Group>)
    requires gs != []
    ensures var init, g := gs[..|gs| - 1], gs[|gs| - 1];
            forall fp :: Has(gs, fp) <==> Has(init, fp) || fp == g.fingerprint
  {
    var init, g := gs[..|gs| - 1], gs[|gs| - 1];
    assert gs == init + [g];
    forall fp ensures Has(gs, fp) <==> Has(init, fp) || fp == g.fingerprint { HasNext(init, g, fp); }
  }

  /** A rendered summary accounts for everything that was aggregated: shown and other hits make up
      all hits; the other hits are exactly those whose fingerprint is not shown; and no group left
      out has more hits than one that is shown. */
  lemma RenderedAccountsForAll(hs: seq<Hit>, s: Summary, k: nat)
    requires Describes(hs, s.groups) && s.total == |hs| && k <= |s.groups|
    ensures var gs := Sort(s.groups);
            && Sum(gs[..k]) + Sum(gs[k..]) == |hs|
            && s.total - Sum(gs[..k]) == |hs| - Covered(hs, gs[..k])
            && (forall i, j :: 0 <= i < k <= j < |gs| ==> gs[j].count <= gs[i].count)
  {
    var gs := Sort(s.groups);
    GroupsAddUp(hs, s.groups);
    DescribesCounts(hs, s.groups);
    SortCounts(hs, s.groups);
    SumSplits(gs, k);
    CountsOfPrefix(hs, gs, k);
    SumIsCovered(hs, gs[..k]);
    SortSorts(s.groups);
    forall i, j | 0 <= i < k <= j < |gs| ensures gs[j].count <= gs[i].count {
      assert !Precedes(gs[j], gs[i]);
    }
  }
}
