/** Turning a container reference into a host and a container id (internal/cloud/tools_resolve.go). */
module Resolver {
  import opened Basics
  import opened Text

  datatype Container = Container(id: string, name: string, host: string, state: string,
                                 startedAt: int, finishedAt: int, created: int)

  datatype Host = Host(id: string, name: string)

  /** What the host service lists. */
  datatype Listing = Listing(containers: seq<Container>, hosts: seq<Host>)

  datatype Error =
    | ContainerRequired
    | NoHost(ref: string)
    | AmbiguousHost(ref: string)
    | NoContainer(ref: string)
    | Ambiguous(ref: string, candidates: seq<Container>)

  datatype Result<T> = Ok(value: T) | Err(error: Error)

  datatype Target = Target(host: string, id: string)

  /** The note of the permissive resolver: what it chose among which candidates. */
  datatype Note = NoNote | Chosen(container: Container, candidates: seq<Container>)

  datatype Reading = Reading(target: Target, note: Note)

  // ---- Which containers a reference may mean ----

  datatype Tier = ById | ByName | BySubstring | Nowhere

  predicate MatchesID(id: string, ref: string) {
    id != "" && (Lower(id) == Lower(ref) || (|ref| >= 12 && Lower(ref) <= Lower(id)))
  }

  /** The tier a container falls into. */
  function TierOf(c: Container, ref: string): Tier {
    if MatchesID(c.id, ref) then ById
    else if EqualFold(c.name, ref) then ByName
    else if Contains(Lower(c.name), Lower(ref)) then BySubstring
    else Nowhere
  }

  predicate IsRunning(c: Container) { EqualFold(c.state, "running") }

  /** The one at position i, and no other, has the property. */
  ghost predicate Only<T(!new)>(p: T -> bool, s: seq<T>, i: nat)
    requires i < |s|
  {
    p(s[i]) && forall j :: 0 <= j < |s| && j != i ==> !p(s[j])
  }

  lemma {:induction false} TwoAreLeft<T(!new)>(p: T -> bool, s: seq<T>, i: nat, j: nat)
    requires i < j < |s| && p(s[i]) && p(s[j])
    ensures |Filter(p, s)| >= 2
  {
    var n := |s| - 1;
    if j == n {
      assert s[..n][i] in Filter(p, s[..n]);
    } else {
      TwoAreLeft(p, s[..n], i, j);
    }
  }

  lemma OneIsOnly<T(!new)>(p: T -> bool, s: seq<T>) returns (i: nat)
    requires |Filter(p, s)| == 1
    ensures i < |s| && Only(p, s, i)
  {
    var left := Filter(p, s);
    assert left[0] in left;
    i :| 0 <= i < |s| && s[i] == left[0];
    forall j | 0 <= j < |s| && j != i ensures !p(s[j]) {
      if p(s[j]) {
        TwoAreLeft(p, s, if i < j then i else j, if i < j then j else i);
      }
    }
  }

  lemma {:induction false} AtMostOne<T(!new)>(p: T -> bool, s: seq<T>, i: nat)
    requires forall j :: 0 <= j < |s| && j != i ==> !p(s[j])
    ensures |Filter(p, s)| <= if i < |s| then 1 else 0
  {
    if s != [] {
      AtMostOne(p, s[..|s| - 1], i);
    }
  }

  lemma OnlyIsFiltered<T(!new)>(p: T -> bool, s: seq<T>, i: nat)
    requires i < |s| && Only(p, s, i)
    ensures Filter(p, s) == [s[i]]
  {
    AtMostOne(p, s, i);
    assert s[i] in Filter(p, s);
  }

  /** The containers of one tier, in listing order. */
  function InTier(cs: seq<Container>, ref: string, tier: Tier): seq<Container> {
    Filter((c: Container) => TierOf(c, ref) == tier, cs)
  }

  /** The winning tier: the first that has any container. */
  function Candidates(cs: seq<Container>, ref: string): seq<Container> {
    if InTier(cs, ref, ById) != [] then InTier(cs, ref, ById)
    else if InTier(cs, ref, ByName) != [] then InTier(cs, ref, ByName)
    else InTier(cs, ref, BySubstring)
  }

  predicate Beats(a: Tier, b: Tier) {
    match a
    case ById => !b.ById?
    case ByName => b.BySubstring? || b.Nowhere?
    case BySubstring => b.Nowhere?
    case Nowhere => false
  }

  /** A container is a candidate exactly when it matches at all and no container matches better. */
  lemma CandidateIff(cs: seq<Container>, ref: string, c: Container)
    ensures c in Candidates(cs, ref) <==>
              c in cs && !TierOf(c, ref).Nowhere? && forall d :: d in cs ==> !Beats(TierOf(d, ref), TierOf(c, ref))
  {
    var ids, names := InTier(cs, ref, ById), InTier(cs, ref, ByName);
    if ids != [] {
      assert ids[0] in ids && TierOf(ids[0], ref).ById?;
    } else if names != [] {
      assert names[0] in names && TierOf(names[0], ref).ByName?;
    }
  }

  // ---- The tiers in the fields of a container ----

  predicate HasId(c: Container, ref: string) {
    c.id != "" && (SameText(c.id, ref) || (|ref| >= 12 && StandsAt(c.id, ref, 0)))
  }

  predicate HasName(c: Container, ref: string) { SameText(c.name, ref) }

  ghost predicate NameHas(c: Container, ref: string) { exists k: nat :: StandsAt(c.name, ref, k) }

  predicate Runs(c: Container) { SameText(c.state, "running") }

  lemma TierIs(c: Container, ref: string)
    ensures TierOf(c, ref) ==
            if HasId(c, ref) then ById
            else if HasName(c, ref) then ByName
            else if NameHas(c, ref) then BySubstring
            else Nowhere
  {
    EqualFoldIff(c.id, ref);
    PrefixIff(c.id, ref);
    EqualFoldIff(c.name, ref);
    ContainsIff(c.name, ref);
  }

  lemma RunningIff(c: Container)
    ensures IsRunning(c) <==> Runs(c)
  {
    EqualFoldIff(c.state, "running");
  }

  ghost predicate Matches(c: Container, ref: string) { HasId(c, ref) || HasName(c, ref) || NameHas(c, ref) }

  /** The containers that are searched: all of them, or those of one host. */
  ghost predicate Among(all: seq<Container>, anyHost: bool, host: string, c: Container) {
    c in all && (anyHost || c.host == host)
  }

  ghost predicate AnyHasId(all: seq<Container>, anyHost: bool, host: string, ref: string) {
    exists d :: Among(all, anyHost, host, d) && HasId(d, ref)
  }

  ghost predicate AnyHasName(all: seq<Container>, anyHost: bool, host: string, ref: string) {
    exists d :: Among(all, anyHost, host, d) && HasName(d, ref)
  }

  /** An id, in full or by 12 characters or more, comes before an exact name, that before a part of one. */
  ghost predicate Meant(all: seq<Container>, anyHost: bool, host: string, ref: string, c: Container) {
    && Among(all, anyHost, host, c)
    && if AnyHasId(all, anyHost, host, ref) then HasId(c, ref)
       else if AnyHasName(all, anyHost, host, ref) then HasName(c, ref)
       else NameHas(c, ref)
  }

  /** No container that is searched matches in a better way. */
  ghost predicate Unbeaten(all: seq<Container>, anyHost: bool, host: string, ref: string, c: Container) {
    forall d :: Among(all, anyHost, host, d) ==> !Beats(TierOf(d, ref), TierOf(c, ref))
  }

  lemma MeantIsUnbeaten(all: seq<Container>, anyHost: bool, host: string, ref: string, c: Container)
    requires Among(all, anyHost, host, c)
    ensures Meant(all, anyHost, host, ref, c) <==> Matches(c, ref) && Unbeaten(all, anyHost, host, ref, c)
  {
    TierIs(c, ref);
    forall d ensures HasId(d, ref) <==> TierOf(d, ref).ById? { TierIs(d, ref); }
    forall d ensures HasName(d, ref) && !HasId(d, ref) <==> TierOf(d, ref).ByName? { TierIs(d, ref); }
  }

  lemma CandidatesAreMeant(all: seq<Container>, anyHost: bool, host: string, ref: string, c: Container)
    ensures c in Candidates(if anyHost then all else OnHost(all, host), ref) <==> Meant(all, anyHost, host, ref, c)
  {
    var cs := if anyHost then all else OnHost(all, host);
    CandidateIff(cs, ref, c);
    TierIs(c, ref);
    if c in cs {
      MeantIsUnbeaten(all, anyHost, host, ref, c);
      assert forall d :: d in cs <==> Among(all, anyHost, host, d);
    }
  }

  function OnHost(cs: seq<Container>, host: string): seq<Container> {
    Filter((c: Container) => c.host == host, cs)
  }

  // ---- Hosts ----

  /** An id wins over any name; a name must be unique. */
  function HostMeant(hosts: seq<Host>, ref: string): Result<string> {
    var named := Named(hosts, ref);
    if Listed(hosts, ref) then Ok(ref)
    else if named == [] then Err(NoHost(ref))
    else if |named| == 1 then Ok(named[0].id)
    else Err(AmbiguousHost(ref))
  }

  predicate Listed(hosts: seq<Host>, ref: string) { exists i :: 0 <= i < |hosts| && hosts[i].id == ref }

  function Named(hosts: seq<Host>, ref: string): seq<Host> {
    Filter((h: Host) => EqualFold(h.name, ref), hosts)
  }

  lemma NamedNext(hosts: seq<Host>, ref: string, i: nat)
    requires i < |hosts|
    ensures Named(hosts[..i + 1], ref) ==
            Named(hosts[..i], ref) + if EqualFold(hosts[i].name, ref) then [hosts[i]] else []
  {
    FilterNext((h: Host) => EqualFold(h.name, ref), hosts, i);
  }

  method ResolveHostRef(hosts: seq<Host>, ref: string) returns (r: Result<string>)
    ensures r == HostMeant(hosts, ref)
  {
    var byName := [];
    for i := 0 to |hosts|
      invariant forall j :: 0 <= j < i ==> hosts[j].id != ref
      invariant byName == Named(hosts[..i], ref)
    {
      var h := hosts[i];
      if h.id == ref {
        return Ok(h.id);
      }
      NamedNext(hosts, ref, i);
      if EqualFold(h.name, ref) {
        byName := byName + [h];
      }
    }
    assert hosts[..|hosts|] == hosts && !Listed(hosts, ref);
    if |byName| == 0 {
      return Err(NoHost(ref));
    }
    r := if |byName| == 1 then Ok(byName[0].id) else Err(AmbiguousHost(ref));
  }

  // ---- Matching ----

  /** host is "" when no host was asked for. */
  datatype Match = Match(candidates: seq<Container>, host: string)

  function Matching(ref: string, hostRef: string, all: Listing): Result<Match> {
    var wanted, host := TrimSpace(ref), TrimSpace(hostRef);
    if wanted == "" then Err(ContainerRequired)
    else if host == "" then Ok(Match(Candidates(all.containers, wanted), ""))
    else match HostMeant(all.hosts, host)
      case Err(e) => Err(e)
      case Ok(id) => Ok(Match(Candidates(OnHost(all.containers, id), wanted), id))
  }

  method Scope(cs: seq<Container>, host: string) returns (filtered: seq<Container>)
    ensures filtered == OnHost(cs, host)
  {
    filtered := [];
    for i := 0 to |cs|
      invariant filtered == OnHost(cs[..i], host)
    {
      FilterNext((c: Container) => c.host == host, cs, i);
      if cs[i].host == host {
        filtered := filtered + [cs[i]];
      }
    }
    assert cs[..|cs|] == cs;
  }

  lemma InTierNext(cs: seq<Container>, ref: string, tier: Tier, i: nat)
    requires i < |cs|
    ensures InTier(cs[..i + 1], ref, tier) ==
            InTier(cs[..i], ref, tier) + if TierOf(cs[i], ref) == tier then [cs[i]] else []
  {
    FilterNext((c: Container) => TierOf(c, ref) == tier, cs, i);
  }

  method WinningTier(cs: seq<Container>, ref: string) returns (tier: seq<Container>)
    ensures tier == Candidates(cs, ref)
  {
    var exactID, exactName, substring := [], [], [];
    for i := 0 to |cs|
      invariant exactID == InTier(cs[..i], ref, ById)
      invariant exactName == InTier(cs[..i], ref, ByName)
      invariant substring == InTier(cs[..i], ref, BySubstring)
    {
      InTierNext(cs, ref, ById, i);
      InTierNext(cs, ref, ByName, i);
      InTierNext(cs, ref, BySubstring, i);
      var c := cs[i];
      if MatchesID(c.id, ref) {
        exactID := exactID + [c];
      } else if EqualFold(c.name, ref) {
        exactName := exactName + [c];
      } else if Contains(Lower(c.name), Lower(ref)) {
        substring := substring + [c];
      }
    }
    assert cs[..|cs|] == cs;
    if |exactID| > 0 {
      return exactID;
    }
    if |exactName| > 0 {
      return exactName;
    }
    tier := substring;
  }

  method MatchContainerTier(ref: string, hostRef: string, all: Listing) returns (r: Result<Match>)
    ensures r == Matching(ref, hostRef, all)
    ensures r.Ok? ==> forall c :: c in r.value.candidates <==>
              Meant(all.containers, TrimSpace(hostRef) == "", r.value.host, TrimSpace(ref), c)
  {
    var wanted := TrimSpace(ref);
    if wanted == "" {
      return Err(ContainerRequired);
    }
    var containers, scoped := all.containers, "";
    var host := TrimSpace(hostRef);
    if host != "" {
      var found := ResolveHostRef(all.hosts, host);
      if found.Err? {
        return Err(found.error);
      }
      scoped := found.value;
      containers := Scope(containers, scoped);
    }
    var tier := WinningTier(containers, wanted);
    forall c ensures c in tier <==> Meant(all.containers, host == "", scoped, wanted, c) {
      CandidatesAreMeant(all.containers, host == "", scoped, wanted, c);
    }
    r := Ok(Match(tier, scoped));
  }

  // ---- Choosing ----

  method RunningContainers(cs: seq<Container>) returns (live: seq<Container>)
    ensures live == Filter(IsRunning, cs)
  {
    live := [];
    for i := 0 to |cs|
      invariant live == Filter(IsRunning, cs[..i])
    {
      FilterNext(IsRunning, cs, i);
      if IsRunning(cs[i]) {
        live := live + [cs[i]];
      }
    }
    assert cs[..|cs|] == cs;
  }

  predicate MoreRelevant(a: Container, b: Container) {
    if IsRunning(a) != IsRunning(b) then IsRunning(a)
    else if a.startedAt != b.startedAt then a.startedAt > b.startedAt
    else if a.finishedAt != b.finishedAt then a.finishedAt > b.finishedAt
    else a.created > b.created
  }

  /** Being more relevant is a strict weak order. */
  lemma MoreRelevantIsStrictWeak(a: Container, b: Container, c: Container)
    ensures !MoreRelevant(a, a)
    ensures MoreRelevant(a, b) ==> !MoreRelevant(b, a)
    ensures MoreRelevant(a, b) && MoreRelevant(b, c) ==> MoreRelevant(a, c)
    ensures !MoreRelevant(a, b) && !MoreRelevant(b, c) ==> !MoreRelevant(a, c)
  {
  }

  /** c is at position i, nothing is more relevant and nothing before it is as relevant. */
  ghost predicate IsBest(cs: seq<Container>, c: Container) {
    exists i :: 0 <= i < |cs| && cs[i] == c && BestAt(cs, i)
  }

  ghost predicate BestAt(cs: seq<Container>, i: nat)
    requires i < |cs|
  {
    && (forall j :: 0 <= j < |cs| ==> !MoreRelevant(cs[j], cs[i]))
    && (forall j :: 0 <= j < i ==> MoreRelevant(cs[i], cs[j]))
  }

  /** No candidate is better: running comes first, then the newest start, the newest end, the newest. */
  ghost predicate NoneBetter(cs: seq<Container>, b: Container) {
    forall c :: c in cs ==> NotBetter(c, b)
  }

  predicate NotBetter(c: Container, b: Container) {
    && (Runs(c) ==> Runs(b))
    && (Runs(c) == Runs(b) ==>
          && c.startedAt <= b.startedAt
          && (c.startedAt == b.startedAt ==>
                && c.finishedAt <= b.finishedAt
                && (c.finishedAt == b.finishedAt ==> c.created <= b.created)))
  }

  lemma BestIsNoneBetter(cs: seq<Container>, b: Container)
    requires IsBest(cs, b)
    ensures NoneBetter(cs, b)
  {
    var i :| 0 <= i < |cs| && cs[i] == b && BestAt(cs, i);
    RunningIff(b);
    forall c | c in cs ensures NotBetter(c, b) {
      RunningIff(c);
      var j :| 0 <= j < |cs| && cs[j] == c;
      assert !MoreRelevant(cs[j], cs[i]);
    }
  }

  method BestCandidate(cs: seq<Container>) returns (best: Container)
    requires cs != []
    ensures IsBest(cs, best) && best in cs && NoneBetter(cs, best)
  {
    best := cs[0];
    ghost var at := 0;
    for i := 1 to |cs|
      invariant at < i && cs[at] == best && BestAt(cs[..i], at)
    {
      var c := cs[i];
      ghost var was := at;
      if MoreRelevant(c, best) {
        best, at := c, i;
      }
      BestNext(cs, was, i);
    }
    assert cs[..|cs|] == cs;
    BestIsNoneBetter(cs, best);
  }

  lemma BestNext(cs: seq<Container>, at: nat, i: nat)
    requires at < i < |cs| && BestAt(cs[..i], at)
    ensures BestAt(cs[..i + 1], if MoreRelevant(cs[i], cs[at]) then i else at)
  {
    var all := cs[..i + 1];
    assert forall j :: 0 <= j < i ==> all[j] == cs[..i][j];
    forall j | 0 <= j < i ensures MoreRelevant(cs[i], cs[at]) ==> MoreRelevant(cs[i], all[j]) {
      assert !MoreRelevant(cs[..i][j], cs[..i][at]);
      MoreRelevantIsStrictWeak(cs[i], all[j], cs[at]);
      MoreRelevantIsStrictWeak(all[j], cs[at], cs[i]);
    }
    MoreRelevantIsStrictWeak(cs[i], cs[i], cs[i]);
  }

  /** There is exactly one best candidate. */
  lemma BestIsUnique(cs: seq<Container>, a: Container, b: Container)
    requires IsBest(cs, a) && IsBest(cs, b)
    ensures a == b
  {
  }

  ghost function Best(cs: seq<Container>): (c: Container)
    requires cs != []
    ensures IsBest(cs, c) && c in cs
  {
    var n := |cs| - 1;
    if n == 0 then assert BestAt(cs, 0); cs[0]
    else
      var c := Best(cs[..n]);
      BestGrows(cs, c);
      if MoreRelevant(cs[n], c) then cs[n] else c
  }

  lemma BestGrows(cs: seq<Container>, c: Container)
    requires |cs| > 1 && IsBest(cs[..|cs| - 1], c)
    ensures IsBest(cs, if MoreRelevant(cs[|cs| - 1], c) then cs[|cs| - 1] else c)
  {
    var n := |cs| - 1;
    var i :| 0 <= i < n && cs[..n][i] == c && BestAt(cs[..n], i);
    BestNext(cs, i, n);
    assert cs[..n + 1] == cs;
  }

  /** A running candidate is never passed over for a stopped one. */
  lemma BestRuns(cs: seq<Container>, c: Container)
    requires c in cs && IsRunning(c)
    ensures IsRunning(Best(cs))
  {
  }

  // ---- The two resolvers ----

  function TargetOf(c: Container): Target { Target(c.host, c.id) }

  /** What the strict resolver makes of the candidates. */
  function Decide(wanted: string, m: Match): Result<Target> {
    var live := Filter(IsRunning, m.candidates);
    if m.candidates == [] then
      if m.host != "" then Ok(Target(m.host, wanted)) else Err(NoContainer(wanted))
    else if |m.candidates| == 1 then Ok(TargetOf(m.candidates[0]))
    else if |live| == 1 then Ok(TargetOf(live[0]))
    else Err(Ambiguous(wanted, m.candidates))
  }

  function Strict(ref: string, hostRef: string, all: Listing): Result<Target> {
    match Matching(ref, hostRef, all)
    case Err(e) => Err(e)
    case Ok(m) => Decide(TrimSpace(ref), m)
  }

  method ResolveContainerRef(ref: string, hostRef: string, all: Listing) returns (r: Result<Target>)
    ensures r == Strict(ref, hostRef, all)
  {
    var found := MatchContainerTier(ref, hostRef, all);
    if found.Err? {
      return Err(found.error);
    }
    var tier := found.value.candidates;
    if |tier| == 0 {
      r := if found.value.host != "" then Ok(Target(found.value.host, TrimSpace(ref)))
           else Err(NoContainer(TrimSpace(ref)));
    } else if |tier| == 1 {
      r := Ok(TargetOf(tier[0]));
    } else {
      var live := RunningContainers(tier);
      r := if |live| == 1 then Ok(TargetOf(live[0])) else Err(Ambiguous(TrimSpace(ref), tier));
    }
  }

  /** Where the strict resolver answers, the permissive one gives the same answer without a note;
      it leaves a note exactly when the strict one calls the reference ambiguous, and then its answer
      is the candidate to which no other is preferred. Other errors are the same. */
  method ResolveContainerRefRead(ref: string, hostRef: string, all: Listing) returns (r: Result<Reading>)
    ensures r == Permissive(Strict(ref, hostRef, all))
    ensures Strict(ref, hostRef, all).Ok? ==> r == Ok(Reading(Strict(ref, hostRef, all).value, NoNote))
    ensures r.Ok? && r.value.note.NoNote? ==> Strict(ref, hostRef, all) == Ok(r.value.target)
    ensures r.Ok? && r.value.note.Chosen? ==>
              var note := r.value.note;
              && Strict(ref, hostRef, all) == Err(Ambiguous(TrimSpace(ref), note.candidates))
              && Found(ref, hostRef, all, note.candidates) && |note.candidates| >= 2
              && r.value.target == Target(note.container.host, note.container.id)
              && note.container in note.candidates && NoneBetter(note.candidates, note.container)
              && IsBest(note.candidates, note.container)
    ensures r.Err? ==> Strict(ref, hostRef, all) == Err(r.error) && !r.error.Ambiguous?
  {
    var found := MatchContainerTier(ref, hostRef, all);
    if found.Err? {
      return Err(found.error);
    }
    var tier := found.value.candidates;
    if |tier| == 0 {
      if found.value.host != "" {
        return Ok(Reading(Target(found.value.host, TrimSpace(ref)), NoNote));
      }
      return Err(NoContainer(TrimSpace(ref)));
    }
    if |tier| == 1 {
      return Ok(Reading(TargetOf(tier[0]), NoNote));
    }
    var live := RunningContainers(tier);
    if |live| == 1 {
      return Ok(Reading(TargetOf(live[0]), NoNote));
    }
    var best := BestCandidate(tier);
    BestIsUnique(tier, best, Best(tier));
    r := Ok(Reading(TargetOf(best), Chosen(best, tier)));
  }

  ghost function Permissive(strict: Result<Target>): Result<Reading> {
    match strict
    case Ok(t) => Ok(Reading(t, NoNote))
    case Err(Ambiguous(_, candidates)) =>
      if candidates == [] then Err(strict.error)
      else Ok(Reading(TargetOf(Best(candidates)), Chosen(Best(candidates), candidates)))
    case Err(e) => Err(e)
  }

  /** The candidates a reference has, within the host asked for. */
  ghost predicate Found(ref: string, hostRef: string, all: Listing, cs: seq<Container>) {
    Matching(ref, hostRef, all).Ok? && Matching(ref, hostRef, all).value.candidates == cs
  }

  /** Position i is the only candidate, or the only running one. */
  ghost predicate Unambiguous(cs: seq<Container>, i: nat)
    requires i < |cs|
  {
    |cs| == 1 || (Runs(cs[i]) && forall j :: 0 <= j < |cs| && j != i ==> !Runs(cs[j]))
  }

  lemma UnambiguousIff(cs: seq<Container>, i: nat)
    requires i < |cs|
    ensures Unambiguous(cs, i) <==> |cs| == 1 || Only(IsRunning, cs, i)
  {
    forall j | 0 <= j < |cs| ensures IsRunning(cs[j]) <==> Runs(cs[j]) {
      RunningIff(cs[j]);
    }
  }

  lemma DecideIff(wanted: string, m: Match)
    requires m.candidates != []
    ensures Decide(wanted, m).Ok? <==> exists i :: 0 <= i < |m.candidates| && Unambiguous(m.candidates, i)
    ensures forall i :: 0 <= i < |m.candidates| && Unambiguous(m.candidates, i) ==>
              Decide(wanted, m) == Ok(TargetOf(m.candidates[i]))
    ensures Decide(wanted, m).Err? ==> Decide(wanted, m).error == Ambiguous(wanted, m.candidates)
  {
    var cs := m.candidates;
    if |cs| == 1 {
      assert Unambiguous(cs, 0);
    } else {
      forall i | 0 <= i < |cs| && Unambiguous(cs, i) ensures Decide(wanted, m) == Ok(TargetOf(cs[i])) {
        UnambiguousIff(cs, i);
        OnlyIsFiltered(IsRunning, cs, i);
      }
      if Decide(wanted, m).Ok? {
        var i := OneIsOnly(IsRunning, cs);
        UnambiguousIff(cs, i);
        assert Unambiguous(cs, i);
      }
    }
  }

  /** The strict resolver never chooses between live containers: among candidates it succeeds exactly
      when one of them is the only one, or the only running one, and then it answers with that one. */
  lemma StrictIff(ref: string, hostRef: string, all: Listing, cs: seq<Container>)
    requires Found(ref, hostRef, all, cs) && cs != []
    ensures Strict(ref, hostRef, all).Ok? <==> exists i :: 0 <= i < |cs| && Unambiguous(cs, i)
    ensures forall i :: 0 <= i < |cs| && Unambiguous(cs, i) ==>
              Strict(ref, hostRef, all) == Ok(Target(cs[i].host, cs[i].id))
    ensures Strict(ref, hostRef, all).Err? ==> Strict(ref, hostRef, all).error == Ambiguous(TrimSpace(ref), cs)
  {
    DecideIff(TrimSpace(ref), Matching(ref, hostRef, all).value);
  }

  /** A blank reference and an unknown host are errors. A reference that no container has is passed on to
      the host asked for, or is an error if none was. */
  lemma StrictOtherwise(ref: string, hostRef: string, all: Listing)
    ensures var wanted, host, r := TrimSpace(ref), TrimSpace(hostRef), Strict(ref, hostRef, all);
            && (wanted == "" ==> r == Err(ContainerRequired))
            && (wanted != "" && host != "" && HostMeant(all.hosts, host).Err? ==>
                  r == Err(HostMeant(all.hosts, host).error))
            && (wanted != "" && host == "" && (forall c :: !Meant(all.containers, true, "", wanted, c)) ==>
                  r == Err(NoContainer(wanted)))
            && (wanted != "" && host != "" ==>
                  match HostMeant(all.hosts, host)
                  case Err(e) => r == Err(e)
                  case Ok(id) =>
                    (forall c :: !Meant(all.containers, false, id, wanted, c)) ==>
                      r == if id != "" then Ok(Target(id, wanted)) else Err(NoContainer(wanted)))
  {
    var wanted, host := TrimSpace(ref), TrimSpace(hostRef);
    if wanted != "" && Matching(ref, hostRef, all).Ok? {
      var m := Matching(ref, hostRef, all).value;
      if m.candidates != [] {
        CandidatesAreMeant(all.containers, host == "", m.host, wanted, m.candidates[0]);
      }
    }
  }

  /** An answer is one of the candidates unless there are none. */
  lemma AnswerIsCandidate(wanted: string, m: Match) returns (c: Container)
    requires Permissive(Decide(wanted, m)).Ok? && m.candidates != []
    ensures c in m.candidates && Permissive(Decide(wanted, m)).value.target == TargetOf(c)
  {
    var live := Filter(IsRunning, m.candidates);
    if |m.candidates| == 1 {
      c := m.candidates[0];
    } else if |live| == 1 {
      c := live[0];
      assert c in live;
    } else {
      c := Best(m.candidates);
    }
  }

  /** The answer is a container that matches the reference, on the host that was asked for; or, with
      a host and no match, the reference is passed on to that host as it stands. */
  lemma ScopeIsRespected(ref: string, hostRef: string, all: Listing)
    ensures Permissive(Strict(ref, hostRef, all)).Ok? ==>
            var t := Permissive(Strict(ref, hostRef, all)).value.target;
            && (TrimSpace(hostRef) != "" ==> HostMeant(all.hosts, TrimSpace(hostRef)) == Ok(t.host))
            && ((exists c :: c in all.containers && c.host == t.host && c.id == t.id && Matches(c, TrimSpace(ref))) ||
                (TrimSpace(hostRef) != "" && Found(ref, hostRef, all, []) && t.id == TrimSpace(ref)))
  {
    if Permissive(Strict(ref, hostRef, all)).Ok? && Matching(ref, hostRef, all).Ok? {
      var m := Matching(ref, hostRef, all).value;
      if m.candidates != [] {
        var c := AnswerIsCandidate(TrimSpace(ref), m);
        CandidateOfMatch(ref, hostRef, all, c);
      }
    }
  }

  lemma CandidateOfMatch(ref: string, hostRef: string, all: Listing, c: Container)
    requires Matching(ref, hostRef, all).Ok? && c in Matching(ref, hostRef, all).value.candidates
    ensures c in all.containers && Matches(c, TrimSpace(ref))
    ensures TrimSpace(hostRef) != "" ==> c.host == Matching(ref, hostRef, all).value.host
  {
    var m := Matching(ref, hostRef, all).value;
    CandidatesAreMeant(all.containers, TrimSpace(hostRef) == "", m.host, TrimSpace(ref), c);
  }

  /** The host at position i, and no other, has this name. */
  ghost predicate OnlyNamed(hosts: seq<Host>, ref: string, i: nat)
    requires i < |hosts|
  {
    SameText(hosts[i].name, ref) && forall j :: 0 <= j < |hosts| && j != i ==> !SameText(hosts[j].name, ref)
  }

  lemma OnlyNamedIff(hosts: seq<Host>, ref: string, i: nat)
    requires i < |hosts|
    ensures OnlyNamed(hosts, ref, i) <==> Only((h: Host) => EqualFold(h.name, ref), hosts, i)
  {
    forall j | 0 <= j < |hosts| ensures EqualFold(hosts[j].name, ref) <==> SameText(hosts[j].name, ref) {
      EqualFoldIff(hosts[j].name, ref);
    }
  }

  /** A host reference resolves exactly to an id that is listed, or else to the host that alone has the
      name; it fails as unknown exactly if neither an id nor a name matches. */
  lemma HostMeantIff(hosts: seq<Host>, ref: string, id: string)
    ensures HostMeant(hosts, ref) == Ok(id) <==>
            if Listed(hosts, ref) then id == ref
            else exists i :: 0 <= i < |hosts| && OnlyNamed(hosts, ref, i) && hosts[i].id == id
    ensures HostMeant(hosts, ref) == Err(NoHost(ref)) <==>
            forall h :: h in hosts ==> h.id != ref && !SameText(h.name, ref)
  {
    var p := (h: Host) => EqualFold(h.name, ref);
    var named := Named(hosts, ref);
    assert Listed(hosts, ref) <==> exists h :: h in hosts && h.id == ref;
    if |named| == 1 {
      var i := OneIsOnly(p, hosts);
      OnlyNamedIff(hosts, ref, i);
      assert OnlyNamed(hosts, ref, i);
      OnlyIsFiltered(p, hosts, i);
    }
    forall i | 0 <= i < |hosts| && OnlyNamed(hosts, ref, i) ensures named == [hosts[i]] {
      OnlyNamedIff(hosts, ref, i);
      OnlyIsFiltered(p, hosts, i);
    }
    forall h: Host ensures EqualFold(h.name, ref) <==> SameText(h.name, ref) { EqualFoldIff(h.name, ref); }
    if named != [] {
      assert named[0] in named;
    }
  }

  /** An id prefix can be ambiguous: two running containers whose ids both match the reference are
      candidates alike, and the strict resolver refuses to choose. */
  lemma IdMatchesCanBeAmbiguous(ref: string, a: Container, b: Container)
    requires TrimSpace(ref) != "" && MatchesID(a.id, TrimSpace(ref)) && MatchesID(b.id, TrimSpace(ref))
    requires IsRunning(a) && IsRunning(b) && a.id != b.id
    ensures Strict(ref, "", Listing([a, b], [])) == Err(Ambiguous(TrimSpace(ref), [a, b]))
  {
    var cs, wanted := [a, b], TrimSpace(ref);
    assert cs[..1] == [a] && [a][..0] == [];
    assert InTier([a], wanted, ById) == [a];
    assert InTier(cs, wanted, ById) == cs;
    assert Filter(IsRunning, [a]) == [a] && Filter(IsRunning, cs) == cs;
    assert TrimSpace("") == "";
  }

  /** Two ids that differ in their 13th character, and a reference of 12. */
  lemma IdPrefixExample()
    ensures var ref := "0123456789ab";
            var a := Container(ref + "c", "x", "h", "running", 0, 0, 0);
            var b := Container(ref + "d", "y", "h", "running", 0, 0, 0);
            Strict(ref, "", Listing([a, b], [])) == Err(Ambiguous(ref, [a, b]))
  {
    var ref := "0123456789ab";
    var a := Container(ref + "c", "x", "h", "running", 0, 0, 0);
    var b := Container(ref + "d", "y", "h", "running", 0, 0, 0);
    assert TrimSpace(ref) == ref;
    assert Lower(ref) <= Lower(a.id) && Lower(ref) <= Lower(b.id);
    assert a.id[12] != b.id[12];
    IdMatchesCanBeAmbiguous(ref, a, b);
  }
}
