/** The account references of a configuration, resolved against a pool: the
    check at start and reload, and the gate around account operations. */
module References {
  import opened Wrappers

  datatype Provider = Anthropic | Codex

  type Handle(==, !new)

  /** What an account is referred to by. */
  type Profile(==, !new)

  datatype Account = Account(handle: Handle, provider: Provider, profile: Profile)

  /** Whether a reference names an account: by name, address, or handle, folded. */
  type Refers = (Account, string) -> bool

  datatype Why = NotFound | Ambiguous

  const ALL := [Anthropic, Codex]

  function Matching(pool: seq<Account>, refers: Refers, provider: Provider, reference: string): (found: seq<Account>)
    ensures forall a :: a in found <==> a in pool && a.provider == provider && refers(a, reference)
  {
    if pool == [] then []
    else
      var rest := Matching(pool[1..], refers, provider, reference);
      assert pool == [pool[0]] + pool[1..];
      if pool[0].provider == provider && refers(pool[0], reference) then [pool[0]] + rest else rest
  }

  function ResolveIn(pool: seq<Account>, refers: Refers, provider: Provider, reference: string): Result<Account, Why> {
    var found := Matching(pool, refers, provider, reference);
    if found == [] then Err(NotFound) else if |found| == 1 then Ok(found[0]) else Err(Ambiguous)
  }

  predicate AmbiguousAmong(pool: seq<Account>, refers: Refers, providers: seq<Provider>, reference: string) {
    exists i :: 0 <= i < |providers| && |Matching(pool, refers, providers[i], reference)| > 1
  }

  /** The accounts named within each provider, in the order of the providers. */
  function NamedAmong(pool: seq<Account>, refers: Refers, providers: seq<Provider>, reference: string): (named: seq<Account>)
    ensures forall a :: a in named <==> a in pool && a.provider in providers && refers(a, reference)
  {
    if providers == [] then []
    else
      assert providers == providers[..|providers| - 1] + [providers[|providers| - 1]];
      NamedAmong(pool, refers, providers[..|providers| - 1], reference)
      + Matching(pool, refers, providers[|providers| - 1], reference)
  }

  function Resolution(pool: seq<Account>, refers: Refers, reference: string): Result<seq<Account>, Why> {
    if AmbiguousAmong(pool, refers, ALL, reference) then Err(Ambiguous)
    else if NamedAmong(pool, refers, ALL, reference) == [] then Err(NotFound)
    else Ok(NamedAmong(pool, refers, ALL, reference))
  }

  lemma NoProviders(pool: seq<Account>, refers: Refers, reference: string)
    ensures NamedAmong(pool, refers, ALL[..0], reference) == [] && !AmbiguousAmong(pool, refers, ALL[..0], reference)
  {
  }

  /** What one provider's answer adds to those before it. */
  lemma OneMoreProvider(pool: seq<Account>, refers: Refers, i: nat, reference: string)
    requires i < |ALL|
    ensures var one := ResolveIn(pool, refers, ALL[i], reference);
            && (one.Ok? ==> NamedAmong(pool, refers, ALL[..i + 1], reference)
                            == NamedAmong(pool, refers, ALL[..i], reference) + [one.value])
            && (one == Err(NotFound) ==> NamedAmong(pool, refers, ALL[..i + 1], reference)
                                         == NamedAmong(pool, refers, ALL[..i], reference) + [])
            && (one == Err(Ambiguous) ==> AmbiguousAmong(pool, refers, ALL, reference))
            && (one != Err(Ambiguous) && !AmbiguousAmong(pool, refers, ALL[..i], reference) ==>
                  !AmbiguousAmong(pool, refers, ALL[..i + 1], reference))
  {
    assert ALL[..i + 1][..i] == ALL[..i] && ALL[..i + 1][i] == ALL[i];
    assert forall j :: 0 <= j < i ==> ALL[..i + 1][j] == ALL[..i][j];
    hide Matching;
    if ResolveIn(pool, refers, ALL[i], reference) == Err(Ambiguous) {
      assert |Matching(pool, refers, ALL[i], reference)| > 1;
    }
  }

  /** One account per provider at most, and one at least. */
  method Resolve(pool: seq<Account>, refers: Refers, reference: string) returns (r: Result<seq<Account>, Why>)
    ensures r == Resolution(pool, refers, reference)
  {
    hide NamedAmong, AmbiguousAmong, Matching;
    NoProviders(pool, refers, reference);
    var found: seq<Account> := [];
    for i := 0 to |ALL|
      invariant found == NamedAmong(pool, refers, ALL[..i], reference)
      invariant !AmbiguousAmong(pool, refers, ALL[..i], reference)
    {
      OneMoreProvider(pool, refers, i, reference);
      match ResolveIn(pool, refers, ALL[i], reference) {
        case Ok(account) => found := found + [account];
        case Err(NotFound) => assert found + [] == found;
        case Err(Ambiguous) => return Err(Ambiguous);
      }
    }
    assert ALL[..|ALL|] == ALL;
    return if found == [] then Err(NotFound) else Ok(found);
  }

  /** A refusal says which: two accounts of one provider answer, or none at all. */
  lemma RefusedWhy(pool: seq<Account>, refers: Refers, reference: string)
    ensures Resolution(pool, refers, reference) == Err(NotFound) <==> forall a :: a in pool ==> !refers(a, reference)
    ensures Resolution(pool, refers, reference) == Err(Ambiguous) <==>
            exists i, j :: 0 <= i < j < |pool| && pool[i].provider == pool[j].provider
              && refers(pool[i], reference) && refers(pool[j], reference)
  {
    EveryProvider();
    TwoMatch(pool, refers, Anthropic, reference);
    TwoMatch(pool, refers, Codex, reference);
    var named := NamedAmong(pool, refers, ALL, reference);
    assert named != [] ==> named[0] in named;
    assert ALL[0] == Anthropic && ALL[1] == Codex;
    NoneMatches(pool, refers, Anthropic, reference);
    NoneMatches(pool, refers, Codex, reference);
    if exists a :: a in pool && refers(a, reference) {
      var a :| a in pool && refers(a, reference);
      assert a in named;
    }
  }

  lemma {:induction false} NoneMatches(pool: seq<Account>, refers: Refers, provider: Provider, reference: string)
    ensures Matching(pool, refers, provider, reference) == [] <==>
            forall a :: a in pool && a.provider == provider ==> !refers(a, reference)
  {
    if pool != [] {
      NoneMatches(pool[1..], refers, provider, reference);
      assert pool == [pool[0]] + pool[1..];
    }
  }

  lemma {:induction false} TwoMatch(pool: seq<Account>, refers: Refers, provider: Provider, reference: string)
    ensures |Matching(pool, refers, provider, reference)| > 1 <==>
            exists i, j :: 0 <= i < j < |pool| && pool[i].provider == provider && pool[j].provider == provider
              && refers(pool[i], reference) && refers(pool[j], reference)
  {
    if pool != [] {
      var rest := pool[1..];
      TwoMatch(rest, refers, provider, reference);
      assert forall i :: 0 <= i < |rest| ==> rest[i] == pool[i + 1];
      var found := Matching(rest, refers, provider, reference);
      if pool[0].provider == provider && refers(pool[0], reference) && found != [] {
        assert found[0] in found && found[0] in rest;
        var j :| 0 <= j < |rest| && rest[j] == found[0];
        assert pool[j + 1].provider == provider && refers(pool[j + 1], reference);
      }
    }
  }

  // ---------------------------------------------------------------- at start and reload

  datatype Site = Route(name: string) | Priority

  datatype ReferenceSite = ReferenceSite(target: string, literal: string, site: Site)

  predicate Resolves(pool: seq<Account>, refers: Refers, site: ReferenceSite) {
    Resolution(pool, refers, site.literal).Ok?
  }

  function Handles(accounts: seq<Account>): (handles: seq<Handle>)
    ensures |handles| == |accounts| && forall i :: 0 <= i < |accounts| ==> handles[i] == accounts[i].handle
  {
    seq(|accounts|, i requires 0 <= i < |accounts| => accounts[i].handle)
  }

  /** The accounts a priority entry covers; a route covers none. */
  function Covered(pool: seq<Account>, refers: Refers, site: ReferenceSite): seq<Handle> {
    var r := Resolution(pool, refers, site.literal);
    if site.site.Priority? && r.Ok? then Handles(r.value) else []
  }

  predicate Share(a: seq<Handle>, b: seq<Handle>) {
    exists h :: h in a && h in b
  }

  ghost predicate Consistent(pool: seq<Account>, refers: Refers, sites: seq<ReferenceSite>) {
    && (forall i :: 0 <= i < |sites| ==> Resolves(pool, refers, sites[i]))
    && forall i, j :: 0 <= i < j < |sites| ==> !Share(Covered(pool, refers, sites[i]), Covered(pool, refers, sites[j]))
  }

  /** The handles the entries so far cover. */
  ghost predicate Covers(pool: seq<Account>, refers: Refers, sites: seq<ReferenceSite>, covered: seq<Handle>) {
    && (forall h :: h in covered ==> exists i :: 0 <= i < |sites| && h in Covered(pool, refers, sites[i]))
    && forall i :: 0 <= i < |sites| ==> forall h :: h in Covered(pool, refers, sites[i]) ==> h in covered
  }

  /** What the entries so far cover: an entry that overlaps an earlier one covers nothing. */
  function CoveredSoFar(pool: seq<Account>, refers: Refers, sites: seq<ReferenceSite>): seq<Handle> {
    if sites == [] then []
    else
      var before := CoveredSoFar(pool, refers, sites[..|sites| - 1]);
      var handles := Covered(pool, refers, sites[|sites| - 1]);
      if Share(handles, before) then before else before + handles
  }

  /** The keys reported: of each reference that does not resolve, and of each
      priority entry that overlaps one before it. */
  function ErrorTargets(pool: seq<Account>, refers: Refers, sites: seq<ReferenceSite>): seq<string> {
    if sites == [] then []
    else
      var front, last := sites[..|sites| - 1], sites[|sites| - 1];
      var bad := !Resolves(pool, refers, last) || Share(Covered(pool, refers, last), CoveredSoFar(pool, refers, front));
      ErrorTargets(pool, refers, front) + if bad then [last.target] else []
  }

  method Errors(pool: seq<Account>, refers: Refers, sites: seq<ReferenceSite>) returns (targets: seq<string>)
    ensures targets == ErrorTargets(pool, refers, sites)
  {
    targets := [];
    var covered: seq<Handle> := [];
    for i := 0 to |sites|
      invariant targets == ErrorTargets(pool, refers, sites[..i]) && covered == CoveredSoFar(pool, refers, sites[..i])
    {
      assert sites[..i + 1][..i] == sites[..i];
      var resolved := Resolve(pool, refers, sites[i].literal);
      if resolved.Err? {
        targets := targets + [sites[i].target];
        assert covered + [] == covered;
      } else if sites[i].site.Priority? {
        if Share(Handles(resolved.value), covered) {
          targets := targets + [sites[i].target];
        } else {
          covered := covered + Handles(resolved.value);
          assert targets + [] == targets;
        }
      } else {
        assert covered + [] == covered && targets + [] == targets;
      }
    }
    assert sites[..|sites|] == sites;
  }

  /** No error is reported exactly when every reference resolves and the
      priority entries cover pairwise disjoint accounts. */
  lemma {:induction false} NoErrorsIffConsistent(pool: seq<Account>, refers: Refers, sites: seq<ReferenceSite>)
    ensures ErrorTargets(pool, refers, sites) == [] <==> Consistent(pool, refers, sites)
    ensures Consistent(pool, refers, sites) ==> Covers(pool, refers, sites, CoveredSoFar(pool, refers, sites))
  {
    hide Consistent, Covers, Resolves, Covered, Share;
    if sites == [] {
      NothingIsConsistent(pool, refers);
    } else {
      var front, last := sites[..|sites| - 1], sites[|sites| - 1];
      NoErrorsIffConsistent(pool, refers, front);
      ConsistentStep(pool, refers, front, last, CoveredSoFar(pool, refers, front));
      assert sites == front + [last];
    }
  }

  /** The entry is reported: it does not resolve, or it covers an account an
      entry before it, itself not overlapping, covers. */
  predicate Faulty(pool: seq<Account>, refers: Refers, sites: seq<ReferenceSite>, i: nat)
    requires i < |sites|
  {
    !Resolves(pool, refers, sites[i]) || Share(Covered(pool, refers, sites[i]), CoveredSoFar(pool, refers, sites[..i]))
  }

  /** The targets reported are those of the faulty entries, one each, in order. */
  lemma {:induction false} ErrorsNameFaultyEntries(pool: seq<Account>, refers: Refers, sites: seq<ReferenceSite>, target: string)
    ensures target in ErrorTargets(pool, refers, sites) <==>
            exists i :: 0 <= i < |sites| && sites[i].target == target && Faulty(pool, refers, sites, i)
  {
    hide Resolves, Covered, Share, CoveredSoFar;
    if sites != [] {
      var n := |sites| - 1;
      var front := sites[..n];
      ErrorsNameFaultyEntries(pool, refers, front, target);
      FaultyInFront(pool, refers, sites, n);
      hide Faulty;
      OneMoreTarget(pool, refers, sites, target);
      hide ErrorTargets;
      if target in ErrorTargets(pool, refers, front) {
        var i :| 0 <= i < n && front[i].target == target && Faulty(pool, refers, front, i);
        assert sites[i].target == target && Faulty(pool, refers, sites, i);
      }
      if exists i :: 0 <= i < n && sites[i].target == target && Faulty(pool, refers, sites, i) {
        var i :| 0 <= i < n && sites[i].target == target && Faulty(pool, refers, sites, i);
        assert front[i].target == target && Faulty(pool, refers, front, i);
      }
    }
  }

  /** What counts as covered before an entry: what the entries not reported cover. */
  lemma {:induction false} CoveredSoFarIff(pool: seq<Account>, refers: Refers, sites: seq<ReferenceSite>, h: Handle)
    ensures h in CoveredSoFar(pool, refers, sites) <==>
            exists i :: 0 <= i < |sites| && !Faulty(pool, refers, sites, i) && h in Covered(pool, refers, sites[i])
  {
    hide *;
    if sites == [] {
      NothingCovered(pool, refers);
    } else {
      var n := |sites| - 1;
      var front := sites[..n];
      CoveredSoFarIff(pool, refers, front, h);
      FaultyInFront(pool, refers, sites, n);
      OneMoreCovered(pool, refers, sites, h);
      if i :| 0 <= i < n && !Faulty(pool, refers, front, i) && h in Covered(pool, refers, front[i]) {
        assert !Faulty(pool, refers, sites, i) && h in Covered(pool, refers, sites[i]);
      }
      if i :| 0 <= i < n && !Faulty(pool, refers, sites, i) && h in Covered(pool, refers, sites[i]) {
        assert !Faulty(pool, refers, front, i) && h in Covered(pool, refers, front[i]);
      }
    }
  }

  lemma NothingCovered(pool: seq<Account>, refers: Refers)
    ensures CoveredSoFar(pool, refers, []) == []
  {
  }

  lemma OneMoreCovered(pool: seq<Account>, refers: Refers, sites: seq<ReferenceSite>, h: Handle)
    requires sites != []
    ensures var n := |sites| - 1;
            h in CoveredSoFar(pool, refers, sites) <==>
            h in CoveredSoFar(pool, refers, sites[..n])
            || (!Faulty(pool, refers, sites, n) && h in Covered(pool, refers, sites[n]))
  {
    hide Share, Handles, Resolution;
  }

  lemma FaultyInFront(pool: seq<Account>, refers: Refers, sites: seq<ReferenceSite>, n: nat)
    requires n <= |sites|
    ensures forall i :: 0 <= i < n ==> (Faulty(pool, refers, sites[..n], i) <==> Faulty(pool, refers, sites, i))
  {
    hide Resolves, Covered, Share, CoveredSoFar;
    forall i | 0 <= i < n
      ensures Faulty(pool, refers, sites[..n], i) <==> Faulty(pool, refers, sites, i)
    {
      assert sites[..n][..i] == sites[..i];
    }
  }

  lemma OneMoreTarget(pool: seq<Account>, refers: Refers, sites: seq<ReferenceSite>, target: string)
    requires sites != []
    ensures var n := |sites| - 1;
            target in ErrorTargets(pool, refers, sites) <==>
            target in ErrorTargets(pool, refers, sites[..n])
            || (sites[n].target == target && Faulty(pool, refers, sites, n))
  {
    hide Resolves, Covered, Share, CoveredSoFar;
  }

  lemma NothingIsConsistent(pool: seq<Account>, refers: Refers)
    ensures Consistent(pool, refers, []) && Covers(pool, refers, [], [])
  {
  }

  lemma ConsistentStep(pool: seq<Account>, refers: Refers, sites: seq<ReferenceSite>, site: ReferenceSite, covered: seq<Handle>)
    ensures Consistent(pool, refers, sites + [site]) ==> Consistent(pool, refers, sites) && Resolves(pool, refers, site)
    ensures Covers(pool, refers, sites, covered) ==> Covers(pool, refers, sites + [site], covered + Covered(pool, refers, site))
    ensures Resolves(pool, refers, site) && Consistent(pool, refers, sites) && Covers(pool, refers, sites, covered) ==>
              (Consistent(pool, refers, sites + [site]) <==> !Share(Covered(pool, refers, site), covered))
  {
    ConsistentInFront(pool, refers, sites, site);
    if Covers(pool, refers, sites, covered) {
      CoversMore(pool, refers, sites, site, covered);
      if Resolves(pool, refers, site) && Consistent(pool, refers, sites) {
        SharesWithOne(pool, refers, sites, Covered(pool, refers, site), covered);
        ConsistentWith(pool, refers, sites, site);
      }
    }
    hide *;
  }

  lemma ConsistentInFront(pool: seq<Account>, refers: Refers, sites: seq<ReferenceSite>, site: ReferenceSite)
    ensures Consistent(pool, refers, sites + [site]) ==> Consistent(pool, refers, sites) && Resolves(pool, refers, site)
  {
    hide Resolves, Share, Covered;
    var more := sites + [site];
    assert more[|sites|] == site && forall i :: 0 <= i < |sites| ==> more[i] == sites[i];
  }

  lemma ConsistentWith(pool: seq<Account>, refers: Refers, sites: seq<ReferenceSite>, site: ReferenceSite)
    requires Consistent(pool, refers, sites) && Resolves(pool, refers, site)
    ensures Consistent(pool, refers, sites + [site]) <==>
            !exists i :: 0 <= i < |sites| && Share(Covered(pool, refers, sites[i]), Covered(pool, refers, site))
  {
    hide Resolves, Share, Covered;
    var more := sites + [site];
    assert more[|sites|] == site && forall i :: 0 <= i < |sites| ==> more[i] == sites[i];
    if Consistent(pool, refers, more) {
      forall i | 0 <= i < |sites|
        ensures !Share(Covered(pool, refers, sites[i]), Covered(pool, refers, site))
      {
        assert !Share(Covered(pool, refers, more[i]), Covered(pool, refers, more[|sites|]));
      }
    }
  }

  lemma CoversMore(pool: seq<Account>, refers: Refers, sites: seq<ReferenceSite>, site: ReferenceSite, covered: seq<Handle>)
    requires Covers(pool, refers, sites, covered)
    ensures Covers(pool, refers, sites + [site], covered + Covered(pool, refers, site))
  {
    var more, all := sites + [site], covered + Covered(pool, refers, site);
    forall h | h in all
      ensures exists i :: 0 <= i < |more| && h in Covered(pool, refers, more[i])
    {
      if h in covered {
        var i :| 0 <= i < |sites| && h in Covered(pool, refers, sites[i]);
        assert more[i] == sites[i];
      } else {
        assert more[|sites|] == site;
      }
    }
  }

  lemma SharesWithOne(pool: seq<Account>, refers: Refers, sites: seq<ReferenceSite>, handles: seq<Handle>, covered: seq<Handle>)
    requires Covers(pool, refers, sites, covered)
    ensures Share(handles, covered) <==> exists i :: 0 <= i < |sites| && Share(Covered(pool, refers, sites[i]), handles)
  {
    if Share(handles, covered) {
      var h :| h in handles && h in covered;
      var i :| 0 <= i < |sites| && h in Covered(pool, refers, sites[i]);
      assert Share(Covered(pool, refers, sites[i]), handles);
    }
  }

  /** What a priority entry covers: the accounts its reference names, when it resolves. */
  lemma CoversIff(pool: seq<Account>, refers: Refers, site: ReferenceSite, h: Handle)
    ensures h in Covered(pool, refers, site) <==>
            && site.site.Priority?
            && !NamesTwoOfAProvider(pool, refers, site.literal)
            && exists a :: a in pool && refers(a, site.literal) && a.handle == h
  {
    ResolvesIff(pool, refers, site.literal);
    var r := Resolution(pool, refers, site.literal);
    hide Resolution, NamesTwoOfAProvider;
    if site.site.Priority? && r.Ok? {
      if a :| a in pool && refers(a, site.literal) && a.handle == h {
        var i :| 0 <= i < |r.value| && r.value[i] == a;
        assert Handles(r.value)[i] == h;
      }
      if h in Handles(r.value) {
        var i :| 0 <= i < |Handles(r.value)| && Handles(r.value)[i] == h;
        assert r.value[i] in pool && refers(r.value[i], site.literal) && r.value[i].handle == h;
      }
    }
  }

  // ---------------------------------------------------------------- around an account operation

  /** The references a configuration makes, in the order they are judged. */
  datatype Selection = Selection(routes: seq<(string, Option<seq<string>>)>, priorities: seq<string>)

  datatype Made = OfRoute(route: string, reference: string) | OfPriority(index: nat, reference: string)

  function OfRoutes(routes: seq<(string, Option<seq<string>>)>): seq<Made> {
    if routes == [] then []
    else
      var (name, accounts) := routes[|routes| - 1];
      var references := if accounts.None? then [] else accounts.value;
      OfRoutes(routes[..|routes| - 1]) + OfRouteReferences(name, references)
  }

  function MadeBy(selection: Selection): seq<Made> {
    OfRoutes(selection.routes) + OfPriorities(selection.priorities)
  }

  predicate Broken(pool: seq<Account>, refers: Refers, made: Made) {
    Resolution(pool, refers, made.reference).Err?
  }

  function BrokenAmong(pool: seq<Account>, refers: Refers, made: seq<Made>): (broken: seq<Made>)
    ensures forall m :: m in broken <==> m in made && Broken(pool, refers, m)
  {
    if made == [] then []
    else
      assert made == made[..|made| - 1] + [made[|made| - 1]];
      var front := BrokenAmong(pool, refers, made[..|made| - 1]);
      if Broken(pool, refers, made[|made| - 1]) then front + [made[|made| - 1]] else front
  }

  lemma BrokenMore(pool: seq<Account>, refers: Refers, made: seq<Made>, m: Made)
    ensures BrokenAmong(pool, refers, made + [m]) ==
            if Broken(pool, refers, m) then BrokenAmong(pool, refers, made) + [m] else BrokenAmong(pool, refers, made)
  {
    assert (made + [m])[..|made|] == made;
  }

  function OfRouteReferences(route: string, references: seq<string>): seq<Made> {
    seq(|references|, i requires 0 <= i < |references| => OfRoute(route, references[i]))
  }

  function OfPriorities(priorities: seq<string>): seq<Made> {
    seq(|priorities|, i requires 0 <= i < |priorities| => OfPriority(i, priorities[i]))
  }

  lemma RouteStep(pool: seq<Account>, refers: Refers, start: seq<Made>, route: string, references: seq<string>, j: nat)
    requires j < |references|
    ensures var was := BrokenAmong(pool, refers, start + OfRouteReferences(route, references[..j]));
            BrokenAmong(pool, refers, start + OfRouteReferences(route, references[..j + 1])) ==
            if Resolution(pool, refers, references[j]).Err? then was + [OfRoute(route, references[j])] else was
  {
    var made := start + OfRouteReferences(route, references[..j]);
    assert start + OfRouteReferences(route, references[..j + 1]) == made + [OfRoute(route, references[j])];
    assert Broken(pool, refers, OfRoute(route, references[j])) <==> Resolution(pool, refers, OfRoute(route, references[j]).reference).Err?;
    hide *;
    BrokenMore(pool, refers, made, OfRoute(route, references[j]));
  }

  lemma PriorityStep(pool: seq<Account>, refers: Refers, start: seq<Made>, priorities: seq<string>, j: nat)
    requires j < |priorities|
    ensures var was := BrokenAmong(pool, refers, start + OfPriorities(priorities[..j]));
            BrokenAmong(pool, refers, start + OfPriorities(priorities[..j + 1])) ==
            if Resolution(pool, refers, priorities[j]).Err? then was + [OfPriority(j, priorities[j])] else was
  {
    var made := start + OfPriorities(priorities[..j]);
    assert start + OfPriorities(priorities[..j + 1]) == made + [OfPriority(j, priorities[j])];
    assert Broken(pool, refers, OfPriority(j, priorities[j])) <==> Resolution(pool, refers, OfPriority(j, priorities[j]).reference).Err?;
    hide *;
    BrokenMore(pool, refers, made, OfPriority(j, priorities[j]));
  }

  /** Every reference that resolves to no account or to several. */
  method Conflicts(pool: seq<Account>, refers: Refers, selection: Selection) returns (out: seq<Made>)
    ensures out == BrokenAmong(pool, refers, MadeBy(selection))
  {
    out := [];
    for i := 0 to |selection.routes|
      invariant out == BrokenAmong(pool, refers, OfRoutes(selection.routes[..i]))
    {
      assert selection.routes[..i + 1][..i] == selection.routes[..i];
      ghost var start := OfRoutes(selection.routes[..i]);
      var (name, accounts) := selection.routes[i];
      var references := if accounts.None? then [] else accounts.value;
      out := RouteConflicts(pool, refers, name, references, start, out);
    }
    assert selection.routes[..|selection.routes|] == selection.routes;
    ghost var start := OfRoutes(selection.routes);
    var priorities := selection.priorities;
    assert start + OfPriorities(priorities[..0]) == start;
    for j := 0 to |priorities|
      invariant out == BrokenAmong(pool, refers, start + OfPriorities(priorities[..j]))
    {
      PriorityStep(pool, refers, start, priorities, j);
      var r := Resolve(pool, refers, priorities[j]);
      if r.Err? {
        out := out + [OfPriority(j, priorities[j])];
      }
    }
    assert priorities[..|priorities|] == priorities;
  }

  method RouteConflicts(pool: seq<Account>, refers: Refers, route: string, references: seq<string>,
                        ghost start: seq<Made>, so: seq<Made>)
    returns (out: seq<Made>)
    requires so == BrokenAmong(pool, refers, start)
    ensures out == BrokenAmong(pool, refers, start + OfRouteReferences(route, references))
  {
    out := so;
    assert start + OfRouteReferences(route, references[..0]) == start;
    for j := 0 to |references|
      invariant out == BrokenAmong(pool, refers, start + OfRouteReferences(route, references[..j]))
    {
      RouteStep(pool, refers, start, route, references, j);
      var r := Resolve(pool, refers, references[j]);
      if r.Err? {
        out := out + [OfRoute(route, references[j])];
      }
    }
    assert references[..|references|] == references;
  }

  /** What is broken after and was not before. */
  function Introduced(before: seq<Made>, after: seq<Made>): (out: seq<Made>)
    ensures forall m :: m in out <==> m in after && m !in before
  {
    if after == [] then []
    else
      assert after == [after[0]] + after[1..];
      if after[0] in before then Introduced(before, after[1..]) else [after[0]] + Introduced(before, after[1..])
  }

  type Apply = seq<Account> -> Option<seq<Account>>

  /** The operation, refused when it breaks a reference that was whole. */
  function Guarded(pool: seq<Account>, refers: Refers, selection: Selection, apply: Apply): Option<seq<Account>> {
    match apply(pool)
    case None => None
    case Some(after) =>
      var made := MadeBy(selection);
      if Introduced(BrokenAmong(pool, refers, made), BrokenAmong(after, refers, made)) == [] then Some(after) else None
  }

  function AfterAll(pool: seq<Account>, refers: Refers, selection: Selection, applies: seq<Apply>): seq<Account> {
    if applies == [] then pool
    else
      var before := AfterAll(pool, refers, selection, applies[..|applies| - 1]);
      match Guarded(before, refers, selection, applies[|applies| - 1])
      case None => before
      case Some(after) => after
  }

  /** Over any run of gated operations no reference that resolved stops
      resolving: the broken ones at the end were broken at the start. */
  lemma {:induction false} GatedRunsBreakNothing(pool: seq<Account>, refers: Refers, selection: Selection, applies: seq<Apply>, m: Made)
    requires m in MadeBy(selection) && Broken(AfterAll(pool, refers, selection, applies), refers, m)
    ensures Broken(pool, refers, m)
  {
    if applies != [] {
      var front := applies[..|applies| - 1];
      var before, after := AfterAll(pool, refers, selection, front), AfterAll(pool, refers, selection, applies);
      if after != before {
        var made := MadeBy(selection);
        var was, now := BrokenAmong(before, refers, made), BrokenAmong(after, refers, made);
        assert m !in was ==> m in Introduced(was, now);
      }
      GatedRunsBreakNothing(pool, refers, selection, front, m);
    }
  }

  /** The gate lets an operation through exactly when it succeeds and every
      reference it leaves broken was broken before, and then as it is. */
  lemma GateOpensIff(pool: seq<Account>, refers: Refers, selection: Selection, apply: Apply)
    ensures var r := Guarded(pool, refers, selection, apply);
            && (r.Some? ==> r == apply(pool))
            && (r.Some? <==>
                  && apply(pool).Some?
                  && forall m :: m in MadeBy(selection) && Broken(apply(pool).value, refers, m) ==> Broken(pool, refers, m))
  {
    if apply(pool).Some? {
      var made, after := MadeBy(selection), apply(pool).value;
      var was, now := BrokenAmong(pool, refers, made), BrokenAmong(after, refers, made);
      hide Broken, MadeBy, BrokenAmong, Introduced;
      assert forall m :: m in now && m !in was <==> m in made && Broken(after, refers, m) && !Broken(pool, refers, m);
      if Introduced(was, now) != [] {
        assert Introduced(was, now)[0] in Introduced(was, now);
      }
    }
  }

  /** Every account a route lists and every priority entry is a reference, and
      nothing else is. */
  lemma MadeByIff(selection: Selection, m: Made)
    ensures m in MadeBy(selection) <==>
            match m
            case OfRoute(route, reference) => RouteLists(selection.routes, route, reference)
            case OfPriority(index, reference) =>
              index < |selection.priorities| && selection.priorities[index] == reference
  {
    OfRoutesIff(selection.routes, m);
    hide OfRoutes, RouteLists;
    if m.OfPriority? && m.index < |selection.priorities| && selection.priorities[m.index] == m.reference {
      assert OfPriorities(selection.priorities)[m.index] == m;
    }
  }

  ghost predicate RouteLists(routes: seq<(string, Option<seq<string>>)>, route: string, reference: string) {
    exists i :: 0 <= i < |routes| && routes[i].0 == route && routes[i].1.Some? && reference in routes[i].1.value
  }

  lemma {:induction false} OfRoutesIff(routes: seq<(string, Option<seq<string>>)>, m: Made)
    ensures m in OfRoutes(routes) <==> m.OfRoute? && RouteLists(routes, m.route, m.reference)
  {
    if routes != [] {
      var front, last := routes[..|routes| - 1], routes[|routes| - 1];
      OfRoutesIff(front, m);
      assert routes == front + [last];
      var references := if last.1.None? then [] else last.1.value;
      OfRouteIff(last.0, references, m);
      hide OfRouteReferences;
      if m.OfRoute? {
        ListedByOneMore(front, last, m.route, m.reference);
      }
    }
  }

  lemma OfRouteIff(route: string, references: seq<string>, m: Made)
    ensures m in OfRouteReferences(route, references) <==> m.OfRoute? && m.route == route && m.reference in references
  {
    if m.OfRoute? && m.route == route && m.reference in references {
      var i :| 0 <= i < |references| && references[i] == m.reference;
      assert OfRouteReferences(route, references)[i] == m;
    }
  }

  lemma ListedByOneMore(front: seq<(string, Option<seq<string>>)>, last: (string, Option<seq<string>>), route: string, reference: string)
    ensures RouteLists(front + [last], route, reference) <==>
            || RouteLists(front, route, reference)
            || (last.0 == route && last.1.Some? && reference in last.1.value)
  {
    var routes := front + [last];
    assert forall i :: 0 <= i < |front| ==> routes[i] == front[i];
    assert routes[|front|] == last;
    if RouteLists(front, route, reference) {
      var i :| 0 <= i < |front| && front[i].0 == route && front[i].1.Some? && reference in front[i].1.value;
      assert routes[i].0 == route;
    }
  }

  /** The broken references keep the order they are judged in. */
  lemma {:induction false} BrokenInOrder(pool: seq<Account>, refers: Refers, first: seq<Made>, second: seq<Made>)
    ensures BrokenAmong(pool, refers, first + second) == BrokenAmong(pool, refers, first) + BrokenAmong(pool, refers, second)
    decreases |second|
  {
    hide *;
    if second == [] {
      assert first + second == first;
      BrokenAmongNone(pool, refers);
    } else {
      var n := |second| - 1;
      BrokenInOrder(pool, refers, first, second[..n]);
      BrokenMore(pool, refers, first + second[..n], second[n]);
      BrokenMore(pool, refers, second[..n], second[n]);
      assert (first + second[..n]) + [second[n]] == first + second && second[..n] + [second[n]] == second;
    }
  }

  lemma BrokenAmongNone(pool: seq<Account>, refers: Refers)
    ensures BrokenAmong(pool, refers, []) == []
  {
  }

  /** So do those an operation introduces. */
  lemma {:induction false} IntroducedInOrder(before: seq<Made>, first: seq<Made>, second: seq<Made>)
    ensures Introduced(before, first + second) == Introduced(before, first) + Introduced(before, second)
  {
    hide *;
    if first == [] {
      assert first + second == second;
      IntroducedByNone(before);
    } else {
      IntroducedInOrder(before, first[1..], second);
      IntroducedFirst(before, first);
      IntroducedFirst(before, first + second);
      assert (first + second)[1..] == first[1..] + second && (first + second)[0] == first[0];
    }
  }

  lemma IntroducedByNone(before: seq<Made>)
    ensures Introduced(before, []) == []
  {
  }

  lemma IntroducedFirst(before: seq<Made>, after: seq<Made>)
    requires after != []
    ensures Introduced(before, after) == (if after[0] in before then [] else [after[0]]) + Introduced(before, after[1..])
  {
  }

  ghost predicate NamesTwoOfAProvider(pool: seq<Account>, refers: Refers, reference: string) {
    exists i, j :: 0 <= i < j < |pool| && refers(pool[i], reference) && refers(pool[j], reference)
                   && pool[i].provider == pool[j].provider
  }

  /** A reference resolves exactly when it names an account and no provider has
      two that it names; then it resolves to all it names. */
  lemma ResolvesIff(pool: seq<Account>, refers: Refers, reference: string)
    ensures Resolution(pool, refers, reference).Ok? <==>
            (exists a :: a in pool && refers(a, reference)) && !NamesTwoOfAProvider(pool, refers, reference)
    ensures Resolution(pool, refers, reference).Ok? ==>
              forall a :: a in Resolution(pool, refers, reference).value <==> a in pool && refers(a, reference)
  {
    var named := NamedAmong(pool, refers, ALL, reference);
    EveryProvider();
    AmbiguousIff(pool, refers, reference);
    if exists a :: a in pool && refers(a, reference) {
      var a :| a in pool && refers(a, reference);
      assert a in named;
    }
    assert named != [] ==> named[0] in named;
  }

  lemma EveryProvider()
    ensures forall p: Provider :: p in ALL
  {
    forall p: Provider
      ensures p in ALL
    {
      assert ALL[0] == Anthropic && ALL[1] == Codex;
      match p
      case Anthropic =>
      case Codex =>
    }
  }

  lemma TwoOfSomeProvider(pool: seq<Account>, refers: Refers, reference: string)
    ensures NamesTwoOfAProvider(pool, refers, reference) <==> exists p: Provider :: TwoNamed(pool, refers, p, reference)
  {
    if NamesTwoOfAProvider(pool, refers, reference) {
      var i, j :| 0 <= i < j < |pool| && refers(pool[i], reference) && refers(pool[j], reference)
                  && pool[i].provider == pool[j].provider;
      assert Names(pool[i], refers, pool[i].provider, reference) && Names(pool[j], refers, pool[i].provider, reference);
      assert TwoNamed(pool, refers, pool[i].provider, reference);
    }
    if p: Provider :| TwoNamed(pool, refers, p, reference) {
      var i, j :| 0 <= i < j < |pool| && Names(pool[i], refers, p, reference) && Names(pool[j], refers, p, reference);
      assert refers(pool[i], reference) && refers(pool[j], reference) && pool[i].provider == pool[j].provider;
    }
  }

  lemma AmbiguousIff(pool: seq<Account>, refers: Refers, reference: string)
    ensures AmbiguousAmong(pool, refers, ALL, reference) <==> NamesTwoOfAProvider(pool, refers, reference)
  {
    hide TwoNamed, NamesTwoOfAProvider, Matching;
    OneEachIff(pool, refers, Anthropic, reference);
    OneEachIff(pool, refers, Codex, reference);
    TwoOfSomeProvider(pool, refers, reference);
    if p: Provider :| TwoNamed(pool, refers, p, reference) {
      var k := if p.Anthropic? then 0 else 1;
      assert |Matching(pool, refers, ALL[k], reference)| > 1;
    }
    if AmbiguousAmong(pool, refers, ALL, reference) {
      var k :| 0 <= k < |ALL| && |Matching(pool, refers, ALL[k], reference)| > 1;
      assert TwoNamed(pool, refers, ALL[k], reference);
    }
  }

  predicate Names(a: Account, refers: Refers, provider: Provider, reference: string) {
    a.provider == provider && refers(a, reference)
  }

  ghost predicate AnyNamed(pool: seq<Account>, refers: Refers, provider: Provider, reference: string) {
    exists i :: 0 <= i < |pool| && Names(pool[i], refers, provider, reference)
  }

  ghost predicate TwoNamed(pool: seq<Account>, refers: Refers, provider: Provider, reference: string) {
    exists i, j :: 0 <= i < j < |pool| && Names(pool[i], refers, provider, reference) && Names(pool[j], refers, provider, reference)
  }

  lemma TwoNamedSplits(pool: seq<Account>, refers: Refers, provider: Provider, reference: string)
    requires pool != []
    ensures var rest := pool[1..];
            TwoNamed(pool, refers, provider, reference) <==>
            TwoNamed(rest, refers, provider, reference)
            || (Names(pool[0], refers, provider, reference) && AnyNamed(rest, refers, provider, reference))
  {
    var rest := pool[1..];
    assert forall i :: 0 <= i < |rest| ==> rest[i] == pool[i + 1];
    if TwoNamed(rest, refers, provider, reference) {
      var i, j :| 0 <= i < j < |rest| && Names(rest[i], refers, provider, reference) && Names(rest[j], refers, provider, reference);
      assert Names(pool[i + 1], refers, provider, reference) && Names(pool[j + 1], refers, provider, reference);
    }
    if Names(pool[0], refers, provider, reference) && AnyNamed(rest, refers, provider, reference) {
      var j :| 0 <= j < |rest| && Names(rest[j], refers, provider, reference);
      assert Names(pool[j + 1], refers, provider, reference);
    }
    if TwoNamed(pool, refers, provider, reference) {
      var i, j :| 0 <= i < j < |pool| && Names(pool[i], refers, provider, reference) && Names(pool[j], refers, provider, reference);
      assert Names(rest[j - 1], refers, provider, reference);
      assert i > 0 ==> Names(rest[i - 1], refers, provider, reference);
    }
  }

  lemma {:induction false} OneEachIff(pool: seq<Account>, refers: Refers, provider: Provider, reference: string)
    ensures |Matching(pool, refers, provider, reference)| > 0 <==> AnyNamed(pool, refers, provider, reference)
    ensures |Matching(pool, refers, provider, reference)| > 1 <==> TwoNamed(pool, refers, provider, reference)
  {
    var found := Matching(pool, refers, provider, reference);
    if AnyNamed(pool, refers, provider, reference) {
      var i :| 0 <= i < |pool| && Names(pool[i], refers, provider, reference);
      assert pool[i] in found;
    }
    assert found != [] ==> found[0] in pool;
    if pool != [] {
      OneEachIff(pool[1..], refers, provider, reference);
      TwoNamedSplits(pool, refers, provider, reference);
    }
  }
}
