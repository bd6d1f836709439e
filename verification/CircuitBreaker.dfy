/**
 The live mutation circuit breaker (internal/executor/circuit_breaker.go). Its mutex makes every
 Acquire and every release atomic, so an interleaving of goroutines is a sequence of these calls;
 Valid holds between any two of them. A nil breaker, which grants everything, is left out.
 */
module CircuitBreaker {
  import opened Results

  datatype Denial = RepoRequired | GlobalLimit | RepoLimit

  /** The release closure with the repo and the released flag it captures. */
  class Grant {
    const breaker: Breaker
    const repo: string
    var released: bool

    constructor (breaker: Breaker, repo: string)
      ensures this.breaker == breaker && this.repo == repo && !released
    {
      this.breaker, this.repo, released := breaker, repo, false;
    }
  }

  /** The grants of a repository among the live ones. */
  ghost function HeldBy(live: set<Grant>, repo: string): set<Grant>
  {
    set g | g in live && g.repo == repo
  }

  function InFlight(byRepo: map<string, int>, repo: string): int
  {
    if repo in byRepo then byRepo[repo] else 0
  }

  /** The counters are the numbers of live grants, and no zero entry is kept. */
  ghost predicate Counts(global: int, byRepo: map<string, int>, live: set<Grant>)
  {
    && global == |live|
    && (forall r :: InFlight(byRepo, r) == |HeldBy(live, r)|)
    && (forall r :: r in byRepo ==> byRepo[r] > 0)
  }

  ghost predicate Below(byRepo: map<string, int>, limit: int)
  {
    forall r :: InFlight(byRepo, r) <= limit
  }

  function Taken(byRepo: map<string, int>, repo: string): map<string, int>
  {
    byRepo[repo := InFlight(byRepo, repo) + 1]
  }

  function Freed(byRepo: map<string, int>, repo: string): map<string, int>
  {
    if InFlight(byRepo, repo) > 1 then byRepo[repo := byRepo[repo] - 1] else byRepo - {repo}
  }

  lemma CountsAdd(global: int, byRepo: map<string, int>, live: set<Grant>, grant: Grant, limit: int)
    requires Counts(global, byRepo, live) && grant !in live
    requires Below(byRepo, limit) && InFlight(byRepo, grant.repo) < limit
    ensures Counts(global + 1, Taken(byRepo, grant.repo), live + {grant})
    ensures Below(Taken(byRepo, grant.repo), limit)
  {
    GrantAdded(live, grant);
    assert InFlight(byRepo, grant.repo) >= 0;
    forall r ensures InFlight(Taken(byRepo, grant.repo), r) <= limit {
      assert InFlight(byRepo, r) <= limit;
    }
  }

  lemma CountsRemove(global: int, byRepo: map<string, int>, live: set<Grant>, grant: Grant, limit: int)
    requires Counts(global, byRepo, live) && grant in live && Below(byRepo, limit)
    ensures global > 0 && Counts(global - 1, Freed(byRepo, grant.repo), live - {grant})
    ensures Below(Freed(byRepo, grant.repo), limit)
  {
    GrantRemoved(live, grant);
    assert grant in HeldBy(live, grant.repo);
    assert InFlight(byRepo, grant.repo) == |HeldBy(live, grant.repo)|;
    assert |HeldBy(live, grant.repo)| > 0;
    forall r ensures InFlight(Freed(byRepo, grant.repo), r) <= limit {
      assert InFlight(byRepo, r) <= limit;
    }
  }

  ghost function Sum(byRepo: map<string, int>, repos: set<string>): int
    requires repos <= byRepo.Keys
  {
    if repos == {} then 0
    else
      var r :| r in repos;
      byRepo[r] + Sum(byRepo, repos - {r})
  }

  class Breaker {
    const maxGlobal: int
    const maxPerRepo: int
    var global: int
    var byRepo: map<string, int>
    ghost var issued: set<Grant>

    /** The grants not released yet. */
    ghost function Live(): set<Grant>
      reads this, issued
    {
      set g | g in issued && !g.released
    }

    /** The counters count live grants, within the limits, and no zero entry is kept. */
    ghost predicate Valid()
      reads this, issued
    {
      && maxGlobal >= 1 && maxPerRepo >= 1
      && (forall g :: g in issued ==> g.breaker == this)
      && global <= maxGlobal && Below(byRepo, maxPerRepo)
      && Counts(global, byRepo, Live())
    }

    constructor (maxGlobal: int, maxPerRepo: int)
      ensures Valid() && issued == {} && global == 0 && byRepo == map[]
      ensures this.maxGlobal == (if maxGlobal <= 0 then 1 else maxGlobal)
      ensures this.maxPerRepo == (if maxPerRepo <= 0 then 1 else maxPerRepo)
    {
      this.maxGlobal := if maxGlobal <= 0 then 1 else maxGlobal;
      this.maxPerRepo := if maxPerRepo <= 0 then 1 else maxPerRepo;
      global, byRepo, issued := 0, map[], {};
    }

    /** Granted exactly when both limits leave room. */
    method Acquire(repo: string) returns (r: Result<Grant, Denial>)
      requires Valid()
      modifies this
      ensures Valid()
      ensures r.Ok? <==> repo != "" && old(|Live()|) < maxGlobal && old(|HeldBy(Live(), repo)|) < maxPerRepo
      ensures r.Ok? ==> fresh(r.value) && r.value.repo == repo && issued == old(issued) + {r.value}
                        && Live() == old(Live()) + {r.value}
      ensures r.Err? ==> unchanged(this)
      ensures r.Err? ==> r.error == if repo == "" then RepoRequired else if old(global) >= maxGlobal then GlobalLimit else RepoLimit
    {
      ghost var before := Live();
      assert global == |before| && InFlight(byRepo, repo) == |HeldBy(before, repo)|;
      if repo == "" {
        return Err(RepoRequired);
      }
      if global >= maxGlobal {
        return Err(GlobalLimit);
      }
      if InFlight(byRepo, repo) >= maxPerRepo {
        return Err(RepoLimit);
      }
      var grant := new Grant(this, repo);
      CountsAdd(global, byRepo, before, grant, maxPerRepo);
      global := global + 1;
      byRepo := byRepo[repo := InFlight(byRepo, repo) + 1];
      issued := issued + {grant};
      assert Live() == before + {grant};
      assert byRepo == Taken(old(byRepo), grant.repo);
      return Ok(grant);
    }

    /** The release closure: the first call frees the slot, further calls change nothing. */
    method Release(grant: Grant)
      requires Valid() && grant in issued
      modifies this, grant
      ensures Valid() && grant.released && issued == old(issued)
      ensures Live() == old(Live()) - {grant}
      ensures old(grant.released) ==> global == old(global) && byRepo == old(byRepo)
    {
      if grant.released {
        return;
      }
      ghost var before := Live();
      CountsRemove(global, byRepo, before, grant, maxPerRepo);
      grant.released := true;
      assert Live() == before - {grant};
      if global > 0 {
        global := global - 1;
      }
      if InFlight(byRepo, grant.repo) > 1 {
        byRepo := byRepo[grant.repo := byRepo[grant.repo] - 1];
      } else {
        byRepo := byRepo - {grant.repo};
      }
      assert Live() == before - {grant};
      assert byRepo == Freed(old(byRepo), grant.repo);
      assert Counts(global, byRepo, before - {grant});
    }

    method Status() returns (globalInFlight: int, repoInFlight: map<string, int>)
      requires Valid()
      ensures globalInFlight == |Live()| && repoInFlight.Keys == set g | g in Live() :: g.repo
      ensures forall r :: r in repoInFlight ==> repoInFlight[r] == |HeldBy(Live(), r)|
    {
      RepoKeys(byRepo, Live());
      return global, byRepo;
    }
  }

  lemma GrantAdded(live: set<Grant>, grant: Grant)
    requires grant !in live
    ensures forall r :: HeldBy(live + {grant}, r) == HeldBy(live, r) + (if r == grant.repo then {grant} else {})
    ensures forall r :: |HeldBy(live + {grant}, r)| == |HeldBy(live, r)| + (if r == grant.repo then 1 else 0)
    ensures |live + {grant}| == |live| + 1
  {
    forall r ensures HeldBy(live + {grant}, r) == HeldBy(live, r) + (if r == grant.repo then {grant} else {}) {}
  }

  lemma GrantRemoved(live: set<Grant>, grant: Grant)
    requires grant in live
    ensures forall r :: |HeldBy(live - {grant}, r)| == |HeldBy(live, r)| - (if r == grant.repo then 1 else 0)
    ensures |live - {grant}| == |live| - 1
  {
    var rest := live - {grant};
    GrantAdded(rest, grant);
    assert rest + {grant} == live;
  }

  lemma RepoKeys(byRepo: map<string, int>, live: set<Grant>)
    requires forall r :: InFlight(byRepo, r) == |HeldBy(live, r)|
    requires forall r :: r in byRepo ==> byRepo[r] > 0
    ensures byRepo.Keys == set g | g in live :: g.repo
  {
    forall r ensures r in byRepo <==> exists g :: g in live && g.repo == r {
      assert InFlight(byRepo, r) == |HeldBy(live, r)|;
      if r in byRepo {
        var g :| g in HeldBy(live, r);
      }
      if g :| g in live && g.repo == r {
        assert g in HeldBy(live, r);
      }
    }
  }

  /** The global counter is the sum of the repository counters. */
  lemma {:induction false} SumIsTotal(byRepo: map<string, int>, live: set<Grant>, repos: set<string>)
    requires forall r :: InFlight(byRepo, r) == |HeldBy(live, r)|
    requires forall r :: r in byRepo ==> byRepo[r] > 0
    requires repos <= byRepo.Keys
    ensures Sum(byRepo, repos) == |set g | g in live && g.repo in repos|
    decreases repos
  {
    var held := set g | g in live && g.repo in repos;
    if repos == {} {
      assert held == {};
    } else {
      var r :| r in repos && Sum(byRepo, repos) == byRepo[r] + Sum(byRepo, repos - {r});
      var others := set g | g in live && g.repo in repos - {r};
      SumIsTotal(byRepo, live, repos - {r});
      assert held == others + HeldBy(live, r);
      assert others !! HeldBy(live, r);
    }
  }

  /** In every valid state: the global count is the sum over repositories, and once nothing is live the breaker is empty. */
  lemma SlotsConserved(b: Breaker)
    requires b.Valid()
    ensures b.global == Sum(b.byRepo, b.byRepo.Keys) == |b.Live()|
    ensures b.Live() == {} ==> b.global == 0 && b.byRepo == map[]
  {
    RepoKeys(b.byRepo, b.Live());
    SumIsTotal(b.byRepo, b.Live(), b.byRepo.Keys);
    assert b.Live() == set g | g in b.Live() && g.repo in b.byRepo.Keys;
    if b.Live() == {} {
      assert b.byRepo.Keys == {};
    }
  }
}
