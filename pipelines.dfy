/** The two token pipelines of `RequestFinder`, `find` and
    `find_via_stagingapi`, as functions of the map before the call and the
    remote answers, and what they guarantee about every token. */
module Pipelines {
  import opened Model
  import opened Lookups

  // ---------------------------------------------------------------------
  // find

  /** One iteration of `find`: the package lookup, then the id lookup, then
      the project lookup, stopping at the first truthy answer; an exception
      of any of them propagates. */
  function ResolveToken(api: Api, srs: Srs, t: Token): Outcome<()> {
    var byPackage := PackageLookup(api, srs, t);
    if byPackage.result.Err? then Outcome(byPackage.srs, Err(byPackage.result.failure))
    else if byPackage.result.value.Some? then Outcome(byPackage.srs, Ok(()))
    else
      var byId := IdLookup(api, byPackage.srs, t);
      if byId.result.Err? then Outcome(byId.srs, Err(byId.result.failure))
      else if byId.result.value == Some(true) then Outcome(byId.srs, Ok(()))
      else
        var byProject := ProjectLookup(api, byId.srs, t);
        if byProject.1 then Outcome(byProject.0, Ok(()))
        else Outcome(byProject.0, Err(NoRequestFound(t)))
  }

  /** The loop of `find` over `tokens`. */
  function Resolve(api: Api, srs: Srs, tokens: seq<Token>): Outcome<()>
    decreases |tokens|
  {
    if tokens == [] then Outcome(srs, Ok(()))
    else
      var prior := Resolve(api, srs, tokens[..|tokens| - 1]);
      if prior.result.Err? then prior else ResolveToken(api, prior.srs, tokens[|tokens| - 1])
  }

  lemma {:induction false} ResolveErrPersists(api: Api, srs: Srs, tokens: seq<Token>, rest: seq<Token>)
    requires Resolve(api, srs, tokens).result.Err?
    ensures Resolve(api, srs, tokens + rest) == Resolve(api, srs, tokens)
    decreases |rest|
  {
    if rest != [] {
      var front := rest[..|rest| - 1];
      assert (tokens + rest)[..|tokens + rest| - 1] == tokens + front;
      ResolveErrPersists(api, srs, tokens, front);
    } else {
      assert tokens + rest == tokens;
    }
  }

  /** The package lookup returns a request id. Its answer does not depend on
      the map it starts from (PackageWalkResultIndependent), so it is read
      from the empty one. */
  predicate PackageHits(api: Api, t: Token) {
    var o := PackageLookup(api, map[], t);
    o.result.Ok? && o.result.value.Some?
  }

  /** The id lookup returns True. */
  predicate IdHits(api: Api, t: Token) {
    IdLookup(api, map[], t).result == Ok(Some(true))
  }

  /** Some open request has an action from the token as source project. */
  predicate ProjectHits(api: Api, t: Token) {
    exists i :: 0 <= i < |api.openRequests| && FromSource(api.openRequests[i], t)
  }

  /** At least one strategy of `find` accepts the token. */
  predicate Resolvable(api: Api, t: Token) {
    PackageHits(api, t) || IdHits(api, t) || ProjectHits(api, t)
  }

  /** All three strategies answer without raising and none accepts the
      token: the package lookup returns None, the id lookup returns False or
      None, and no open request has the token as source project. */
  predicate MissesAll(api: Api, t: Token) {
    && PackageLookup(api, map[], t).result == Ok(None)
    && IdLookup(api, map[], t).result.Ok?
    && !IdHits(api, t)
    && !ProjectHits(api, t)
  }

  /** A token goes through `find` only if some strategy accepts it. `find`
      reports that no request was found exactly when all three strategies
      miss the token without raising, and the report names this token. */
  lemma ResolveTokenVerdict(api: Api, srs: Srs, t: Token)
    ensures var o := ResolveToken(api, srs, t);
      && (o.result.Ok? ==> Resolvable(api, t))
      && (o.result.Err? && o.result.failure.NoRequestFound? ==>
            o.result.failure == NoRequestFound(t) && !Resolvable(api, t))
      && (o.result == Err(NoRequestFound(t)) <==> MissesAll(api, t))
  {
    ResolveTokenAccepts(api, srs, t);
    ResolveTokenMisses(api, srs, t);
  }

  /** What `find` answers for one token, read from the strategies' answers
      on the empty map. */
  function TokenVerdict(api: Api, t: Token): Result<()> {
    var byPackage := PackageLookup(api, map[], t).result;
    if byPackage.Err? then Err(byPackage.failure)
    else if byPackage.value.Some? then Ok(())
    else
      var byId := IdLookup(api, map[], t).result;
      if byId.Err? then Err(byId.failure)
      else if byId.value == Some(true) then Ok(())
      else if ProjectHits(api, t) then Ok(())
      else Err(NoRequestFound(t))
  }

  /** The answer `find` gives for a token does not depend on the map it has
      built so far. */
  lemma ResolveTokenResult(api: Api, srs: Srs, t: Token)
    ensures ResolveToken(api, srs, t).result == TokenVerdict(api, t)
  {
    PackageLookupIndependent(api, srs, t);
    var byPackage := PackageLookup(api, srs, t);
    if byPackage.result.Ok? && byPackage.result.value.None? {
      var byId := IdLookup(api, byPackage.srs, t);
      assert byId.result == IdLookup(api, map[], t).result;
      ProjectWalkKeys(Master(api), t, byId.srs, api.openRequests);
    }
  }

  lemma ResolveTokenAccepts(api: Api, srs: Srs, t: Token)
    ensures var o := ResolveToken(api, srs, t);
      && (o.result.Ok? ==> Resolvable(api, t))
      && (o.result.Err? && o.result.failure.NoRequestFound? ==>
            o.result.failure == NoRequestFound(t) && !Resolvable(api, t))
  {
    ResolveTokenResult(api, srs, t);
  }

  lemma ResolveTokenMisses(api: Api, srs: Srs, t: Token)
    ensures ResolveToken(api, srs, t).result == Err(NoRequestFound(t)) <==> MissesAll(api, t)
  {
    ResolveTokenResult(api, srs, t);
  }

  /** `find` completes only when every token is accepted by some strategy;
      when it raises "no request found", it names the first token that it
      could not get through, that token is accepted by no strategy, and
      every token before it was. Conversely, once the tokens before
      `tokens[i]` have gone through and all three strategies miss
      `tokens[i]` without raising, `find` raises "no request found" for
      `tokens[i]`. */
  lemma ResolveVerdict(api: Api, srs: Srs, tokens: seq<Token>)
    ensures var o := Resolve(api, srs, tokens);
      && (o.result.Ok? ==> forall i :: 0 <= i < |tokens| ==> Resolvable(api, tokens[i]))
      && (o.result.Err? && o.result.failure.NoRequestFound? ==>
            exists i :: 0 <= i < |tokens| && o.result.failure == NoRequestFound(tokens[i])
                        && !Resolvable(api, tokens[i])
                        && forall j :: 0 <= j < i ==> Resolvable(api, tokens[j]))
      && (forall i :: 0 <= i < |tokens| && Resolve(api, srs, tokens[..i]).result.Ok? && MissesAll(api, tokens[i])
                      ==> o.result == Err(NoRequestFound(tokens[i])))
  {
    ResolveFirstUnresolved(api, srs, tokens);
    forall i | 0 <= i < |tokens| && Resolve(api, srs, tokens[..i]).result.Ok? && MissesAll(api, tokens[i])
      ensures Resolve(api, srs, tokens).result == Err(NoRequestFound(tokens[i]))
    {
      ResolveStopsAtMiss(api, srs, tokens, i);
    }
  }

  /** The forward half of `ResolveVerdict`, for one list of tokens. */
  ghost predicate FirstUnresolved(api: Api, srs: Srs, tokens: seq<Token>) {
    var o := Resolve(api, srs, tokens);
    && (o.result.Ok? ==> forall i :: 0 <= i < |tokens| ==> Resolvable(api, tokens[i]))
    && (o.result.Err? && o.result.failure.NoRequestFound? ==>
          exists i :: 0 <= i < |tokens| && o.result.failure == NoRequestFound(tokens[i])
                      && !Resolvable(api, tokens[i])
                      && forall j :: 0 <= j < i ==> Resolvable(api, tokens[j]))
  }

  lemma {:induction false} ResolveFirstUnresolved(api: Api, srs: Srs, tokens: seq<Token>)
    ensures FirstUnresolved(api, srs, tokens)
    decreases |tokens|
  {
    if tokens != [] {
      var n := |tokens|;
      var front := tokens[..n - 1];
      ResolveFirstUnresolved(api, srs, front);
      assert tokens == front + [tokens[n - 1]];
      if Resolve(api, srs, front).result.Ok? {
        FirstUnresolvedAfterOk(api, srs, front, tokens[n - 1]);
      } else {
        FirstUnresolvedAfterErr(api, srs, front, tokens[n - 1]);
      }
    }
  }

  lemma FirstUnresolvedAfterOk(api: Api, srs: Srs, front: seq<Token>, t: Token)
    requires FirstUnresolved(api, srs, front) && Resolve(api, srs, front).result.Ok?
    ensures FirstUnresolved(api, srs, front + [t])
  {
    var tokens := front + [t];
    var k := |front|;
    assert tokens[..k] == front;
    var prior := Resolve(api, srs, front);
    var o := ResolveToken(api, prior.srs, t);
    assert Resolve(api, srs, tokens) == o;
    ResolveTokenAccepts(api, prior.srs, t);
    if o.result.Ok? {
      forall i | 0 <= i < |tokens| ensures Resolvable(api, tokens[i]) {
        if i < k { assert tokens[i] == front[i]; }
      }
    } else if o.result.failure.NoRequestFound? {
      assert tokens[k] == t;
      forall j | 0 <= j < k ensures Resolvable(api, tokens[j]) {
        assert tokens[j] == front[j];
      }
    }
  }

  lemma FirstUnresolvedAfterErr(api: Api, srs: Srs, front: seq<Token>, t: Token)
    requires FirstUnresolved(api, srs, front) && Resolve(api, srs, front).result.Err?
    ensures FirstUnresolved(api, srs, front + [t])
  {
    var tokens := front + [t];
    assert tokens[..|front|] == front;
    assert forall i :: 0 <= i < |front| ==> tokens[i] == front[i];
  }

  /** The first token all three strategies miss ends `find`. */
  lemma ResolveStopsAtMiss(api: Api, srs: Srs, tokens: seq<Token>, i: int)
    requires 0 <= i < |tokens| && Resolve(api, srs, tokens[..i]).result.Ok? && MissesAll(api, tokens[i])
    ensures Resolve(api, srs, tokens).result == Err(NoRequestFound(tokens[i]))
  {
    assert tokens[..i + 1][..i] == tokens[..i];
    ResolveTokenMisses(api, Resolve(api, srs, tokens[..i]).srs, tokens[i]);
    assert tokens[..i + 1] + tokens[i + 1..] == tokens;
    ResolveErrPersists(api, srs, tokens[..i + 1], tokens[i + 1..]);
  }

  // ---------------------------------------------------------------------
  // find_via_stagingapi

  /** What one staging contributes for a token: `int(p)` when the token is
      numeric and the staging holds a package for it; otherwise (the `else`
      branch, taken also for a numeric token whose id lookup failed) the
      request id the staging holds for the token as a package name. */
  function StagingHit(api: Api, staging: string, t: Token): Option<int> {
    if IsInt(t) && api.packageForRequest(staging, t) then Some(IntValue(t))
    else match api.requestForPackage(staging, t)
      case Some(rq) => Some(rq as int)
      case None => None
  }

  /** The inner loop of `find_via_stagingapi` over the stagings, with the
      map and the `found` flag. Each hit overwrites the entry. */
  function ScanStagings(api: Api, srs: Srs, t: Token, stagings: seq<string>): (Srs, bool)
    decreases |stagings|
  {
    if stagings == [] then (srs, false)
    else
      var (s, found) := ScanStagings(api, srs, t, stagings[..|stagings| - 1]);
      var staging := stagings[|stagings| - 1];
      match StagingHit(api, staging, t)
      case Some(k) => (s[k := Staged(staging)], true)
      case None => (s, found)
  }

  /** One iteration of the outer loop of `find_via_stagingapi`. */
  function ResolveStagedToken(api: Api, srs: Srs, t: Token): Outcome<()> {
    var (s, found) := ScanStagings(api, srs, t, api.stagings);
    if found then Outcome(s, Ok(())) else Outcome(s, Err(NoRequestFound(t)))
  }

  /** The outer loop of `find_via_stagingapi` over `tokens`. */
  function ResolveStaged(api: Api, srs: Srs, tokens: seq<Token>): Outcome<()>
    decreases |tokens|
  {
    if tokens == [] then Outcome(srs, Ok(()))
    else
      var prior := ResolveStaged(api, srs, tokens[..|tokens| - 1]);
      if prior.result.Err? then prior else ResolveStagedToken(api, prior.srs, tokens[|tokens| - 1])
  }

  lemma {:induction false} ResolveStagedErrPersists(api: Api, srs: Srs, tokens: seq<Token>, rest: seq<Token>)
    requires ResolveStaged(api, srs, tokens).result.Err?
    ensures ResolveStaged(api, srs, tokens + rest) == ResolveStaged(api, srs, tokens)
    decreases |rest|
  {
    if rest != [] {
      var front := rest[..|rest| - 1];
      assert (tokens + rest)[..|tokens + rest| - 1] == tokens + front;
      ResolveStagedErrPersists(api, srs, tokens, front);
    } else {
      assert tokens + rest == tokens;
    }
  }

  function HitKeys(api: Api, t: Token, stagings: seq<string>): set<int> {
    set i | 0 <= i < |stagings| && StagingHit(api, stagings[i], t).Some? :: StagingHit(api, stagings[i], t).value
  }

  lemma HitKeysSnoc(api: Api, t: Token, stagings: seq<string>)
    requires stagings != []
    ensures var h := StagingHit(api, stagings[|stagings| - 1], t);
      HitKeys(api, t, stagings) ==
      HitKeys(api, t, stagings[..|stagings| - 1]) + (if h.Some? then {h.value} else {})
  {
    var n := |stagings|;
    var front := stagings[..n - 1];
    forall k | k in HitKeys(api, t, stagings)
      ensures k in HitKeys(api, t, front) + (if StagingHit(api, stagings[n - 1], t).Some? then {StagingHit(api, stagings[n - 1], t).value} else {})
    {
      var i :| 0 <= i < n && StagingHit(api, stagings[i], t).Some? && StagingHit(api, stagings[i], t).value == k;
      if i < n - 1 { assert front[i] == stagings[i]; }
    }
    forall k | k in HitKeys(api, t, front) ensures k in HitKeys(api, t, stagings) {
      var i :| 0 <= i < n - 1 && StagingHit(api, front[i], t).Some? && StagingHit(api, front[i], t).value == k;
      assert front[i] == stagings[i];
    }
  }

  /** Every staging is scanned (the `continue`s do not stop the scan): a
      token is found exactly when some staging has a hit for it, the map
      gains exactly the hit keys, and every other key is left as it was. */
  lemma {:induction false} ScanStagingsKeys(api: Api, srs: Srs, t: Token, stagings: seq<string>)
    ensures var o := ScanStagings(api, srs, t, stagings);
      && (o.1 <==> exists i :: 0 <= i < |stagings| && StagingHit(api, stagings[i], t).Some?)
      && o.0.Keys == srs.Keys + HitKeys(api, t, stagings)
      && (forall k :: k in srs && k !in HitKeys(api, t, stagings) ==> o.0[k] == srs[k])
    decreases |stagings|
  {
    if stagings != [] {
      var n := |stagings|;
      var front := stagings[..n - 1];
      ScanStagingsKeys(api, srs, t, front);
      HitKeysSnoc(api, t, stagings);
      assert forall i :: 0 <= i < n - 1 ==> front[i] == stagings[i];
    }
  }

  /** No later staging has a hit with the same key as `stagings[i]`. */
  predicate LastHit(api: Api, t: Token, stagings: seq<string>, i: int)
    requires 0 <= i < |stagings|
  {
    forall j :: i < j < |stagings| ==> StagingHit(api, stagings[j], t) != StagingHit(api, stagings[i], t)
  }

  /** A later staging overwrites the entry: each hit key ends up as
      `{staging: s}` for the last staging `s` whose hit has that key. */
  lemma {:induction false} ScanStagingsEntry(api: Api, srs: Srs, t: Token, stagings: seq<string>, i: int)
    requires 0 <= i < |stagings| && StagingHit(api, stagings[i], t).Some? && LastHit(api, t, stagings, i)
    ensures var s := ScanStagings(api, srs, t, stagings).0;
      var k := StagingHit(api, stagings[i], t).value;
      k in s && s[k] == Staged(stagings[i])
    decreases |stagings|
  {
    var n := |stagings|;
    if i < n - 1 {
      var front := stagings[..n - 1];
      assert front[i] == stagings[i];
      assert LastHit(api, t, front, i) by {
        forall j | i < j < n - 1 ensures StagingHit(api, front[j], t) != StagingHit(api, front[i], t) {
          assert front[j] == stagings[j];
        }
      }
      ScanStagingsEntry(api, srs, t, front, i);
    }
  }

  /** The token has a hit in at least one staging. */
  predicate InSomeStaging(api: Api, t: Token) {
    exists i :: 0 <= i < |api.stagings| && StagingHit(api, api.stagings[i], t).Some?
  }

  /** `find_via_stagingapi` completes exactly when every token has a hit in
      some staging; otherwise it raises "no request found" for the first
      token that has a hit in no staging. It has no other way to fail. */
  lemma {:induction false} ResolveStagedVerdict(api: Api, srs: Srs, tokens: seq<Token>)
    ensures var o := ResolveStaged(api, srs, tokens);
      && (o.result.Ok? <==> forall i :: 0 <= i < |tokens| ==> InSomeStaging(api, tokens[i]))
      && (o.result.Err? ==>
            exists i :: 0 <= i < |tokens| && o.result == Err(NoRequestFound(tokens[i]))
                        && !InSomeStaging(api, tokens[i])
                        && forall j :: 0 <= j < i ==> InSomeStaging(api, tokens[j]))
    decreases |tokens|
  {
    if tokens != [] {
      var n := |tokens|;
      var front := tokens[..n - 1];
      ResolveStagedVerdict(api, srs, front);
      assert forall i :: 0 <= i < n - 1 ==> front[i] == tokens[i];
      var prior := ResolveStaged(api, srs, front);
      if prior.result.Ok? {
        ScanStagingsKeys(api, prior.srs, tokens[n - 1], api.stagings);
      }
    }
  }
}
