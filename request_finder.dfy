/** `RequestFinder`: the object that accumulates `srs`, the map from request
    ids to records, over the tokens it is asked to resolve. Each method
    updates `srs` in place as the source does and is proved to leave it, and
    to return, what the corresponding function of Lookups or Pipelines
    gives. */
module Finder {
  import opened Text
  import opened Model
  import opened Lookups
  import opened Pipelines

  class RequestFinder {
    const api: Api
    var srs: Srs

    /** `__init__`: an empty map. */
    constructor (api: Api)
      ensures this.api == api && srs == map[]
    {
      this.api := api;
      srs := map[];
    }

    /** `find_request_id`. */
    method FindRequestId(requestId: Token) returns (r: Result<Option<bool>>)
      modifies this
      ensures Outcome(srs, r) == IdLookup(api, old(srs), requestId)
    {
      if !IsInt(requestId) {
        return Ok(Some(false));
      }
      var answer := api.byId(TokenText(requestId));
      if answer.None? {
        return Ok(None);
      }
      var root := answer.value;
      if NatToString(root.id) != TokenText(requestId) {
        return Ok(None);
      }
      if |root.actions| == 0 {
        return Err(MissingAction(root.id));
      }
      var project := root.actions[0].target.project;
      if project != Master(api) && !(StagingPrefix(api) <= project) {
        return Err(OutOfScope(requestId, project));
      }
      srs := srs[IntValue(requestId) := Scoped(project, None)];
      return Ok(Some(true));
    }

    /** `find_request_package`. */
    method FindRequestPackage(package: Token) returns (r: Result<Option<RequestId>>)
      modifies this
      ensures Outcome(srs, r) == PackageLookup(api, old(srs), package)
    {
      if package.IntToken? && package.number != 0 {
        return Err(NotAString(package));
      }
      var p := TokenText(package);
      var master := Master(api);
      var docs := api.byPackage(p);
      var lastRq: Option<RequestId> := None;
      var i := 0;
      while i < |docs|
        invariant 0 <= i <= |docs|
        invariant package.IntToken? ==> i == 0 && srs == old(srs) && lastRq.None?
        invariant package.StrToken? ==> PackageWalk(master, p, old(srs), docs[..i]) == Outcome(srs, Ok(lastRq))
      {
        var sr := docs[i];
        assert docs[..i + 1][..i] == docs[..i];
        assert docs[..i + 1] + docs[i + 1..] == docs;
        if |sr.actions| == 0 {
          if package.StrToken? {
            PackageWalkErrPersists(master, p, old(srs), docs[..i + 1], docs[i + 1..]);
          }
          return Err(MissingAction(sr.id));
        }
        if package.IntToken? {
          return Err(NotAString(package));
        }
        var rqPackage := sr.actions[0].target.package;
        if Lower(p) != Lower(rqPackage) {
          i := i + 1;
          continue;
        }
        var request := sr.id;
        var state := sr.state;
        srs := srs[request := Scoped(master, Some(state))];
        if lastRq.Some? {
          if srs[lastRq.value].state == Some("declined") {
            srs := srs - {lastRq.value as int};
          } else {
            PackageWalkErrPersists(master, p, old(srs), docs[..i + 1], docs[i + 1..]);
            return Err(MultipleRequests(p, lastRq.value, request));
          }
        }
        if lastRq.Some? && !(lastRq.value < request) {
          PackageWalkErrPersists(master, p, old(srs), docs[..i + 1], docs[i + 1..]);
          return Err(NotMonotonic(lastRq.value, request));
        }
        lastRq := Some(request);
        i := i + 1;
      }
      assert docs[..i] == docs;
      return Ok(lastRq);
    }

    /** `find_request_project`: `ret` is True (here `true`) or None (here
        `false`). */
    method FindRequestProject(sourceProject: Token) returns (ret: bool)
      modifies this
      ensures (srs, ret) == ProjectLookup(api, old(srs), sourceProject)
    {
      var master := Master(api);
      var docs := api.openRequests;
      ret := false;
      var i := 0;
      while i < |docs|
        invariant 0 <= i <= |docs|
        invariant (srs, ret) == ProjectWalk(master, sourceProject, old(srs), docs[..i])
      {
        var sr := docs[i];
        ghost var before, retBefore := srs, ret;
        var j := 0;
        while j < |sr.actions|
          invariant 0 <= j <= |sr.actions|
          invariant srs == if AnyFromSource(sr.actions[..j], sourceProject)
                           then before[sr.id := Scoped(master, Some(sr.state))] else before
          invariant ret == (AnyFromSource(sr.actions[..j], sourceProject) || retBefore)
        {
          var act := sr.actions[j];
          AnyFromSourceSnoc(sr.actions, j, sourceProject);
          assert SourceIs(act, sourceProject) <==> act.source.Some? && sourceProject == StrToken(act.source.value);
          if act.source.Some? && sourceProject == StrToken(act.source.value) {
            var request := sr.id;
            var state := sr.state;
            srs := srs[request := Scoped(master, Some(state))];
            ret := true;
          }
          j := j + 1;
        }
        assert sr.actions[..j] == sr.actions;
        assert docs[..i + 1][..i] == docs[..i];
        i := i + 1;
      }
      assert docs[..i] == docs;
    }

    /** `find`: every token through package, id and project lookups. */
    method Find(pkgs: seq<Token>) returns (r: Result<()>)
      modifies this
      ensures Outcome(srs, r) == Resolve(api, old(srs), pkgs)
    {
      var i := 0;
      while i < |pkgs|
        invariant 0 <= i <= |pkgs|
        invariant Resolve(api, old(srs), pkgs[..i]) == Outcome(srs, Ok(()))
      {
        var p := pkgs[i];
        assert pkgs[..i + 1][..i] == pkgs[..i];
        assert pkgs[..i + 1] + pkgs[i + 1..] == pkgs;
        var byPackage := FindRequestPackage(p);
        if byPackage.Err? {
          ResolveErrPersists(api, old(srs), pkgs[..i + 1], pkgs[i + 1..]);
          return Err(byPackage.failure);
        }
        if byPackage.value.Some? {
          i := i + 1;
          continue;
        }
        var byId := FindRequestId(p);
        if byId.Err? {
          ResolveErrPersists(api, old(srs), pkgs[..i + 1], pkgs[i + 1..]);
          return Err(byId.failure);
        }
        if byId.value == Some(true) {
          i := i + 1;
          continue;
        }
        var byProject := FindRequestProject(p);
        if byProject {
          i := i + 1;
          continue;
        }
        ResolveErrPersists(api, old(srs), pkgs[..i + 1], pkgs[i + 1..]);
        return Err(NoRequestFound(p));
      }
      assert pkgs[..i] == pkgs;
      return Ok(());
    }

    /** `find_via_stagingapi`: every token against every staging. */
    method FindViaStagingApi(pkgs: seq<Token>) returns (r: Result<()>)
      modifies this
      ensures Outcome(srs, r) == ResolveStaged(api, old(srs), pkgs)
    {
      var i := 0;
      while i < |pkgs|
        invariant 0 <= i <= |pkgs|
        invariant ResolveStaged(api, old(srs), pkgs[..i]) == Outcome(srs, Ok(()))
      {
        var p := pkgs[i];
        var found := false;
        var stagings := api.stagings;
        ghost var before := srs;
        var k := 0;
        while k < |stagings|
          invariant 0 <= k <= |stagings|
          invariant (srs, found) == ScanStagings(api, before, p, stagings[..k])
        {
          var staging := stagings[k];
          assert stagings[..k + 1][..k] == stagings[..k];
          if IsInt(p) && api.packageForRequest(staging, p) {
            srs := srs[IntValue(p) := Staged(staging)];
            found := true;
          } else {
            var rq := api.requestForPackage(staging, p);
            if rq.Some? {
              srs := srs[rq.value as int := Staged(staging)];
              found := true;
            }
          }
          k := k + 1;
        }
        assert stagings[..k] == stagings;
        assert pkgs[..i + 1][..i] == pkgs[..i];
        if !found {
          assert pkgs[..i + 1] + pkgs[i + 1..] == pkgs;
          ResolveStagedErrPersists(api, old(srs), pkgs[..i + 1], pkgs[i + 1..]);
          return Err(NoRequestFound(p));
        }
        i := i + 1;
      }
      assert pkgs[..i] == pkgs;
      return Ok(());
    }

    /** `find_sr`: a fresh finder runs `find`; its map is returned unless
        `find` raised. */
    static method FindSr(pkgs: seq<Token>, api: Api) returns (r: Result<Srs>)
      ensures var o := Resolve(api, map[], pkgs);
        r == if o.result.Ok? then Ok(o.srs) else Err(o.result.failure)
    {
      var finder := new RequestFinder(api);
      var result := finder.Find(pkgs);
      if result.Err? {
        return Err(result.failure);
      }
      return Ok(finder.srs);
    }

    /** `find_staged_sr`: a fresh finder runs `find_via_stagingapi`. */
    static method FindStagedSr(pkgs: seq<Token>, api: Api) returns (r: Result<Srs>)
      ensures var o := ResolveStaged(api, map[], pkgs);
        r == if o.result.Ok? then Ok(o.srs) else Err(o.result.failure)
    {
      var finder := new RequestFinder(api);
      var result := finder.FindViaStagingApi(pkgs);
      if result.Err? {
        return Err(result.failure);
      }
      return Ok(finder.srs);
    }
  }
}
