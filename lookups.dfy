/** The three lookup strategies of `RequestFinder` as functions of the map
    before the call and the remote answers: `find_request_id`,
    `find_request_package` and `find_request_project`. Each gives the map
    after the call and what the call returned or raised. The loops walk the
    returned documents from first to last, so each walk is defined on a
    prefix extended by its last element, the way the loop consumes it. */
module Lookups {
  import opened Text
  import opened Model

  // ---------------------------------------------------------------------
  // find_request_id

  /** `find_request_id`: Some(false) for a non-numeric token, None when the
      GET fails or echoes another id, Some(true) when the request was
      recorded under its first action's target project. */
  function IdLookup(api: Api, srs: Srs, t: Token): Outcome<Option<bool>> {
    if !IsInt(t) then Outcome(srs, Ok(Some(false)))
    else match api.byId(TokenText(t))
      case None => Outcome(srs, Ok(None))
      case Some(root) =>
        if NatToString(root.id) != TokenText(t) then Outcome(srs, Ok(None))
        else if |root.actions| == 0 then Outcome(srs, Err(MissingAction(root.id)))
        else
          var project := root.actions[0].target.project;
          if project != Master(api) && !(StagingPrefix(api) <= project) then
            Outcome(srs, Err(OutOfScope(t, project)))
          else
            Outcome(srs[IntValue(t) := Scoped(project, None)], Ok(Some(true)))
  }

  /** The three answers of `find_request_id` and the two misses: False
      exactly for a non-numeric token, None exactly when the gateway has no
      document or one whose id differs textually from the token, and in
      neither case, nor when it raises, is the map changed. */
  lemma IdLookupMisses(api: Api, srs: Srs, t: Token)
    ensures var o := IdLookup(api, srs, t);
      && (o.result == Ok(Some(false)) <==> !IsInt(t))
      && (o.result == Ok(None) <==>
            IsInt(t) && (api.byId(TokenText(t)).None? ||
                         NatToString(api.byId(TokenText(t)).value.id) != TokenText(t)))
      && (o.result != Ok(Some(true)) ==> o.srs == srs)
  {
  }

  /** When the gateway echoes the token's id, the request's first action
      decides: a target outside `openSUSE:<X>` and its staging namespace
      raises WrongArgs naming the request and that project with the map
      unchanged; otherwise the request is recorded under its own id with
      that project and no other key changes. */
  lemma IdLookupScope(api: Api, srs: Srs, t: Token, root: RequestDoc)
    requires api.byId(TokenText(t)) == Some(root)
    requires NatToString(root.id) == TokenText(t)
    requires |root.actions| > 0
    ensures var project := root.actions[0].target.project;
      var o := IdLookup(api, srs, t);
      if project == Master(api) || StagingPrefix(api) <= project then
        o == Outcome(srs[root.id := Scoped(project, None)], Ok(Some(true)))
      else
        o == Outcome(srs, Err(OutOfScope(t, project)))
  {
    EchoedIdIsKey(t, root.id);
  }

  // ---------------------------------------------------------------------
  // find_request_package

  /** `last_rq` refers to an entry of the map written with a state, so
      `self.srs[last_rq]['state']` is defined. */
  predicate Tracks(srs: Srs, last: Option<RequestId>) {
    last.Some? ==> last.value in srs && srs[last.value].Scoped? && srs[last.value].state.Some?
  }

  /** One iteration of the loop of `find_request_package` on document `d`
      with `last_rq` = `last`. */
  function PackageStep(master: string, package: string, srs: Srs, last: Option<RequestId>, d: RequestDoc)
    : (o: Outcome<Option<RequestId>>)
    requires Tracks(srs, last)
    ensures o.result.Ok? ==> Tracks(o.srs, o.result.value)
    ensures o.result.Err? ==> o.result.failure.MissingAction? || o.result.failure.MultipleRequests? ||
                              o.result.failure.NotMonotonic?
  {
    if |d.actions| == 0 then Outcome(srs, Err(MissingAction(d.id)))
    else if Lower(package) != Lower(d.actions[0].target.package) then Outcome(srs, Ok(last))
    else
      var written := srs[d.id := Scoped(master, Some(d.state))];
      if last.None? then Outcome(written, Ok(Some(d.id)))
      else if written[last.value].state != Some("declined") then
        Outcome(written, Err(MultipleRequests(package, last.value, d.id)))
      else
        var evicted := written - {last.value};
        if last.value < d.id then Outcome(evicted, Ok(Some(d.id)))
        else Outcome(evicted, Err(NotMonotonic(last.value, d.id)))
  }

  /** The loop of `find_request_package` over `docs`, from `last_rq = None`. */
  function PackageWalk(master: string, package: string, srs: Srs, docs: seq<RequestDoc>)
    : (o: Outcome<Option<RequestId>>)
    ensures o.result.Ok? ==> Tracks(o.srs, o.result.value)
    ensures o.result.Err? ==> o.result.failure.MissingAction? || o.result.failure.MultipleRequests? ||
                              o.result.failure.NotMonotonic?
    decreases |docs|
  {
    if docs == [] then Outcome(srs, Ok(None))
    else
      var prior := PackageWalk(master, package, srs, docs[..|docs| - 1]);
      if prior.result.Err? then prior
      else PackageStep(master, package, prior.srs, prior.result.value, docs[|docs| - 1])
  }

  /** `find_request_package`. `urllib2.quote` hands a falsy argument back
      unchanged and fails on any other int, so a non-zero int token raises
      before any request is made. For the int 0 the query for "0" is sent,
      and the loop fails on its first document: at a missing `<action>`, or
      else at `package.lower()`. With no documents it returns None. */
  function PackageLookup(api: Api, srs: Srs, t: Token): Outcome<Option<RequestId>> {
    match t
    case IntToken(n) =>
      if n != 0 then Outcome(srs, Err(NotAString(t)))
      else
        var docs := api.byPackage(TokenText(t));
        if docs == [] then Outcome(srs, Ok(None))
        else if |docs[0].actions| == 0 then Outcome(srs, Err(MissingAction(docs[0].id)))
        else Outcome(srs, Err(NotAString(t)))
    case StrToken(p) => PackageWalk(Master(api), p, srs, api.byPackage(p))
  }

  /** An int token never changes the map and never yields a request id: it
      gets through only as the int 0 with an empty collection for "0", and
      otherwise fails on the token itself or on a document without an
      action. */
  lemma PackageLookupIntToken(api: Api, srs: Srs, n: int)
    ensures var o := PackageLookup(api, srs, IntToken(n));
      && o.srs == srs
      && (o.result.Ok? <==> n == 0 && api.byPackage("0") == [])
      && (o.result.Ok? ==> o.result.value.None?)
      && (o.result.Err? ==> o.result.failure == NotAString(IntToken(n)) || o.result.failure.MissingAction?)
  {
    assert TokenText(IntToken(0)) == "0" by {
      assert IntToString(0) == [DigitChar(0)];
    }
  }

  /** A raised exception stops the walk: later documents change nothing. */
  lemma {:induction false} PackageWalkErrPersists(master: string, package: string, srs: Srs,
                                                  docs: seq<RequestDoc>, rest: seq<RequestDoc>)
    requires PackageWalk(master, package, srs, docs).result.Err?
    ensures PackageWalk(master, package, srs, docs + rest) == PackageWalk(master, package, srs, docs)
    decreases |rest|
  {
    if rest != [] {
      var front := rest[..|rest| - 1];
      assert (docs + rest)[..|docs + rest| - 1] == docs + front;
      PackageWalkErrPersists(master, package, srs, docs, front);
    } else {
      assert docs + rest == docs;
    }
  }

  /** Every document has a first action (otherwise the source fails with an
      AttributeError as soon as it reaches that document). */
  predicate WellFormed(docs: seq<RequestDoc>) {
    forall i :: 0 <= i < |docs| ==> |docs[i].actions| > 0
  }

  /** A document matches a package when its FIRST action targets that
      package, compared case-insensitively. */
  predicate IsMatch(package: string, d: RequestDoc) {
    |d.actions| > 0 && Lower(package) == Lower(d.actions[0].target.package)
  }

  /** The matching documents, in document order. */
  function Matches(package: string, docs: seq<RequestDoc>): seq<RequestDoc>
    decreases |docs|
  {
    if docs == [] then []
    else
      var d := docs[|docs| - 1];
      Matches(package, docs[..|docs| - 1]) + (if IsMatch(package, d) then [d] else [])
  }

  predicate Increasing(ms: seq<RequestDoc>) {
    forall i, j :: 0 <= i < j < |ms| ==> ms[i].id < ms[j].id
  }

  /** The matches the walk gets through without raising: strictly increasing
      ids, and every match but the last declined. */
  predicate Accepted(ms: seq<RequestDoc>) {
    Increasing(ms) && forall i :: 0 <= i < |ms| - 1 ==> ms[i].state == "declined"
  }

  function IdsOf(ms: seq<RequestDoc>): set<int> {
    set i | 0 <= i < |ms| :: ms[i].id as int
  }

  function LastId(ms: seq<RequestDoc>): Option<RequestId> {
    if ms == [] then None else Some(ms[|ms| - 1].id)
  }

  /** The map after an accepted walk: every earlier match evicted, the last
      one recorded as `{project: openSUSE:<X>, state}`. */
  function Survivor(master: string, srs: Srs, ms: seq<RequestDoc>): Srs {
    if ms == [] then srs
    else
      var d := ms[|ms| - 1];
      (srs - IdsOf(ms[..|ms| - 1]))[d.id := Scoped(master, Some(d.state))]
  }

  lemma MatchesSnoc(package: string, docs: seq<RequestDoc>, d: RequestDoc)
    ensures Matches(package, docs + [d]) ==
            Matches(package, docs) + (if IsMatch(package, d) then [d] else [])
  {
    assert (docs + [d])[..|docs|] == docs;
  }

  /** Evicting the previous survivor and recording the new match gives the
      survivor of the longer sequence of matches. */
  lemma SurvivorStep(master: string, srs: Srs, ms: seq<RequestDoc>, d: RequestDoc)
    requires ms != [] && ms[|ms| - 1].id != d.id
    ensures Survivor(master, srs, ms)[d.id := Scoped(master, Some(d.state))] - {ms[|ms| - 1].id as int}
            == Survivor(master, srs, ms + [d])
  {
    var n := |ms|;
    var last := ms[n - 1];
    assert (ms + [d])[..n] == ms;
    assert IdsOf(ms) == IdsOf(ms[..n - 1]) + {last.id as int} by {
      forall k | k in IdsOf(ms) ensures k in IdsOf(ms[..n - 1]) + {last.id as int} {
        var i :| 0 <= i < n && ms[i].id as int == k;
        if i < n - 1 { assert ms[..n - 1][i] == ms[i]; }
      }
      forall k | k in IdsOf(ms[..n - 1]) ensures k in IdsOf(ms) {
        var i :| 0 <= i < n - 1 && ms[..n - 1][i].id as int == k;
        assert ms[i] == ms[..n - 1][i];
      }
    }
  }

  /** What `find_request_package` does with its documents: it returns
      normally exactly when every document has an action and the matches
      are accepted (strictly increasing ids, all but the last declined); it
      then returns the last match's id (None without matches) and leaves
      the map as `Survivor`: earlier matches evicted, the last one
      recorded. */
  lemma PackageWalkMeaning(master: string, package: string, srs: Srs, docs: seq<RequestDoc>)
    ensures var o := PackageWalk(master, package, srs, docs);
      var ms := Matches(package, docs);
      && (o.result.Ok? <==> WellFormed(docs) && Accepted(ms))
      && (o.result.Ok? ==> o.result.value == LastId(ms) && o.srs == Survivor(master, srs, ms))
  {
    PackageWalkOkWellFormed(master, package, srs, docs);
    if WellFormed(docs) {
      WellFormedWalkMeaning(master, package, srs, docs);
    }
  }

  /** A walk that returns normally has met an action in every document. */
  lemma {:induction false} PackageWalkOkWellFormed(master: string, package: string, srs: Srs, docs: seq<RequestDoc>)
    ensures PackageWalk(master, package, srs, docs).result.Ok? ==> WellFormed(docs)
    decreases |docs|
  {
    if docs != [] {
      var front := docs[..|docs| - 1];
      PackageWalkOkWellFormed(master, package, srs, front);
      if PackageWalk(master, package, srs, docs).result.Ok? {
        forall i | 0 <= i < |docs| ensures |docs[i].actions| > 0 {
          if i < |front| { assert docs[i] == front[i]; }
        }
      }
    }
  }

  /** `PackageWalkMeaning` on a feed whose documents all have an action. */
  lemma {:induction false} WellFormedWalkMeaning(master: string, package: string, srs: Srs, docs: seq<RequestDoc>)
    requires WellFormed(docs)
    ensures WalkExplained(master, package, srs, docs)
    decreases |docs|
  {
    if docs != [] {
      var front := docs[..|docs| - 1];
      var d := docs[|docs| - 1];
      assert docs == front + [d];
      assert WellFormed(front) by {
        forall i | 0 <= i < |front| ensures |front[i].actions| > 0 {
          assert front[i] == docs[i];
        }
      }
      WellFormedWalkMeaning(master, package, srs, front);
      WalkExplainedSnoc(master, package, srs, front, d);
    }
  }

  /** What the walk over a well-formed feed means (see `PackageWalkMeaning`). */
  ghost predicate WalkExplained(master: string, package: string, srs: Srs, docs: seq<RequestDoc>) {
    var o := PackageWalk(master, package, srs, docs);
    var ms := Matches(package, docs);
    && (o.result.Ok? <==> Accepted(ms))
    && (o.result.Ok? ==> o.result.value == LastId(ms) && o.srs == Survivor(master, srs, ms))
  }

  /** One more well-formed document keeps the walk explained. */
  lemma WalkExplainedSnoc(master: string, package: string, srs: Srs, front: seq<RequestDoc>, d: RequestDoc)
    requires WalkExplained(master, package, srs, front) && |d.actions| > 0
    ensures WalkExplained(master, package, srs, front + [d])
  {
    var prior := PackageWalk(master, package, srs, front);
    var ms := Matches(package, front);
    if !IsMatch(package, d) {
      WalkSkips(master, package, srs, front, d);
    } else if prior.result.Err? {
      WalkStaysFailed(master, package, srs, front, d);
    } else if ms == [] {
      WalkFirst(master, package, srs, front, d);
    } else if ms[|ms| - 1].id != d.id && ms[|ms| - 1].state == "declined" && ms[|ms| - 1].id < d.id {
      WalkEvicts(master, package, srs, front, d);
    } else {
      WalkRaises(master, package, srs, front, d);
    }
  }

  lemma WalkSkips(master: string, package: string, srs: Srs, front: seq<RequestDoc>, d: RequestDoc)
    requires WalkExplained(master, package, srs, front) && |d.actions| > 0 && !IsMatch(package, d)
    ensures WalkExplained(master, package, srs, front + [d])
  {
    var prior := PackageWalk(master, package, srs, front);
    var ms := Matches(package, front);
    MatchesSnoc(package, front, d);
    assert (front + [d])[..|front|] == front;
    assert ms + [] == ms;
    if prior.result.Ok? {
      PackageStepSkips(master, package, prior.srs, prior.result.value, d);
    }
  }

  lemma WalkStaysFailed(master: string, package: string, srs: Srs, front: seq<RequestDoc>, d: RequestDoc)
    requires WalkExplained(master, package, srs, front) && IsMatch(package, d)
    requires PackageWalk(master, package, srs, front).result.Err?
    ensures WalkExplained(master, package, srs, front + [d])
  {
    MatchesSnoc(package, front, d);
    assert (front + [d])[..|front|] == front;
    AcceptedPrefix(Matches(package, front), d);
  }

  lemma WalkFirst(master: string, package: string, srs: Srs, front: seq<RequestDoc>, d: RequestDoc)
    requires WalkExplained(master, package, srs, front) && IsMatch(package, d)
    requires PackageWalk(master, package, srs, front).result.Ok? && Matches(package, front) == []
    ensures WalkExplained(master, package, srs, front + [d])
  {
    MatchesSnoc(package, front, d);
    assert (front + [d])[..|front|] == front;
    PackageStepFirst(master, package, srs, d);
  }

  lemma WalkEvicts(master: string, package: string, srs: Srs, front: seq<RequestDoc>, d: RequestDoc)
    requires WalkExplained(master, package, srs, front) && IsMatch(package, d)
    requires PackageWalk(master, package, srs, front).result.Ok?
    requires var ms := Matches(package, front);
      ms != [] && ms[|ms| - 1].state == "declined" && ms[|ms| - 1].id < d.id
    ensures WalkExplained(master, package, srs, front + [d])
  {
    MatchesSnoc(package, front, d);
    assert (front + [d])[..|front|] == front;
    PackageStepEvicts(master, package, srs, Matches(package, front), d);
  }

  lemma WalkRaises(master: string, package: string, srs: Srs, front: seq<RequestDoc>, d: RequestDoc)
    requires WalkExplained(master, package, srs, front) && IsMatch(package, d)
    requires PackageWalk(master, package, srs, front).result.Ok?
    requires var ms := Matches(package, front);
      ms != [] && !(ms[|ms| - 1].id != d.id && ms[|ms| - 1].state == "declined" && ms[|ms| - 1].id < d.id)
    ensures WalkExplained(master, package, srs, front + [d])
  {
    MatchesSnoc(package, front, d);
    assert (front + [d])[..|front|] == front;
    PackageStepRaises(master, package, srs, Matches(package, front), d);
  }

  /** A document that does not match leaves the walk as it was. */
  lemma PackageStepSkips(master: string, package: string, srs: Srs, last: Option<RequestId>, d: RequestDoc)
    requires Tracks(srs, last) && |d.actions| > 0 && !IsMatch(package, d)
    ensures PackageStep(master, package, srs, last, d) == Outcome(srs, Ok(last))
  {
  }

  /** The first match is recorded and becomes `last_rq`. */
  lemma PackageStepFirst(master: string, package: string, srs: Srs, d: RequestDoc)
    requires IsMatch(package, d)
    ensures Accepted([d])
    ensures PackageStep(master, package, srs, None, d) == Outcome(Survivor(master, srs, [d]), Ok(Some(d.id)))
  {
    assert [d][..0] == [];
    assert IdsOf([]) == {};
  }

  lemma PackageStepEvicts(master: string, package: string, srs: Srs, ms: seq<RequestDoc>, d: RequestDoc)
    requires Accepted(ms) && IsMatch(package, d) && ms != []
    requires ms[|ms| - 1].state == "declined" && ms[|ms| - 1].id < d.id
    requires Tracks(Survivor(master, srs, ms), LastId(ms))
    ensures var o := PackageStep(master, package, Survivor(master, srs, ms), LastId(ms), d);
      && Accepted(ms + [d])
      && o == Outcome(Survivor(master, srs, ms + [d]), Ok(LastId(ms + [d])))
  {
    var last := ms[|ms| - 1];
    var ms' := ms + [d];
    assert ms'[..|ms|] == ms;
    SurvivorStep(master, srs, ms, d);
    forall i, j | 0 <= i < j < |ms'| ensures ms'[i].id < ms'[j].id {
      if j == |ms| && i < |ms| - 1 { assert ms[i].id < last.id; }
    }
  }

  lemma PackageStepRaises(master: string, package: string, srs: Srs, ms: seq<RequestDoc>, d: RequestDoc)
    requires Accepted(ms) && IsMatch(package, d) && ms != []
    requires !(ms[|ms| - 1].id != d.id && ms[|ms| - 1].state == "declined" && ms[|ms| - 1].id < d.id)
    requires Tracks(Survivor(master, srs, ms), LastId(ms))
    ensures !Accepted(ms + [d])
    ensures PackageStep(master, package, Survivor(master, srs, ms), LastId(ms), d).result.Err?
  {
    var last := ms[|ms| - 1];
    var ms' := ms + [d];
    assert ms'[|ms| - 1] == last && ms'[|ms|] == d;
    var s := Survivor(master, srs, ms);
    assert s[last.id] == Scoped(master, Some(last.state));
  }

  /** Getting through a longer run of matches means getting through its
      prefix. */
  lemma AcceptedPrefix(ms: seq<RequestDoc>, d: RequestDoc)
    ensures Accepted(ms + [d]) ==> Accepted(ms)
  {
    var ms' := ms + [d];
    assert forall i :: 0 <= i < |ms| ==> ms[i] == ms'[i];
  }

  /** Exactly one match survives a normal return:
      the returned id, recorded with its own state; every evicted match was
      declined; with no match nothing changes and None is returned. */
  lemma PackageSingleSurvivor(master: string, package: string, srs: Srs, docs: seq<RequestDoc>)
    requires PackageWalk(master, package, srs, docs).result.Ok?
    ensures var o := PackageWalk(master, package, srs, docs);
      var ms := Matches(package, docs);
      && (ms == [] ==> o.result.value.None? && o.srs == srs)
      && (ms != [] ==>
            && o.result.value == Some(ms[|ms| - 1].id)
            && o.srs[ms[|ms| - 1].id] == Scoped(master, Some(ms[|ms| - 1].state))
            && (forall i :: 0 <= i < |ms| - 1 ==> ms[i].state == "declined" && ms[i].id !in o.srs)
            && (forall k :: k in srs && k !in IdsOf(ms) ==> k in o.srs && o.srs[k] == srs[k]))
  {
    PackageWalkMeaning(master, package, srs, docs);
    var ms := Matches(package, docs);
    if ms != [] {
      var front := ms[..|ms| - 1];
      forall i | 0 <= i < |ms| - 1 ensures ms[i].id as int in IdsOf(front) {
        assert front[i] == ms[i];
      }
      forall k | k in IdsOf(front) ensures k in IdsOf(ms) {
        var i :| 0 <= i < |front| && front[i].id as int == k;
        assert front[i] == ms[i];
      }
    }
  }

  /** The first match the walk cannot get through, after an accepted run of
      matches ending in `last`: the state the source inspects is that of
      `srs[last_rq]` after the new entry was written (so the new one's when
      the ids coincide); if it is live, WrongArgs names both ids; if it is
      declined and the ids do not increase, the assertion fails. Later
      documents are never reached. */
  lemma PackageConflict(master: string, package: string, srs: Srs,
                        before: seq<RequestDoc>, d: RequestDoc, after: seq<RequestDoc>)
    requires WellFormed(before)
    requires IsMatch(package, d)
    requires Accepted(Matches(package, before)) && Matches(package, before) != []
    ensures var ms := Matches(package, before);
      var last := ms[|ms| - 1];
      var seen := if d.id == last.id then d.state else last.state;
      var o := PackageWalk(master, package, srs, before + [d] + after);
      && (seen != "declined" ==> o.result == Err(MultipleRequests(package, last.id, d.id)))
      && (seen == "declined" && last.id >= d.id ==> o.result == Err(NotMonotonic(last.id, d.id)))
  {
    PackageWalkMeaning(master, package, srs, before);
    var docs := before + [d];
    assert docs[..|docs| - 1] == before;
    var ms := Matches(package, before);
    var last := ms[|ms| - 1];
    var seen := if d.id == last.id then d.state else last.state;
    if seen != "declined" || last.id >= d.id {
      PackageWalkErrPersists(master, package, srs, docs, after);
    }
  }

  /** Whether the walk returns normally, and what it returns, does not
      depend on the map it starts from. */
  lemma {:induction false} PackageWalkResultIndependent(master: string, package: string,
                                                        srs1: Srs, srs2: Srs, docs: seq<RequestDoc>)
    ensures var o1 := PackageWalk(master, package, srs1, docs);
      var o2 := PackageWalk(master, package, srs2, docs);
      && o1.result == o2.result
      && (o1.result.Ok? && o1.result.value.Some? ==>
            o1.srs[o1.result.value.value] == o2.srs[o2.result.value.value])
    decreases |docs|
  {
    if docs != [] {
      PackageWalkResultIndependent(master, package, srs1, srs2, docs[..|docs| - 1]);
    }
  }

  /** The package lookup answers the same whatever map it starts from. */
  lemma PackageLookupIndependent(api: Api, srs: Srs, t: Token)
    ensures PackageLookup(api, srs, t).result == PackageLookup(api, map[], t).result
  {
    if t.StrToken? {
      PackageWalkResultIndependent(Master(api), t.text, srs, map[], api.byPackage(t.text));
    }
  }

  // ---------------------------------------------------------------------
  // find_request_project

  /** An action whose `<source>` project equals the token (a string; an int
      token never compares equal to an attribute). */
  predicate SourceIs(a: Action, t: Token) {
    t.StrToken? && a.source == Some(t.text)
  }

  predicate AnyFromSource(actions: seq<Action>, t: Token) {
    exists j :: 0 <= j < |actions| && SourceIs(actions[j], t)
  }

  lemma AnyFromSourceSnoc(actions: seq<Action>, j: int, t: Token)
    requires 0 <= j < |actions|
    ensures AnyFromSource(actions[..j + 1], t) <==> AnyFromSource(actions[..j], t) || SourceIs(actions[j], t)
  {
    var longer := actions[..j + 1];
    assert longer[j] == actions[j];
    if AnyFromSource(longer, t) {
      var k :| 0 <= k < |longer| && SourceIs(longer[k], t);
      if k < j { assert actions[..j][k] == longer[k]; }
    }
    if AnyFromSource(actions[..j], t) {
      var k :| 0 <= k < j && SourceIs(actions[..j][k], t);
      assert longer[k] == actions[..j][k];
    }
  }

  /** A request has SOME action coming from the source project. */
  predicate FromSource(d: RequestDoc, t: Token) {
    AnyFromSource(d.actions, t)
  }

  /** The outer loop of `find_request_project` over `docs`, with the map and
      the `ret` flag it maintains. */
  function ProjectWalk(master: string, t: Token, srs: Srs, docs: seq<RequestDoc>): (Srs, bool)
    decreases |docs|
  {
    if docs == [] then (srs, false)
    else
      var (s, ret) := ProjectWalk(master, t, srs, docs[..|docs| - 1]);
      var d := docs[|docs| - 1];
      if FromSource(d, t) then (s[d.id := Scoped(master, Some(d.state))], true) else (s, ret)
  }

  /** `find_request_project`: True (here `true`) or None (here `false`). */
  function ProjectLookup(api: Api, srs: Srs, t: Token): (Srs, bool) {
    ProjectWalk(Master(api), t, srs, api.openRequests)
  }

  function SourceIds(t: Token, docs: seq<RequestDoc>): set<int> {
    set i | 0 <= i < |docs| && FromSource(docs[i], t) :: docs[i].id as int
  }

  lemma SourceIdsSnoc(t: Token, docs: seq<RequestDoc>)
    requires docs != []
    ensures var d := docs[|docs| - 1];
      SourceIds(t, docs) ==
      SourceIds(t, docs[..|docs| - 1]) + (if FromSource(d, t) then {d.id as int} else {})
  {
    var n := |docs|;
    var front := docs[..n - 1];
    forall k | k in SourceIds(t, docs)
      ensures k in SourceIds(t, front) + (if FromSource(docs[n - 1], t) then {docs[n - 1].id as int} else {})
    {
      var i :| 0 <= i < n && FromSource(docs[i], t) && docs[i].id as int == k;
      if i < n - 1 { assert front[i] == docs[i]; }
    }
    forall k | k in SourceIds(t, front) ensures k in SourceIds(t, docs) {
      var i :| 0 <= i < n - 1 && FromSource(front[i], t) && front[i].id as int == k;
      assert front[i] == docs[i];
    }
  }

  /** `find_request_project` accepts every request with an action from the
      source project: it reports a hit exactly when there is one, adds
      exactly their ids to the map and leaves every other key as it was. No
      ambiguity is raised. */
  lemma {:induction false} ProjectWalkKeys(master: string, t: Token, srs: Srs, docs: seq<RequestDoc>)
    ensures var o := ProjectWalk(master, t, srs, docs);
      && (o.1 <==> exists i :: 0 <= i < |docs| && FromSource(docs[i], t))
      && o.0.Keys == srs.Keys + SourceIds(t, docs)
      && (forall k :: k in srs && k !in SourceIds(t, docs) ==> o.0[k] == srs[k])
    decreases |docs|
  {
    if docs != [] {
      var n := |docs|;
      var front := docs[..n - 1];
      ProjectWalkKeys(master, t, srs, front);
      SourceIdsSnoc(t, docs);
      assert forall i :: 0 <= i < n - 1 ==> front[i] == docs[i];
    }
  }

  /** Each accepted request's entry is `{project: openSUSE:<X>, state}`
      with the state of the last accepted request carrying that id. */
  lemma {:induction false} ProjectWalkEntry(master: string, t: Token, srs: Srs, docs: seq<RequestDoc>, i: int)
    requires 0 <= i < |docs| && FromSource(docs[i], t) && LastFromSource(t, docs, i)
    ensures var s := ProjectWalk(master, t, srs, docs).0;
      docs[i].id as int in s && s[docs[i].id] == Scoped(master, Some(docs[i].state))
    decreases |docs|
  {
    var n := |docs|;
    if i < n - 1 {
      var front := docs[..n - 1];
      assert front[i] == docs[i];
      assert LastFromSource(t, front, i) by {
        forall j | i < j < n - 1 && FromSource(front[j], t) ensures front[j].id != front[i].id {
          assert front[j] == docs[j];
        }
      }
      ProjectWalkEntry(master, t, srs, front, i);
    }
  }

  /** No later request from the source project carries the id of `docs[i]`. */
  predicate LastFromSource(t: Token, docs: seq<RequestDoc>, i: int)
    requires 0 <= i < |docs|
  {
    forall j :: i < j < |docs| && FromSource(docs[j], t) ==> docs[j].id != docs[i].id
  }
}
