/** `BotsService.updateBot`: one synchronisation run of the repository's flows and AI rules
    to the studio. The client object keeps the log of the calls it has made; which calls the
    remote service rejects is a fixed oracle, and the flows the service answers to the
    fetch are a parameter of the run. */
module BotSync {
  import opened Json
  import opened Sequences
  import opened Auth
  import opened Reconcile
  import opened Loader
  import opened Requests

  /** The local flows the reconciliation works on: each loaded text read as the flow record
      it declares (`parse` stands for reading a flow document's declared properties). */
  function LocalFlows(flowsDir: Option<seq<DirEntry>>, parse: string -> Record): seq<Record>
  {
    ParseFlows(RepoFlowTexts(flowsDir), parse)
  }

  function ParseFlows(texts: seq<string>, parse: string -> Record): seq<Record>
  {
    seq(|texts|, k requires 0 <= k < |texts| => parse(texts[k]))
  }

  class StudioClient {
    const apiKey: string
    const apiSecret: string
    /** HMAC-SHA256 of the message under the key, hex encoded (the `crypto` module). */
    const hmacHex: (string, string) -> string
    /** Whether the remote service rejects a call. */
    const fails: Request -> bool
    /** Every call made so far, in order. */
    var log: seq<Request>

    constructor (apiKey: string, apiSecret: string, hmacHex: (string, string) -> string,
                 fails: Request -> bool)
      ensures this.apiKey == apiKey && this.apiSecret == apiSecret
      ensures this.hmacHex == hmacHex && this.fails == fails
      ensures log == []
    {
      this.apiKey := apiKey;
      this.apiSecret := apiSecret;
      this.hmacHex := hmacHex;
      this.fails := fails;
      log := [];
    }

    /** One awaited call: it is made, then either accepted or rejected. */
    method Send(req: Request) returns (accepted: bool)
      modifies this
      ensures log == old(log) + [req]
      ensures accepted == !fails(req)
    {
      log := log + [req];
      accepted := !fails(req);
    }

    /** `Promise.each` over one group: the calls one at a time, each awaited; a call whose
        path cannot be built throws before it is made, and a rejected call is rethrown, so
        in either case the rest of the group is not attempted. */
    method SendEach(reqs: seq<Request>) returns (outcome: Outcome)
      modifies this
      ensures log == old(log) + Issued(reqs, fails)
      ensures outcome == OutcomeOf(reqs, fails)
    {
      var i := 0;
      while i < |reqs|
        invariant 0 <= i <= |reqs|
        invariant log == old(log) + reqs[..i]
        invariant forall j :: 0 <= j < i ==> !Unsendable(reqs[j]) && !fails(reqs[j])
      {
        if Unsendable(reqs[i]) {
          IssuedStopsAt(reqs, i, fails);
          return Unsent(reqs[i]);
        }
        var ok := Send(reqs[i]);
        assert reqs[..i + 1] == reqs[..i] + [reqs[i]];
        if !ok {
          IssuedStopsAt(reqs, i, fails);
          return Rejected(reqs[i]);
        }
        i := i + 1;
      }
      assert reqs[..i] == reqs;
      IssuedPrefix(reqs, fails);
      return Completed;
    }

    /** Groups sent one after the other, each with `SendEach`; a rejected call or a path
        that cannot be built ends the whole sequence, so later groups are not attempted. */
    method SendGroups(groups: seq<seq<Request>>) returns (outcome: Outcome)
      modifies this
      ensures log == old(log) + Issued(Flatten(groups), fails)
      ensures outcome == OutcomeOf(Flatten(groups), fails)
    {
      outcome := Completed;
      ghost var done: seq<Request> := [];
      var k := 0;
      while k < |groups|
        invariant 0 <= k <= |groups|
        invariant log == old(log) + done
        invariant outcome == OutcomeOf(done, fails) == Completed
        invariant Flatten(groups) == done + Flatten(groups[k..])
      {
        FlattenFrom(groups, k);
        ghost var rest := Flatten(groups[k + 1..]);
        assert Flatten(groups) == done + (groups[k] + rest);
        ghost var before := log;
        outcome := SendEach(groups[k]);
        if !outcome.Completed? {
          RejectedAfter(done, groups[k], rest, fails);
          AppendAssoc(old(log), done, Issued(groups[k], fails));
          return;
        }
        IssuedPrefix(groups[k], fails);
        CompletedAfter(done, groups[k], rest, fails);
        AppendAssoc(old(log), done, groups[k]);
        done := done + groups[k];
        k := k + 1;
      }
      assert Flatten(groups) == done;
      IssuedPrefix(done, fails);
    }

    /** The apply phase: the delete, update and create groups (one `Promise.each` each),
        then the rules replacement under `if (airules)`. */
    method Apply(h: AuthHeaders, deleteFlows: seq<Record>, updateFlows: seq<Record>,
                 createFlows: seq<Record>, airules: Json) returns (outcome: Outcome)
      modifies this
      ensures log == old(log) + Issued(ApplyRequests(h, deleteFlows, updateFlows, createFlows, airules), fails)
      ensures outcome == OutcomeOf(ApplyRequests(h, deleteFlows, updateFlows, createFlows, airules), fails)
    {
      ApplyRequestsGroups(h, deleteFlows, updateFlows, createFlows, airules);
      outcome := SendGroups([DeleteRequests(h, deleteFlows), UpdateRequests(h, updateFlows),
                             CreateRequests(h, createFlows), AirulesRequests(h, airules)]);
    }

    /** The calls of one run at time `nowMs`, if the service accepted them all. */
    function PlannedRun(nowMs: int, flowsDir: Option<seq<DirEntry>>, parse: string -> Record,
                        airulesFile: AirulesFile, studioFlows: seq<Record>): seq<Request>
    {
      UpdateBotRequests(SetAuthenticationHeader(apiKey, apiSecret, nowMs, hmacHex),
                        LocalFlows(flowsDir, parse), studioFlows, GetRepoAirules(airulesFile))
    }

    /** `updateBot()`: headers computed once, local flows and rules loaded, then the
        synchronisation against the studio. The log grows by the run's planned calls up to
        the first rejected one, and the outcome names that call. */
    method UpdateBot(nowMs: int, flowsDir: Option<seq<DirEntry>>, parse: string -> Record,
                     airulesFile: AirulesFile, studioFlows: seq<Record>) returns (outcome: Outcome)
      modifies this
      ensures log == old(log) + Issued(PlannedRun(nowMs, flowsDir, parse, airulesFile, studioFlows), fails)
      ensures outcome == OutcomeOf(PlannedRun(nowMs, flowsDir, parse, airulesFile, studioFlows), fails)
    {
      var h := SetAuthenticationHeader(apiKey, apiSecret, nowMs, hmacHex);
      var texts := GetRepoFlows(flowsDir);
      var flows := ParseFlows(texts, parse);
      var airules := GetRepoAirules(airulesFile);
      outcome := Sync(h, flows, airules, studioFlows);
    }

    /** The remote part of `updateBot()`: fetch the studio flows (`studioFlows` is the
        answer's body), reconcile, apply; every call carries the same headers `h`. */
    method Sync(h: AuthHeaders, flows: seq<Record>, airules: Json, studioFlows: seq<Record>)
      returns (outcome: Outcome)
      modifies this
      ensures log == old(log) + Issued(UpdateBotRequests(h, flows, studioFlows, airules), fails)
      ensures outcome == OutcomeOf(UpdateBotRequests(h, flows, studioFlows, airules), fails)
    {
      var fetch := FetchFlowsRequest(h);
      FetchFirst(h, flows, studioFlows, airules, fails);
      var fetched := Send(fetch);
      if !fetched {
        return Rejected(fetch);
      }
      ghost var beforeApply := log;
      outcome := DiffAndApply(h, flows, airules, studioFlows);
      AppendAssoc(old(log), [fetch], log[|beforeApply|..]);
    }

    /** After a successful fetch: the reconciliation of the local flows against the fetched
        ones, then the apply phase. */
    method DiffAndApply(h: AuthHeaders, flows: seq<Record>, airules: Json, studioBotFlows: seq<Record>)
      returns (outcome: Outcome)
      modifies this
      ensures var apply := ApplyRequests(h, Deleted(flows, studioBotFlows), Updated(flows, studioBotFlows),
                                         Created(flows, studioBotFlows), airules);
        log == old(log) + Issued(apply, fails) && outcome == OutcomeOf(apply, fails)
    {
      var deleteFlows, updateFlows, createFlows := Diff(flows, studioBotFlows);
      outcome := Apply(h, deleteFlows, updateFlows, createFlows, airules);
    }
  }

  /** Appending in two steps is appending once. */
  lemma AppendAssoc(a: seq<Request>, b: seq<Request>, c: seq<Request>)
    ensures a + b + c == a + (b + c)
  {
  }

  /** What one run leaves in the log: the fetch first; deletes, updates, creates and the
      rules replacement in that order; one header pair throughout; every call before the
      last accepted; a rejected run ends exactly at the call it reports, a run that could not
      build a path stops just before the flow call it reports, and an accepted run made
      every planned call. */
  lemma RunLog(h: AuthHeaders, local: seq<Record>, remote: seq<Record>, airules: Json,
               fails: Request -> bool)
    ensures var reqs := UpdateBotRequests(h, local, remote, airules);
      var log := Issued(reqs, fails);
      && log != [] && log[0] == FetchFlowsRequest(h)
      && (forall i, j :: 0 <= i < j < |log| ==> Phase(log[i]) <= Phase(log[j]))
      && (forall i :: 0 <= i < |log| ==> log[i].headers == h)
      && (forall i :: 0 <= i < |log| - 1 ==> !fails(log[i]))
      && (OutcomeOf(reqs, fails).Rejected? ==> log[|log| - 1] == OutcomeOf(reqs, fails).request)
      && (OutcomeOf(reqs, fails).Unsent? ==>
            |log| < |reqs| && reqs[|log|] == OutcomeOf(reqs, fails).request &&
            OutcomeOf(reqs, fails).request.target.FlowItem?)
      && (OutcomeOf(reqs, fails).Completed? ==> log == reqs)
  {
    var reqs := UpdateBotRequests(h, local, remote, airules);
    UpdateBotRequestsShape(h, local, remote, airules);
    IssuedPrefix(reqs, fails);
    var log := Issued(reqs, fails);
    assert log[0] == reqs[0];
    forall i, j | 0 <= i < j < |log|
      ensures Phase(log[i]) <= Phase(log[j])
    {
      assert log[i] == reqs[i] && log[j] == reqs[j];
    }
    forall i | 0 <= i < |log|
      ensures log[i].headers == h
    {
      assert log[i] == reqs[i];
    }
  }

  // ---------------------------------------------------------------------------
  // The loader hands the reconciliation raw texts

  /** A file text as the reconciliation sees it when `getRepoFlows` pushes the string itself:
      a JavaScript string has no `name` property, and spreading it yields one property per
      UTF-16 code unit; the model keeps one key per character, which does not change the
      missing `name`. */
  function RawTextView(text: string): (r: Record)
    ensures NameOf(r) == None
  {
    DecimalInjective();
    map k | 0 <= k < |text| :: Decimal(k) := JStr([text[k]])
  }

  lemma DecimalInjective()
    ensures forall a: nat, b: nat :: Decimal(a) == Decimal(b) ==> a == b
  {
    forall a: nat, b: nat | Decimal(a) == Decimal(b)
      ensures a == b
    {
      DecimalRoundTrip(a);
      DecimalRoundTrip(b);
    }
  }

  /** When no local flow shares a name with any remote flow, every remote flow is deleted
      and none is updated. */
  lemma {:induction false} NoNamesakeRemote(local: seq<Record>, remote: seq<Record>)
    requires forall i, j :: 0 <= i < |local| && 0 <= j < |remote| ==> !SameName(local[i], remote[j])
    ensures Deleted(local, remote) == remote
    ensures Updated(local, remote) == []
    decreases |remote|
  {
    if remote != [] {
      var init := remote[..|remote| - 1];
      NoNamesakeRemote(local, init);
      assert FindIndex(local, remote[|remote| - 1]).None?;
    }
  }

  /** When no local flow shares a name with any remote flow, every local flow is created. */
  lemma {:induction false} NoNamesakeLocal(local: seq<Record>, remote: seq<Record>)
    requires forall i, j :: 0 <= i < |local| && 0 <= j < |remote| ==> !SameName(local[i], remote[j])
    ensures Created(local, remote) == local
    decreases |local|
  {
    if local != [] {
      var init := local[..|local| - 1];
      NoNamesakeLocal(init, remote);
      assert FindIndex(remote, local[|local| - 1]).None?;
    }
  }

  /** As written: with the raw texts as local flows and named remote flows, a run deletes
      every remote flow and re-creates every local file, whatever the files declare. */
  lemma RawTextFlowsNeverMatch(texts: seq<string>, remote: seq<Record>)
    requires forall j :: 0 <= j < |remote| ==> NameOf(remote[j]).Some?
    ensures var local := seq(|texts|, k requires 0 <= k < |texts| => RawTextView(texts[k]));
      Deleted(local, remote) == remote && Updated(local, remote) == [] &&
      Created(local, remote) == local
  {
    var local := seq(|texts|, k requires 0 <= k < |texts| => RawTextView(texts[k]));
    NoNamesakeRemote(local, remote);
    NoNamesakeLocal(local, remote);
  }

  /** As intended: a local flow whose declared name matches a remote flow makes that remote
      flow an update, and is itself neither created nor the cause of a deletion. */
  lemma DeclaredNameMatches(flowsDir: Option<seq<DirEntry>>, parse: string -> Record,
                            remote: seq<Record>, i: nat, j: nat)
    requires var local := LocalFlows(flowsDir, parse);
      i < |remote| && j < |local| && SameName(local[j], remote[i])
    ensures var local := LocalFlows(flowsDir, parse);
      && i in Positions(remote, HasNamesakeIn(local))
      && i !in Positions(remote, NoNamesakeIn(local))
      && j !in Positions(local, NoNamesakeIn(remote))
  {
    var local := LocalFlows(flowsDir, parse);
    PositionsExact(remote, HasNamesakeIn(local));
    PositionsExact(remote, NoNamesakeIn(local));
    PositionsExact(local, NoNamesakeIn(remote));
    assert FindIndex(local, remote[i]).Some?;
    assert FindIndex(remote, local[j]).Some?;
  }
}
