/** The remote calls of `BotsService.updateBot` as abstract request records, the sequence
    in which a run issues them, and how a rejected call cuts that sequence short. The
    HTTP transport itself is not modelled: a call is a record, and the remote service's
    answer is reduced to "accepted" or "rejected". */
module Requests {
  import opened Json
  import opened Auth
  import opened Reconcile

  datatype Verb = Get | Post | Put | Delete

  /** The path below the configured base URL: `/api/bot/flows`, `/api/bot/flows/${id}`
      (the id as the template literal reads it, possibly `undefined`) and `/api/bot`. */
  datatype Target = FlowList | FlowItem(id: Option<Json>) | BotSettings

  /** One call: verb, path, the two authentication headers, and the JSON body if any. */
  datatype Request = Request(verb: Verb, target: Target, headers: AuthHeaders, body: Option<Json>)

  /** `GET /api/bot/flows`. */
  function FetchFlowsRequest(h: AuthHeaders): Request
  {
    Request(Get, FlowList, h, None)
  }

  /** `DELETE /api/bot/flows/${df.id}` with the remote flow as body. */
  function DeleteRequest(h: AuthHeaders, df: Record): Request
  {
    Request(Delete, FlowItem(Prop(df, "id")), h, Some(JObj(df)))
  }

  /** `PUT /api/bot/flows/${uf.id}` with the merged flow as body. */
  function UpdateRequest(h: AuthHeaders, uf: Record): Request
  {
    Request(Put, FlowItem(Prop(uf, "id")), h, Some(JObj(uf)))
  }

  /** `POST /api/bot/flows` with the local flow as body. */
  function CreateRequest(h: AuthHeaders, cf: Record): Request
  {
    Request(Post, FlowList, h, Some(JObj(cf)))
  }

  /** `PUT /api/bot` with `{ airules }` as body. */
  function AirulesRequest(h: AuthHeaders, airules: Json): Request
  {
    Request(Put, BotSettings, h, Some(JObj(map["airules" := airules])))
  }

  /** One call per flow, in the order of the flows. */
  function DeleteRequests(h: AuthHeaders, flows: seq<Record>): seq<Request>
  {
    seq(|flows|, k requires 0 <= k < |flows| => DeleteRequest(h, flows[k]))
  }

  function UpdateRequests(h: AuthHeaders, flows: seq<Record>): seq<Request>
  {
    seq(|flows|, k requires 0 <= k < |flows| => UpdateRequest(h, flows[k]))
  }

  function CreateRequests(h: AuthHeaders, flows: seq<Record>): seq<Request>
  {
    seq(|flows|, k requires 0 <= k < |flows| => CreateRequest(h, flows[k]))
  }

  /** The rules replacement, when `if (airules)` lets it through. */
  function AirulesRequests(h: AuthHeaders, airules: Json): seq<Request>
  {
    if Truthy(airules) then [AirulesRequest(h, airules)] else []
  }

  /** The apply phase: every delete, then every update, then every create, each group in
      its own order, then the rules replacement. */
  function ApplyRequests(h: AuthHeaders, deletes: seq<Record>, updates: seq<Record>,
                         creates: seq<Record>, airules: Json): seq<Request>
  {
    DeleteRequests(h, deletes) + UpdateRequests(h, updates) + CreateRequests(h, creates) +
    AirulesRequests(h, airules)
  }

  /** Every call one `updateBot` run would make if the service accepted them all: the fetch
      of the remote flows, then the apply phase for the reconciliation of `local` against the
      fetched `remote` flows. All of them carry the same headers `h`. */
  function UpdateBotRequests(h: AuthHeaders, local: seq<Record>, remote: seq<Record>,
                             airules: Json): seq<Request>
  {
    [FetchFlowsRequest(h)] +
    ApplyRequests(h, Deleted(local, remote), Updated(local, remote), Created(local, remote), airules)
  }

  /** Whether building the call's path throws: `${df.id}` and `${uf.id}` convert the
      record's `id` to text inside the awaited callback, before any request is made. An
      absent `id` prints as `undefined`. */
  predicate Unsendable(r: Request)
  {
    r.target.FlowItem? && r.target.id.Some? && TextConversionThrows(r.target.id.value)
  }

  /** The calls actually made when each call is awaited before the next and any throw is
      rethrown: the planned calls up to the first one whose path cannot be built (which is
      not made) or up to and including the first rejected one. */
  function Issued(reqs: seq<Request>, fails: Request -> bool): seq<Request>
    decreases |reqs|
  {
    if reqs == [] then []
    else if Unsendable(reqs[0]) then []
    else if fails(reqs[0]) then [reqs[0]]
    else [reqs[0]] + Issued(reqs[1..], fails)
  }

  /** How a run ends: every call accepted, aborted by a rejected call, or aborted before a
      call whose path could not be built. */
  datatype Outcome = Completed | Rejected(request: Request) | Unsent(request: Request)

  function OutcomeOf(reqs: seq<Request>, fails: Request -> bool): Outcome
    decreases |reqs|
  {
    if reqs == [] then Completed
    else if Unsendable(reqs[0]) then Unsent(reqs[0])
    else if fails(reqs[0]) then Rejected(reqs[0])
    else OutcomeOf(reqs[1..], fails)
  }

  /** The calls made are a prefix of the planned ones; each of them had a buildable path,
      and all but the last were accepted. The outcome is `Completed` exactly when every
      planned call is buildable and accepted, and then the whole plan is made. A `Rejected`
      run names the last call made, which was rejected; an `Unsent` run names the planned
      call right after the last one made, whose path could not be built. */
  lemma {:induction false} IssuedPrefix(reqs: seq<Request>, fails: Request -> bool)
    ensures var issued := Issued(reqs, fails);
      var outcome := OutcomeOf(reqs, fails);
      && |issued| <= |reqs| && issued == reqs[..|issued|]
      && (forall i :: 0 <= i < |issued| ==> !Unsendable(issued[i]))
      && (forall i :: 0 <= i < |issued| - 1 ==> !fails(issued[i]))
      && (outcome.Completed? <==> forall i :: 0 <= i < |reqs| ==> !Unsendable(reqs[i]) && !fails(reqs[i]))
      && (outcome.Completed? ==> issued == reqs)
      && (outcome.Rejected? ==>
            issued != [] && issued[|issued| - 1] == outcome.request && fails(outcome.request))
      && (outcome.Unsent? ==>
            |issued| < |reqs| && reqs[|issued|] == outcome.request && Unsendable(outcome.request) &&
            forall i :: 0 <= i < |issued| ==> !fails(issued[i]))
    decreases |reqs|
  {
    if reqs != [] && !Unsendable(reqs[0]) && !fails(reqs[0]) {
      IssuedPrefix(reqs[1..], fails);
      var rest := Issued(reqs[1..], fails);
      assert Issued(reqs, fails) == [reqs[0]] + rest;
      assert reqs == [reqs[0]] + reqs[1..];
    }
  }

  /** A call whose path cannot be built, or that is rejected, after an accepted prefix ends
      the run there; an unbuildable call is not made. */
  lemma {:induction false} IssuedStopsAt(reqs: seq<Request>, i: nat, fails: Request -> bool)
    requires i < |reqs| && (Unsendable(reqs[i]) || fails(reqs[i]))
    requires forall j :: 0 <= j < i ==> !Unsendable(reqs[j]) && !fails(reqs[j])
    ensures Unsendable(reqs[i]) ==> Issued(reqs, fails) == reqs[..i] && OutcomeOf(reqs, fails) == Unsent(reqs[i])
    ensures !Unsendable(reqs[i]) ==> Issued(reqs, fails) == reqs[..i + 1] && OutcomeOf(reqs, fails) == Rejected(reqs[i])
    decreases i
  {
    if i > 0 {
      IssuedStopsAt(reqs[1..], i - 1, fails);
      assert reqs[1..][..i] == reqs[1..i + 1];
      assert reqs[1..][..i - 1] == reqs[1..i];
      assert reqs[..i + 1] == [reqs[0]] + reqs[1..i + 1];
      assert reqs[..i] == [reqs[0]] + reqs[1..i];
    }
  }

  /** Awaiting two groups of calls one after the other: the second group is reached only
      when every call of the first was accepted. */
  lemma {:induction false} IssuedConcat(s: seq<Request>, t: seq<Request>, fails: Request -> bool)
    ensures Issued(s + t, fails) ==
      if OutcomeOf(s, fails).Completed? then s + Issued(t, fails) else Issued(s, fails)
    ensures OutcomeOf(s + t, fails) ==
      if OutcomeOf(s, fails).Completed? then OutcomeOf(t, fails) else OutcomeOf(s, fails)
    decreases |s|
  {
    if s == [] {
      assert s + t == t;
    } else if Unsendable(s[0]) || fails(s[0]) {
      assert (s + t)[0] == s[0];
    } else {
      var u := s[1..];
      assert (s + t)[0] == s[0] && (s + t)[1..] == u + t;
      IssuedConcat(u, t, fails);
      assert s == [s[0]] + u;
    }
  }

  /** A group that ends the run (a rejected call, or a path that cannot be built) hides
      whatever follows it. */
  lemma GroupRejected(s: seq<Request>, t: seq<Request>, fails: Request -> bool)
    requires !OutcomeOf(s, fails).Completed?
    ensures Issued(s + t, fails) == Issued(s, fails)
    ensures OutcomeOf(s + t, fails) == OutcomeOf(s, fails)
  {
    IssuedConcat(s, t, fails);
  }

  /** A group whose calls were all accepted is followed by the next one. */
  lemma GroupCompleted(s: seq<Request>, t: seq<Request>, fails: Request -> bool)
    requires OutcomeOf(s, fails).Completed?
    ensures Issued(s, fails) == s
    ensures Issued(s + t, fails) == s + Issued(t, fails)
    ensures OutcomeOf(s + t, fails) == OutcomeOf(t, fails)
  {
    IssuedPrefix(s, fails);
    IssuedConcat(s, t, fails);
  }

  /** A run starts with the fetch: if it is rejected nothing else is issued, otherwise the
      apply phase follows. */
  lemma FetchFirst(h: AuthHeaders, local: seq<Record>, remote: seq<Record>, airules: Json,
                   fails: Request -> bool)
    ensures var reqs := UpdateBotRequests(h, local, remote, airules);
      var apply := ApplyRequests(h, Deleted(local, remote), Updated(local, remote),
                                 Created(local, remote), airules);
      && Issued(reqs, fails) ==
           (if fails(FetchFlowsRequest(h)) then [FetchFlowsRequest(h)]
            else [FetchFlowsRequest(h)] + Issued(apply, fails))
      && OutcomeOf(reqs, fails) ==
           (if fails(FetchFlowsRequest(h)) then Rejected(FetchFlowsRequest(h)) else OutcomeOf(apply, fails))
  {
    var reqs := UpdateBotRequests(h, local, remote, airules);
    assert reqs[0] == FetchFlowsRequest(h);
    assert reqs[1..] == ApplyRequests(h, Deleted(local, remote), Updated(local, remote),
                                      Created(local, remote), airules);
  }

  /** Groups of calls awaited one group after the other. */
  function Flatten(groups: seq<seq<Request>>): seq<Request>
    decreases |groups|
  {
    if groups == [] then [] else groups[0] + Flatten(groups[1..])
  }

  /** The apply phase is its four groups, awaited in order. */
  lemma ApplyRequestsGroups(h: AuthHeaders, d: seq<Record>, u: seq<Record>, c: seq<Record>, airules: Json)
    ensures ApplyRequests(h, d, u, c, airules) ==
      Flatten([DeleteRequests(h, d), UpdateRequests(h, u), CreateRequests(h, c), AirulesRequests(h, airules)])
  {
    var g0, g1, g2, g3 := DeleteRequests(h, d), UpdateRequests(h, u), CreateRequests(h, c), AirulesRequests(h, airules);
    var gs := [g0, g1, g2, g3];
    assert Flatten([g3]) == g3 by {
      assert [g3][1..] == [];
    }
    assert Flatten([g2, g3]) == g2 + g3 by {
      assert [g2, g3][1..] == [g3];
    }
    assert Flatten([g1, g2, g3]) == g1 + (g2 + g3) by {
      assert [g1, g2, g3][1..] == [g2, g3];
    }
    assert Flatten(gs) == g0 + (g1 + (g2 + g3)) by {
      assert gs[1..] == [g1, g2, g3];
    }
    assert g0 + g1 + g2 + g3 == g0 + (g1 + (g2 + g3));
  }

  /** The groups from the `k`-th on: the `k`-th, then the rest. */
  lemma FlattenFrom(groups: seq<seq<Request>>, k: nat)
    requires k < |groups|
    ensures Flatten(groups[k..]) == groups[k] + Flatten(groups[k + 1..])
  {
    assert groups[k..][1..] == groups[k + 1..];
  }

  /** After an accepted prefix `done`, a group that ends the run ends it, whatever
      follows. */
  lemma RejectedAfter(done: seq<Request>, g: seq<Request>, rest: seq<Request>, fails: Request -> bool)
    requires OutcomeOf(done, fails).Completed?
    requires !OutcomeOf(g, fails).Completed?
    ensures Issued(done + (g + rest), fails) == done + Issued(g, fails)
    ensures OutcomeOf(done + (g + rest), fails) == OutcomeOf(g, fails)
  {
    GroupCompleted(done, g + rest, fails);
    GroupRejected(g, rest, fails);
  }

  /** An accepted prefix followed by an accepted group is an accepted prefix. */
  lemma CompletedAfter(done: seq<Request>, g: seq<Request>, rest: seq<Request>, fails: Request -> bool)
    requires OutcomeOf(done, fails).Completed?
    requires OutcomeOf(g, fails).Completed?
    ensures OutcomeOf(done + g, fails).Completed?
    ensures done + (g + rest) == (done + g) + rest
  {
    GroupCompleted(done, g, fails);
  }

  /** The order of the calls, as `updateBot` awaits them: 0 fetch, 1 delete, 2 update,
      3 create, 4 rules replacement. */
  function Phase(r: Request): nat
  {
    match r.verb
    case Get => 0
    case Delete => 1
    case Put => if r.target.BotSettings? then 4 else 2
    case Post => 3
  }

  /** The phase of the `i`-th call of an apply phase with `nd` deletes, `nu` updates and
      `nc` creates. */
  function PhaseAt(i: nat, nd: nat, nu: nat, nc: nat): (p: nat)
    ensures 1 <= p <= 4
  {
    if i < nd then 1 else if i < nd + nu then 2 else if i < nd + nu + nc then 3 else 4
  }

  /** Where each call of the apply phase sits, and its phase. */
  lemma ApplyRequestsAt(h: AuthHeaders, d: seq<Record>, u: seq<Record>, c: seq<Record>, airules: Json)
    ensures var a := ApplyRequests(h, d, u, c, airules);
      && |a| == |d| + |u| + |c| + (if Truthy(airules) then 1 else 0)
      && (forall k :: 0 <= k < |d| ==> a[k] == DeleteRequest(h, d[k]))
      && (forall k :: 0 <= k < |u| ==> a[|d| + k] == UpdateRequest(h, u[k]))
      && (forall k :: 0 <= k < |c| ==> a[|d| + |u| + k] == CreateRequest(h, c[k]))
      && (Truthy(airules) ==> a[|d| + |u| + |c|] == AirulesRequest(h, airules))
  {
  }

  /** The apply phase in order: deletes, updates, creates, then at most one rules
      replacement, which is last; all calls carry `h`; deletes and updates address the `id`
      of the record they send. */
  lemma ApplyRequestsShape(h: AuthHeaders, d: seq<Record>, u: seq<Record>, c: seq<Record>, airules: Json)
    ensures var a := ApplyRequests(h, d, u, c, airules);
      && (forall i :: 0 <= i < |a| ==>
            Phase(a[i]) == PhaseAt(i, |d|, |u|, |c|))
      && (forall i :: 0 <= i < |a| ==> a[i].headers == h)
      && (forall i :: 0 <= i < |a| && a[i].target.FlowItem? ==>
            a[i].body.Some? && a[i].body.value.JObj? &&
            a[i].target.id == Prop(a[i].body.value.fields, "id"))
  {
    ApplyRequestsAt(h, d, u, c, airules);
    var a := ApplyRequests(h, d, u, c, airules);
    forall i | 0 <= i < |a|
      ensures Phase(a[i]) == PhaseAt(i, |d|, |u|, |c|)
      ensures a[i].headers == h
      ensures a[i].target.FlowItem? ==>
        a[i].body.Some? && a[i].body.value.JObj? &&
        a[i].target.id == Prop(a[i].body.value.fields, "id")
    {
      if i < |d| {
        assert a[i] == DeleteRequest(h, d[i]);
      } else if i < |d| + |u| {
        assert a[i] == UpdateRequest(h, u[i - |d|]);
      } else if i < |d| + |u| + |c| {
        assert a[i] == CreateRequest(h, c[i - |d| - |u|]);
      }
    }
  }

  /** Shape of a run's calls: the fetch comes first; all deletes precede all updates, which
      precede all creates, which precede the rules replacement; that replacement is the last
      call exactly when the rules are truthy and appears nowhere else; every call carries the
      run's single header pair; every delete or update addresses the `id` of the record it
      sends. */
  lemma RunShape(h: AuthHeaders, d: seq<Record>, u: seq<Record>, c: seq<Record>, airules: Json)
    ensures var reqs := [FetchFlowsRequest(h)] + ApplyRequests(h, d, u, c, airules);
      && reqs[0] == FetchFlowsRequest(h)
      && (forall i, j :: 0 <= i < j < |reqs| ==> Phase(reqs[i]) <= Phase(reqs[j]))
      && (forall i :: 0 <= i < |reqs| - 1 ==> Phase(reqs[i]) < 4)
      && (Truthy(airules) <==> reqs[|reqs| - 1] == AirulesRequest(h, airules))
      && (forall i :: 0 <= i < |reqs| ==> reqs[i].headers == h)
      && (forall i :: 0 <= i < |reqs| && reqs[i].target.FlowItem? ==>
            reqs[i].body.Some? && reqs[i].body.value.JObj? &&
            reqs[i].target.id == Prop(reqs[i].body.value.fields, "id"))
      && |reqs| == 1 + |d| + |u| + |c| + (if Truthy(airules) then 1 else 0)
  {
    RunPhases(h, d, u, c, airules);
    ApplyRequestsAt(h, d, u, c, airules);
    ApplyRequestsShape(h, d, u, c, airules);
    var a := ApplyRequests(h, d, u, c, airules);
    var reqs := [FetchFlowsRequest(h)] + a;
    forall i | 1 <= i < |reqs|
      ensures reqs[i] == a[i - 1]
    {
    }
  }

  /** The phases of a run's calls never go backwards, and only the last call can be the
      rules replacement. */
  lemma RunPhases(h: AuthHeaders, d: seq<Record>, u: seq<Record>, c: seq<Record>, airules: Json)
    ensures var reqs := [FetchFlowsRequest(h)] + ApplyRequests(h, d, u, c, airules);
      && (forall i, j :: 0 <= i < j < |reqs| ==> Phase(reqs[i]) <= Phase(reqs[j]))
      && (forall i :: 0 <= i < |reqs| - 1 ==> Phase(reqs[i]) < 4)
  {
    ApplyRequestsAt(h, d, u, c, airules);
    ApplyRequestsShape(h, d, u, c, airules);
    var a := ApplyRequests(h, d, u, c, airules);
    var reqs := [FetchFlowsRequest(h)] + a;
    forall i, j | 0 <= i < j < |reqs|
      ensures Phase(reqs[i]) <= Phase(reqs[j])
    {
      assert reqs[j] == a[j - 1];
      if i > 0 {
        assert reqs[i] == a[i - 1];
        assert PhaseAt(i - 1, |d|, |u|, |c|) <= PhaseAt(j - 1, |d|, |u|, |c|);
      }
    }
    forall i | 0 <= i < |reqs| - 1
      ensures Phase(reqs[i]) < 4
    {
      if i > 0 {
        assert reqs[i] == a[i - 1];
        assert PhaseAt(i - 1, |d|, |u|, |c|) < 4;
      }
    }
  }

  /** The calls of one `updateBot` run, planned: as `RunShape` says, with one update or
      delete per remote flow and one create per local flow without a remote namesake. */
  lemma UpdateBotRequestsShape(h: AuthHeaders, local: seq<Record>, remote: seq<Record>, airules: Json)
    ensures var reqs := UpdateBotRequests(h, local, remote, airules);
      && reqs[0] == FetchFlowsRequest(h)
      && (forall i, j :: 0 <= i < j < |reqs| ==> Phase(reqs[i]) <= Phase(reqs[j]))
      && (Truthy(airules) <==> reqs[|reqs| - 1] == AirulesRequest(h, airules))
      && (forall i :: 0 <= i < |reqs| ==> reqs[i].headers == h)
      && |reqs| == 1 + |remote| + |Created(local, remote)| + (if Truthy(airules) then 1 else 0)
  {
    PartitionSizes(local, remote);
    RunShape(h, Deleted(local, remote), Updated(local, remote), Created(local, remote), airules);
  }

  /** A run whose one matching flow has an `id` that cannot be printed: the fetch is made
      and accepted, then the update's path throws, so no further call is made, even though
      the service would have accepted every call. */
  lemma ThrowingIdNotSent(h: AuthHeaders, l: Record, r: Record)
    requires NameOf(l) == Some(JStr("A")) && NameOf(r) == Some(JStr("A"))
    requires "id" in l && l["id"] == JObj(map["toString" := JNum(0.0)])
    ensures Issued(UpdateBotRequests(h, [l], [r], JNull), _ => false) == [FetchFlowsRequest(h)]
    ensures OutcomeOf(UpdateBotRequests(h, [l], [r], JNull), _ => false) == Unsent(UpdateRequest(h, Merge(r, l)))
  {
    var fails: Request -> bool := _ => false;
    assert [r][..0] == [] && [l][..0] == [];
    assert FindIndex([l], r) == Some(0);
    assert FindIndex([r], l) == Some(0);
    assert Deleted([l], [r]) == [];
    assert Updated([l], [r]) == [Merge(r, l)];
    assert Created([l], [r]) == [];
    var u := UpdateRequest(h, Merge(r, l));
    assert TextConversionThrows(l["id"]);
    assert Unsendable(u);
    var apply := ApplyRequests(h, [], [Merge(r, l)], [], JNull);
    assert apply == [u];
    FetchFirst(h, [l], [r], JNull, fails);
  }
}
