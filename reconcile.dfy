/** The flow reconciliation of `BotsService.updateBot`: local flows and the remote (studio)
    flows are compared by their `name` property and split into the flows to delete, the
    merged flows to update and the flows to create. */
module Reconcile {
  import opened Json
  import opened Sequences

  /** `f.name`, `undefined` when the record has no such property. */
  function NameOf(f: Record): Option<Json>
  {
    Prop(f, "name")
  }

  /** `a.name === b.name`. Two records without a name are namesakes (undefined === undefined). */
  predicate SameName(a: Record, b: Record)
  {
    StrictEquals(NameOf(a), NameOf(b))
  }

  /** `flows.find(f => f.name === target.name)`, as the index of the element it returns:
      the first namesake of `target`, or none. */
  function FindIndex(flows: seq<Record>, target: Record): (r: Option<nat>)
    ensures r.Some? ==> r.value < |flows| && SameName(flows[r.value], target)
    ensures r.Some? ==> forall j :: 0 <= j < r.value ==> !SameName(flows[j], target)
    ensures r.None? ==> forall j :: 0 <= j < |flows| ==> !SameName(flows[j], target)
    decreases |flows|
  {
    if flows == [] then None
    else if SameName(flows[0], target) then Some(0)
    else
      match FindIndex(flows[1..], target)
      case None => None
      case Some(i) => Some(i + 1)
  }

  /** The test "some flow of `others` has this flow's name", as a value for `Positions`. */
  function HasNamesakeIn(others: seq<Record>): Record -> bool
  {
    f => FindIndex(others, f).Some?
  }

  /** The test "no flow of `others` has this flow's name". */
  function NoNamesakeIn(others: seq<Record>): Record -> bool
  {
    f => FindIndex(others, f).None?
  }

  /** `{ ...remote, ...local }`: a shallow merge in which the local properties win. */
  function Merge(remote: Record, local: Record): (m: Record)
    ensures m.Keys == remote.Keys + local.Keys
    ensures forall k :: k in local ==> m[k] == local[k]
    ensures forall k :: k in remote && k !in local ==> m[k] == remote[k]
  {
    remote + local
  }

  /** `deleteFlows`: the remote flows, in remote order, that no local flow names. */
  function Deleted(local: seq<Record>, remote: seq<Record>): seq<Record>
    decreases |remote|
  {
    if remote == [] then []
    else
      var r := remote[|remote| - 1];
      Deleted(local, remote[..|remote| - 1]) + (if FindIndex(local, r).None? then [r] else [])
  }

  /** `updateFlows`: for each remote flow with a local namesake, in remote order, the remote
      flow overlaid by the first such local flow. */
  function Updated(local: seq<Record>, remote: seq<Record>): seq<Record>
    decreases |remote|
  {
    if remote == [] then []
    else
      var r := remote[|remote| - 1];
      Updated(local, remote[..|remote| - 1]) +
        match FindIndex(local, r)
        case Some(i) => [Merge(r, local[i])]
        case None => []
  }

  /** `createFlows`: the local flows, in local order, that no remote flow names. */
  function Created(local: seq<Record>, remote: seq<Record>): seq<Record>
    decreases |local|
  {
    if local == [] then []
    else
      var f := local[|local| - 1];
      Created(local[..|local| - 1], remote) + (if FindIndex(remote, f).None? then [f] else [])
  }

  /** The two `forEach` loops of the reconciliation, pushing into three arrays. */
  method Diff(local: seq<Record>, remote: seq<Record>)
    returns (deleteFlows: seq<Record>, updateFlows: seq<Record>, createFlows: seq<Record>)
    ensures deleteFlows == Deleted(local, remote)
    ensures updateFlows == Updated(local, remote)
    ensures createFlows == Created(local, remote)
  {
    deleteFlows, updateFlows, createFlows := [], [], [];
    var i := 0;
    while i < |remote|
      invariant 0 <= i <= |remote|
      invariant deleteFlows == Deleted(local, remote[..i])
      invariant updateFlows == Updated(local, remote[..i])
    {
      var studioFlow := remote[i];
      assert remote[..i + 1][..i] == remote[..i];
      var found := FindIndex(local, studioFlow);
      if found.Some? {
        updateFlows := updateFlows + [Merge(studioFlow, local[found.value])];
      } else {
        deleteFlows := deleteFlows + [studioFlow];
      }
      i := i + 1;
    }
    assert remote[..i] == remote;
    var j := 0;
    while j < |local|
      invariant 0 <= j <= |local|
      invariant createFlows == Created(local[..j], remote)
    {
      var f := local[j];
      assert local[..j + 1][..j] == local[..j];
      var found := FindIndex(remote, f);
      if found.None? {
        createFlows := createFlows + [f];
      }
      j := j + 1;
    }
    assert local[..j] == local;
  }

  // ---------------------------------------------------------------------------
  // Properties of the reconciliation

  /** Every remote flow lands in exactly one of the update and delete groups. */
  lemma {:induction false} PartitionSizes(local: seq<Record>, remote: seq<Record>)
    ensures |Updated(local, remote)| + |Deleted(local, remote)| == |remote|
    decreases |remote|
  {
    if remote != [] {
      PartitionSizes(local, remote[..|remote| - 1]);
    }
  }

  /** `deleteFlows` is exactly the remote flows without a local namesake, unchanged and in
      remote order: its k-th element is the remote flow at the k-th such position. */
  lemma {:induction false} DeletedAt(local: seq<Record>, remote: seq<Record>)
    ensures var ps := Positions(remote, NoNamesakeIn(local));
      |Deleted(local, remote)| == |ps| &&
      forall k :: 0 <= k < |ps| ==> Deleted(local, remote)[k] == remote[ps[k]]
    decreases |remote|
  {
    if remote != [] {
      var n := |remote| - 1;
      var init, x := remote[..n], remote[n];
      DeletedAt(local, init);
      var keep := NoNamesakeIn(local);
      var ps0, ps := Positions(init, keep), Positions(remote, keep);
      var d0, d := Deleted(local, init), Deleted(local, remote);
      assert ps == ps0 + (if keep(x) then [n] else []);
      assert d == d0 + (if FindIndex(local, x).None? then [x] else []);
      forall k | 0 <= k < |ps|
        ensures d[k] == remote[ps[k]]
      {
        if k < |ps0| {
          assert d[k] == d0[k] && ps[k] == ps0[k] && remote[ps0[k]] == init[ps0[k]];
        }
      }
    }
  }

  /** `updateFlows` has one entry per remote flow with a local namesake, in remote order, and
      that entry is the remote flow overlaid by the FIRST local namesake. */
  lemma {:induction false} UpdatedAt(local: seq<Record>, remote: seq<Record>)
    ensures var ps := Positions(remote, HasNamesakeIn(local));
      |Updated(local, remote)| == |ps| &&
      forall k :: 0 <= k < |ps| ==>
        FindIndex(local, remote[ps[k]]).Some? &&
        Updated(local, remote)[k] == Merge(remote[ps[k]], local[FindIndex(local, remote[ps[k]]).value])
    decreases |remote|
  {
    if remote != [] {
      var n := |remote| - 1;
      var init, x := remote[..n], remote[n];
      UpdatedAt(local, init);
      var keep := HasNamesakeIn(local);
      var ps0, ps := Positions(init, keep), Positions(remote, keep);
      var u0, u := Updated(local, init), Updated(local, remote);
      assert ps == ps0 + (if keep(x) then [n] else []);
      var fx := FindIndex(local, x);
      assert u == u0 + (if fx.Some? then [Merge(x, local[fx.value])] else []);
      forall k | 0 <= k < |ps|
        ensures FindIndex(local, remote[ps[k]]).Some? &&
          u[k] == Merge(remote[ps[k]], local[FindIndex(local, remote[ps[k]]).value])
      {
        if k < |ps0| {
          assert u[k] == u0[k] && ps[k] == ps0[k] && remote[ps0[k]] == init[ps0[k]];
        } else {
          assert ps[k] == n && fx.Some? && u[k] == Merge(x, local[fx.value]);
        }
      }
    }
  }

  /** `createFlows` is exactly the local flows without a remote namesake, unchanged and in
      local order. */
  lemma {:induction false} CreatedAt(local: seq<Record>, remote: seq<Record>)
    ensures var ps := Positions(local, NoNamesakeIn(remote));
      |Created(local, remote)| == |ps| &&
      forall k :: 0 <= k < |ps| ==> Created(local, remote)[k] == local[ps[k]]
    decreases |local|
  {
    if local != [] {
      var n := |local| - 1;
      var init, x := local[..n], local[n];
      CreatedAt(init, remote);
      var keep := NoNamesakeIn(remote);
      var ps0, ps := Positions(init, keep), Positions(local, keep);
      var c0, c := Created(init, remote), Created(local, remote);
      assert ps == ps0 + (if keep(x) then [n] else []);
      assert c == c0 + (if FindIndex(remote, x).None? then [x] else []);
      forall k | 0 <= k < |ps|
        ensures c[k] == local[ps[k]]
      {
        if k < |ps0| {
          assert c[k] == c0[k] && ps[k] == ps0[k] && local[ps0[k]] == init[ps0[k]];
        }
      }
    }
  }

  /** A remote flow is deleted if and only if no local flow has its name. */
  lemma DeletedIff(local: seq<Record>, remote: seq<Record>, x: Record)
    ensures x in Deleted(local, remote) <==>
      x in remote && forall f :: f in local ==> !SameName(f, x)
  {
    DeletedAt(local, remote);
    PositionsExact(remote, NoNamesakeIn(local));
    var ps := Positions(remote, NoNamesakeIn(local));
    var d := Deleted(local, remote);
    if x in d {
      var k :| 0 <= k < |d| && d[k] == x;
      assert NoNamesakeIn(local)(remote[ps[k]]);
    }
    if x in remote && forall f :: f in local ==> !SameName(f, x) {
      var i :| 0 <= i < |remote| && remote[i] == x;
      assert NoNamesakeIn(local)(remote[i]);
      var k :| 0 <= k < |ps| && ps[k] == i;
      assert d[k] == x;
    }
  }

  /** A local flow is created if and only if no remote flow has its name. */
  lemma CreatedIff(local: seq<Record>, remote: seq<Record>, x: Record)
    ensures x in Created(local, remote) <==>
      x in local && forall r :: r in remote ==> !SameName(r, x)
  {
    CreatedAt(local, remote);
    PositionsExact(local, NoNamesakeIn(remote));
    var ps := Positions(local, NoNamesakeIn(remote));
    var c := Created(local, remote);
    if x in c {
      var k :| 0 <= k < |c| && c[k] == x;
      assert NoNamesakeIn(remote)(local[ps[k]]);
    }
    if x in local && forall r :: r in remote ==> !SameName(r, x) {
      var i :| 0 <= i < |local| && local[i] == x;
      assert NoNamesakeIn(remote)(local[i]);
      var k :| 0 <= k < |ps| && ps[k] == i;
      assert c[k] == x;
    }
  }

  /** No created flow shares its name with a deleted flow. */
  lemma CreatedDeletedDisjoint(local: seq<Record>, remote: seq<Record>, c: Record, d: Record)
    requires c in Created(local, remote) && d in Deleted(local, remote)
    ensures !SameName(c, d)
  {
    CreatedIff(local, remote, c);
    DeletedIff(local, remote, d);
  }

  /** Field precedence of an update entry: every property of the matching local flow wins;
      every other property, `id` included, is the remote flow's. So the remote `id` survives
      exactly when the local flow has no `id` of its own. */
  lemma UpdatedFields(local: seq<Record>, remote: seq<Record>, k: nat, key: string)
    requires k < |Updated(local, remote)|
    ensures var ps := Positions(remote, HasNamesakeIn(local));
      k < |ps| && FindIndex(local, remote[ps[k]]).Some? &&
      var l := local[FindIndex(local, remote[ps[k]]).value];
      Prop(Updated(local, remote)[k], key) ==
        (if key in l then Some(l[key]) else Prop(remote[ps[k]], key))
  {
    UpdatedAt(local, remote);
  }

  /** Reconciling a set of flows against identical remote flows (distinct primitive names)
      still updates every one of them: there is no equality short-cut. */
  lemma {:induction false} IdenticalFlowsAllUpdated(flows: seq<Record>)
    requires forall i :: 0 <= i < |flows| ==> SameName(flows[i], flows[i])
    requires forall i, j :: 0 <= i < j < |flows| ==> !SameName(flows[i], flows[j])
    ensures Updated(flows, flows) == flows
    ensures Deleted(flows, flows) == []
    ensures Created(flows, flows) == []
  {
    forall k | 0 <= k < |flows|
      ensures FindIndex(flows, flows[k]) == Some(k)
    {
      FindSelf(flows, k);
    }
    AllFoundUpdated(flows, flows);
    AllFoundNotDeleted(flows, flows);
    AllFoundNotCreated(flows, flows);
  }

  /** Overlaying a flow by itself leaves it as it is. */
  lemma MergeSelf(f: Record)
    ensures Merge(f, f) == f
  {
  }

  /** With distinct names that each match themselves, a flow's own name finds it. */
  lemma FindSelf(flows: seq<Record>, i: nat)
    requires i < |flows|
    requires forall k :: 0 <= k < |flows| ==> SameName(flows[k], flows[k])
    requires forall k, j :: 0 <= k < j < |flows| ==> !SameName(flows[k], flows[j])
    ensures FindIndex(flows, flows[i]) == Some(i)
  {
    assert SameName(flows[i], flows[i]);
  }

  /** When each remote flow's first local namesake is the flow itself, every remote flow is
      an update that sends it unchanged. */
  lemma {:induction false} AllFoundUpdated(local: seq<Record>, remote: seq<Record>)
    requires forall k :: 0 <= k < |remote| ==>
      FindIndex(local, remote[k]).Some? && local[FindIndex(local, remote[k]).value] == remote[k]
    ensures Updated(local, remote) == remote
    decreases |remote|
  {
    if remote != [] {
      var n := |remote| - 1;
      AllFoundUpdated(local, remote[..n]);
      MergeSelf(remote[n]);
      assert remote == remote[..n] + [remote[n]];
    }
  }

  /** When every remote flow has a local namesake, nothing is deleted. */
  lemma {:induction false} AllFoundNotDeleted(local: seq<Record>, remote: seq<Record>)
    requires forall k :: 0 <= k < |remote| ==> FindIndex(local, remote[k]).Some?
    ensures Deleted(local, remote) == []
    decreases |remote|
  {
    if remote != [] {
      AllFoundNotDeleted(local, remote[..|remote| - 1]);
    }
  }

  /** When every local flow has a remote namesake, nothing is created. */
  lemma {:induction false} AllFoundNotCreated(local: seq<Record>, remote: seq<Record>)
    requires forall k :: 0 <= k < |local| ==> FindIndex(remote, local[k]).Some?
    ensures Created(local, remote) == []
    decreases |local|
  {
    if local != [] {
      AllFoundNotCreated(local[..|local| - 1], remote);
    }
  }

  /** First match wins: when two local flows share a name, the later one never supplies the
      fields of an update, and it is created exactly when the earlier one is. */
  lemma DuplicateLocalNames(local: seq<Record>, remote: seq<Record>, i: nat, j: nat)
    requires i < j < |local| && SameName(local[i], local[j])
    ensures forall r :: FindIndex(local, r) != Some(j)
    ensures var cps := Positions(local, NoNamesakeIn(remote)); i in cps <==> j in cps
  {
    forall r
      ensures FindIndex(local, r) != Some(j)
    {
      assert SameName(local[j], r) ==> SameName(local[i], r);
    }
    var cps := Positions(local, NoNamesakeIn(remote));
    PositionsExact(local, NoNamesakeIn(remote));
    if FindIndex(remote, local[i]).Some? {
      assert SameName(remote[FindIndex(remote, local[i]).value], local[j]);
    }
    if FindIndex(remote, local[j]).Some? {
      assert SameName(remote[FindIndex(remote, local[j]).value], local[i]);
    }
    assert NoNamesakeIn(remote)(local[i]) <==> NoNamesakeIn(remote)(local[j]);
  }

  /** Local flows [A, B] against remote flows [B, C]: delete C, update B, create A. */
  lemma ScenarioTwoByTwo(a: Record, b: Record, bRemote: Record, c: Record)
    requires NameOf(a) == Some(JStr("A")) && NameOf(b) == Some(JStr("B"))
    requires NameOf(bRemote) == Some(JStr("B")) && NameOf(c) == Some(JStr("C"))
    ensures Deleted([a, b], [bRemote, c]) == [c]
    ensures Updated([a, b], [bRemote, c]) == [Merge(bRemote, b)]
    ensures Created([a, b], [bRemote, c]) == [a]
  {
    assert [bRemote, c][..1] == [bRemote] && [bRemote][..0] == [];
    assert [a, b][..1] == [a] && [a][..0] == [];
    assert FindIndex([a, b], bRemote) == Some(1);
    assert FindIndex([a, b], c) == None;
    assert FindIndex([bRemote, c], a) == None;
    assert FindIndex([bRemote, c], b) == Some(0);
    assert Deleted([a, b], [bRemote]) == [];
    assert Updated([a, b], [bRemote]) == [Merge(bRemote, b)];
    assert Created([a], [bRemote, c]) == [a];
  }
}
