/** The `Graph` object of the back end: the user and item node records it
    prepares from a dataset, and the networkx graph it assembles from them
    with add-node and add-edge calls in nested loops.  Each method is proved
    against the functions of `InteractionGraph`, which say what the loops
    compute. */
module GraphObject {
  import opened Wrappers
  import opened Strings
  import opened OrderedMaps
  import opened PyValues
  import opened InteractionGraph
  import Dataset

  // ---------------------------------------------------------------------
  // Unfolding the specification one step at a time

  /** The targets list the users, then the items, each in its order. */
  lemma TargetAt(userOrder: seq<string>, itemOrder: seq<string>, j: nat)
    ensures |Targets(userOrder, itemOrder)| == |userOrder| + |itemOrder|
    ensures j < |userOrder| ==> Targets(userOrder, itemOrder)[j] == UserT(userOrder[j])
    ensures j < |itemOrder| ==> Targets(userOrder, itemOrder)[|userOrder| + j] == ItemT(itemOrder[j])
  {
  }

  /** The users' targets, then the items'. */
  lemma TargetsSplit(userOrder: seq<string>, itemOrder: seq<string>)
    ensures Targets(userOrder, itemOrder) == Targets(userOrder, []) + Targets([], itemOrder)
  {
    var ts, us, its := Targets(userOrder, itemOrder), Targets(userOrder, []), Targets([], itemOrder);
    forall j | 0 <= j < |ts| ensures ts[j] == (us + its)[j] {
      if j < |userOrder| {
        TargetAt(userOrder, itemOrder, j);
        TargetAt(userOrder, [], j);
      } else {
        TargetAt(userOrder, itemOrder, j - |userOrder|);
        TargetAt([], itemOrder, j - |userOrder|);
      }
    }
    TargetAt(userOrder, itemOrder, 0);
    TargetAt(userOrder, [], 0);
    TargetAt([], itemOrder, 0);
  }

  /** A query over two runs of targets is the first run, then the second
      from where the first left off. */
  lemma {:induction false} MatchAllAppend(s: Sel, feature: string, query: string, k: Query, a: seq<Target>, b: seq<Target>)
    ensures MatchAll(s, feature, query, k, a + b) ==
              match MatchAll(s, feature, query, k, a)
              case Err(e) => Err(e)
              case Ok(mid) => MatchAll(mid, feature, query, k, b)
    decreases |b|
  {
    if b == [] {
      assert a + b == a;
    } else {
      var init := b[..|b| - 1];
      assert (a + b)[..|a + b| - 1] == a + init;
      MatchAllAppend(s, feature, query, k, a, init);
    }
  }

  /** Taking every element leaves a sequence as it is. */
  lemma TakeAll<T>(s: seq<T>)
    ensures s[..|s|] == s
  {
  }

  /** A query runs its user loop, then, unless that raised, its item
      loop. */
  lemma QueryTargets(s: Sel, feature: string, query: string, k: Query, userOrder: seq<string>, itemOrder: seq<string>)
    ensures UserRun(Targets(userOrder, []), userOrder) && ItemRun(Targets([], itemOrder), itemOrder)
    ensures MatchAll(s, feature, query, k, Targets(userOrder, itemOrder)) ==
              match MatchAll(s, feature, query, k, Targets(userOrder, []))
              case Err(e) => Err(e)
              case Ok(mid) => MatchAll(mid, feature, query, k, Targets([], itemOrder))
  {
    TargetsSplit(userOrder, itemOrder);
    MatchAllAppend(s, feature, query, k, Targets(userOrder, []), Targets([], itemOrder));
    UsersRun(userOrder);
    ItemsRun(itemOrder);
  }

  /** The targets of a user loop: one per user, in order. */
  predicate UserRun(ts: seq<Target>, userOrder: seq<string>) {
    |ts| == |userOrder| && forall j :: 0 <= j < |ts| ==> ts[j] == UserT(userOrder[j])
  }

  lemma UsersRun(userOrder: seq<string>)
    ensures UserRun(Targets(userOrder, []), userOrder)
  {
    forall j | 0 <= j < |userOrder| ensures Targets(userOrder, [])[j] == UserT(userOrder[j]) {
      TargetAt(userOrder, [], j);
    }
    TargetAt(userOrder, [], 0);
  }

  /** One turn of a query's user loop, and the end of the loop on an
      exception. */
  lemma UserStep(s: Sel, feature: string, query: string, k: Query, userOrder: seq<string>, ts: seq<Target>, j: nat, cur: Sel)
    requires UserRun(ts, userOrder)
    requires j < |userOrder| && MatchAll(s, feature, query, k, ts[..j]) == Ok(cur)
    ensures MatchAll(s, feature, query, k, ts[..j + 1]) == MatchTarget(cur, feature, query, k, UserT(userOrder[j]))
    ensures MatchTarget(cur, feature, query, k, UserT(userOrder[j])).Err? ==>
              MatchAll(s, feature, query, k, ts) == MatchTarget(cur, feature, query, k, UserT(userOrder[j]))
  {
    MatchAllNext(s, feature, query, k, ts, j);
    if MatchAll(s, feature, query, k, ts[..j + 1]).Err? {
      MatchAllStops(s, feature, query, k, ts, j + 1);
    }
  }

  /** The targets of an item loop: one per item, in order. */
  predicate ItemRun(ts: seq<Target>, itemOrder: seq<string>) {
    |ts| == |itemOrder| && forall j :: 0 <= j < |ts| ==> ts[j] == ItemT(itemOrder[j])
  }

  lemma ItemsRun(itemOrder: seq<string>)
    ensures ItemRun(Targets([], itemOrder), itemOrder)
  {
    forall j | 0 <= j < |itemOrder| ensures Targets([], itemOrder)[j] == ItemT(itemOrder[j]) {
      TargetAt([], itemOrder, j);
    }
    TargetAt([], itemOrder, 0);
  }

  /** One turn of a query's item loop, and the end of the loop on an
      exception. */
  lemma ItemStep(s: Sel, feature: string, query: string, k: Query, itemOrder: seq<string>, ts: seq<Target>, j: nat, cur: Sel)
    requires ItemRun(ts, itemOrder)
    requires j < |itemOrder| && MatchAll(s, feature, query, k, ts[..j]) == Ok(cur)
    ensures MatchAll(s, feature, query, k, ts[..j + 1]) == MatchTarget(cur, feature, query, k, ItemT(itemOrder[j]))
    ensures MatchTarget(cur, feature, query, k, ItemT(itemOrder[j])).Err? ==>
              MatchAll(s, feature, query, k, ts) == MatchTarget(cur, feature, query, k, ItemT(itemOrder[j]))
  {
    MatchAllNext(s, feature, query, k, ts, j);
    if MatchAll(s, feature, query, k, ts[..j + 1]).Err? {
      MatchAllStops(s, feature, query, k, ts, j + 1);
    }
  }

  lemma MatchAllNext(s: Sel, feature: string, query: string, k: Query, ts: seq<Target>, j: nat)
    requires j < |ts|
    ensures MatchAll(s, feature, query, k, ts[..j + 1]) ==
              match MatchAll(s, feature, query, k, ts[..j])
              case Err(e) => Err(e)
              case Ok(mid) => MatchTarget(mid, feature, query, k, ts[j])
  {
    assert ts[..j + 1][..j] == ts[..j];
  }

  /** Once a query's loop has failed, the rest of the loop does not run. */
  lemma {:induction false} MatchAllStops(s: Sel, feature: string, query: string, k: Query, ts: seq<Target>, n: nat)
    requires n <= |ts| && MatchAll(s, feature, query, k, ts[..n]).Err?
    ensures MatchAll(s, feature, query, k, ts) == MatchAll(s, feature, query, k, ts[..n])
    decreases |ts| - n
  {
    if n < |ts| {
      MatchAllNext(s, feature, query, k, ts, n);
      MatchAllStops(s, feature, query, k, ts, n + 1);
    } else {
      assert ts[..n] == ts;
    }
  }

  lemma ApplyClausesNext(s: Sel, cs: seq<Clause>, c: Clause, userOrder: seq<string>, itemOrder: seq<string>)
    ensures ApplyClauses(s, cs + [c], userOrder, itemOrder) ==
              match ApplyClauses(s, cs, userOrder, itemOrder)
              case Err(e) => Err(e)
              case Ok(mid) => ApplyQuery(mid, c, userOrder, itemOrder)
  {
    assert (cs + [c])[..|cs|] == cs;
  }

  /** Once a clause has failed, the later clauses do not run. */
  lemma {:induction false} ApplyClausesStops(s: Sel, cs: seq<Clause>, more: seq<Clause>, userOrder: seq<string>, itemOrder: seq<string>)
    requires ApplyClauses(s, cs, userOrder, itemOrder).Err?
    ensures ApplyClauses(s, cs + more, userOrder, itemOrder) == ApplyClauses(s, cs, userOrder, itemOrder)
    decreases |more|
  {
    if more != [] {
      var init := more[..|more| - 1];
      assert cs + more == (cs + init) + [more[|more| - 1]];
      ApplyClausesStops(s, cs, init, userOrder, itemOrder);
      ApplyClausesNext(s, cs + init, more[|more| - 1], userOrder, itemOrder);
    } else {
      assert cs + more == cs;
    }
  }

  lemma FilterClausesNext(filters: Filters, i: nat)
    requires i < |filters|
    ensures FilterClauses(filters[..i + 1]) == FilterClauses(filters[..i]) + FeatureClauses(filters[i].0, filters[i].1)
  {
    assert filters[..i + 1][..i] == filters[..i];
  }

  lemma {:induction false} FilterClausesAppend(a: Filters, b: Filters)
    ensures FilterClauses(a + b) == FilterClauses(a) + FilterClauses(b)
    decreases |b|
  {
    if b == [] {
      assert a + b == a;
    } else {
      var init, last := b[..|b| - 1], b[|b| - 1];
      assert a + b == (a + init) + [last];
      assert (a + b)[..|a + b| - 1] == a + init;
      assert b[..|b| - 1] == init;
      FilterClausesAppend(a, init);
    }
  }

  lemma FeatureClausesNext(feature: string, queries: seq<string>, j: nat)
    requires j < |queries|
    ensures FeatureClauses(feature, queries[..j + 1]) ==
              FeatureClauses(feature, queries[..j]) + [Clause(feature, queries[j], ParseQuery(queries[j]))]
    ensures FeatureClauses(feature, queries) ==
              FeatureClauses(feature, queries[..j + 1]) + FeatureClauses(feature, queries[j + 1..])
  {
  }

  /** The clauses of a filter dictionary run through those of its first
      `i` features, the first `j + 1` queries of feature `i`, and the rest. */
  lemma ClausesSplit(filters: Filters, i: nat, j: nat) returns (rest: seq<Clause>)
    requires i < |filters| && j < |filters[i].1|
    ensures FilterClauses(filters) ==
              FilterClauses(filters[..i]) + FeatureClauses(filters[i].0, filters[i].1[..j]) +
              [Clause(filters[i].0, filters[i].1[j], ParseQuery(filters[i].1[j]))] + rest
  {
    var f, qs := filters[i].0, filters[i].1;
    FilterClausesNext(filters, i);
    FeatureClausesNext(f, qs, j);
    assert filters == filters[..i + 1] + filters[i + 1..];
    FilterClausesAppend(filters[..i + 1], filters[i + 1..]);
    rest := FeatureClauses(f, qs[j + 1..]) + FilterClauses(filters[i + 1..]);
    Regroup(FilterClauses(filters[..i]), FeatureClauses(f, qs[..j]), [Clause(f, qs[j], ParseQuery(qs[j]))],
            FeatureClauses(f, qs[j + 1..]), FilterClauses(filters[i + 1..]));
  }

  /** Concatenation regroups. */
  lemma AppendAssoc<T>(a: seq<T>, b: seq<T>, c: seq<T>)
    ensures a + (b + c) == (a + b) + c
  {
  }

  /** A sequence is its first `n` elements followed by the rest. */
  lemma TakeDrop<T>(s: seq<T>, n: nat)
    requires n <= |s|
    ensures s[..n] + s[n..] == s
  {
  }

  /** A feature's loop starts where the earlier clauses left off. */
  lemma QueriesStart(s0: Sel, cs0: seq<Clause>, feature: string, queries: seq<string>, userOrder: seq<string>, itemOrder: seq<string>)
    ensures ApplyClauses(s0, cs0 + FeatureClauses(feature, queries[..0]), userOrder, itemOrder) ==
              ApplyClauses(s0, cs0, userOrder, itemOrder)
  {
    assert FeatureClauses(feature, queries[..0]) == [];
    AppendEmpty(cs0);
  }

  lemma AppendEmpty<T>(s: seq<T>)
    ensures s + [] == s
  {
  }

  /** One turn of a feature's query loop, and the end of the filter stage
      on an exception. */
  lemma QueryStep(s0: Sel, cs0: seq<Clause>, feature: string, queries: seq<string>, j: nat, cur: Sel,
                  userOrder: seq<string>, itemOrder: seq<string>)
    requires j < |queries|
    requires ApplyClauses(s0, cs0 + FeatureClauses(feature, queries[..j]), userOrder, itemOrder) == Ok(cur)
    ensures ParseQuery(queries[j]).Skipped? ==>
              ApplyClauses(s0, cs0 + FeatureClauses(feature, queries[..j + 1]), userOrder, itemOrder) == Ok(cur)
    ensures !ParseQuery(queries[j]).Skipped? ==>
              ApplyClauses(s0, cs0 + FeatureClauses(feature, queries[..j + 1]), userOrder, itemOrder) ==
              MatchAll(cur, feature, queries[j], ParseQuery(queries[j]), Targets(userOrder, itemOrder))
    ensures !ParseQuery(queries[j]).Skipped? &&
            MatchAll(cur, feature, queries[j], ParseQuery(queries[j]), Targets(userOrder, itemOrder)).Err? ==>
              ApplyClauses(s0, cs0 + FeatureClauses(feature, queries), userOrder, itemOrder) ==
              MatchAll(cur, feature, queries[j], ParseQuery(queries[j]), Targets(userOrder, itemOrder))
  {
    var c := Clause(feature, queries[j], ParseQuery(queries[j]));
    var before, upto, rest := FeatureClauses(feature, queries[..j]), FeatureClauses(feature, queries[..j + 1]),
                              FeatureClauses(feature, queries[j + 1..]);
    FeatureClausesNext(feature, queries, j);
    AppendAssoc(cs0, before, [c]);
    ApplyClausesNext(s0, cs0 + before, c, userOrder, itemOrder);
    if ApplyQuery(cur, c, userOrder, itemOrder).Err? {
      AppendAssoc(cs0, upto, rest);
      ApplyClausesStops(s0, cs0 + upto, rest, userOrder, itemOrder);
    }
  }

  /** One turn of the filter stage's feature loop, and its end on an
      exception. */
  lemma FeatureStep(s0: Sel, filters: Filters, i: nat, userOrder: seq<string>, itemOrder: seq<string>)
    requires i < |filters|
    ensures FilterClauses(filters[..i + 1]) == FilterClauses(filters[..i]) + FeatureClauses(filters[i].0, filters[i].1)
    ensures ApplyClauses(s0, FilterClauses(filters[..i + 1]), userOrder, itemOrder).Err? ==>
              ApplyClauses(s0, FilterClauses(filters), userOrder, itemOrder) ==
              ApplyClauses(s0, FilterClauses(filters[..i + 1]), userOrder, itemOrder)
  {
    FilterClausesNext(filters, i);
    if ApplyClauses(s0, FilterClauses(filters[..i + 1]), userOrder, itemOrder).Err? {
      TakeDrop(filters, i + 1);
      FilterClausesAppend(filters[..i + 1], filters[i + 1..]);
      ApplyClausesStops(s0, FilterClauses(filters[..i + 1]), FilterClauses(filters[i + 1..]), userOrder, itemOrder);
    }
  }

  /** Node attributes stripped one node at a time are `Stripped`. */
  lemma StrippedAll(nodes0: map<string, Record>, nodes: map<string, Record>)
    requires nodes.Keys == nodes0.Keys
    requires forall n :: n in nodes ==> nodes[n] == nodes0[n] - {Dataset.History}
    ensures nodes == Stripped(nodes0)
  {
  }

  lemma Regroup<T>(a: seq<T>, b: seq<T>, x: seq<T>, d: seq<T>, e: seq<T>)
    ensures (a + ((b + x) + d)) + e == a + b + x + (d + e)
  {
  }

  lemma EdgeRunNext(net: Net, c: Ctx, items: map<string, Record>, es: seq<Interaction>, j: nat, w: bool)
    requires j < |es|
    ensures EdgeRun(net, c, items, es[..j + 1], w) ==
              match EdgeRun(net, c, items, es[..j], w)
              case Err(e) => Err(e)
              case Ok(mid) => EdgeStep(mid, c, items, es[j], w)
  {
    assert es[..j + 1][..j] == es[..j];
  }

  lemma {:induction false} EdgeRunStops(net: Net, c: Ctx, items: map<string, Record>, es: seq<Interaction>, n: nat, w: bool)
    requires n <= |es| && EdgeRun(net, c, items, es[..n], w).Err?
    ensures EdgeRun(net, c, items, es, w) == EdgeRun(net, c, items, es[..n], w)
    decreases |es| - n
  {
    if n < |es| {
      EdgeRunNext(net, c, items, es, n, w);
      EdgeRunStops(net, c, items, es, n + 1, w);
    } else {
      assert es[..n] == es;
    }
  }

  lemma EdgePassNext(net: Net, c: Ctx, items: map<string, Record>, history: map<string, seq<Interaction>>,
                     stamps: seq<string>, i: nat, w: bool)
    requires i < |stamps|
    ensures EdgePass(net, c, items, history, stamps[..i + 1], w) ==
              match EdgePass(net, c, items, history, stamps[..i], w)
              case Err(e) => Err(e)
              case Ok(mid) => if stamps[i] !in history then Err(KeyError) else EdgeRun(mid, c, items, history[stamps[i]], w)
  {
    assert stamps[..i + 1][..i] == stamps[..i];
  }

  lemma {:induction false} EdgePassStops(net: Net, c: Ctx, items: map<string, Record>, history: map<string, seq<Interaction>>,
                                         stamps: seq<string>, n: nat, w: bool)
    requires n <= |stamps| && EdgePass(net, c, items, history, stamps[..n], w).Err?
    ensures EdgePass(net, c, items, history, stamps, w) == EdgePass(net, c, items, history, stamps[..n], w)
    decreases |stamps| - n
  {
    if n < |stamps| {
      EdgePassNext(net, c, items, history, stamps, n, w);
      EdgePassStops(net, c, items, history, stamps, n + 1, w);
    } else {
      assert stamps[..n] == stamps;
    }
  }

  /** Every record names its own node. */
  predicate RecordsNamed(recs: map<string, Record>, isUser: bool) {
    forall x :: x in recs ==> "id" in recs[x] && recs[x]["id"] == PStr(NodeId(isUser, x))
  }

  /** One step of a node loop, adding the record under the id it carries. */
  lemma AddRecordNext(nodes: map<string, Record>, order: seq<string>, recs: map<string, Record>, isUser: bool, j: nat)
    requires j < |order| && (forall x :: x in order ==> x in recs) && RecordsNamed(recs, isUser)
    ensures "id" in recs[order[j]]
    ensures AddAll(nodes, order[..j + 1], recs, isUser) ==
              AddNode(AddAll(nodes, order[..j], recs, isUser), Str(recs[order[j]]["id"]), recs[order[j]])
  {
    AddAllNext(nodes, order, recs, isUser, j);
  }

  lemma AddAllNext(nodes: map<string, Record>, order: seq<string>, recs: map<string, Record>, isUser: bool, j: nat)
    requires j < |order| && forall x :: x in order ==> x in recs
    ensures forall x :: x in order[..j + 1] ==> x in recs
    ensures AddAll(nodes, order[..j + 1], recs, isUser) ==
              AddNode(AddAll(nodes, order[..j], recs, isUser), NodeId(isUser, order[j]), recs[order[j]])
  {
    assert order[..j + 1][..j] == order[..j];
  }

  /** The user records `prepare_nodes` has made for the listed users. */
  function PreparedUsers(users: map<string, Record>, order: seq<string>): map<string, Record> {
    map u | u in order && u in users :: UserNode(u, users[u])
  }

  function PreparedItems(items: map<string, map<string, string>>, order: seq<string>): map<string, Record> {
    map i | i in order && i in items :: ItemNode(i, items[i])
  }

  /** Once the loop has seen every key, every record is prepared. */
  lemma PreparedAll(users: map<string, Record>, items: map<string, map<string, string>>, order: seq<string>)
    ensures (forall u :: u in order <==> u in users) ==> PreparedUsers(users, order) == UserNodes(users)
    ensures (forall i :: i in order <==> i in items) ==> PreparedItems(items, order) == ItemNodes(items)
  {
  }

  lemma PreparedNext(users: map<string, Record>, items: map<string, map<string, string>>, order: seq<string>, j: nat)
    requires j < |order|
    ensures order[j] in users ==>
              PreparedUsers(users, order[..j + 1]) == PreparedUsers(users, order[..j])[order[j] := UserNode(order[j], users[order[j]])]
    ensures order[j] in items ==>
              PreparedItems(items, order[..j + 1]) == PreparedItems(items, order[..j])[order[j] := ItemNode(order[j], items[order[j]])]
  {
    assert order[..j + 1] == order[..j] + [order[j]];
    InSnoc(order[..j], order[j]);
  }

  // ---------------------------------------------------------------------
  // Invariants of the node records

  /** Every prepared record carries its node id under `id`. */
  predicate IdsRecorded(userNodes: map<string, Record>, itemNodes: map<string, Record>) {
    && (forall u :: u in userNodes ==> "id" in userNodes[u] && userNodes[u]["id"] == PStr(UserNodeId(u)))
    && (forall i :: i in itemNodes ==> "id" in itemNodes[i] && itemNodes[i]["id"] == PStr(ItemNodeId(i)))
  }

  /** The node attributes without the interaction history, which the GEXF
      writer cannot store: every node keeps its other attributes. */
  function Stripped(nodes: map<string, Record>): (r: map<string, Record>)
    ensures r.Keys == nodes.Keys
    ensures forall n :: n in r ==> Dataset.History !in r[n] && r[n].Keys == nodes[n].Keys - {Dataset.History}
    ensures forall n, k :: n in r && k in r[n] ==> r[n][k] == nodes[n][k]
  {
    map n | n in nodes :: nodes[n] - {Dataset.History}
  }

  /** Stripping twice strips nothing more. */
  lemma StrippedIdempotent(nodes: map<string, Record>)
    ensures Stripped(Stripped(nodes)) == Stripped(nodes)
  {
    var s := Stripped(nodes);
    forall n | n in s ensures Stripped(s)[n] == s[n] {
      assert Stripped(s)[n].Keys == s[n].Keys;
    }
  }

  // ---------------------------------------------------------------------
  // Communities

  /** The community index `get_louvain_parts` gives each node label that
      contains `user`: the communities in turn, a later one overwriting. */
  function Parts(communities: seq<set<string>>): map<string, nat>
    decreases |communities|
  {
    if communities == [] then map[]
    else
      var n := |communities| - 1;
      Parts(communities[..n]) + Community(communities[n], n)
  }

  /** One community's labels that contain `user`, each given the
      community's index. */
  function Community(labels: set<string>, idx: nat): map<string, nat> {
    map l | l in labels && Includes(l, "user") :: idx
  }

  /** The loop over one community adds its labels one at a time. */
  lemma CommunityAdd(before: map<string, nat>, labels: set<string>, todo: set<string>, l: string, idx: nat)
    requires l in todo && todo <= labels
    ensures (if Includes(l, "user") then (before + Community(labels - todo, idx))[l := idx]
             else before + Community(labels - todo, idx)) ==
            before + Community(labels - (todo - {l}), idx)
  {
  }

  lemma PartsNext(communities: seq<set<string>>, idx: nat)
    requires idx < |communities|
    ensures Parts(communities[..idx + 1]) == Parts(communities[..idx]) + Community(communities[idx], idx)
  {
    assert communities[..idx + 1][..idx] == communities[..idx];
  }

  /** The labels given a part are exactly the labels containing `user` in
      some community, and each gets the last community it is in. */
  lemma PartsMeaning(communities: seq<set<string>>)
    ensures forall l :: l in Parts(communities) <==> Includes(l, "user") && exists i :: 0 <= i < |communities| && l in communities[i]
    ensures forall l :: l in Parts(communities) ==> Parts(communities)[l] < |communities| && l in communities[Parts(communities)[l]]
    ensures forall l, i :: l in Parts(communities) && Parts(communities)[l] < i < |communities| ==> l !in communities[i]
  {
    forall l {
      PartIn(communities, l);
    }
    forall l | l in Parts(communities) {
      PartAt(communities, l);
    }
  }

  /** Which labels get a part. */
  lemma {:induction false} PartIn(communities: seq<set<string>>, l: string)
    ensures l in Parts(communities) <==> Includes(l, "user") && exists i :: 0 <= i < |communities| && l in communities[i]
    decreases |communities|
  {
    if communities != [] {
      var n := |communities| - 1;
      var init := communities[..n];
      PartIn(init, l);
      assert l in Parts(communities) <==> l in Parts(init) || l in Community(communities[n], n);
      if exists i :: 0 <= i < |communities| && l in communities[i] {
        var i :| 0 <= i < |communities| && l in communities[i];
        if i < n {
          assert init[i] == communities[i];
        }
      }
      if exists i :: 0 <= i < n && l in init[i] {
        var i :| 0 <= i < n && l in init[i];
        assert communities[i] == init[i];
      }
    }
  }

  /** The part a label gets: the last community it is in. */
  lemma {:induction false} PartAt(communities: seq<set<string>>, l: string)
    requires l in Parts(communities)
    ensures Parts(communities)[l] < |communities| && l in communities[Parts(communities)[l]]
    ensures forall i :: Parts(communities)[l] < i < |communities| ==> l !in communities[i]
    decreases |communities|
  {
    var n := |communities| - 1;
    var init := communities[..n];
    var here := Community(communities[n], n);
    assert Parts(communities) == Parts(init) + here;
    if l !in here {
      PartAt(init, l);
      PartIn(init, l);
      assert l !in communities[n];
      var i := Parts(init)[l];
      assert Parts(communities)[l] == i;
      assert communities[i] == init[i];
      forall i' | i < i' < |communities| ensures l !in communities[i'] {
        if i' < n {
          assert communities[i'] == init[i'];
        }
      }
    }
  }

  /** Every user node is given its community. */
  lemma UserLabelsCounted(uid: string)
    ensures Includes(UserNodeId(uid), "user")
  {
    assert "user" <= UserNodeId(uid);
  }

  /** The test is a substring test on the label, so an item whose id
      contains `user` is given a community too. */
  lemma ItemLabelCounted()
    ensures Includes(ItemNodeId("superuser"), "user")
  {
    assert OccursAt(ItemNodeId("superuser"), "user", 10);
  }

  // ---------------------------------------------------------------------
  // The Graph object

  class Graph {
    /** The user node records by user id, and the item node records by item
        id. */
    var userNodes: map<string, Record>
    var itemNodes: map<string, Record>
    /** The networkx graph: node attributes by node id, and the edges. */
    var nodes: map<string, Record>
    var edges: set<(string, string)>
    var gexfPath: Option<string>
    var ready: bool

    /** The records carry their node ids. */
    predicate Valid()
      reads this
    {
      IdsRecorded(userNodes, itemNodes)
    }

    /** The attribute initialisation at the top of the constructor. */
    constructor ()
      ensures Valid()
      ensures userNodes == map[] && itemNodes == map[] && nodes == map[] && edges == {}
      ensures gexfPath == None && !ready
    {
      userNodes := map[];
      itemNodes := map[];
      nodes := map[];
      edges := {};
      gexfPath := None;
      ready := false;
    }

    /** `prepare_nodes`: a node record for every user and every item of the
        dataset, in the orders its mappings iterate in. */
    method PrepareNodes(users: map<string, Record>, items: map<string, map<string, string>>,
                        userOrder: seq<string>, itemOrder: seq<string>)
      requires Valid()
      requires forall u :: u in userOrder <==> u in users
      requires forall i :: i in itemOrder <==> i in items
      modifies this
      ensures Valid()
      ensures userNodes == old(userNodes) + UserNodes(users)
      ensures itemNodes == old(itemNodes) + ItemNodes(items)
      ensures nodes == old(nodes) && edges == old(edges) && gexfPath == old(gexfPath) && ready == old(ready)
    {
      PrepareUsers(users, userOrder);
      PrepareItems(items, itemOrder);
    }

    /** The user loop of `prepare_nodes`. */
    method PrepareUsers(users: map<string, Record>, userOrder: seq<string>)
      requires Valid()
      requires forall u :: u in userOrder <==> u in users
      modifies this
      ensures Valid()
      ensures userNodes == old(userNodes) + UserNodes(users)
      ensures itemNodes == old(itemNodes) && nodes == old(nodes) && edges == old(edges)
      ensures gexfPath == old(gexfPath) && ready == old(ready)
    {
      var j := 0;
      while j < |userOrder|
        invariant 0 <= j <= |userOrder|
        invariant userNodes == old(userNodes) + PreparedUsers(users, userOrder[..j])
        invariant itemNodes == old(itemNodes) && nodes == old(nodes) && edges == old(edges)
        invariant gexfPath == old(gexfPath) && ready == old(ready)
      {
        var u := userOrder[j];
        var rec := UserNode(u, users[u]);
        PreparedNext(users, map[], userOrder, j);
        UnionUpdate(old(userNodes), PreparedUsers(users, userOrder[..j]), u, rec);
        userNodes := userNodes[u := rec];
        j := j + 1;
      }
      assert userOrder[..j] == userOrder;
      PreparedAll(users, map[], userOrder);
      UsersIdsRecorded(old(userNodes), itemNodes, users);
    }

    /** The item loop of `prepare_nodes`. */
    method PrepareItems(items: map<string, map<string, string>>, itemOrder: seq<string>)
      requires Valid()
      requires forall i :: i in itemOrder <==> i in items
      modifies this
      ensures Valid()
      ensures itemNodes == old(itemNodes) + ItemNodes(items)
      ensures userNodes == old(userNodes) && nodes == old(nodes) && edges == old(edges)
      ensures gexfPath == old(gexfPath) && ready == old(ready)
    {
      var j := 0;
      while j < |itemOrder|
        invariant 0 <= j <= |itemOrder|
        invariant itemNodes == old(itemNodes) + PreparedItems(items, itemOrder[..j])
        invariant userNodes == old(userNodes) && nodes == old(nodes) && edges == old(edges)
        invariant gexfPath == old(gexfPath) && ready == old(ready)
      {
        var i := itemOrder[j];
        var rec := ItemNode(i, items[i]);
        PreparedNext(map[], items, itemOrder, j);
        UnionUpdate(old(itemNodes), PreparedItems(items, itemOrder[..j]), i, rec);
        itemNodes := itemNodes[i := rec];
        j := j + 1;
      }
      assert itemOrder[..j] == itemOrder;
      PreparedAll(map[], items, itemOrder);
      ItemsIdsRecorded(userNodes, old(itemNodes), items);
    }

    /** One node loop of the unfiltered branch of `assemble_graph`: every
        record in turn is added under the node id it carries. */
    method AddRecordNodes(order: seq<string>, isUser: bool)
      requires Valid()
      requires isUser ==> forall x :: x in order ==> x in userNodes
      requires !isUser ==> forall x :: x in order ==> x in itemNodes
      modifies this`nodes
      ensures isUser ==> nodes == AddAll(old(nodes), order, userNodes, true)
      ensures !isUser ==> nodes == AddAll(old(nodes), order, itemNodes, false)
    {
      var recs := if isUser then userNodes else itemNodes;
      assert forall x :: x in order ==> x in recs;
      assert RecordsNamed(recs, isUser);
      var j := 0;
      while j < |order|
        invariant 0 <= j <= |order|
        invariant nodes == AddAll(old(nodes), order[..j], recs, isUser)
        invariant userNodes == old(userNodes) && itemNodes == old(itemNodes) && edges == old(edges)
        invariant gexfPath == old(gexfPath) && ready == old(ready)
      {
        AddRecordNext(old(nodes), order, recs, isUser, j);
        var attrs := recs[order[j]];
        nodes := AddNode(nodes, Str(attrs["id"]), attrs);
        j := j + 1;
      }
      assert order[..j] == order;
    }

    /** One filter query: the user loop, then the item loop.  A matching
        record is marked with the feature and the query, its id included,
        and it is added as a node (an item only by a range query); an
        exception from `int` ends the query. */
    method MatchQuery(feature: string, query: string, k: Query, userOrder: seq<string>, itemOrder: seq<string>,
                      usersIn0: set<string>, itemsIn0: set<string>)
      returns (err: Option<PyError>, usersIn: set<string>, itemsIn: set<string>)
      requires Valid()
      requires forall u :: u in userOrder ==> u in userNodes
      requires forall i :: i in itemOrder ==> i in itemNodes
      modifies this`userNodes, this`itemNodes, this`nodes
      ensures Valid() && userNodes.Keys == old(userNodes).Keys && itemNodes.Keys == old(itemNodes).Keys
      ensures MatchAll(Sel(old(userNodes), old(itemNodes), usersIn0, itemsIn0, old(nodes)), feature, query, k,
                       Targets(userOrder, itemOrder)) ==
                Outcome(err, Sel(userNodes, itemNodes, usersIn, itemsIn, nodes))
    {
      ghost var s0 := Sel(userNodes, itemNodes, usersIn0, itemsIn0, nodes);
      QueryTargets(s0, feature, query, k, userOrder, itemOrder);
      err, usersIn := MatchUsers(feature, query, k, userOrder, Targets(userOrder, []), usersIn0, itemsIn0);
      itemsIn := itemsIn0;
      if err.None? {
        err, itemsIn := MatchItems(feature, query, k, itemOrder, Targets([], itemOrder), usersIn, itemsIn0);
      }
    }

    /** The user loop of one filter query. */
    method MatchUsers(feature: string, query: string, k: Query, userOrder: seq<string>, ghost ts: seq<Target>,
                      usersIn0: set<string>, itemsIn: set<string>)
      returns (err: Option<PyError>, usersIn: set<string>)
      requires Valid()
      requires forall u :: u in userOrder ==> u in userNodes
      requires UserRun(ts, userOrder)
      modifies this`userNodes, this`nodes
      ensures Valid() && userNodes.Keys == old(userNodes).Keys
      ensures MatchAll(Sel(old(userNodes), old(itemNodes), usersIn0, itemsIn, old(nodes)), feature, query, k, ts) ==
                Outcome(err, Sel(userNodes, itemNodes, usersIn, itemsIn, nodes))
    {
      ghost var s0 := Sel(userNodes, itemNodes, usersIn0, itemsIn, nodes);
      var users, ns := userNodes, nodes;
      err, usersIn := None, usersIn0;
      var j := 0;
      while j < |userOrder|
        invariant 0 <= j <= |userOrder|
        invariant MatchAll(s0, feature, query, k, ts[..j]) == Ok(Sel(users, itemNodes, usersIn, itemsIn, ns))
        invariant IdsRecorded(users, itemNodes)
        invariant users.Keys == old(userNodes).Keys
        invariant err.None?
      {
        UserStep(s0, feature, query, k, userOrder, ts, j, Sel(users, itemNodes, usersIn, itemsIn, ns));
        assert userOrder[j] in userOrder;
        err, users, usersIn, ns := TestUser(feature, query, k, userOrder[j], users, itemNodes, usersIn, itemsIn, ns);
        if err.Some? {
          userNodes, nodes := users, ns;
          return;
        }
        j := j + 1;
      }
      TakeAll(ts);
      userNodes, nodes := users, ns;
    }

    /** The body of the user loop: a user whose attribute matches is
        marked, included and added as a node. */
    static method TestUser(feature: string, query: string, k: Query, u: string, users0: map<string, Record>,
                           items: map<string, Record>, usersIn0: set<string>, itemsIn: set<string>, nodes0: map<string, Record>)
      returns (err: Option<PyError>, users: map<string, Record>, usersIn: set<string>, nodes: map<string, Record>)
      requires IdsRecorded(users0, items) && u in users0
      ensures IdsRecorded(users, items) && users.Keys == users0.Keys
      ensures MatchTarget(Sel(users0, items, usersIn0, itemsIn, nodes0), feature, query, k, UserT(u)) ==
                Outcome(err, Sel(users, items, usersIn, itemsIn, nodes))
    {
      users, usersIn, nodes := users0, usersIn0, nodes0;
      var user := users[u];
      var m := Matches(k, feature, user);
      if m.Err? {
        return Some(m.error), users, usersIn, nodes;
      }
      if m.value {
        MarkedUserRecorded(users, items, u, feature, query);
        user := Mark(user, feature, query);
        users := users[u := user];
        usersIn := usersIn + {u};
        nodes := AddNode(nodes, Str(user["id"]), user);
      }
      return None, users, usersIn, nodes;
    }

    /** The item loop of one filter query. */
    method MatchItems(feature: string, query: string, k: Query, itemOrder: seq<string>, ghost ts: seq<Target>,
                      usersIn: set<string>, itemsIn0: set<string>)
      returns (err: Option<PyError>, itemsIn: set<string>)
      requires Valid()
      requires forall i :: i in itemOrder ==> i in itemNodes
      requires ItemRun(ts, itemOrder)
      modifies this`itemNodes, this`nodes
      ensures Valid() && itemNodes.Keys == old(itemNodes).Keys
      ensures MatchAll(Sel(old(userNodes), old(itemNodes), usersIn, itemsIn0, old(nodes)), feature, query, k, ts) ==
                Outcome(err, Sel(userNodes, itemNodes, usersIn, itemsIn, nodes))
    {
      ghost var s0 := Sel(userNodes, itemNodes, usersIn, itemsIn0, nodes);
      var items, ns := itemNodes, nodes;
      err, itemsIn := None, itemsIn0;
      var j := 0;
      while j < |itemOrder|
        invariant 0 <= j <= |itemOrder|
        invariant MatchAll(s0, feature, query, k, ts[..j]) == Ok(Sel(userNodes, items, usersIn, itemsIn, ns))
        invariant IdsRecorded(userNodes, items)
        invariant items.Keys == old(itemNodes).Keys
        invariant err.None?
      {
        assert itemOrder[j] in itemOrder;
        ItemStep(s0, feature, query, k, itemOrder, ts, j, Sel(userNodes, items, usersIn, itemsIn, ns));
        err, items, itemsIn, ns := TestItem(feature, query, k, itemOrder[j], userNodes, items, usersIn, itemsIn, ns);
        if err.Some? {
          itemNodes, nodes := items, ns;
          return;
        }
        j := j + 1;
      }
      TakeAll(ts);
      itemNodes, nodes := items, ns;
    }

    /** The body of the item loop: an item whose attribute matches is
        marked and included, and added as a node by a range query only. */
    static method TestItem(feature: string, query: string, k: Query, i: string, users: map<string, Record>,
                           items0: map<string, Record>, usersIn: set<string>, itemsIn0: set<string>, nodes0: map<string, Record>)
      returns (err: Option<PyError>, items: map<string, Record>, itemsIn: set<string>, nodes: map<string, Record>)
      requires IdsRecorded(users, items0) && i in items0
      ensures IdsRecorded(users, items) && items.Keys == items0.Keys
      ensures MatchTarget(Sel(users, items0, usersIn, itemsIn0, nodes0), feature, query, k, ItemT(i)) ==
                Outcome(err, Sel(users, items, usersIn, itemsIn, nodes))
    {
      items, itemsIn, nodes := items0, itemsIn0, nodes0;
      var item := items[i];
      var m := Matches(k, feature, item);
      if m.Err? {
        return Some(m.error), items, itemsIn, nodes;
      }
      if m.value {
        MarkedItemRecorded(users, items, i, feature, query);
        item := Mark(item, feature, query);
        items := items[i := item];
        itemsIn := itemsIn + {i};
        if k.Range? {
          nodes := AddNode(nodes, Str(item["id"]), item);
        }
      }
      return None, items, itemsIn, nodes;
    }

    /** The filter stage of `assemble_graph`: every query of every feature
        in turn.  A query whose numbers do not parse is skipped; an
        exception from a query ends the stage. */
    method ApplyFilters(filters: Filters, userOrder: seq<string>, itemOrder: seq<string>)
      returns (err: Option<PyError>, usersIn: set<string>, itemsIn: set<string>)
      requires Valid()
      requires forall u :: u in userOrder ==> u in userNodes
      requires forall i :: i in itemOrder ==> i in itemNodes
      modifies this`userNodes, this`itemNodes, this`nodes
      ensures Valid() && userNodes.Keys == old(userNodes).Keys && itemNodes.Keys == old(itemNodes).Keys
      ensures ApplyClauses(Sel(old(userNodes), old(itemNodes), {}, {}, old(nodes)), FilterClauses(filters), userOrder, itemOrder) ==
                Outcome(err, Sel(userNodes, itemNodes, usersIn, itemsIn, nodes))
    {
      ghost var s0 := Sel(userNodes, itemNodes, {}, {}, nodes);
      err, usersIn, itemsIn := None, {}, {};
      var i := 0;
      while i < |filters|
        invariant 0 <= i <= |filters|
        invariant ApplyClauses(s0, FilterClauses(filters[..i]), userOrder, itemOrder) ==
                    Ok(Sel(userNodes, itemNodes, usersIn, itemsIn, nodes))
        invariant Valid() && userNodes.Keys == old(userNodes).Keys && itemNodes.Keys == old(itemNodes).Keys
        invariant err.None?
      {
        FeatureStep(s0, filters, i, userOrder, itemOrder);
        err, usersIn, itemsIn := ApplyFeature(filters[i].0, filters[i].1, userOrder, itemOrder, s0, FilterClauses(filters[..i]),
                                              usersIn, itemsIn);
        if err.Some? {
          return;
        }
        i := i + 1;
      }
      TakeAll(filters);
    }

    /** The queries of one feature in turn, after the clauses `cs0`. */
    method ApplyFeature(feature: string, queries: seq<string>, userOrder: seq<string>, itemOrder: seq<string>,
                        ghost s0: Sel, ghost cs0: seq<Clause>, usersIn0: set<string>, itemsIn0: set<string>)
      returns (err: Option<PyError>, usersIn: set<string>, itemsIn: set<string>)
      requires Valid()
      requires forall u :: u in userOrder ==> u in userNodes
      requires forall i :: i in itemOrder ==> i in itemNodes
      requires ApplyClauses(s0, cs0, userOrder, itemOrder) == Ok(Sel(userNodes, itemNodes, usersIn0, itemsIn0, nodes))
      modifies this`userNodes, this`itemNodes, this`nodes
      ensures Valid() && userNodes.Keys == old(userNodes).Keys && itemNodes.Keys == old(itemNodes).Keys
      ensures ApplyClauses(s0, cs0 + FeatureClauses(feature, queries), userOrder, itemOrder) ==
                Outcome(err, Sel(userNodes, itemNodes, usersIn, itemsIn, nodes))
    {
      err, usersIn, itemsIn := None, usersIn0, itemsIn0;
      QueriesStart(s0, cs0, feature, queries, userOrder, itemOrder);
      var j := 0;
      while j < |queries|
        invariant 0 <= j <= |queries|
        invariant ApplyClauses(s0, cs0 + FeatureClauses(feature, queries[..j]), userOrder, itemOrder) ==
                    Ok(Sel(userNodes, itemNodes, usersIn, itemsIn, nodes))
        invariant Valid() && userNodes.Keys == old(userNodes).Keys && itemNodes.Keys == old(itemNodes).Keys
        invariant err.None?
      {
        var k := ParseQuery(queries[j]);
        QueryStep(s0, cs0, feature, queries, j, Sel(userNodes, itemNodes, usersIn, itemsIn, nodes), userOrder, itemOrder);
        if !k.Skipped? {
          err, usersIn, itemsIn := MatchQuery(feature, queries[j], k, userOrder, itemOrder, usersIn, itemsIn);
          if err.Some? {
            return;
          }
        }
        j := j + 1;
      }
      TakeAll(queries);
    }

    /** The edge loops of `assemble_graph`: the interactions of every
        timestamp in turn; a timestamp without a history entry raises
        `KeyError`.  With `asWritten`, an edge seen before makes the
        three-argument `add_edge` call, which raises `TypeError`; without
        it, the call is read as the intended keyword call and the edge is
        kept. */
    method AddEdges(filtered: bool, usersIn: set<string>, itemsIn: set<string>,
                    history: map<string, seq<Interaction>>, stamps: seq<string>, asWritten: bool)
      returns (err: Option<PyError>)
      requires Valid()
      modifies this`nodes, this`edges
      ensures EdgePass(Net(old(nodes), old(edges)), Ctx(filtered, userNodes.Keys, itemNodes.Keys, usersIn, itemsIn),
                       itemNodes, history, stamps, asWritten) ==
                Outcome(err, Net(nodes, edges))
    {
      ghost var net0 := Net(nodes, edges);
      var c := Ctx(filtered, userNodes.Keys, itemNodes.Keys, usersIn, itemsIn);
      var ns, es := nodes, edges;
      err := None;
      var i := 0;
      while i < |stamps|
        invariant 0 <= i <= |stamps|
        invariant EdgePass(net0, c, itemNodes, history, stamps[..i], asWritten) == Ok(Net(ns, es))
        invariant err.None?
      {
        EdgePassNext(net0, c, itemNodes, history, stamps, i, asWritten);
        if stamps[i] !in history {
          EdgePassStops(net0, c, itemNodes, history, stamps, i + 1, asWritten);
          nodes, edges := ns, es;
          return Some(KeyError);
        }
        err, ns, es := AddRun(c, userNodes, itemNodes, ns, es, history[stamps[i]], asWritten);
        if err.Some? {
          EdgePassStops(net0, c, itemNodes, history, stamps, i + 1, asWritten);
          nodes, edges := ns, es;
          return;
        }
        i := i + 1;
      }
      TakeAll(stamps);
      nodes, edges := ns, es;
    }

    /** The interactions of one timestamp in turn. */
    static method AddRun(c: Ctx, users: map<string, Record>, items: map<string, Record>,
                         nodes0: map<string, Record>, edges0: set<(string, string)>, es: seq<Interaction>,
                         asWritten: bool)
      returns (err: Option<PyError>, nodes: map<string, Record>, edges: set<(string, string)>)
      requires IdsRecorded(users, items) && c.userIds == users.Keys && c.itemIds == items.Keys
      ensures EdgeRun(Net(nodes0, edges0), c, items, es, asWritten) == Outcome(err, Net(nodes, edges))
    {
      ghost var net0 := Net(nodes0, edges0);
      err, nodes, edges := None, nodes0, edges0;
      var j := 0;
      while j < |es|
        invariant 0 <= j <= |es|
        invariant EdgeRun(net0, c, items, es[..j], asWritten) == Ok(Net(nodes, edges))
        invariant err.None?
      {
        EdgeRunNext(net0, c, items, es, j, asWritten);
        err, nodes, edges := AddInteraction(c, users, items, nodes, edges, es[j], asWritten);
        if err.Some? {
          EdgeRunStops(net0, c, items, es, j + 1, asWritten);
          return;
        }
        j := j + 1;
      }
      TakeAll(es);
    }

    /** One interaction: under filters, only one whose user is included and
        whose item is included (or no item is); its item is then added as
        a node.  The item is looked up before the user, each lookup
        raising `KeyError`; the edge joins the two nodes' ids.  With
        `asWritten`, an edge already present raises `TypeError`. */
    static method AddInteraction(c: Ctx, users: map<string, Record>, items: map<string, Record>,
                                 nodes0: map<string, Record>, edges0: set<(string, string)>, e: Interaction,
                                 asWritten: bool)
      returns (err: Option<PyError>, nodes: map<string, Record>, edges: set<(string, string)>)
      requires IdsRecorded(users, items) && c.userIds == users.Keys && c.itemIds == items.Keys
      ensures EdgeStep(Net(nodes0, edges0), c, items, e, asWritten) == Outcome(err, Net(nodes, edges))
    {
      err, nodes, edges := None, nodes0, edges0;
      if !("user_id" in Keys(e) && "item_id" in Keys(e)) {
        return;
      }
      var u, i := Field(e, "user_id"), Field(e, "item_id");
      if c.filtered && !(u in c.inUsers && (i in c.inItems || c.inItems == {})) {
        return;
      }
      if i !in items {
        return Some(KeyError), nodes, edges;
      }
      var item := items[i];
      var itemNode := Str(item["id"]);
      if c.filtered {
        nodes := AddNode(nodes, itemNode, item);
      }
      if u !in users {
        return Some(KeyError), nodes, edges;
      }
      var userNode := Str(users[u]["id"]);
      if asWritten && (userNode, itemNode) in edges {
        return Some(TypeError), nodes, edges;
      }
      nodes := EnsureNode(EnsureNode(nodes, userNode), itemNode);
      edges := edges + {(userNode, itemNode)};
    }

    /** `assemble_graph` on a fresh graph: with a non-empty filter
        dictionary, the filter stage and then the edge stage over the
        included records; otherwise every user, then every item, as a
        node, and the edge stage over everything.  Iterating a missing
        timestamp list raises `TypeError`, and so, with `asWritten`, does a
        repeated user-item pair. */
    method AssembleGraph(filters: Option<Filters>, history: map<string, seq<Interaction>>, stamps: Option<seq<string>>,
                         userOrder: seq<string>, itemOrder: seq<string>, asWritten: bool)
      returns (err: Option<PyError>)
      requires Valid()
      requires forall u :: u in userOrder ==> u in userNodes
      requires forall i :: i in itemOrder ==> i in itemNodes
      modifies this`userNodes, this`itemNodes, this`nodes, this`edges
      ensures Valid()
      ensures Assemble(old(userNodes), old(itemNodes), filters, history, stamps, userOrder, itemOrder, asWritten) ==
                Outcome(err, Built(userNodes, itemNodes, Net(nodes, edges)))
    {
      nodes, edges := map[], {};
      if filters.Some? && filters.value != [] {
        var usersIn, itemsIn;
        err, usersIn, itemsIn := ApplyFilters(filters.value, userOrder, itemOrder);
        if err.Some? {
          return;
        }
        if stamps.None? {
          return Some(TypeError);
        }
        err := AddEdges(true, usersIn, itemsIn, history, stamps.value, asWritten);
      } else {
        AddRecordNodes(userOrder, true);
        AddRecordNodes(itemOrder, false);
        if stamps.None? {
          return Some(TypeError);
        }
        err := AddEdges(false, {}, {}, history, stamps.value, asWritten);
      }
    }

    /** `write_gexf`: the file path is the cache directory joined with the
        graph key and `.gexf`; every node loses its interaction history;
        then the graph is ready. */
    method WriteGexf(cacheDir: string, graphKey: string)
      modifies this`nodes, this`gexfPath, this`ready
      ensures gexfPath == Some(PathJoin(cacheDir, graphKey + ".gexf"))
      ensures nodes == Stripped(old(nodes))
      ensures ready
    {
      gexfPath := Some(PathJoin(cacheDir, graphKey + ".gexf"));
      var ns, todo := nodes, nodes.Keys;
      while todo != {}
        invariant todo <= nodes.Keys && ns.Keys == nodes.Keys
        invariant forall n :: n in ns ==> ns[n] == if n in todo then nodes[n] else nodes[n] - {Dataset.History}
        decreases todo
      {
        var n :| n in todo;
        if Dataset.History in ns[n] {
          ns := ns[n := ns[n] - {Dataset.History}];
        }
        todo := todo - {n};
      }
      StrippedAll(nodes, ns);
      nodes := ns;
      ready := true;
    }

    /** `get_louvain_parts` on the communities the Louvain method found,
        listed in its order: every label containing `user` gets the index
        of its community. */
    method LouvainParts(communities: seq<set<string>>) returns (parts: map<string, nat>)
      ensures parts == Parts(communities)
    {
      parts := map[];
      var idx := 0;
      while idx < |communities|
        invariant 0 <= idx <= |communities|
        invariant parts == Parts(communities[..idx])
      {
        PartsNext(communities, idx);
        var todo := communities[idx];
        ghost var before := parts;
        while todo != {}
          invariant todo <= communities[idx]
          invariant parts == before + Community(communities[idx] - todo, idx)
          decreases todo
        {
          var l :| l in todo;
          CommunityAdd(before, communities[idx], todo, l, idx);
          if Includes(l, "user") {
            parts := parts[l := idx];
          }
          todo := todo - {l};
        }
        assert communities[idx] - todo == communities[idx];
        idx := idx + 1;
      }
      TakeAll(communities);
    }
  }

  /** Prepared records carry their node ids. */
  lemma UsersIdsRecorded(userNodes: map<string, Record>, itemNodes: map<string, Record>, users: map<string, Record>)
    requires IdsRecorded(userNodes, itemNodes)
    ensures IdsRecorded(userNodes + UserNodes(users), itemNodes)
  {
  }

  lemma ItemsIdsRecorded(userNodes: map<string, Record>, itemNodes: map<string, Record>, items: map<string, map<string, string>>)
    requires IdsRecorded(userNodes, itemNodes)
    ensures IdsRecorded(userNodes, itemNodes + ItemNodes(items))
  {
  }

  /** Marking a record keeps its node id. */
  lemma MarkedUserRecorded(userNodes: map<string, Record>, itemNodes: map<string, Record>, u: string, feature: string, query: string)
    requires IdsRecorded(userNodes, itemNodes) && u in userNodes
    ensures IdsRecorded(userNodes[u := Mark(userNodes[u], feature, query)], itemNodes)
  {
  }

  lemma MarkedItemRecorded(userNodes: map<string, Record>, itemNodes: map<string, Record>, i: string, feature: string, query: string)
    requires IdsRecorded(userNodes, itemNodes) && i in itemNodes
    ensures IdsRecorded(userNodes, itemNodes[i := Mark(itemNodes[i], feature, query)])
  {
  }

  lemma UnionUpdate(m: map<string, Record>, p: map<string, Record>, k: string, v: Record)
    ensures (m + p)[k := v] == m + p[k := v]
  {
  }
}
