/** The interaction graph built for one dataset: every user becomes a circle
    node `user-<id>`, every item a square node `item-<id>`, and every
    interaction between them an edge.  With filters, only the users (and
    items) whose attributes match a filter query are kept: a query `x-y`
    is an inclusive integer range, any other query an exact string.  The
    graph itself is the node attribute map and the edge set of a networkx
    graph; layout and community detection are done by libraries and are
    inputs or left out. */
module InteractionGraph {
  import opened Wrappers
  import opened Strings
  import opened OrderedMaps
  import opened PyValues
  import Dataset

  /** A filter dictionary: feature name to the queries for it, in insertion
      order. */
  type Filters = Entries<string, seq<string>>

  const FilterFeature := "filter_feature"
  const FilterQuery := "filter_query"

  // ---------------------------------------------------------------------
  // Node ids and node records

  function UserNodeId(uid: string): string { "user-" + uid }
  function ItemNodeId(iid: string): string { "item-" + iid }

  /** Node ids name their user or item uniquely, and no user node id is an
      item node id. */
  lemma NodeIdsDistinct(a: string, b: string)
    ensures UserNodeId(a) == UserNodeId(b) <==> a == b
    ensures ItemNodeId(a) == ItemNodeId(b) <==> a == b
    ensures UserNodeId(a) != ItemNodeId(b)
  {
    if UserNodeId(a) == UserNodeId(b) {
      assert a == UserNodeId(a)[5..];
    }
    if ItemNodeId(a) == ItemNodeId(b) {
      assert a == ItemNodeId(a)[5..];
    }
    assert UserNodeId(a)[0] == 'u' && ItemNodeId(b)[0] == 'i';
  }

  /** The attributes `prepare_nodes` sets on every node. */
  const NodeKeys: set<string> := {"id", "label", "type", "x", "y", "size"}

  /** `prepare_nodes` for one user: the user's record with its node id,
      label `User <id>`, shape circle, position (1, 1) and size 2. */
  function UserNode(uid: string, rec: Record): (n: Record)
    ensures n.Keys == rec.Keys + NodeKeys
    ensures n["id"] == PStr(UserNodeId(uid)) && n["label"] == PStr("User " + uid)
    ensures n["type"] == PStr("circle") && n["size"] == PInt(2) && n["x"] == PInt(1) && n["y"] == PInt(1)
    ensures forall k :: k in rec && k !in NodeKeys ==> n[k] == rec[k]
  {
    rec["id" := PStr(UserNodeId(uid))]["label" := PStr("User " + uid)]["type" := PStr("circle")]
       ["x" := PInt(1)]["y" := PInt(1)]["size" := PInt(2)]
  }

  /** `prepare_nodes` for one item: the item's string attributes with its
      node id, label `Item <id>`, position (1, 1), size 2 and shape
      square. */
  function ItemNode(iid: string, attrs: map<string, string>): (n: Record)
    ensures n.Keys == attrs.Keys + NodeKeys
    ensures n["id"] == PStr(ItemNodeId(iid)) && n["label"] == PStr("Item " + iid)
    ensures n["type"] == PStr("square") && n["size"] == PInt(2) && n["x"] == PInt(1) && n["y"] == PInt(1)
    ensures forall k :: k in attrs && k !in NodeKeys ==> n[k] == PStr(attrs[k])
  {
    var rec := map k | k in attrs :: PStr(attrs[k]);
    rec["id" := PStr(ItemNodeId(iid))]["label" := PStr("Item " + iid)]["x" := PInt(1)]
       ["y" := PInt(1)]["size" := PInt(2)]["type" := PStr("square")]
  }

  function UserNodes(users: map<string, Record>): map<string, Record> {
    map u | u in users :: UserNode(u, users[u])
  }

  function ItemNodes(items: map<string, map<string, string>>): map<string, Record> {
    map i | i in items :: ItemNode(i, items[i])
  }

  /** The keys of a dictionary in iteration order: each key exactly once. */
  ghost predicate Enumerates(order: seq<string>, keys: set<string>) {
    && (forall i, j :: 0 <= i < j < |order| ==> order[i] != order[j])
    && (forall k :: k in order <==> k in keys)
  }

  // ---------------------------------------------------------------------
  // Filter queries

  /** A filter query: an inclusive integer range, an exact string, or a
      query with a `-` that does not split into two integers, which is
      skipped. */
  datatype Query = Range(lo: int, hi: int) | Exact(text: string) | Skipped

  /** How `assemble_graph` reads a query. */
  function ParseQuery(q: string): (k: Query)
    ensures k.Exact? <==> !Includes(q, "-")
    ensures k.Exact? ==> k.text == q
    ensures k.Range? ==> |Split(q, "-")| == 2 &&
                         PyInt(Split(q, "-")[0]) == Some(k.lo) && PyInt(Split(q, "-")[1]) == Some(k.hi)
  {
    if !Includes(q, "-") then Exact(q)
    else
      var parts := Split(q, "-");
      if |parts| == 2 && PyInt(parts[0]).Some? && PyInt(parts[1]).Some? then
        Range(PyInt(parts[0]).value, PyInt(parts[1]).value)
      else Skipped
  }

  /** `a-b` with two decimal numbers is the range from `a` to `b`. */
  lemma ParseRange(a: nat, b: nat)
    ensures ParseQuery(NatToString(a) + "-" + NatToString(b)) == Range(a, b)
  {
    var sa, sb := NatToString(a), NatToString(b);
    var q := sa + "-" + sb;
    assert Join([sa, sb], "-") == q;
    SplitJoin([sa, sb], '-');
    assert q[|sa|] == '-';
    assert q[|sa|..|sa| + 1] == "-";
    assert OccursAt(q, "-", |sa|);
    PyIntOfIntToString(a);
    PyIntOfIntToString(b);
  }

  /** A negative lower bound cannot be written: `-a-b` splits into three
      parts and the query is skipped. */
  lemma NegativeBoundSkipped(a: nat, b: nat)
    ensures ParseQuery("-" + NatToString(a) + "-" + NatToString(b)) == Skipped
  {
    var q := "-" + NatToString(a) + "-" + NatToString(b);
    SplitThree(NatToString(a), NatToString(b));
    assert q[0..1] == "-";
    assert OccursAt(q, "-", 0);
  }

  lemma SplitThree(sa: string, sb: string)
    requires '-' !in sa && '-' !in sb
    ensures |Split("-" + sa + "-" + sb, "-")| == 3
  {
    var parts := ["", sa, sb];
    assert parts[1..] == [sa, sb] && [sa, sb][1..] == [sb];
    assert Join([sb], "-") == sb;
    assert Join([sa, sb], "-") == sa + "-" + sb;
    assert Join(parts, "-") == "" + "-" + (sa + "-" + sb);
    assert "" + "-" + (sa + "-" + sb) == "-" + sa + "-" + sb;
    SplitJoin(parts, '-');
  }

  /** Whether a node record matches a query on `feature`.  A range query
      converts the value with `int`, whose error propagates. */
  function Matches(k: Query, feature: string, rec: Record): (r: Result<bool, PyError>)
    ensures feature !in rec || k.Skipped? ==> r == Ok(false)
    ensures !k.Range? ==> r.Ok?
    ensures r.Err? ==> feature in rec && Int(rec[feature]) == Err(r.error)
    ensures k.Range? && r == Ok(true) ==> Int(rec[feature]).Ok? && k.lo <= Int(rec[feature]).value <= k.hi
    ensures k.Exact? ==> (r == Ok(true) <==> feature in rec && Str(rec[feature]) == k.text)
  {
    if feature !in rec then Ok(false)
    else
      match k
      case Range(lo, hi) =>
        (match Int(rec[feature])
         case Err(e) => Err(e)
         case Ok(v) => Ok(lo <= v <= hi))
      case Exact(text) => Ok(Str(rec[feature]) == text)
      case Skipped => Ok(false)
  }

  /** The two attributes a match records on a node. */
  function Mark(rec: Record, feature: string, query: string): Record {
    rec[FilterFeature := PStr(feature)][FilterQuery := PStr(query)]
  }

  /** A filter on any other feature sees a marked record as the unmarked
      one. */
  lemma MatchesUnmarked(k: Query, feature: string, rec: Record, f: string, q: string)
    requires feature != FilterFeature && feature != FilterQuery
    ensures Matches(k, feature, Mark(rec, f, q)) == Matches(k, feature, rec)
  {
    var m := Mark(rec, f, q);
    assert feature in m <==> feature in rec;
    if feature in rec {
      assert m[feature] == rec[feature];
    }
  }

  /** A later mark replaces an earlier one. */
  lemma MarkOverwrites(rec: Record, f1: string, q1: string, f2: string, q2: string)
    ensures Mark(Mark(rec, f1, q1), f2, q2) == Mark(rec, f2, q2)
  {
  }

  /** `add_node(id, **attrs)`: a new node, or the old attributes updated. */
  function AddNode(nodes: map<string, Record>, id: string, attrs: Record): (r: map<string, Record>)
    ensures r.Keys == nodes.Keys + {id}
    ensures forall n :: n in nodes && n != id ==> r[n] == nodes[n]
  {
    nodes[id := (if id in nodes then nodes[id] else map[]) + attrs]
  }

  // ---------------------------------------------------------------------
  // The filter stage of `assemble_graph`

  /** What the filter loops change: the user and item node records, the
      sets of included users and items, and the graph's nodes. */
  datatype Sel = Sel(
    users: map<string, Record>,
    items: map<string, Record>,
    inUsers: set<string>,
    inItems: set<string>,
    nodes: map<string, Record>)

  datatype Target = UserT(uid: string) | ItemT(iid: string)

  /** One record tested against one query.  A matched user is marked,
      included and added as a node; a matched item is marked and included,
      and added as a node only by a range query. */
  function MatchTarget(s: Sel, feature: string, query: string, k: Query, t: Target): Result<Sel, PyError> {
    match t
    case UserT(u) =>
      if u !in s.users then Ok(s)
      else
        var m := Matches(k, feature, s.users[u]);
        if m.Err? then Err(m.error)
        else if !m.value then Ok(s)
        else
          var rec := Mark(s.users[u], feature, query);
          Ok(s.(users := s.users[u := rec], inUsers := s.inUsers + {u}, nodes := AddNode(s.nodes, UserNodeId(u), rec)))
    case ItemT(i) =>
      if i !in s.items then Ok(s)
      else
        var m := Matches(k, feature, s.items[i]);
        if m.Err? then Err(m.error)
        else if !m.value then Ok(s)
        else
          var rec := Mark(s.items[i], feature, query);
          var nodes := if k.Range? then AddNode(s.nodes, ItemNodeId(i), rec) else s.nodes;
          Ok(s.(items := s.items[i := rec], inItems := s.inItems + {i}, nodes := nodes))
  }

  /** The records tested in turn; the first exception stops the loop. */
  function MatchAll(s: Sel, feature: string, query: string, k: Query, ts: seq<Target>): Result<Sel, PyError>
    decreases |ts|
  {
    if ts == [] then Ok(s)
    else
      match MatchAll(s, feature, query, k, ts[..|ts| - 1])
      case Err(e) => Err(e)
      case Ok(mid) => MatchTarget(mid, feature, query, k, ts[|ts| - 1])
  }

  /** The users in their order, then the items in theirs. */
  function Targets(userOrder: seq<string>, itemOrder: seq<string>): (ts: seq<Target>)
    ensures forall t :: t in ts <==> (t.UserT? && t.uid in userOrder) || (t.ItemT? && t.iid in itemOrder)
  {
    var us := seq(|userOrder|, j requires 0 <= j < |userOrder| => UserT(userOrder[j]));
    var its := seq(|itemOrder|, j requires 0 <= j < |itemOrder| => ItemT(itemOrder[j]));
    assert forall t :: t in us <==> t.UserT? && t.uid in userOrder by {
      forall t: Target | t.UserT? && t.uid in userOrder ensures t in us {
        var j :| 0 <= j < |userOrder| && userOrder[j] == t.uid;
        assert us[j] == t;
      }
    }
    assert forall t :: t in its <==> t.ItemT? && t.iid in itemOrder by {
      forall t: Target | t.ItemT? && t.iid in itemOrder ensures t in its {
        var j :| 0 <= j < |itemOrder| && itemOrder[j] == t.iid;
        assert its[j] == t;
      }
    }
    us + its
  }

  /** One filter query on one feature, with its parsed form. */
  datatype Clause = Clause(feature: string, query: string, kind: Query)

  /** One clause: a skipped query tests nothing. */
  function ApplyQuery(s: Sel, c: Clause, userOrder: seq<string>, itemOrder: seq<string>): Result<Sel, PyError> {
    if c.kind.Skipped? then Ok(s) else MatchAll(s, c.feature, c.query, c.kind, Targets(userOrder, itemOrder))
  }

  /** The clauses in turn. */
  function ApplyClauses(s: Sel, cs: seq<Clause>, userOrder: seq<string>, itemOrder: seq<string>): Result<Sel, PyError>
    decreases |cs|
  {
    if cs == [] then Ok(s)
    else
      match ApplyClauses(s, cs[..|cs| - 1], userOrder, itemOrder)
      case Err(e) => Err(e)
      case Ok(mid) => ApplyQuery(mid, cs[|cs| - 1], userOrder, itemOrder)
  }

  /** One feature's queries, each parsed. */
  function FeatureClauses(feature: string, queries: seq<string>): (cs: seq<Clause>)
    ensures |cs| == |queries|
    ensures forall j :: 0 <= j < |queries| ==> cs[j] == Clause(feature, queries[j], ParseQuery(queries[j]))
  {
    seq(|queries|, j requires 0 <= j < |queries| => Clause(feature, queries[j], ParseQuery(queries[j])))
  }

  /** Every clause of a filter dictionary, in loop order. */
  function FilterClauses(filters: Filters): (cs: seq<Clause>)
    ensures forall j :: 0 <= j < |cs| ==> cs[j].kind == ParseQuery(cs[j].query)
    decreases |filters|
  {
    if filters == [] then []
    else FilterClauses(filters[..|filters| - 1]) + FeatureClauses(filters[|filters| - 1].0, filters[|filters| - 1].1)
  }

  // ---------------------------------------------------------------------
  // What the filter stage computes

  /** A filter on a feature other than the two the filter stage writes. */
  predicate Unreserved(feature: string) {
    feature != FilterFeature && feature != FilterQuery
  }

  predicate UserHit(s: Sel, k: Query, feature: string, u: string) {
    u in s.users && Matches(k, feature, s.users[u]) == Ok(true)
  }

  predicate ItemHit(s: Sel, k: Query, feature: string, i: string) {
    i in s.items && Matches(k, feature, s.items[i]) == Ok(true)
  }

  /** One query over the records listed in `ts`, users: each listed user
      that matches is marked with this query and included, the others keep
      their record. */
  ghost predicate UsersAfter(s: Sel, out: Sel, feature: string, query: string, k: Query, ts: seq<Target>) {
    && out.users.Keys == s.users.Keys
    && (forall u :: u in s.users ==>
          out.users[u] == if UserT(u) in ts && UserHit(s, k, feature, u) then Mark(s.users[u], feature, query) else s.users[u])
    && (forall u :: u in out.inUsers <==> u in s.inUsers || (UserT(u) in ts && UserHit(s, k, feature, u)))
  }

  /** The same for items. */
  ghost predicate ItemsAfter(s: Sel, out: Sel, feature: string, query: string, k: Query, ts: seq<Target>) {
    && out.items.Keys == s.items.Keys
    && (forall i :: i in s.items ==>
          out.items[i] == if ItemT(i) in ts && ItemHit(s, k, feature, i) then Mark(s.items[i], feature, query) else s.items[i])
    && (forall i :: i in out.inItems <==> i in s.inItems || (ItemT(i) in ts && ItemHit(s, k, feature, i)))
  }

  /** The listed users a query matches. */
  ghost function HitUsers(s: Sel, feature: string, k: Query, ts: seq<Target>): set<string> {
    set u | u in s.users && UserT(u) in ts && UserHit(s, k, feature, u)
  }

  ghost function HitItems(s: Sel, feature: string, k: Query, ts: seq<Target>): set<string> {
    set i | i in s.items && ItemT(i) in ts && ItemHit(s, k, feature, i)
  }

  function UserNodeIds(us: set<string>): set<string> {
    set u | u in us :: UserNodeId(u)
  }

  function ItemNodeIds(is_: set<string>): set<string> {
    set i | i in is_ :: ItemNodeId(i)
  }

  lemma NodeIdsAdd(us: set<string>, v: string)
    ensures UserNodeIds(us + {v}) == UserNodeIds(us) + {UserNodeId(v)}
    ensures ItemNodeIds(us + {v}) == ItemNodeIds(us) + {ItemNodeId(v)}
  {
  }

  /** The nodes one query adds: every matching listed user, and every
      matching listed item when the query is a range. */
  ghost predicate NodesAfter(s: Sel, out: Sel, feature: string, k: Query, ts: seq<Target>) {
    out.nodes.Keys ==
      s.nodes.Keys + UserNodeIds(HitUsers(s, feature, k, ts))
      + (if k.Range? then ItemNodeIds(HitItems(s, feature, k, ts)) else {})
  }

  lemma InSnoc<T>(s: seq<T>, x: T)
    ensures forall y :: y in s + [x] <==> y in s || y == x
  {
  }

  lemma UsersStep(s: Sel, mid: Sel, feature: string, query: string, k: Query, ts: seq<Target>, t: Target)
    requires Unreserved(feature) && UsersAfter(s, mid, feature, query, k, ts)
    requires MatchTarget(mid, feature, query, k, t).Ok?
    ensures UsersAfter(s, MatchTarget(mid, feature, query, k, t).value, feature, query, k, ts + [t])
  {
    InSnoc(ts, t);
    if t.UserT? && t.uid in mid.users {
      var hit := UserHit(s, k, feature, t.uid);
      var rec := Mark(s.users[t.uid], feature, query);
      RecordStep(s.users[t.uid], mid.users[t.uid], feature, query, k);
      var out := MatchTarget(mid, feature, query, k, t).value;
      assert out.users == if hit then mid.users[t.uid := rec] else mid.users;
      assert out.inUsers == if hit then mid.inUsers + {t.uid} else mid.inUsers;
      UsersUpdate(s, mid, out, feature, query, k, ts, t.uid, hit);
    } else {
      UsersSame(s, mid, MatchTarget(mid, feature, query, k, t).value, feature, query, k, ts, t);
    }
  }

  /** A record seen again by the same query: it matches as it did the first
      time, and marking it again changes nothing. */
  lemma RecordStep(orig: Record, cur: Record, feature: string, query: string, k: Query)
    requires Unreserved(feature)
    requires cur == orig || cur == Mark(orig, feature, query)
    ensures Matches(k, feature, cur) == Matches(k, feature, orig)
    ensures Mark(cur, feature, query) == Mark(orig, feature, query)
  {
    MatchesUnmarked(k, feature, orig, feature, query);
  }

  lemma UsersUpdate(s: Sel, mid: Sel, out: Sel, feature: string, query: string, k: Query, ts: seq<Target>, v: string, hit: bool)
    requires UsersAfter(s, mid, feature, query, k, ts) && v in s.users
    requires hit == UserHit(s, k, feature, v)
    requires out.users == if hit then mid.users[v := Mark(s.users[v], feature, query)] else mid.users
    requires out.inUsers == if hit then mid.inUsers + {v} else mid.inUsers
    ensures UsersAfter(s, out, feature, query, k, ts + [UserT(v)])
  {
    InSnoc(ts, UserT(v));
  }

  lemma UsersSame(s: Sel, mid: Sel, out: Sel, feature: string, query: string, k: Query, ts: seq<Target>, t: Target)
    requires UsersAfter(s, mid, feature, query, k, ts)
    requires !t.UserT? || t.uid !in s.users
    requires out.users == mid.users && out.inUsers == mid.inUsers
    ensures UsersAfter(s, out, feature, query, k, ts + [t])
  {
    InSnoc(ts, t);
  }

  lemma ItemsStep(s: Sel, mid: Sel, feature: string, query: string, k: Query, ts: seq<Target>, t: Target)
    requires Unreserved(feature) && ItemsAfter(s, mid, feature, query, k, ts)
    requires MatchTarget(mid, feature, query, k, t).Ok?
    ensures ItemsAfter(s, MatchTarget(mid, feature, query, k, t).value, feature, query, k, ts + [t])
  {
    InSnoc(ts, t);
    if t.ItemT? && t.iid in mid.items {
      var hit := ItemHit(s, k, feature, t.iid);
      var rec := Mark(s.items[t.iid], feature, query);
      RecordStep(s.items[t.iid], mid.items[t.iid], feature, query, k);
      var out := MatchTarget(mid, feature, query, k, t).value;
      assert out.items == if hit then mid.items[t.iid := rec] else mid.items;
      assert out.inItems == if hit then mid.inItems + {t.iid} else mid.inItems;
      ItemsUpdate(s, mid, out, feature, query, k, ts, t.iid, hit);
    } else {
      ItemsSame(s, mid, MatchTarget(mid, feature, query, k, t).value, feature, query, k, ts, t);
    }
  }

  lemma ItemsUpdate(s: Sel, mid: Sel, out: Sel, feature: string, query: string, k: Query, ts: seq<Target>, v: string, hit: bool)
    requires ItemsAfter(s, mid, feature, query, k, ts) && v in s.items
    requires hit == ItemHit(s, k, feature, v)
    requires out.items == if hit then mid.items[v := Mark(s.items[v], feature, query)] else mid.items
    requires out.inItems == if hit then mid.inItems + {v} else mid.inItems
    ensures ItemsAfter(s, out, feature, query, k, ts + [ItemT(v)])
  {
    InSnoc(ts, ItemT(v));
  }

  lemma ItemsSame(s: Sel, mid: Sel, out: Sel, feature: string, query: string, k: Query, ts: seq<Target>, t: Target)
    requires ItemsAfter(s, mid, feature, query, k, ts)
    requires !t.ItemT? || t.iid !in s.items
    requires out.items == mid.items && out.inItems == mid.inItems
    ensures ItemsAfter(s, out, feature, query, k, ts + [t])
  {
    InSnoc(ts, t);
  }

  lemma NodesStep(s: Sel, mid: Sel, feature: string, query: string, k: Query, ts: seq<Target>, t: Target)
    requires Unreserved(feature)
    requires UsersAfter(s, mid, feature, query, k, ts) && ItemsAfter(s, mid, feature, query, k, ts)
    requires NodesAfter(s, mid, feature, k, ts)
    requires MatchTarget(mid, feature, query, k, t).Ok?
    ensures NodesAfter(s, MatchTarget(mid, feature, query, k, t).value, feature, k, ts + [t])
  {
    var out := MatchTarget(mid, feature, query, k, t).value;
    match t
    case UserT(v) =>
      if v in mid.users {
        var hit := UserHit(s, k, feature, v);
        RecordStep(s.users[v], mid.users[v], feature, query, k);
        assert out.nodes.Keys == mid.nodes.Keys + (if hit then {UserNodeId(v)} else {});
        NodesAddUser(s, mid, out, feature, k, ts, v, hit);
      } else {
        NodesSame(s, mid, out, feature, k, ts, t);
      }
    case ItemT(v) =>
      if v in mid.items {
        var hit := ItemHit(s, k, feature, v);
        RecordStep(s.items[v], mid.items[v], feature, query, k);
        assert out.nodes.Keys == mid.nodes.Keys + (if hit && k.Range? then {ItemNodeId(v)} else {});
        NodesAddItem(s, mid, out, feature, k, ts, v, hit);
      } else {
        NodesSame(s, mid, out, feature, k, ts, t);
      }
  }

  lemma NodesAddUser(s: Sel, mid: Sel, out: Sel, feature: string, k: Query, ts: seq<Target>, v: string, hit: bool)
    requires NodesAfter(s, mid, feature, k, ts) && v in s.users
    requires hit == UserHit(s, k, feature, v)
    requires out.nodes.Keys == mid.nodes.Keys + (if hit then {UserNodeId(v)} else {})
    ensures NodesAfter(s, out, feature, k, ts + [UserT(v)])
  {
    InSnoc(ts, UserT(v));
    assert HitItems(s, feature, k, ts + [UserT(v)]) == HitItems(s, feature, k, ts);
    var hs := HitUsers(s, feature, k, ts);
    if hit {
      assert HitUsers(s, feature, k, ts + [UserT(v)]) == hs + {v};
      NodeIdsAdd(hs, v);
    } else {
      assert HitUsers(s, feature, k, ts + [UserT(v)]) == hs;
    }
  }

  lemma NodesAddItem(s: Sel, mid: Sel, out: Sel, feature: string, k: Query, ts: seq<Target>, v: string, hit: bool)
    requires NodesAfter(s, mid, feature, k, ts) && v in s.items
    requires hit == ItemHit(s, k, feature, v)
    requires out.nodes.Keys == mid.nodes.Keys + (if hit && k.Range? then {ItemNodeId(v)} else {})
    ensures NodesAfter(s, out, feature, k, ts + [ItemT(v)])
  {
    InSnoc(ts, ItemT(v));
    assert HitUsers(s, feature, k, ts + [ItemT(v)]) == HitUsers(s, feature, k, ts);
    var hs := HitItems(s, feature, k, ts);
    if hit {
      assert HitItems(s, feature, k, ts + [ItemT(v)]) == hs + {v};
      NodeIdsAdd(hs, v);
    } else {
      assert HitItems(s, feature, k, ts + [ItemT(v)]) == hs;
    }
  }

  lemma NodesSame(s: Sel, mid: Sel, out: Sel, feature: string, k: Query, ts: seq<Target>, t: Target)
    requires NodesAfter(s, mid, feature, k, ts)
    requires (t.UserT? && t.uid !in s.users) || (t.ItemT? && t.iid !in s.items)
    requires out.nodes == mid.nodes
    ensures NodesAfter(s, out, feature, k, ts + [t])
  {
    InSnoc(ts, t);
    assert HitUsers(s, feature, k, ts + [t]) == HitUsers(s, feature, k, ts);
    assert HitItems(s, feature, k, ts + [t]) == HitItems(s, feature, k, ts);
  }

  /** What one query does to the records, the included sets and the
      nodes. */
  lemma {:induction false} MatchAllEffect(s: Sel, feature: string, query: string, k: Query, ts: seq<Target>)
    requires Unreserved(feature)
    requires MatchAll(s, feature, query, k, ts).Ok?
    ensures UsersAfter(s, MatchAll(s, feature, query, k, ts).value, feature, query, k, ts)
    ensures ItemsAfter(s, MatchAll(s, feature, query, k, ts).value, feature, query, k, ts)
    ensures NodesAfter(s, MatchAll(s, feature, query, k, ts).value, feature, k, ts)
    decreases |ts|
  {
    if ts != [] {
      var init, t := ts[..|ts| - 1], ts[|ts| - 1];
      assert init + [t] == ts;
      MatchAllEffect(s, feature, query, k, init);
      var mid := MatchAll(s, feature, query, k, init).value;
      UsersStep(s, mid, feature, query, k, init, t);
      ItemsStep(s, mid, feature, query, k, init, t);
      NodesStep(s, mid, feature, query, k, init, t);
    }
  }

  // ---------------------------------------------------------------------
  // Across all queries: the last matching filter wins

  /** The last (feature, query) pair whose query matches the record. */
  function LastMatch(cs: seq<Clause>, rec: Record): Option<Clause>
    decreases |cs|
  {
    if cs == [] then None
    else
      var c := cs[|cs| - 1];
      if Matches(c.kind, c.feature, rec) == Ok(true) then Some(c) else LastMatch(cs[..|cs| - 1], rec)
  }

  /** Whether some range query among the pairs matches the record. */
  function RangeMatched(cs: seq<Clause>, rec: Record): bool
    decreases |cs|
  {
    if cs == [] then false
    else
      var c := cs[|cs| - 1];
      (c.kind.Range? && Matches(c.kind, c.feature, rec) == Ok(true)) || RangeMatched(cs[..|cs| - 1], rec)
  }

  /** A record marked with the pair that matched it last, if any. */
  function Marked(rec: Record, m: Option<Clause>): Record {
    if m.None? then rec else Mark(rec, m.value.feature, m.value.query)
  }

  predicate UnreservedClauses(cs: seq<Clause>) {
    forall j :: 0 <= j < |cs| ==> Unreserved(cs[j].feature)
  }

  ghost function MatchedUsers(s: Sel, cs: seq<Clause>): set<string> {
    set u | u in s.users && LastMatch(cs, s.users[u]).Some?
  }

  ghost function MatchedItems(s: Sel, cs: seq<Clause>): set<string> {
    set i | i in s.items && LastMatch(cs, s.items[i]).Some?
  }

  ghost function RangeItems(s: Sel, cs: seq<Clause>): set<string> {
    set i | i in s.items && RangeMatched(cs, s.items[i])
  }

  /** After the pairs: every user carries the filter that matched it last
      and is included exactly when some filter matched it. */
  ghost predicate UsersFiltered(s: Sel, out: Sel, cs: seq<Clause>) {
    && out.users.Keys == s.users.Keys
    && (forall u :: u in s.users ==> out.users[u] == Marked(s.users[u], LastMatch(cs, s.users[u])))
    && out.inUsers == s.inUsers + MatchedUsers(s, cs)
  }

  /** The same for items. */
  ghost predicate ItemsFiltered(s: Sel, out: Sel, cs: seq<Clause>) {
    && out.items.Keys == s.items.Keys
    && (forall i :: i in s.items ==> out.items[i] == Marked(s.items[i], LastMatch(cs, s.items[i])))
    && out.inItems == s.inItems + MatchedItems(s, cs)
  }

  /** The graph gains a node for every matched user and for every item
      matched by a range query; an item matched only exactly gains none. */
  ghost predicate NodesFiltered(s: Sel, out: Sel, cs: seq<Clause>) {
    out.nodes.Keys == s.nodes.Keys + UserNodeIds(MatchedUsers(s, cs)) + ItemNodeIds(RangeItems(s, cs))
  }

  lemma LastMatchSnoc(cs: seq<Clause>, c: Clause, rec: Record)
    ensures LastMatch(cs + [c], rec) ==
              if Matches(c.kind, c.feature, rec) == Ok(true) then Some(c) else LastMatch(cs, rec)
    ensures RangeMatched(cs + [c], rec) ==
              (c.kind.Range? && Matches(c.kind, c.feature, rec) == Ok(true)) || RangeMatched(cs, rec)
  {
    assert (cs + [c])[..|cs|] == cs;
  }

  /** Marks do not change how a record matches another filter. */
  lemma MarkedMatches(k: Query, feature: string, rec: Record, m: Option<Clause>)
    requires Unreserved(feature)
    ensures Matches(k, feature, Marked(rec, m)) == Matches(k, feature, rec)
  {
    if m.Some? {
      MatchesUnmarked(k, feature, rec, m.value.feature, m.value.query);
    }
  }

  lemma NodeIdsUnion(a: set<string>, b: set<string>)
    ensures UserNodeIds(a + b) == UserNodeIds(a) + UserNodeIds(b)
    ensures ItemNodeIds(a + b) == ItemNodeIds(a) + ItemNodeIds(b)
  {
  }

  /** One record through one more pair. */
  lemma RecordPair(orig: Record, cur: Record, next: Record, cs: seq<Clause>, c: Clause, k: Query, hit: bool)
    requires Unreserved(c.feature) && k == c.kind
    requires cur == Marked(orig, LastMatch(cs, orig))
    requires hit == (Matches(k, c.feature, cur) == Ok(true))
    requires next == if hit then Mark(cur, c.feature, c.query) else cur
    ensures hit == (Matches(k, c.feature, orig) == Ok(true))
    ensures next == Marked(orig, LastMatch(cs + [c], orig))
    ensures LastMatch(cs + [c], orig).Some? <==> LastMatch(cs, orig).Some? || hit
    ensures RangeMatched(cs + [c], orig) <==> RangeMatched(cs, orig) || (k.Range? && hit)
  {
    MarkedMatches(k, c.feature, orig, LastMatch(cs, orig));
    LastMatchSnoc(cs, c, orig);
    if hit && LastMatch(cs, orig).Some? {
      var m := LastMatch(cs, orig).value;
      MarkOverwrites(orig, m.feature, m.query, c.feature, c.query);
    }
  }

  lemma PairUsers(s: Sel, mid: Sel, out: Sel, cs: seq<Clause>, c: Clause, k: Query, ts: seq<Target>)
    requires Unreserved(c.feature) && k == c.kind
    requires UsersFiltered(s, mid, cs) && UsersAfter(mid, out, c.feature, c.query, k, ts)
    requires forall u :: UserT(u) in ts <==> u in s.users
    ensures UsersFiltered(s, out, cs + [c])
    ensures MatchedUsers(s, cs + [c]) == MatchedUsers(s, cs) + HitUsers(mid, c.feature, k, ts)
  {
    PairUserRecords(s, mid, out, cs, c, k, ts);
    MatchedUsersSnoc(s, mid, cs, c, k, ts);
    UsersAfterIn(mid, out, c.feature, c.query, k, ts);
  }

  lemma PairUserRecords(s: Sel, mid: Sel, out: Sel, cs: seq<Clause>, c: Clause, k: Query, ts: seq<Target>)
    requires Unreserved(c.feature) && k == c.kind
    requires UsersFiltered(s, mid, cs) && UsersAfter(mid, out, c.feature, c.query, k, ts)
    requires forall u :: UserT(u) in ts <==> u in s.users
    ensures forall u :: u in s.users ==> out.users[u] == Marked(s.users[u], LastMatch(cs + [c], s.users[u]))
    ensures forall u :: u in s.users ==>
              (LastMatch(cs + [c], s.users[u]).Some? <==> LastMatch(cs, s.users[u]).Some? || UserHit(mid, k, c.feature, u))
  {
    forall u | u in s.users
      ensures out.users[u] == Marked(s.users[u], LastMatch(cs + [c], s.users[u]))
      ensures LastMatch(cs + [c], s.users[u]).Some? <==> LastMatch(cs, s.users[u]).Some? || UserHit(mid, k, c.feature, u)
    {
      assert UserT(u) in ts;
      RecordPair(s.users[u], mid.users[u], out.users[u], cs, c, k, UserHit(mid, k, c.feature, u));
    }
  }

  lemma UsersAfterIn(s: Sel, out: Sel, feature: string, query: string, k: Query, ts: seq<Target>)
    requires UsersAfter(s, out, feature, query, k, ts)
    ensures out.inUsers == s.inUsers + HitUsers(s, feature, k, ts)
  {
  }

  lemma ItemsAfterIn(s: Sel, out: Sel, feature: string, query: string, k: Query, ts: seq<Target>)
    requires ItemsAfter(s, out, feature, query, k, ts)
    ensures out.inItems == s.inItems + HitItems(s, feature, k, ts)
  {
  }

  lemma MatchedUsersSnoc(s: Sel, mid: Sel, cs: seq<Clause>, c: Clause, k: Query, ts: seq<Target>)
    requires mid.users.Keys == s.users.Keys
    requires forall u :: UserT(u) in ts <==> u in s.users
    requires forall u :: u in s.users ==>
               (LastMatch(cs + [c], s.users[u]).Some? <==> LastMatch(cs, s.users[u]).Some? || UserHit(mid, k, c.feature, u))
    ensures MatchedUsers(s, cs + [c]) == MatchedUsers(s, cs) + HitUsers(mid, c.feature, k, ts)
  {
  }

  lemma PairItems(s: Sel, mid: Sel, out: Sel, cs: seq<Clause>, c: Clause, k: Query, ts: seq<Target>)
    requires Unreserved(c.feature) && k == c.kind
    requires ItemsFiltered(s, mid, cs) && ItemsAfter(mid, out, c.feature, c.query, k, ts)
    requires forall i :: ItemT(i) in ts <==> i in s.items
    ensures ItemsFiltered(s, out, cs + [c])
    ensures RangeItems(s, cs + [c]) == RangeItems(s, cs) + (if k.Range? then HitItems(mid, c.feature, k, ts) else {})
  {
    PairItemRecords(s, mid, out, cs, c, k, ts);
    MatchedItemsSnoc(s, mid, cs, c, k, ts);
    ItemsAfterIn(mid, out, c.feature, c.query, k, ts);
  }

  lemma PairItemRecords(s: Sel, mid: Sel, out: Sel, cs: seq<Clause>, c: Clause, k: Query, ts: seq<Target>)
    requires Unreserved(c.feature) && k == c.kind
    requires ItemsFiltered(s, mid, cs) && ItemsAfter(mid, out, c.feature, c.query, k, ts)
    requires forall i :: ItemT(i) in ts <==> i in s.items
    ensures forall i :: i in s.items ==> out.items[i] == Marked(s.items[i], LastMatch(cs + [c], s.items[i]))
    ensures forall i :: i in s.items ==>
              (LastMatch(cs + [c], s.items[i]).Some? <==> LastMatch(cs, s.items[i]).Some? || ItemHit(mid, k, c.feature, i))
    ensures forall i :: i in s.items ==>
              (RangeMatched(cs + [c], s.items[i]) <==> RangeMatched(cs, s.items[i]) || (k.Range? && ItemHit(mid, k, c.feature, i)))
  {
    forall i | i in s.items
      ensures out.items[i] == Marked(s.items[i], LastMatch(cs + [c], s.items[i]))
      ensures LastMatch(cs + [c], s.items[i]).Some? <==> LastMatch(cs, s.items[i]).Some? || ItemHit(mid, k, c.feature, i)
      ensures RangeMatched(cs + [c], s.items[i]) <==> RangeMatched(cs, s.items[i]) || (k.Range? && ItemHit(mid, k, c.feature, i))
    {
      assert ItemT(i) in ts;
      RecordPair(s.items[i], mid.items[i], out.items[i], cs, c, k, ItemHit(mid, k, c.feature, i));
    }
  }

  lemma MatchedItemsSnoc(s: Sel, mid: Sel, cs: seq<Clause>, c: Clause, k: Query, ts: seq<Target>)
    requires mid.items.Keys == s.items.Keys
    requires forall i :: ItemT(i) in ts <==> i in s.items
    requires forall i :: i in s.items ==>
               (LastMatch(cs + [c], s.items[i]).Some? <==> LastMatch(cs, s.items[i]).Some? || ItemHit(mid, k, c.feature, i))
    requires forall i :: i in s.items ==>
               (RangeMatched(cs + [c], s.items[i]) <==> RangeMatched(cs, s.items[i]) || (k.Range? && ItemHit(mid, k, c.feature, i)))
    ensures MatchedItems(s, cs + [c]) == MatchedItems(s, cs) + HitItems(mid, c.feature, k, ts)
    ensures RangeItems(s, cs + [c]) == RangeItems(s, cs) + (if k.Range? then HitItems(mid, c.feature, k, ts) else {})
  {
  }

  /** A skipped query matches nothing. */
  lemma PairSkipped(s: Sel, cs: seq<Clause>, c: Clause)
    requires c.kind.Skipped?
    ensures MatchedUsers(s, cs + [c]) == MatchedUsers(s, cs)
    ensures MatchedItems(s, cs + [c]) == MatchedItems(s, cs)
    ensures RangeItems(s, cs + [c]) == RangeItems(s, cs)
    ensures forall u :: u in s.users ==> LastMatch(cs + [c], s.users[u]) == LastMatch(cs, s.users[u])
    ensures forall i :: i in s.items ==> LastMatch(cs + [c], s.items[i]) == LastMatch(cs, s.items[i])
  {
    forall r: Record ensures LastMatch(cs + [c], r) == LastMatch(cs, r) && RangeMatched(cs + [c], r) == RangeMatched(cs, r) {
      LastMatchSnoc(cs, c, r);
    }
  }

  lemma PairStep(s: Sel, mid: Sel, cs: seq<Clause>, c: Clause, userOrder: seq<string>, itemOrder: seq<string>)
    requires Unreserved(c.feature)
    requires forall u :: u in userOrder <==> u in s.users
    requires forall i :: i in itemOrder <==> i in s.items
    requires UsersFiltered(s, mid, cs) && ItemsFiltered(s, mid, cs) && NodesFiltered(s, mid, cs)
    requires ApplyQuery(mid, c, userOrder, itemOrder).Ok?
    ensures var out := ApplyQuery(mid, c, userOrder, itemOrder).value;
      UsersFiltered(s, out, cs + [c]) && ItemsFiltered(s, out, cs + [c]) && NodesFiltered(s, out, cs + [c])
  {
    if c.kind.Skipped? {
      PairSkipped(s, cs, c);
    } else {
      var ts := Targets(userOrder, itemOrder);
      var out := MatchAll(mid, c.feature, c.query, c.kind, ts).value;
      MatchAllEffect(mid, c.feature, c.query, c.kind, ts);
      PairMatched(s, mid, out, cs, c, ts);
    }
  }

  lemma PairMatched(s: Sel, mid: Sel, out: Sel, cs: seq<Clause>, c: Clause, ts: seq<Target>)
    requires Unreserved(c.feature)
    requires forall u :: UserT(u) in ts <==> u in s.users
    requires forall i :: ItemT(i) in ts <==> i in s.items
    requires UsersFiltered(s, mid, cs) && ItemsFiltered(s, mid, cs) && NodesFiltered(s, mid, cs)
    requires UsersAfter(mid, out, c.feature, c.query, c.kind, ts)
    requires ItemsAfter(mid, out, c.feature, c.query, c.kind, ts)
    requires NodesAfter(mid, out, c.feature, c.kind, ts)
    ensures UsersFiltered(s, out, cs + [c]) && ItemsFiltered(s, out, cs + [c]) && NodesFiltered(s, out, cs + [c])
  {
    var k := c.kind;
    PairUsers(s, mid, out, cs, c, k, ts);
    PairItems(s, mid, out, cs, c, k, ts);
    PairNodes(s, mid, out, cs, c, k, ts);
  }

  lemma PairNodes(s: Sel, mid: Sel, out: Sel, cs: seq<Clause>, c: Clause, k: Query, ts: seq<Target>)
    requires MatchedUsers(s, cs + [c]) == MatchedUsers(s, cs) + HitUsers(mid, c.feature, k, ts)
    requires RangeItems(s, cs + [c]) == RangeItems(s, cs) + (if k.Range? then HitItems(mid, c.feature, k, ts) else {})
    requires NodesFiltered(s, mid, cs) && NodesAfter(mid, out, c.feature, k, ts)
    ensures NodesFiltered(s, out, cs + [c])
  {
    NodeIdsUnion(MatchedUsers(s, cs), HitUsers(mid, c.feature, k, ts));
    NodeIdsUnion(RangeItems(s, cs), if k.Range? then HitItems(mid, c.feature, k, ts) else {});
  }

  /** The filter stage as a whole: each user and item carries the filter
      that matched it last, the included users and items are exactly the
      matched ones, and the graph's nodes are the matched users and the
      items matched by a range query. */
  lemma {:induction false} LastMatchWins(s: Sel, cs: seq<Clause>, userOrder: seq<string>, itemOrder: seq<string>)
    requires UnreservedClauses(cs)
    requires forall u :: u in userOrder <==> u in s.users
    requires forall i :: i in itemOrder <==> i in s.items
    requires ApplyClauses(s, cs, userOrder, itemOrder).Ok?
    ensures var out := ApplyClauses(s, cs, userOrder, itemOrder).value;
      UsersFiltered(s, out, cs) && ItemsFiltered(s, out, cs) && NodesFiltered(s, out, cs)
    decreases |cs|
  {
    if cs == [] {
      assert MatchedUsers(s, cs) == {} && MatchedItems(s, cs) == {} && RangeItems(s, cs) == {};
    } else {
      var init, c := cs[..|cs| - 1], cs[|cs| - 1];
      assert init + [c] == cs;
      assert UnreservedClauses(init) && Unreserved(c.feature) by {
        assert forall j :: 0 <= j < |init| ==> init[j] == cs[j];
      }
      LastMatchWins(s, init, userOrder, itemOrder);
      PairStep(s, ApplyClauses(s, init, userOrder, itemOrder).value, init, c, userOrder, itemOrder);
    }
  }

  // ---------------------------------------------------------------------
  // The edge stage of `assemble_graph`

  /** What the edge loop reads besides the records: whether filters were
      given, the user and item ids, and the included users and items. */
  datatype Ctx = Ctx(filtered: bool, userIds: set<string>, itemIds: set<string>, inUsers: set<string>, inItems: set<string>)

  /** The networkx graph: node attributes by node id, and the undirected
      edges, each written (user node, item node). */
  datatype Net = Net(nodes: map<string, Record>, edges: set<(string, string)>)

  function Field(e: Interaction, name: string): string
    requires name in Keys(e)
  {
    Get(e, name).value
  }

  /** An interaction that becomes an edge: it names a user and an item and,
      under filters, its user is included and its item is included or no
      item is. */
  predicate Included(c: Ctx, e: Interaction) {
    && "user_id" in Keys(e) && "item_id" in Keys(e)
    && (c.filtered ==> Field(e, "user_id") in c.inUsers && (Field(e, "item_id") in c.inItems || c.inItems == {}))
  }

  /** The edge an included interaction stands for. */
  function EdgeOf(e: Interaction): (string, string)
    requires "user_id" in Keys(e) && "item_id" in Keys(e)
  {
    (UserNodeId(Field(e, "user_id")), ItemNodeId(Field(e, "item_id")))
  }

  /** An included interaction names a known item and a known user. */
  predicate Known(c: Ctx, e: Interaction) {
    Included(c, e) ==> Field(e, "item_id") in c.itemIds && Field(e, "user_id") in c.userIds
  }

  /** `add_edge` adds an endpoint it has not seen as a node without
      attributes. */
  function EnsureNode(nodes: map<string, Record>, id: string): (r: map<string, Record>)
    ensures r.Keys == nodes.Keys + {id}
    ensures forall n :: n in nodes ==> r[n] == nodes[n]
  {
    if id in nodes then nodes else nodes[id := map[]]
  }

  /** One interaction.  Under filters its item is added as a node first;
      looking up an unknown item or user raises `KeyError`.  As written, an
      edge seen before makes the three-argument `add_edge` call, which
      raises `TypeError`; corrected, the edge is simply kept. */
  function EdgeStep(net: Net, c: Ctx, items: map<string, Record>, e: Interaction, asWritten: bool): Result<Net, PyError> {
    if !Included(c, e) then Ok(net)
    else
      var u, i := Field(e, "user_id"), Field(e, "item_id");
      if i !in c.itemIds || i !in items then Err(KeyError)
      else
        var nodes := if c.filtered then AddNode(net.nodes, ItemNodeId(i), items[i]) else net.nodes;
        if u !in c.userIds then Err(KeyError)
        else
          var p := EdgeOf(e);
          if asWritten && p in net.edges then Err(TypeError)
          else Ok(Net(EnsureNode(EnsureNode(nodes, p.0), p.1), net.edges + {p}))
  }

  /** The interactions of one timestamp in turn. */
  function EdgeRun(net: Net, c: Ctx, items: map<string, Record>, es: seq<Interaction>, asWritten: bool): Result<Net, PyError>
    decreases |es|
  {
    if es == [] then Ok(net)
    else
      match EdgeRun(net, c, items, es[..|es| - 1], asWritten)
      case Err(err) => Err(err)
      case Ok(mid) => EdgeStep(mid, c, items, es[|es| - 1], asWritten)
  }

  /** The timestamps in turn; a timestamp without a history entry raises
      `KeyError`. */
  function EdgePass(net: Net, c: Ctx, items: map<string, Record>, history: map<string, seq<Interaction>>,
                    stamps: seq<string>, asWritten: bool): Result<Net, PyError>
    decreases |stamps|
  {
    if stamps == [] then Ok(net)
    else
      match EdgePass(net, c, items, history, stamps[..|stamps| - 1], asWritten)
      case Err(err) => Err(err)
      case Ok(mid) =>
        var t := stamps[|stamps| - 1];
        if t !in history then Err(KeyError) else EdgeRun(mid, c, items, history[t], asWritten)
  }

  // What the edge stage computes

  function StepEdges(c: Ctx, e: Interaction): set<(string, string)> {
    if Included(c, e) then {EdgeOf(e)} else {}
  }

  function StepNodes(c: Ctx, e: Interaction): set<string> {
    if Included(c, e) then {EdgeOf(e).0, EdgeOf(e).1} else {}
  }

  /** The edges of the included interactions among `es`. */
  function RunEdges(c: Ctx, es: seq<Interaction>): set<(string, string)>
    decreases |es|
  {
    if es == [] then {} else RunEdges(c, es[..|es| - 1]) + StepEdges(c, es[|es| - 1])
  }

  /** Their endpoints. */
  function RunNodes(c: Ctx, es: seq<Interaction>): set<string>
    decreases |es|
  {
    if es == [] then {} else RunNodes(c, es[..|es| - 1]) + StepNodes(c, es[|es| - 1])
  }

  function PassEdges(c: Ctx, history: map<string, seq<Interaction>>, stamps: seq<string>): set<(string, string)>
    decreases |stamps|
  {
    if stamps == [] then {}
    else
      var t := stamps[|stamps| - 1];
      PassEdges(c, history, stamps[..|stamps| - 1]) + (if t in history then RunEdges(c, history[t]) else {})
  }

  function PassNodes(c: Ctx, history: map<string, seq<Interaction>>, stamps: seq<string>): set<string>
    decreases |stamps|
  {
    if stamps == [] then {}
    else
      var t := stamps[|stamps| - 1];
      PassNodes(c, history, stamps[..|stamps| - 1]) + (if t in history then RunNodes(c, history[t]) else {})
  }

  /** Every timestamp has a history entry and every included interaction
      names a known user and item. */
  predicate AllKnown(c: Ctx, history: map<string, seq<Interaction>>, stamps: seq<string>) {
    forall j :: 0 <= j < |stamps| ==>
      stamps[j] in history && forall e :: e in history[stamps[j]] ==> Known(c, e)
  }

  lemma EdgeStepCorrected(net: Net, c: Ctx, items: map<string, Record>, e: Interaction)
    requires c.itemIds <= items.Keys
    ensures EdgeStep(net, c, items, e, false).Ok? <==> Known(c, e)
    ensures EdgeStep(net, c, items, e, false).Ok? ==>
              EdgeStep(net, c, items, e, false).value.edges == net.edges + StepEdges(c, e) &&
              EdgeStep(net, c, items, e, false).value.nodes.Keys == net.nodes.Keys + StepNodes(c, e)
  {
  }

  /** The corrected loop over one timestamp's interactions succeeds exactly
      when they are all known, and adds their edges and endpoints. */
  lemma {:induction false} EdgeRunCorrected(net: Net, c: Ctx, items: map<string, Record>, es: seq<Interaction>)
    requires c.itemIds <= items.Keys
    ensures EdgeRun(net, c, items, es, false).Ok? <==> forall e :: e in es ==> Known(c, e)
    ensures EdgeRun(net, c, items, es, false).Ok? ==>
              EdgeRun(net, c, items, es, false).value.edges == net.edges + RunEdges(c, es) &&
              EdgeRun(net, c, items, es, false).value.nodes.Keys == net.nodes.Keys + RunNodes(c, es)
    decreases |es|
  {
    if es != [] {
      var init, e := es[..|es| - 1], es[|es| - 1];
      InSnoc(init, e);
      assert init + [e] == es;
      EdgeRunCorrected(net, c, items, init);
      if EdgeRun(net, c, items, init, false).Ok? {
        EdgeStepCorrected(EdgeRun(net, c, items, init, false).value, c, items, e);
      }
    }
  }

  /** The corrected edge stage succeeds exactly when every timestamp and
      every included interaction is known; it then adds the included
      interactions' edges and endpoints and nothing else. */
  lemma {:induction false} EdgePassCorrected(net: Net, c: Ctx, items: map<string, Record>,
                                             history: map<string, seq<Interaction>>, stamps: seq<string>)
    requires c.itemIds <= items.Keys
    ensures EdgePass(net, c, items, history, stamps, false).Ok? <==> AllKnown(c, history, stamps)
    ensures EdgePass(net, c, items, history, stamps, false).Ok? ==>
              EdgePass(net, c, items, history, stamps, false).value.edges == net.edges + PassEdges(c, history, stamps) &&
              EdgePass(net, c, items, history, stamps, false).value.nodes.Keys == net.nodes.Keys + PassNodes(c, history, stamps)
    decreases |stamps|
  {
    if stamps != [] {
      var init, t := stamps[..|stamps| - 1], stamps[|stamps| - 1];
      assert forall j :: 0 <= j < |init| ==> init[j] == stamps[j];
      EdgePassCorrected(net, c, items, history, init);
      if EdgePass(net, c, items, history, init, false).Ok? && t in history {
        EdgeRunCorrected(EdgePass(net, c, items, history, init, false).value, c, items, history[t]);
      }
    }
  }

  // The edge stage as written: a repeated edge aborts it

  /** No included interaction among `es` repeats an edge already in
      `edges` or one an earlier interaction among `es` added. */
  predicate RunFresh(c: Ctx, edges: set<(string, string)>, es: seq<Interaction>)
    decreases |es|
  {
    es == [] ||
      (var init, e := es[..|es| - 1], es[|es| - 1];
       RunFresh(c, edges, init) && (Included(c, e) ==> EdgeOf(e) !in edges + RunEdges(c, init)))
  }

  /** The same over the timestamps in turn. */
  predicate PassFresh(c: Ctx, edges: set<(string, string)>, history: map<string, seq<Interaction>>, stamps: seq<string>)
    decreases |stamps|
  {
    stamps == [] ||
      (var init, t := stamps[..|stamps| - 1], stamps[|stamps| - 1];
       PassFresh(c, edges, history, init) &&
       (t in history ==> RunFresh(c, edges + PassEdges(c, history, init), history[t])))
  }

  lemma EdgeStepAsWritten(net: Net, c: Ctx, items: map<string, Record>, e: Interaction)
    ensures EdgeStep(net, c, items, e, true).Ok? <==>
              EdgeStep(net, c, items, e, false).Ok? && (Included(c, e) ==> EdgeOf(e) !in net.edges)
    ensures EdgeStep(net, c, items, e, true).Ok? ==> EdgeStep(net, c, items, e, true) == EdgeStep(net, c, items, e, false)
    ensures c.itemIds <= items.Keys && Included(c, e) && Known(c, e) && EdgeOf(e) in net.edges ==>
              EdgeStep(net, c, items, e, true) == Err(TypeError)
  {
  }

  /** As written, one timestamp's loop succeeds exactly when the corrected
      one does and no edge repeats, and then builds the same graph. */
  lemma {:induction false} EdgeRunAsWritten(net: Net, c: Ctx, items: map<string, Record>, es: seq<Interaction>)
    requires c.itemIds <= items.Keys
    ensures EdgeRun(net, c, items, es, true).Ok? <==> EdgeRun(net, c, items, es, false).Ok? && RunFresh(c, net.edges, es)
    ensures EdgeRun(net, c, items, es, true).Ok? ==> EdgeRun(net, c, items, es, true) == EdgeRun(net, c, items, es, false)
    decreases |es|
  {
    if es != [] {
      var init := es[..|es| - 1];
      EdgeRunAsWritten(net, c, items, init);
      EdgeRunCorrected(net, c, items, init);
      var mid := EdgeRun(net, c, items, init, false);
      if mid.Ok? {
        EdgeStepAsWritten(mid.value, c, items, es[|es| - 1]);
      }
    }
  }

  /** As written, the edge stage succeeds exactly when the corrected one
      does and no edge repeats anywhere in the history, and then builds the
      same graph. */
  lemma {:induction false} EdgePassAsWritten(net: Net, c: Ctx, items: map<string, Record>,
                                             history: map<string, seq<Interaction>>, stamps: seq<string>)
    requires c.itemIds <= items.Keys
    ensures EdgePass(net, c, items, history, stamps, true).Ok? <==>
              EdgePass(net, c, items, history, stamps, false).Ok? && PassFresh(c, net.edges, history, stamps)
    ensures EdgePass(net, c, items, history, stamps, true).Ok? ==>
              EdgePass(net, c, items, history, stamps, true) == EdgePass(net, c, items, history, stamps, false)
    decreases |stamps|
  {
    if stamps != [] {
      var init, t := stamps[..|stamps| - 1], stamps[|stamps| - 1];
      EdgePassAsWritten(net, c, items, history, init);
      EdgePassCorrected(net, c, items, history, init);
      var mid := EdgePass(net, c, items, history, init, false);
      if mid.Ok? && t in history {
        EdgeRunAsWritten(mid.value, c, items, history[t]);
      }
    }
  }

  // ---------------------------------------------------------------------
  // `assemble_graph` as a whole

  function NodeId(isUser: bool, x: string): string {
    if isUser then UserNodeId(x) else ItemNodeId(x)
  }

  /** The unfiltered branch's node loop: each record in turn becomes a node. */
  function AddAll(nodes: map<string, Record>, order: seq<string>, recs: map<string, Record>, isUser: bool): map<string, Record>
    requires forall x :: x in order ==> x in recs
    decreases |order|
  {
    if order == [] then nodes
    else
      var x := order[|order| - 1];
      AddNode(AddAll(nodes, order[..|order| - 1], recs, isUser), NodeId(isUser, x), recs[x])
  }

  /** The records after the filter stage and the finished graph. */
  datatype Built = Built(users: map<string, Record>, items: map<string, Record>, net: Net)

  /** Filters are applied when the dictionary is given and not empty. */
  predicate Filtering(filters: Option<Filters>) {
    filters.Some? && filters.value != []
  }

  /** The edge-stage context of the unfiltered branch. */
  function AllCtx(users: map<string, Record>, items: map<string, Record>): Ctx {
    Ctx(false, users.Keys, items.Keys, {}, {})
  }

  /** `assemble_graph`: the filter stage then the edge stage, or every node
      then the edge stage.  Iterating a missing timestamp list raises
      `TypeError`. */
  function Assemble(users: map<string, Record>, items: map<string, Record>, filters: Option<Filters>,
                    history: map<string, seq<Interaction>>, stamps: Option<seq<string>>,
                    userOrder: seq<string>, itemOrder: seq<string>, asWritten: bool): Result<Built, PyError>
    requires forall u :: u in userOrder ==> u in users
    requires forall i :: i in itemOrder ==> i in items
  {
    if Filtering(filters) then
      match ApplyClauses(Sel(users, items, {}, {}, map[]), FilterClauses(filters.value), userOrder, itemOrder)
      case Err(err) => Err(err)
      case Ok(s) =>
        if stamps.None? then Err(TypeError)
        else
          var c := Ctx(true, s.users.Keys, s.items.Keys, s.inUsers, s.inItems);
          match EdgePass(Net(s.nodes, {}), c, s.items, history, stamps.value, asWritten)
          case Err(err) => Err(err)
          case Ok(net) => Ok(Built(s.users, s.items, net))
    else
      var nodes := AddAll(AddAll(map[], userOrder, users, true), itemOrder, items, false);
      if stamps.None? then Err(TypeError)
      else
        match EdgePass(Net(nodes, {}), AllCtx(users, items), items, history, stamps.value, asWritten)
        case Err(err) => Err(err)
        case Ok(net) => Ok(Built(users, items, net))
  }

  // The unfiltered branch

  lemma SetOfSnoc<T>(s: seq<T>, y: T)
    ensures (set x | x in s + [y]) == (set x | x in s) + {y}
  {
    InSnoc(s, y);
  }

  /** The node loop adds one node per listed record. */
  lemma {:induction false} AddAllKeys(nodes: map<string, Record>, order: seq<string>, recs: map<string, Record>, isUser: bool)
    requires forall x :: x in order ==> x in recs
    ensures AddAll(nodes, order, recs, isUser).Keys ==
              nodes.Keys + (if isUser then UserNodeIds(set x | x in order) else ItemNodeIds(set x | x in order))
    decreases |order|
  {
    if order != [] {
      var init, y := order[..|order| - 1], order[|order| - 1];
      assert init + [y] == order;
      InSnoc(init, y);
      SetOfSnoc(init, y);
      AddAllKeys(nodes, init, recs, isUser);
      NodeIdsAdd((set x | x in init), y);
    }
  }

  /** Into a map without nodes of this kind, each listed record becomes
      its node's attributes, and no other node of this kind appears. */
  lemma {:induction false} AddAllValues(nodes: map<string, Record>, order: seq<string>, recs: map<string, Record>, isUser: bool)
    requires forall x :: x in order ==> x in recs
    requires forall x :: NodeId(isUser, x) !in nodes
    ensures forall x :: NodeId(isUser, x) in AddAll(nodes, order, recs, isUser) <==> x in order
    ensures forall x :: x in order ==> AddAll(nodes, order, recs, isUser)[NodeId(isUser, x)] == recs[x]
    decreases |order|
  {
    if order != [] {
      var init, y := order[..|order| - 1], order[|order| - 1];
      InSnoc(init, y);
      assert init + [y] == order;
      AddAllValues(nodes, init, recs, isUser);
      var mid := AddAll(nodes, init, recs, isUser);
      var r := AddAll(nodes, order, recs, isUser);
      var id := NodeId(isUser, y);
      assert r == AddNode(mid, id, recs[y]);
      forall x ensures NodeId(isUser, x) == id <==> x == y {
        NodeIdsDistinct(x, y);
      }
      assert map[] + recs[y] == recs[y];
      assert recs[y] + recs[y] == recs[y];
    }
  }

  /** A node none of whose listed records has its id keeps its attributes. */
  lemma {:induction false} AddAllOthers(nodes: map<string, Record>, order: seq<string>, recs: map<string, Record>, isUser: bool, n: string)
    requires forall x :: x in order ==> x in recs
    requires n in nodes && forall x :: x in order ==> NodeId(isUser, x) != n
    ensures n in AddAll(nodes, order, recs, isUser) && AddAll(nodes, order, recs, isUser)[n] == nodes[n]
    decreases |order|
  {
    if order != [] {
      AddAllOthers(nodes, order[..|order| - 1], recs, isUser, n);
    }
  }

  lemma InNodeIds(us: set<string>, u: string)
    requires u in us
    ensures UserNodeId(u) in UserNodeIds(us) && ItemNodeId(u) in ItemNodeIds(us)
  {
  }

  /** The endpoints of known interactions are user and item nodes. */
  lemma {:induction false} RunNodesKnown(c: Ctx, es: seq<Interaction>)
    requires forall e :: e in es ==> Known(c, e)
    ensures RunNodes(c, es) <= UserNodeIds(c.userIds) + ItemNodeIds(c.itemIds)
    decreases |es|
  {
    if es != [] {
      var init, e := es[..|es| - 1], es[|es| - 1];
      assert forall x :: x in init ==> x in es;
      assert e in es;
      RunNodesKnown(c, init);
      if Included(c, e) {
        InNodeIds(c.userIds, Field(e, "user_id"));
        InNodeIds(c.itemIds, Field(e, "item_id"));
      }
    }
  }

  lemma {:induction false} PassNodesKnown(c: Ctx, history: map<string, seq<Interaction>>, stamps: seq<string>)
    requires AllKnown(c, history, stamps)
    ensures PassNodes(c, history, stamps) <= UserNodeIds(c.userIds) + ItemNodeIds(c.itemIds)
    decreases |stamps|
  {
    if stamps != [] {
      var init, t := stamps[..|stamps| - 1], stamps[|stamps| - 1];
      assert forall j :: 0 <= j < |init| ==> init[j] == stamps[j];
      PassNodesKnown(c, history, init);
      assert stamps[|stamps| - 1] == t;
      RunNodesKnown(c, history[t]);
    }
  }

  /** Every node of `a` is a node of `b` with the same attributes. */
  predicate Extends(a: map<string, Record>, b: map<string, Record>) {
    forall n :: n in a ==> n in b && b[n] == a[n]
  }

  lemma ExtendsTrans(a: map<string, Record>, b: map<string, Record>, c: map<string, Record>)
    requires Extends(a, b) && Extends(b, c)
    ensures Extends(a, c)
  {
  }

  /** Without filters the edge stage changes no node's attributes. */
  lemma EdgeStepKeeps(net: Net, c: Ctx, items: map<string, Record>, e: Interaction)
    requires !c.filtered && EdgeStep(net, c, items, e, false).Ok?
    ensures Extends(net.nodes, EdgeStep(net, c, items, e, false).value.nodes)
  {
  }

  lemma {:induction false} EdgeRunKeeps(net: Net, c: Ctx, items: map<string, Record>, es: seq<Interaction>)
    requires !c.filtered && EdgeRun(net, c, items, es, false).Ok?
    ensures Extends(net.nodes, EdgeRun(net, c, items, es, false).value.nodes)
    decreases |es|
  {
    if es != [] {
      var init := es[..|es| - 1];
      EdgeRunKeeps(net, c, items, init);
      var mid := EdgeRun(net, c, items, init, false).value;
      EdgeStepKeeps(mid, c, items, es[|es| - 1]);
      ExtendsTrans(net.nodes, mid.nodes, EdgeRun(net, c, items, es, false).value.nodes);
    }
  }

  lemma {:induction false} EdgePassKeeps(net: Net, c: Ctx, items: map<string, Record>,
                                         history: map<string, seq<Interaction>>, stamps: seq<string>)
    requires !c.filtered && EdgePass(net, c, items, history, stamps, false).Ok?
    ensures Extends(net.nodes, EdgePass(net, c, items, history, stamps, false).value.nodes)
    decreases |stamps|
  {
    if stamps != [] {
      var init, t := stamps[..|stamps| - 1], stamps[|stamps| - 1];
      EdgePassKeeps(net, c, items, history, init);
      var mid := EdgePass(net, c, items, history, init, false).value;
      EdgeRunKeeps(mid, c, items, history[t]);
      ExtendsTrans(net.nodes, mid.nodes, EdgePass(net, c, items, history, stamps, false).value.nodes);
    }
  }

  /** The unfiltered user loop: one node per user, carrying its record. */
  lemma UserNodesAdded(users: map<string, Record>, userOrder: seq<string>) returns (un: map<string, Record>)
    requires forall u :: u in userOrder <==> u in users
    ensures un == AddAll(map[], userOrder, users, true)
    ensures un.Keys == UserNodeIds(users.Keys)
    ensures forall u :: u in users ==> un[UserNodeId(u)] == users[u]
    ensures forall x :: ItemNodeId(x) !in un
  {
    un := AddAll(map[], userOrder, users, true);
    AddAllKeys(map[], userOrder, users, true);
    AddAllValues(map[], userOrder, users, true);
    assert (set x | x in userOrder) == users.Keys;
    forall x ensures ItemNodeId(x) !in un {
      if ItemNodeId(x) in un {
        var u :| u in users && UserNodeId(u) == ItemNodeId(x);
        NodeIdsDistinct(u, x);
      }
    }
  }

  /** The unfiltered item loop then adds one node per item and leaves the
      user nodes alone. */
  lemma ItemNodesAdded(un: map<string, Record>, users: map<string, Record>, items: map<string, Record>, itemOrder: seq<string>)
      returns (nodes: map<string, Record>)
    requires forall i :: i in itemOrder <==> i in items
    requires un.Keys == UserNodeIds(users.Keys)
    requires forall u :: u in users ==> un[UserNodeId(u)] == users[u]
    requires forall x :: ItemNodeId(x) !in un
    ensures nodes == AddAll(un, itemOrder, items, false)
    ensures nodes.Keys == UserNodeIds(users.Keys) + ItemNodeIds(items.Keys)
    ensures forall u :: u in users ==> nodes[UserNodeId(u)] == users[u]
    ensures forall i :: i in items ==> nodes[ItemNodeId(i)] == items[i]
  {
    nodes := AddAll(un, itemOrder, items, false);
    AddAllKeys(un, itemOrder, items, false);
    AddAllValues(un, itemOrder, items, false);
    assert (set x | x in itemOrder) == items.Keys;
    forall u | u in users
      ensures nodes[UserNodeId(u)] == users[u]
    {
      forall x | x in itemOrder ensures NodeId(false, x) != UserNodeId(u) {
        NodeIdsDistinct(u, x);
      }
      AddAllOthers(un, itemOrder, items, false, UserNodeId(u));
    }
  }

  /** Without filters (`None` or an empty dictionary) every user and every
      item is a node carrying its record, every interaction naming a user
      and an item is an edge, and the stage fails exactly when a timestamp
      list is missing or an interaction names an unknown user or item. */
  lemma UnfilteredGraph(users: map<string, Record>, items: map<string, Record>, filters: Option<Filters>,
                        history: map<string, seq<Interaction>>, stamps: Option<seq<string>>,
                        userOrder: seq<string>, itemOrder: seq<string>)
    requires !Filtering(filters)
    requires forall u :: u in userOrder <==> u in users
    requires forall i :: i in itemOrder <==> i in items
    ensures Assemble(users, items, filters, history, stamps, userOrder, itemOrder, false).Ok? <==>
              stamps.Some? && AllKnown(AllCtx(users, items), history, stamps.value)
    ensures Assemble(users, items, filters, history, stamps, userOrder, itemOrder, false).Ok? ==>
      var g := Assemble(users, items, filters, history, stamps, userOrder, itemOrder, false).value;
      && g.net.edges == PassEdges(AllCtx(users, items), history, stamps.value)
      && g.net.nodes.Keys == UserNodeIds(users.Keys) + ItemNodeIds(items.Keys)
      && (forall u :: u in users ==> g.net.nodes[UserNodeId(u)] == users[u])
      && (forall i :: i in items ==> g.net.nodes[ItemNodeId(i)] == items[i])
  {
    var un := UserNodesAdded(users, userOrder);
    var nodes := ItemNodesAdded(un, users, items, itemOrder);
    if stamps.Some? {
      var r := EdgePass(Net(nodes, {}), AllCtx(users, items), items, history, stamps.value, false);
      assert Assemble(users, items, filters, history, stamps, userOrder, itemOrder, false) ==
             if r.Err? then Err(r.error) else Ok(Built(users, items, r.value));
      UnfilteredEdges(nodes, users, items, history, stamps.value);
    }
  }

  lemma UnfilteredEdges(nodes: map<string, Record>, users: map<string, Record>, items: map<string, Record>,
                        history: map<string, seq<Interaction>>, stamps: seq<string>)
    requires nodes.Keys == UserNodeIds(users.Keys) + ItemNodeIds(items.Keys)
    ensures var r := EdgePass(Net(nodes, {}), AllCtx(users, items), items, history, stamps, false);
      && (r.Ok? <==> AllKnown(AllCtx(users, items), history, stamps))
      && (r.Ok? ==> r.value.edges == PassEdges(AllCtx(users, items), history, stamps) &&
                    r.value.nodes.Keys == nodes.Keys && Extends(nodes, r.value.nodes))
  {
    var c := AllCtx(users, items);
    EdgePassCorrected(Net(nodes, {}), c, items, history, stamps);
    if AllKnown(c, history, stamps) {
      PassNodesKnown(c, history, stamps);
      EdgePassKeeps(Net(nodes, {}), c, items, history, stamps);
    }
  }

  // The filtered branch

  /** The filter stage from fresh records: what `LastMatchWins` says, with
      nothing included and no node beforehand. */
  lemma FilterStage(users: map<string, Record>, items: map<string, Record>, cs: seq<Clause>,
                    userOrder: seq<string>, itemOrder: seq<string>) returns (s: Sel)
    requires UnreservedClauses(cs)
    requires forall u :: u in userOrder <==> u in users
    requires forall i :: i in itemOrder <==> i in items
    requires ApplyClauses(Sel(users, items, {}, {}, map[]), cs, userOrder, itemOrder).Ok?
    ensures s == ApplyClauses(Sel(users, items, {}, {}, map[]), cs, userOrder, itemOrder).value
    ensures UsersFiltered(Sel(users, items, {}, {}, map[]), s, cs)
    ensures ItemsFiltered(Sel(users, items, {}, {}, map[]), s, cs)
    ensures s.inUsers == MatchedUsers(Sel(users, items, {}, {}, map[]), cs)
    ensures s.inItems == MatchedItems(Sel(users, items, {}, {}, map[]), cs)
    ensures s.nodes.Keys == UserNodeIds(MatchedUsers(Sel(users, items, {}, {}, map[]), cs)) +
                            ItemNodeIds(RangeItems(Sel(users, items, {}, {}, map[]), cs))
  {
    var s0 := Sel(users, items, {}, {}, map[]);
    LastMatchWins(s0, cs, userOrder, itemOrder);
    s := ApplyClauses(s0, cs, userOrder, itemOrder).value;
  }

  /** The edge-stage context the filter stage leaves: the included users
      and items are the matched ones. */
  ghost function FilterCtx(users: map<string, Record>, items: map<string, Record>, cs: seq<Clause>): Ctx {
    var s := Sel(users, items, {}, {}, map[]);
    Ctx(true, users.Keys, items.Keys, MatchedUsers(s, cs), MatchedItems(s, cs))
  }

  /** With filters, each user and item carries the filter that matched it
      last; the graph's nodes are the matched users, the items matched by a
      range query and the endpoints of the included interactions (so an
      item matched only exactly appears only through an edge); the edges
      are those of the included interactions, which are all known. */
  lemma FilteredGraph(users: map<string, Record>, items: map<string, Record>, filters: Option<Filters>,
                      history: map<string, seq<Interaction>>, stamps: Option<seq<string>>,
                      userOrder: seq<string>, itemOrder: seq<string>, g: Built)
    requires Filtering(filters) && UnreservedClauses(FilterClauses(filters.value))
    requires forall u :: u in userOrder <==> u in users
    requires forall i :: i in itemOrder <==> i in items
    requires Assemble(users, items, filters, history, stamps, userOrder, itemOrder, false) == Ok(g)
    ensures stamps.Some? && AllKnown(FilterCtx(users, items, FilterClauses(filters.value)), history, stamps.value)
    ensures g.net.edges == PassEdges(FilterCtx(users, items, FilterClauses(filters.value)), history, stamps.value)
    ensures g.net.nodes.Keys ==
              UserNodeIds(MatchedUsers(Sel(users, items, {}, {}, map[]), FilterClauses(filters.value))) +
              ItemNodeIds(RangeItems(Sel(users, items, {}, {}, map[]), FilterClauses(filters.value))) +
              PassNodes(FilterCtx(users, items, FilterClauses(filters.value)), history, stamps.value)
    ensures forall u :: u in users ==> u in g.users && g.users[u] == Marked(users[u], LastMatch(FilterClauses(filters.value), users[u]))
    ensures forall i :: i in items ==> i in g.items && g.items[i] == Marked(items[i], LastMatch(FilterClauses(filters.value), items[i]))
  {
    var cs := FilterClauses(filters.value);
    var s := FilterStage(users, items, cs, userOrder, itemOrder);
    var c := FilterCtx(users, items, cs);
    assert c == Ctx(true, s.users.Keys, s.items.Keys, s.inUsers, s.inItems);
    var r := EdgePass(Net(s.nodes, {}), c, s.items, history, stamps.value, false);
    assert r.Ok? && g == Built(s.users, s.items, r.value);
    EdgePassCorrected(Net(s.nodes, {}), c, s.items, history, stamps.value);
  }

  /** When the filtered build succeeds: a failing filter stage fails the
      build with its exception; otherwise the build succeeds iff the
      timestamps are there, each has a history, and every included
      interaction names a known user and item. */
  lemma FilteredGraphSucceeds(users: map<string, Record>, items: map<string, Record>, filters: Option<Filters>,
                              history: map<string, seq<Interaction>>, stamps: Option<seq<string>>,
                              userOrder: seq<string>, itemOrder: seq<string>)
    requires Filtering(filters) && UnreservedClauses(FilterClauses(filters.value))
    requires forall u :: u in userOrder <==> u in users
    requires forall i :: i in itemOrder <==> i in items
    ensures ApplyClauses(Sel(users, items, {}, {}, map[]), FilterClauses(filters.value), userOrder, itemOrder).Err? ==>
              Assemble(users, items, filters, history, stamps, userOrder, itemOrder, false) ==
              Err(ApplyClauses(Sel(users, items, {}, {}, map[]), FilterClauses(filters.value), userOrder, itemOrder).error)
    ensures ApplyClauses(Sel(users, items, {}, {}, map[]), FilterClauses(filters.value), userOrder, itemOrder).Ok? ==>
              (Assemble(users, items, filters, history, stamps, userOrder, itemOrder, false).Ok? <==>
               stamps.Some? && AllKnown(FilterCtx(users, items, FilterClauses(filters.value)), history, stamps.value))
  {
    var cs := FilterClauses(filters.value);
    if ApplyClauses(Sel(users, items, {}, {}, map[]), cs, userOrder, itemOrder).Ok? && stamps.Some? {
      var s := FilterStage(users, items, cs, userOrder, itemOrder);
      var c := FilterCtx(users, items, cs);
      assert c == Ctx(true, s.users.Keys, s.items.Keys, s.inUsers, s.inItems);
      EdgePassCorrected(Net(s.nodes, {}), c, s.items, history, stamps.value);
    }
  }

  // The edge stage as written, over the whole of `assemble_graph`

  /** Whenever the code as written builds a graph, it is the corrected
      one. */
  lemma AsWrittenAgrees(users: map<string, Record>, items: map<string, Record>, filters: Option<Filters>,
                        history: map<string, seq<Interaction>>, stamps: Option<seq<string>>,
                        userOrder: seq<string>, itemOrder: seq<string>)
    requires forall u :: u in userOrder ==> u in users
    requires forall i :: i in itemOrder ==> i in items
    ensures Assemble(users, items, filters, history, stamps, userOrder, itemOrder, true).Ok? ==>
              Assemble(users, items, filters, history, stamps, userOrder, itemOrder, true) ==
              Assemble(users, items, filters, history, stamps, userOrder, itemOrder, false)
  {
    if stamps.Some? {
      if Filtering(filters) {
        var r := ApplyClauses(Sel(users, items, {}, {}, map[]), FilterClauses(filters.value), userOrder, itemOrder);
        if r.Ok? {
          var s := r.value;
          var c := Ctx(true, s.users.Keys, s.items.Keys, s.inUsers, s.inItems);
          EdgePassAsWritten(Net(s.nodes, {}), c, s.items, history, stamps.value);
        }
      } else {
        var nodes := AddAll(AddAll(map[], userOrder, users, true), itemOrder, items, false);
        EdgePassAsWritten(Net(nodes, {}), AllCtx(users, items), items, history, stamps.value);
      }
    }
  }

  /** Without filters, the code as written builds a graph exactly when the
      corrected code does and no (user, item) pair occurs twice in the
      history. */
  lemma UnfilteredAsWritten(users: map<string, Record>, items: map<string, Record>, filters: Option<Filters>,
                            history: map<string, seq<Interaction>>, stamps: Option<seq<string>>,
                            userOrder: seq<string>, itemOrder: seq<string>)
    requires !Filtering(filters)
    requires forall u :: u in userOrder ==> u in users
    requires forall i :: i in itemOrder ==> i in items
    ensures Assemble(users, items, filters, history, stamps, userOrder, itemOrder, true).Ok? <==>
              Assemble(users, items, filters, history, stamps, userOrder, itemOrder, false).Ok? &&
              PassFresh(AllCtx(users, items), {}, history, stamps.value)
  {
    if stamps.Some? {
      var nodes := AddAll(AddAll(map[], userOrder, users, true), itemOrder, items, false);
      EdgePassAsWritten(Net(nodes, {}), AllCtx(users, items), items, history, stamps.value);
    }
  }

  /** One user who interacted twice with one item: as written the graph
      cannot be built; corrected, it has the one edge. */
  lemma RepeatedInteractionAborts()
    ensures var users: map<string, Record> := map["1" := map[]];
      var items: map<string, Record> := map["a" := map[]];
      var e: Interaction := [("user_id", "1"), ("item_id", "a")];
      var history := map["0" := [e, e]];
      && Assemble(users, items, None, history, Some(["0"]), ["1"], ["a"], true).Err?
      && Assemble(users, items, None, history, Some(["0"]), ["1"], ["a"], false).Ok?
      && Assemble(users, items, None, history, Some(["0"]), ["1"], ["a"], false).value.net.edges == {("user-1", "item-a")}
  {
    var users: map<string, Record> := map["1" := map[]];
    var items: map<string, Record> := map["a" := map[]];
    var e: Interaction := [("user_id", "1"), ("item_id", "a")];
    var history := map["0" := [e, e]];
    var c := AllCtx(users, items);
    OneInteraction(c, e);
    assert [e, e][..1] == [e] && [e][..0] == [];
    assert RunEdges(c, [e]) == {("user-1", "item-a")};
    assert RunEdges(c, [e, e]) == {("user-1", "item-a")};
    assert !RunFresh(c, {}, [e, e]);
    assert ["0"][..0] == [];
    assert PassEdges(c, history, ["0"]) == {("user-1", "item-a")};
    assert !PassFresh(c, {}, history, ["0"]);
    assert AllKnown(c, history, ["0"]);
    UnfilteredGraph(users, items, None, history, Some(["0"]), ["1"], ["a"]);
    UnfilteredAsWritten(users, items, None, history, Some(["0"]), ["1"], ["a"]);
  }

  lemma OneInteraction(c: Ctx, e: Interaction)
    requires c == Ctx(false, {"1"}, {"a"}, {}, {})
    requires e == [("user_id", "1"), ("item_id", "a")]
    ensures Included(c, e) && Known(c, e) && EdgeOf(e) == ("user-1", "item-a")
  {
    assert Keys(e)[0] == "user_id" && Keys(e)[1] == "item_id";
    assert e[1..] == [("item_id", "a")];
    assert Get(e, "user_id") == Some("1");
    assert Get(e, "item_id") == Get(e[1..], "item_id");
    assert Get(e[1..], "item_id") == Some("a");
    assert UserNodeId("1") == "user-1" && ItemNodeId("a") == "item-a";
  }
}
