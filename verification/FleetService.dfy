/** What a signed-in member of an organization can read. */
module FleetService {
  import opened Base
  import opened Fleet
  import opened Wire
  import opened NodeAuth

  /** Row-level security: a tenant's statements see the rows that carry its id. */
  function VisibleNodes(s: State, org: OrgId): Nodes { map n | n in s.nodes && s.nodes[n].orgId == org :: s.nodes[n] }

  function VisibleDevices(s: State, org: OrgId): Devices {
    map k | k in s.devices && s.devices[k].orgId == org :: s.devices[k]
  }

  datatype ReadError = NotFound | Broken

  function ListNodes(s: State, org: OrgId): Result<map<NodeId, NodeView>, ReadError> {
    var nodes, devices := VisibleNodes(s, org), VisibleDevices(s, org);
    if exists n :: n in nodes && ViewNode(n, nodes[n], devices).Err? then Err(Broken)
    else Ok(map n | n in nodes && ViewNode(n, nodes[n], devices).Ok? :: ViewNode(n, nodes[n], devices).value)
  }

  /** One answer for every id the tenant has no node under, so nothing is learned about other tenants' nodes. */
  function GetNode(s: State, org: OrgId, text: string): Result<NodeView, ReadError> {
    var nodes, id := VisibleNodes(s, org), NodeIdOf(text);
    if !IsUuid(text) || id !in nodes then Err(NotFound)
    else
      match ViewNode(id, nodes[id], VisibleDevices(s, org))
      case Ok(view) => Ok(view)
      case Err(_) => Err(Broken)
  }

  // ----- The order of a reply

  /** How the database compares text. */
  type Collation = (string, string) -> bool

  ghost predicate Collates(leq: Collation) {
    && (forall a, b :: leq(a, b) || leq(b, a))
    && (forall a, b, c :: leq(a, b) && leq(b, c) ==> leq(a, c))
    && Distinguishes(leq)
  }

  ghost predicate Distinguishes(leq: Collation) { forall a, b :: leq(a, b) && leq(b, a) ==> a == b }

  /** ORDER BY: each of these keys once, sorted by its text; keys of equal text in any order. */
  ghost predicate Ordered(leq: Collation, texts: map<string, string>, keys: seq<string>) {
    && (forall k :: k in keys <==> k in texts)
    && (forall i, j :: 0 <= i < j < |keys| ==> keys[i] != keys[j])
    && (forall i, j :: 0 <= i < j < |keys| ==> leq(texts[keys[i]], texts[keys[j]]))
  }

  function Names(nodes: Nodes): map<NodeId, string> { map n | n in nodes :: nodes[n].name }

  function LocalIds(devices: Devices, node: NodeId): map<LocalId, string> {
    var ids := set k | k in devices && k.0 == node :: k.1;
    map l | l in ids :: l
  }

  /** The orders in which `listNodes` may return a tenant's nodes. */
  ghost predicate NodeOrder(leq: Collation, s: State, org: OrgId, nodes: seq<NodeId>) {
    Ordered(leq, Names(VisibleNodes(s, org)), nodes)
  }

  /** The orders in which both reads may return the devices of a node. */
  ghost predicate DeviceOrder(leq: Collation, s: State, org: OrgId, node: NodeId, ids: seq<LocalId>) {
    Ordered(leq, LocalIds(VisibleDevices(s, org), node), ids)
  }

  lemma {:induction false} Smallest(leq: Collation, texts: map<string, string>) returns (k: string)
    requires Collates(leq) && texts != map[]
    ensures k in texts && forall j :: j in texts ==> leq(texts[k], texts[j])
    decreases |texts|
  {
    var some :| some in texts;
    var others := texts - {some};
    var least := some;
    if others != map[] {
      least := Smallest(leq, others);
    }
    k := if leq(texts[some], texts[least]) then some else least;
    forall j | j in texts ensures leq(texts[k], texts[j]) {
      assert j == some || j in others;
    }
  }

  /** Every set of rows has an order. */
  lemma {:induction false} OrderExists(leq: Collation, texts: map<string, string>) returns (keys: seq<string>)
    requires Collates(leq)
    ensures Ordered(leq, texts, keys)
    decreases |texts|
  {
    keys := [];
    if texts != map[] {
      var k := Smallest(leq, texts);
      var rest := OrderExists(leq, texts - {k});
      keys := [k] + rest;
      FirstThenRest(leq, texts, k, rest);
    }
  }

  lemma FirstThenRest(leq: Collation, texts: map<string, string>, k: string, rest: seq<string>)
    requires k in texts && (forall j :: j in texts ==> leq(texts[k], texts[j])) && Ordered(leq, texts - {k}, rest)
    ensures Ordered(leq, texts, [k] + rest)
  {
    var keys := [k] + rest;
    forall j ensures j in keys <==> j in texts {
      assert j in keys <==> j == k || j in rest;
    }
    forall i, j | 0 <= i < j < |keys| ensures keys[i] != keys[j] && leq(texts[keys[i]], texts[keys[j]]) {
      assert keys[j] == rest[j - 1] && rest[j - 1] in rest;
      if i > 0 {
        assert keys[i] == rest[i - 1] && rest[i - 1] in rest;
      }
    }
  }

  lemma RestOrdered(leq: Collation, texts: map<string, string>, keys: seq<string>)
    requires |keys| > 0 && Ordered(leq, texts, keys)
    ensures Ordered(leq, texts - {keys[0]}, keys[1..])
  {
    var rest := keys[1..];
    forall k ensures k in rest <==> k in texts - {keys[0]} {
      if k in rest {
        var i :| 0 <= i < |rest| && rest[i] == k;
        assert keys[i + 1] == k && keys[i + 1] in keys;
      }
      if k in texts - {keys[0]} {
        var i :| 0 <= i < |keys| && keys[i] == k;
        assert rest[i - 1] == k;
      }
    }
    forall i, j | 0 <= i < j < |rest| ensures rest[i] != rest[j] && leq(texts[rest[i]], texts[rest[j]]) {
      assert rest[i] == keys[i + 1] && rest[j] == keys[j + 1];
    }
  }

  lemma SameFirst(leq: Collation, texts: map<string, string>, a: seq<string>, b: seq<string>)
    requires Distinguishes(leq) && Ordered(leq, texts, a) && Ordered(leq, texts, b) && |a| > 0
    requires forall k :: k in texts ==> texts[k] == k
    ensures |b| > 0 && a[0] == b[0]
  {
    assert a[0] in a;
    var i :| 0 <= i < |b| && b[i] == a[0];
    assert b[0] in b;
    var j :| 0 <= j < |a| && a[j] == b[0];
  }

  lemma Uncons(keys: seq<string>)
    requires |keys| > 0
    ensures keys == [keys[0]] + keys[1..]
  {
  }

  /** Where the text is the key itself, there is only one order. */
  lemma {:induction false} OrderUnique(leq: Collation, texts: map<string, string>, a: seq<string>, b: seq<string>)
    requires Distinguishes(leq) && Ordered(leq, texts, a) && Ordered(leq, texts, b)
    requires forall k :: k in texts ==> texts[k] == k
    ensures a == b
    decreases |a|
  {
    if |a| > 0 {
      SameFirst(leq, texts, a, b);
      RestOrdered(leq, texts, a);
      RestOrdered(leq, texts, b);
      OrderUnique(leq, texts - {a[0]}, a[1..], b[1..]);
      Uncons(a);
      Uncons(b);
    } else if |b| > 0 {
      SameFirst(leq, texts, b, a);
    }
  }
}
