/** Which issues validation reports: exactly one code for each fault, at the path of the route that leads to it. */
module JsonIssues {
  import opened Bytes
  import opened ValidationIssues
  import opened JsonValidation
  import opened Wrappers

  /** One hop of a route: to an item, to a value of a map, or through a pointer. */
  datatype Hop = ToItem(index: nat) | ToEntry(index: nat) | Through

  /** A value with its path and the marks of what was entered on the way to it. */
  datatype Place = Place(value: Value, path: Text, marks: set<Mark>)

  predicate Refers(v: Value, heap: Heap) {
    v.Ref? && v.id in heap
  }

  predicate KeysOk(c: Cell)
    requires c.Map?
  {
    forall k | k in c.keys :: KeyOk(k)
  }

  function Follow(v: Value, hop: Hop, heap: Heap): Option<Value> {
    match hop
    case ToItem(i) =>
      if v.Array? && i < |v.items| then Some(v.items[i])
      else if Refers(v, heap) && heap[v.id].Slice? && i < |heap[v.id].items| then Some(heap[v.id].items[i])
      else None
    case ToEntry(i) =>
      if Refers(v, heap) && heap[v.id].Map? && KeysOk(heap[v.id]) && i < |heap[v.id].values|
      then Some(heap[v.id].values[i]) else None
    case Through => if Refers(v, heap) && heap[v.id].Pointer? then Some(heap[v.id].target) else None
  }

  /** `[i]` after an item, `[{*}]` after a value of a map, nothing after a pointer. */
  function Along(path: Text, hop: Hop): Text {
    match hop
    case ToItem(i) => path + [0x5b] + Decimal(i) + [0x5d]
    case ToEntry(_) => path + [0x5b, 0x7b, 0x2a, 0x7d, 0x5d]
    case Through => path
  }

  predicate Blocked(p: Place, heap: Heap) {
    Refers(p.value, heap) && MarkOf(heap[p.value.id]) in p.marks
  }

  function Entered(p: Place, heap: Heap): set<Mark> {
    if Refers(p.value, heap) then p.marks + {MarkOf(heap[p.value.id])} else p.marks
  }

  function After(p: Place, hop: Hop, heap: Heap): Place
    requires Follow(p.value, hop, heap).Some?
  {
    Place(Follow(p.value, hop, heap).value, Along(p.path, hop), Entered(p, heap))
  }

  /** The route leads from one place to another without entering the same mark twice. */
  predicate Leads(from: Place, route: seq<Hop>, to: Place, heap: Heap)
    decreases |route|
  {
    if route == [] then from == to
    else
      && !Blocked(from, heap) && Follow(from.value, route[0], heap).Some?
      && Leads(After(from, route[0], heap), route[1..], to, heap)
  }

  /** What is wrong at a place itself. */
  predicate Fault(p: Place, heap: Heap, issue: Issue) {
    var here := Issue(issue.code, p.path);
    match p.value
    case Number(parses, finite) =>
      issue == here && ((!parses && issue.code == InvalidJSON) || (parses && !finite && issue.code == NonFinite))
    case Float(finite) => issue == here && !finite && issue.code == NonFinite
    case Str(valid) => issue == here && !valid && issue.code == InvalidUnicode
    case Unsupported => issue == here && issue.code == InvalidJSON
    case Ref(id) =>
      if Blocked(p, heap) then issue == here && issue.code == Cycle
      else id in heap && heap[id].Map? && BadKey(heap[id].keys, p.path, issue)
    case _ => false
  }

  /** The first key that is no string, or no Unicode, is what is wrong with a map. */
  predicate BadKey(keys: seq<Key>, path: Text, issue: Issue) {
    exists i | 0 <= i < |keys| :: FirstBad(keys, i) && KeyFault(keys[i], path, issue)
  }

  predicate FirstBad(keys: seq<Key>, i: nat) {
    i < |keys| && !KeyOk(keys[i]) && forall j | 0 <= j < i :: KeyOk(keys[j])
  }

  predicate KeyFault(k: Key, path: Text, issue: Issue) {
    && issue.path == path + [0x5b, 0x7b, 0x2a, 0x7d, 0x5d]
    && issue.code == if k.OtherKey? then InvalidJSON else InvalidUnicode
  }

  lemma KeyExactly(k: Key, path: Text, issue: Issue)
    ensures KeyIssue(k, path) == [] <==> KeyOk(k)
    ensures issue in KeyIssue(k, path) <==> !KeyOk(k) && KeyFault(k, path, issue)
  {
  }

  lemma OneFirstBad(keys: seq<Key>, i: nat, j: nat)
    requires FirstBad(keys, i) && FirstBad(keys, j)
    ensures i <= j
  {
  }

  lemma BadAt(keys: seq<Key>, n: nat, path: Text, issue: Issue)
    requires FirstBad(keys, n)
    ensures BadKey(keys, path, issue) <==> KeyFault(keys[n], path, issue)
  {
    hide FirstBad, KeyFault;
    assert n < |keys| by { InKeys(keys, n); }
    if BadKey(keys, path, issue) {
      var i :| 0 <= i < |keys| && FirstBad(keys, i) && KeyFault(keys[i], path, issue);
      OneFirstBad(keys, i, n);
      OneFirstBad(keys, n, i);
    }
  }

  lemma InKeys(keys: seq<Key>, n: nat)
    requires FirstBad(keys, n)
    ensures n < |keys| && keys[n] in keys && !KeyOk(keys[n])
  {
  }

  lemma {:induction false} KeysExactly(keys: seq<Key>, n: nat, path: Text, issue: Issue)
    requires n <= |keys| && forall j | 0 <= j < n :: KeyOk(keys[j])
    ensures issue in KeysIssue(keys, n, path) <==> BadKey(keys, path, issue)
    ensures KeysIssue(keys, n, path) == [] <==> forall k | k in keys :: KeyOk(k)
    decreases |keys| - n
  {
    if n < |keys| {
      KeyExactly(keys[n], path, issue);
      hide KeyIssue, KeyFault;
      if KeyOk(keys[n]) {
        KeysExactly(keys, n + 1, path, issue);
      } else {
        assert FirstBad(keys, n);
        InKeys(keys, n);
        BadAt(keys, n, path, issue);
      }
    }
  }

  // ----- every fault on a route is reported -----

  lemma {:induction false} InItems(items: seq<Value>, i: nat, n: nat, path: Text, active: set<Mark>, heap: Heap,
                                   issue: Issue)
    requires i < n <= |items| && issue in IssuesAt(items[i], Indexed(path, i), active, heap)
    ensures issue in ItemIssues(items, n, path, active, heap)
    decreases n
  {
    hide IssuesAt;
    if i < n - 1 { InItems(items, i, n - 1, path, active, heap, issue); }
  }

  lemma {:induction false} InValues(values: seq<Value>, i: nat, n: nat, path: Text, active: set<Mark>, heap: Heap,
                                    issue: Issue)
    requires i < n <= |values| && issue in IssuesAt(values[i], Wildcard(path), active, heap)
    ensures issue in ValueIssues(values, n, path, active, heap)
    decreases n
  {
    hide IssuesAt;
    if i < n - 1 { InValues(values, i, n - 1, path, active, heap, issue); }
  }

  lemma FaultReported(p: Place, heap: Heap, issue: Issue)
    requires Fault(p, heap, issue)
    ensures issue in IssuesAt(p.value, p.path, p.marks, heap)
  {
    if p.value.Ref? && !Blocked(p, heap) {
      var c := heap[p.value.id];
      KeysExactly(c.keys, 0, p.path, issue);
      hide KeysIssue;
      assert CellIssues(c, p.path, p.marks + {MarkOf(c)}, heap) == KeysIssue(c.keys, 0, p.path);
    }
  }

  lemma HopReported(p: Place, hop: Hop, heap: Heap, issue: Issue)
    requires !Blocked(p, heap) && Follow(p.value, hop, heap).Some?
    requires var q := After(p, hop, heap); issue in IssuesAt(q.value, q.path, q.marks, heap)
    ensures issue in IssuesAt(p.value, p.path, p.marks, heap)
  {
    var q := After(p, hop, heap);
    if p.value.Array? {
      InItems(p.value.items, hop.index, |p.value.items|, p.path, p.marks, heap, issue);
    } else {
      var c := heap[p.value.id];
      if c.Slice? { InItems(c.items, hop.index, |c.items|, p.path, q.marks, heap, issue); }
      if c.Map? {
        KeysExactly(c.keys, 0, p.path, issue);
        InValues(c.values, hop.index, |c.values|, p.path, q.marks, heap, issue);
      }
      hide KeysIssue, ItemIssues, ValueIssues;
      assert issue in CellIssues(c, p.path, q.marks, heap);
    }
  }

  lemma {:induction false} RouteReported(from: Place, route: seq<Hop>, to: Place, heap: Heap, issue: Issue)
    requires Leads(from, route, to, heap) && Fault(to, heap, issue)
    ensures issue in IssuesAt(from.value, from.path, from.marks, heap)
    decreases |route|
  {
    hide Fault, IssuesAt;
    if route == [] {
      FaultReported(to, heap, issue);
    } else {
      RouteReported(After(from, route[0], heap), route[1..], to, heap, issue);
      HopReported(from, route[0], heap, issue);
    }
  }

  // ----- every issue reported is a fault on a route -----

  lemma Prepend(from: Place, hop: Hop, rest: seq<Hop>, to: Place, heap: Heap)
    requires !Blocked(from, heap) && Follow(from.value, hop, heap).Some?
    requires Leads(After(from, hop, heap), rest, to, heap)
    ensures Leads(from, [hop] + rest, to, heap)
  {
    assert ([hop] + rest)[1..] == rest;
  }

  lemma {:induction false} Found(p: Place, heap: Heap, issue: Issue) returns (route: seq<Hop>, to: Place)
    requires issue in IssuesAt(p.value, p.path, p.marks, heap)
    ensures Leads(p, route, to, heap) && Fault(to, heap, issue)
    decreases Marks(heap) - p.marks, p.value, 1
  {
    hide Leads, ItemIssues, ValueIssues, KeysIssue, BadKey;
    var v := p.value;
    if v.Array? {
      var i := FindItem(v.items, |v.items|, p.path, p.marks, heap, issue);
      route, to := Found(After(p, ToItem(i), heap), heap, issue);
      Prepend(p, ToItem(i), route, to, heap);
      route := [ToItem(i)] + route;
    } else if Refers(v, heap) && !Blocked(p, heap) {
      FewerMarks(v.id, p.marks, heap);
      route, to := FoundInCell(p, heap, issue);
    } else {
      route, to := [], p;
      StaysHere(p, heap);
    }
  }

  lemma StaysHere(p: Place, heap: Heap)
    ensures Leads(p, [], p, heap)
  {
  }

  lemma {:induction false} FoundInCell(p: Place, heap: Heap, issue: Issue) returns (route: seq<Hop>, to: Place)
    requires Refers(p.value, heap) && !Blocked(p, heap)
    requires issue in CellIssues(heap[p.value.id], p.path, Entered(p, heap), heap)
    ensures Leads(p, route, to, heap) && Fault(to, heap, issue)
    decreases Marks(heap) - p.marks, p.value, 0
  {
    hide Leads, ItemIssues, ValueIssues, KeysIssue, BadKey, IssuesAt;
    FewerMarks(p.value.id, p.marks, heap);
    var c := heap[p.value.id];
    var hop := Through;
    match c {
      case Pointer(_, _) =>
      case Slice(_, items) =>
        var i := FindItem(items, |items|, p.path, Entered(p, heap), heap, issue);
        hop := ToItem(i);
      case Map(_, keys, values) =>
        KeysExactly(keys, 0, p.path, issue);
        if KeysIssue(keys, 0, p.path) != [] {
          StaysHere(p, heap);
          return [], p;
        }
        var i := FindValue(values, |values|, p.path, Entered(p, heap), heap, issue);
        hop := ToEntry(i);
    }
    route, to := Found(After(p, hop, heap), heap, issue);
    Prepend(p, hop, route, to, heap);
    route := [hop] + route;
  }

  lemma {:induction false} FindItem(items: seq<Value>, n: nat, path: Text, active: set<Mark>, heap: Heap, issue: Issue)
    returns (i: nat)
    requires n <= |items| && issue in ItemIssues(items, n, path, active, heap)
    ensures i < n && issue in IssuesAt(items[i], path + [0x5b] + Decimal(i) + [0x5d], active, heap)
    decreases n
  {
    hide IssuesAt;
    if issue in ItemIssues(items, n - 1, path, active, heap) {
      i := FindItem(items, n - 1, path, active, heap, issue);
    } else {
      i := n - 1;
    }
  }

  lemma {:induction false} FindValue(values: seq<Value>, n: nat, path: Text, active: set<Mark>, heap: Heap,
                                     issue: Issue)
    returns (i: nat)
    requires n <= |values| && issue in ValueIssues(values, n, path, active, heap)
    ensures i < n && issue in IssuesAt(values[i], path + [0x5b, 0x7b, 0x2a, 0x7d, 0x5d], active, heap)
    decreases n
  {
    hide IssuesAt;
    if issue in ValueIssues(values, n - 1, path, active, heap) {
      i := FindValue(values, n - 1, path, active, heap, issue);
    } else {
      i := n - 1;
    }
  }

  /** An issue is reported if and only if a route leads to a fault with its code, at its path. */
  lemma IssuesExactly(v: Value, path: Text, heap: Heap, issue: Issue)
    ensures issue in IssuesAt(v, path, {}, heap)
       <==> exists route, to :: Leads(Place(v, path, {}), route, to, heap) && Fault(to, heap, issue)
  {
    hide Leads, Fault, IssuesAt;
    if issue in IssuesAt(v, path, {}, heap) {
      var route, to := Found(Place(v, path, {}), heap, issue);
    }
    forall route, to | Leads(Place(v, path, {}), route, to, heap) && Fault(to, heap, issue)
      ensures issue in IssuesAt(v, path, {}, heap)
    {
      RouteReported(Place(v, path, {}), route, to, heap, issue);
    }
  }

  /** An index is spelled in decimal digits without leading zeros. */
  lemma {:induction false} DecimalSpelled(n: nat)
    ensures var d := Decimal(n);
            && |d| >= 1 && (forall i | 0 <= i < |d| :: IsDigit(d[i])) && DecimalValue(d) == n
            && (|d| > 1 ==> d[0] != '0' as int)
  {
    var d := Decimal(n);
    if n >= 10 {
      DecimalSpelled(n / 10);
      assert d[..|d| - 1] == Decimal(n / 10);
    } else {
      assert d[..0] == [];
    }
  }
}
