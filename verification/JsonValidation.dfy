/**
 Validation of arbitrary JSON input as a graph. Maps, pointers and slices are
 cells; a cell may be shared, and may reach itself. The validator does not know
 a cell by its identity but by a mark, which different cells may have in common.
 */
module JsonValidation {
  import opened Bytes
  import opened ValidationIssues

  type Id = nat

  datatype Value =
    | Nil
    | Number(parses: bool, finite: bool)
    | Float(finite: bool)
    | Plain
    | Str(validUnicode: bool)
    | Array(items: seq<Value>)
    | Ref(id: Id)
    | Unsupported

  datatype Key = StringKey(validUnicode: bool) | OtherKey

  /** Map keys stand in the order the runtime iterates them, values in the order of sorted keys. */
  datatype Cell =
    | Pointer(address: nat, target: Value)
    | Slice(address: nat, items: seq<Value>)
    | Map(address: nat, keys: seq<Key>, values: seq<Value>)

  type Heap = map<Id, Cell>

  datatype Kind = PointerKind | SliceKind | MapKind

  /** What the validator remembers of an ancestor. */
  datatype Mark = Mark(kind: Kind, address: nat, length: nat)

  function MarkOf(c: Cell): Mark {
    match c
    case Pointer(address, _) => Mark(PointerKind, address, 0)
    case Slice(address, items) => Mark(SliceKind, address, |items|)
    case Map(address, _, _) => Mark(MapKind, address, 0)
  }

  function Marks(heap: Heap): set<Mark> {
    set id | id in heap :: MarkOf(heap[id])
  }

  /** Entering a cell leaves fewer marks to enter. */
  lemma FewerMarks(id: Id, active: set<Mark>, heap: Heap)
    requires id in heap && MarkOf(heap[id]) !in active
    ensures Marks(heap) - (active + {MarkOf(heap[id])}) < Marks(heap) - active
  {
    assert MarkOf(heap[id]) in Marks(heap) - active;
  }

  function Children(c: Cell): seq<Value> {
    match c
    case Pointer(_, target) => [target]
    case Slice(_, items) => items
    case Map(_, _, values) => values
  }

  /** `v` holds a reference to `id`, directly or inside arrays held by value. */
  predicate Holds(v: Value, id: Id) {
    v == Ref(id) || (v.Array? && exists x | x in v.items :: Holds(x, id))
  }

  /** Every reference leads to a cell. */
  ghost predicate Closed(heap: Heap) {
    forall id, x, y: Id | id in heap && x in Children(heap[id]) && Holds(x, y) :: y in heap
  }

  ghost predicate Rooted(v: Value, heap: Heap) {
    forall id | Holds(v, id) :: id in heap
  }

  // ----- the issues found -----

  function Decimal(n: nat): Text {
    if n < 10 then ['0' as int + n] else Decimal(n / 10) + ['0' as int + n % 10]
  }

  function Indexed(path: Text, i: nat): Text {
    path + [OPEN] + Decimal(i) + [CLOSE]
  }

  /** The path of every value in a map, whatever its key. */
  function Wildcard(path: Text): Text {
    path + [OPEN, 0x7b, 0x2a, 0x7d, CLOSE]
  }

  function KeyIssue(k: Key, path: Text): seq<Issue> {
    match k
    case OtherKey => [Issue(InvalidJSON, Wildcard(path))]
    case StringKey(valid) => if valid then [] else [Issue(InvalidUnicode, Wildcard(path))]
  }

  /** The issue of the first bad key. */
  function KeysIssue(keys: seq<Key>, n: nat, path: Text): seq<Issue>
    requires n <= |keys|
    decreases |keys| - n
  {
    if n == |keys| then []
    else if KeyIssue(keys[n], path) != [] then KeyIssue(keys[n], path)
    else KeysIssue(keys, n + 1, path)
  }

  function IssuesAt(v: Value, path: Text, active: set<Mark>, heap: Heap): seq<Issue>
    decreases Marks(heap) - active, v, 1
  {
    match v
    case Number(parses, finite) =>
      if !parses then [Issue(InvalidJSON, path)] else if !finite then [Issue(NonFinite, path)] else []
    case Float(finite) => if finite then [] else [Issue(NonFinite, path)]
    case Str(valid) => if valid then [] else [Issue(InvalidUnicode, path)]
    case Unsupported => [Issue(InvalidJSON, path)]
    case Array(items) => ItemIssues(items, |items|, path, active, heap)
    case Ref(id) =>
      if id !in heap then []
      else
        var mark := MarkOf(heap[id]);
        if mark in active then [Issue(Cycle, path)]
        else
          FewerMarks(id, active, heap);
          CellIssues(heap[id], path, active + {mark}, heap)
    case _ => []
  }

  function CellIssues(c: Cell, path: Text, active: set<Mark>, heap: Heap): seq<Issue>
    decreases Marks(heap) - active, c, 2
  {
    match c
    case Pointer(_, target) => IssuesAt(target, path, active, heap)
    case Slice(_, items) => ItemIssues(items, |items|, path, active, heap)
    case Map(_, keys, values) =>
      if KeysIssue(keys, 0, path) != [] then KeysIssue(keys, 0, path)
      else ValueIssues(values, |values|, path, active, heap)
  }

  function ItemIssues(items: seq<Value>, n: nat, path: Text, active: set<Mark>, heap: Heap): seq<Issue>
    requires n <= |items|
    decreases Marks(heap) - active, items, 0, n
  {
    if n == 0 then []
    else ItemIssues(items, n - 1, path, active, heap) + IssuesAt(items[n - 1], Indexed(path, n - 1), active, heap)
  }

  function ValueIssues(values: seq<Value>, n: nat, path: Text, active: set<Mark>, heap: Heap): seq<Issue>
    requires n <= |values|
    decreases Marks(heap) - active, values, 0, n
  {
    if n == 0 then []
    else ValueIssues(values, n - 1, path, active, heap) + IssuesAt(values[n - 1], Wildcard(path), active, heap)
  }

  // ----- the validator -----

  function AddAll(a: Aggregate, issues: seq<Issue>): Aggregate {
    if issues == [] then a else AddIssue(AddAll(a, issues[..|issues| - 1]), issues[|issues| - 1])
  }

  lemma {:induction false} AddAllConcat(a: Aggregate, x: seq<Issue>, y: seq<Issue>)
    ensures AddAll(a, x + y) == AddAll(AddAll(a, x), y)
    decreases |y|
  {
    hide AddIssue;
    if y == [] {
      assert x + y == x;
    } else {
      var z := y[..|y| - 1];
      AddAllConcat(a, x, z);
      assert (x + y)[..|x + y| - 1] == x + z;
    }
  }

  class Validator {
    const heap: Heap
    /** The marks of the cells being validated, from the root down. */
    var active: set<Mark>
    const issues: ValidationErrors

    constructor (heap: Heap)
      ensures this.heap == heap && active == {} && fresh(issues) && issues.View() == EMPTY
    {
      this.heap := heap;
      active := {};
      issues := new ValidationErrors();
    }

    /** Reports the issues of `v` and leaves the active cells as they were. */
    method ValidateAt(v: Value, path: Text)
      modifies this, issues
      ensures active == old(active)
      ensures issues.View() == AddAll(old(issues.View()), IssuesAt(v, path, old(active), heap))
      decreases Marks(heap) - active, v, 1
    {
      hide AddIssue, CellIssues, ItemIssues;
      match v
      case Nil =>
      case Plain =>
      case Number(parses, finite) =>
        if !parses { Report(InvalidJSON, path); } else if !finite { Report(NonFinite, path); }
      case Float(finite) => if !finite { Report(NonFinite, path); }
      case Str(valid) => if !valid { Report(InvalidUnicode, path); }
      case Unsupported => Report(InvalidJSON, path);
      case Array(items) => ValidateItems(items, path);
      case Ref(id) =>
        if id in heap {
          var mark := MarkOf(heap[id]);
          if mark in active {
            Report(Cycle, path);
          } else {
            FewerMarks(id, active, heap);
            active := active + {mark};
            ValidateCell(heap[id], path);
            active := active - {mark};
          }
        }
    }

    method Report(code: IssueCode, path: Text)
      modifies issues
      ensures issues.View() == AddAll(old(issues.View()), [Issue(code, path)])
    {
      hide AddIssue;
      var taken := issues.Add(OneIssue(Issue(code, path)));
      assert AddAll(old(issues.View()), [Issue(code, path)][..0]) == old(issues.View());
    }

    method ValidateCell(c: Cell, path: Text)
      modifies this, issues
      ensures active == old(active)
      ensures issues.View() == AddAll(old(issues.View()), CellIssues(c, path, old(active), heap))
      decreases Marks(heap) - active, c, 2
    {
      hide AddIssue, KeysIssue, IssuesAt, ItemIssues, ValueIssues;
      match c
      case Pointer(_, target) => ValidateAt(target, path);
      case Slice(_, items) => ValidateItems(items, path);
      case Map(_, keys, values) =>
        var bad := CheckKeys(keys, path);
        if !bad { ValidateValues(values, path); }
    }

    method CheckKeys(keys: seq<Key>, path: Text) returns (bad: bool)
      modifies issues
      ensures bad <==> KeysIssue(keys, 0, path) != []
      ensures issues.View() == AddAll(old(issues.View()), KeysIssue(keys, 0, path))
    {
      hide AddIssue;
      var n := 0;
      while n < |keys|
        invariant 0 <= n <= |keys|
        invariant KeysIssue(keys, n, path) == KeysIssue(keys, 0, path)
        invariant issues.View() == old(issues.View())
      {
        if keys[n].OtherKey? {
          Report(InvalidJSON, Wildcard(path));
          return true;
        }
        if !keys[n].validUnicode {
          Report(InvalidUnicode, Wildcard(path));
          return true;
        }
        n := n + 1;
      }
      return false;
    }

    method ValidateItems(items: seq<Value>, path: Text)
      modifies this, issues
      ensures active == old(active)
      ensures issues.View() == AddAll(old(issues.View()), ItemIssues(items, |items|, path, old(active), heap))
      decreases Marks(heap) - active, items, 0
    {
      hide AddIssue, IssuesAt;
      var n := 0;
      while n < |items|
        invariant 0 <= n <= |items| && active == old(active)
        invariant issues.View() == AddAll(old(issues.View()), ItemIssues(items, n, path, active, heap))
      {
        AddAllConcat(old(issues.View()), ItemIssues(items, n, path, active, heap),
                     IssuesAt(items[n], Indexed(path, n), active, heap));
        ValidateAt(items[n], Indexed(path, n));
        n := n + 1;
      }
    }

    method ValidateValues(values: seq<Value>, path: Text)
      modifies this, issues
      ensures active == old(active)
      ensures issues.View() == AddAll(old(issues.View()), ValueIssues(values, |values|, path, old(active), heap))
      decreases Marks(heap) - active, values, 0
    {
      hide AddIssue, IssuesAt;
      var n := 0;
      while n < |values|
        invariant 0 <= n <= |values| && active == old(active)
        invariant issues.View() == AddAll(old(issues.View()), ValueIssues(values, n, path, active, heap))
      {
        AddAllConcat(old(issues.View()), ValueIssues(values, n, path, active, heap),
                     IssuesAt(values[n], Wildcard(path), active, heap));
        ValidateAt(values[n], Wildcard(path));
        n := n + 1;
      }
    }
  }

  // ----- what the absence of issues means -----

  predicate KeyOk(k: Key) { k.StringKey? && k.validUnicode }

  /** A value is acceptable as far as it goes without following references. */
  predicate LocallyValid(v: Value) {
    match v
    case Number(parses, finite) => parses && finite
    case Float(finite) => finite
    case Str(valid) => valid
    case Unsupported => false
    case Array(items) => forall x | x in items :: LocallyValid(x)
    case _ => true
  }

  predicate CellValid(c: Cell) {
    && (c.Map? ==> forall k | k in c.keys :: KeyOk(k))
    && forall x | x in Children(c) :: LocallyValid(x)
  }

  predicate CellHolds(c: Cell, id: Id) {
    exists x | x in Children(c) :: Holds(x, id)
  }

  /** A walk along references, starting from one that `v` holds. */
  ghost predicate Walk(v: Value, w: seq<Id>, heap: Heap) {
    w != [] ==>
      && Holds(v, w[0])
      && (forall i | 0 <= i < |w| :: w[i] in heap)
      && (forall i | 0 <= i < |w| - 1 :: CellHolds(heap[w[i]], w[i + 1]))
  }

  /** The same cell twice: a cycle. */
  ghost predicate Repeats(w: seq<Id>) {
    exists i, j :: 0 <= i < j < |w| && w[i] == w[j]
  }

  predicate SameMark(a: Id, b: Id, heap: Heap) {
    a in heap && b in heap && MarkOf(heap[a]) == MarkOf(heap[b])
  }

  /** The same mark twice. */
  ghost predicate Revisits(w: seq<Id>, heap: Heap) {
    exists i, j :: 0 <= i < j < |w| && SameMark(w[i], w[j], heap)
  }

  /** No walk from `v` meets an invalid cell, the mark of an active cell, or the same mark twice. */
  ghost predicate CleanWalk(w: seq<Id>, active: set<Mark>, heap: Heap) {
    && !Revisits(w, heap)
    && forall id | id in w && id in heap :: MarkOf(heap[id]) !in active && CellValid(heap[id])
  }

  /** The recursive reading: no issue in `v` below the active cells. */
  predicate Clean(v: Value, active: set<Mark>, heap: Heap)
    decreases Marks(heap) - active, v
  {
    match v
    case Array(items) => forall x | x in items :: Clean(x, active, heap)
    case Ref(id) =>
      id in heap ==>
        var mark := MarkOf(heap[id]);
        && mark !in active
        && (heap[id].Map? ==> forall k | k in heap[id].keys :: KeyOk(k))
        && (FewerMarks(id, active, heap);
            forall x | x in Children(heap[id]) :: Clean(x, active + {mark}, heap))
    case _ => LocallyValid(v)
  }

  lemma {:induction false} NoKeyIssue(keys: seq<Key>, n: nat, path: Text)
    requires n <= |keys|
    ensures KeysIssue(keys, n, path) == [] <==> forall i | n <= i < |keys| :: KeyOk(keys[i])
    decreases |keys| - n
  {
    if n < |keys| { NoKeyIssue(keys, n + 1, path); }
  }

  lemma {:induction false} NoIssueIsClean(v: Value, path: Text, active: set<Mark>, heap: Heap)
    ensures IssuesAt(v, path, active, heap) == [] <==> Clean(v, active, heap)
    decreases Marks(heap) - active, v, 1
  {
    hide CellIssues, ItemIssues;
    match v
    case Array(items) => NoItemIssue(items, |items|, path, active, heap);
    case Ref(id) =>
      if id in heap && MarkOf(heap[id]) !in active {
        FewerMarks(id, active, heap);
        NoCellIssue(heap[id], path, active + {MarkOf(heap[id])}, heap);
      }
    case _ =>
  }

  lemma {:induction false} NoCellIssue(c: Cell, path: Text, active: set<Mark>, heap: Heap)
    ensures CellIssues(c, path, active, heap) == []
       <==> (c.Map? ==> forall k | k in c.keys :: KeyOk(k)) && forall x | x in Children(c) :: Clean(x, active, heap)
    decreases Marks(heap) - active, c, 2
  {
    hide IssuesAt, ItemIssues, ValueIssues, Clean, KeysIssue;
    match c
    case Pointer(_, target) =>
      NoIssueIsClean(target, path, active, heap);
      assert Children(c)[0] == target;
    case Slice(_, items) => NoItemIssue(items, |items|, path, active, heap);
    case Map(_, keys, values) =>
      NoKeyIssue(keys, 0, path);
      NoValueIssue(values, |values|, path, active, heap);
  }

  lemma {:induction false} NoItemIssue(items: seq<Value>, n: nat, path: Text, active: set<Mark>, heap: Heap)
    requires n <= |items|
    ensures ItemIssues(items, n, path, active, heap) == [] <==> forall i | 0 <= i < n :: Clean(items[i], active, heap)
    decreases Marks(heap) - active, items, 0, n
  {
    hide IssuesAt, Clean;
    if n > 0 {
      NoItemIssue(items, n - 1, path, active, heap);
      NoIssueIsClean(items[n - 1], Indexed(path, n - 1), active, heap);
    }
  }

  lemma {:induction false} NoValueIssue(values: seq<Value>, n: nat, path: Text, active: set<Mark>, heap: Heap)
    requires n <= |values|
    ensures ValueIssues(values, n, path, active, heap) == []
            <==> forall i | 0 <= i < n :: Clean(values[i], active, heap)
    decreases Marks(heap) - active, values, 0, n
  {
    hide IssuesAt, Clean;
    if n > 0 {
      NoValueIssue(values, n - 1, path, active, heap);
      NoIssueIsClean(values[n - 1], Wildcard(path), active, heap);
    }
  }

  /** A clean value is locally valid, and so is every reference it holds. */
  lemma {:induction false} CleanHolds(v: Value, id: Id, active: set<Mark>, heap: Heap)
    requires Clean(v, active, heap)
    ensures LocallyValid(v)
    ensures Holds(v, id) ==> Clean(Ref(id), active, heap)
    decreases v
  {
    if v.Array? {
      forall x | x in v.items ensures LocallyValid(x) && (Holds(x, id) ==> Clean(Ref(id), active, heap)) {
        CleanHolds(x, id, active, heap);
      }
    }
  }

  lemma CleanCell(id: Id, active: set<Mark>, heap: Heap)
    requires id in heap && Clean(Ref(id), active, heap)
    ensures MarkOf(heap[id]) !in active && CellValid(heap[id])
    ensures forall x | x in Children(heap[id]) :: Clean(x, active + {MarkOf(heap[id])}, heap)
  {
    forall x | x in Children(heap[id]) ensures LocallyValid(x) {
      CleanHolds(x, 0, active + {MarkOf(heap[id])}, heap);
    }
  }

  lemma {:induction false} CleanWalks(v: Value, w: seq<Id>, active: set<Mark>, heap: Heap)
    requires Clean(v, active, heap) && Walk(v, w, heap)
    ensures CleanWalk(w, active, heap)
    decreases |w|
  {
    hide Clean, Holds, CellValid;
    if w != [] {
      var id, rest := w[0], w[1..];
      CleanHolds(v, id, active, heap);
      CleanCell(id, active, heap);
      if rest == [] {
        assert w == [id];
      } else {
        assert CellHolds(heap[w[0]], w[0 + 1]);
        var x :| x in Children(heap[id]) && Holds(x, rest[0]);
        forall i | 0 <= i < |rest| - 1 ensures CellHolds(heap[rest[i]], rest[i + 1]) {
          assert CellHolds(heap[w[i + 1]], w[i + 1 + 1]);
        }
        CleanWalks(x, rest, active + {MarkOf(heap[id])}, heap);
        WalkBack(w, active, heap);
      }
    }
  }

  /** A clean walk below an active cell extends to a clean walk through it. */
  lemma WalkBack(w: seq<Id>, active: set<Mark>, heap: Heap)
    requires w != [] && w[0] in heap && MarkOf(heap[w[0]]) !in active && CellValid(heap[w[0]])
    requires CleanWalk(w[1..], active + {MarkOf(heap[w[0]])}, heap)
    ensures CleanWalk(w, active, heap)
  {
    hide CellValid;
    var rest := w[1..];
    assert forall i | 1 <= i < |w| :: w[i] == rest[i - 1];
    assert w == [w[0]] + rest;
    forall i, j | 0 <= i < j < |w| ensures !SameMark(w[i], w[j], heap) {
      assert rest[j - 1] in rest;
      if i > 0 { assert !SameMark(rest[i - 1], rest[j - 1], heap); }
    }
  }

  ghost predicate AllWalksClean(v: Value, active: set<Mark>, heap: Heap) {
    forall w | Walk(v, w, heap) :: CleanWalk(w, active, heap)
  }

  lemma {:induction false} WalksMakeClean(v: Value, active: set<Mark>, heap: Heap)
    requires Closed(heap) && Rooted(v, heap) && LocallyValid(v) && AllWalksClean(v, active, heap)
    ensures Clean(v, active, heap)
    decreases Marks(heap) - active, v
  {
    hide Walk, CleanWalk, CellValid, Closed;
    match v
    case Array(items) =>
      forall x | x in items ensures Clean(x, active, heap) {
        WalksInside(v, x, active, heap);
        WalksMakeClean(x, active, heap);
      }
    case Ref(id) =>
      WalksBelow(id, active, heap);
      CellIsValid(heap[id]);
      FewerMarks(id, active, heap);
      var entered := active + {MarkOf(heap[id])};
      forall x | x in Children(heap[id]) ensures Clean(x, entered, heap) {
        WalksMakeClean(x, entered, heap);
      }
    case _ =>
  }

  lemma CellIsValid(c: Cell)
    requires CellValid(c)
    ensures c.Map? ==> forall k | k in c.keys :: KeyOk(k)
    ensures forall x | x in Children(c) :: LocallyValid(x)
  {
  }

  lemma WalksInside(v: Value, x: Value, active: set<Mark>, heap: Heap)
    requires v.Array? && x in v.items && Rooted(v, heap) && AllWalksClean(v, active, heap)
    ensures Rooted(x, heap) && AllWalksClean(x, active, heap)
  {
    hide CleanWalk;
    forall id | Holds(x, id) ensures Holds(v, id) {}
    forall w | Walk(x, w, heap) ensures CleanWalk(w, active, heap) {
      assert Walk(v, w, heap);
    }
  }

  lemma WalksBelow(id: Id, active: set<Mark>, heap: Heap)
    requires Closed(heap) && Rooted(Ref(id), heap) && AllWalksClean(Ref(id), active, heap)
    ensures id in heap && MarkOf(heap[id]) !in active && CellValid(heap[id])
    ensures forall x | x in Children(heap[id]) ::
              Rooted(x, heap) && AllWalksClean(x, active + {MarkOf(heap[id])}, heap)
  {
    hide CellValid;
    var v := Ref(id);
    assert Holds(v, id);
    assert Walk(v, [id], heap);
    assert id in [id];
    var entered := active + {MarkOf(heap[id])};
    forall x | x in Children(heap[id]) ensures Rooted(x, heap) && AllWalksClean(x, entered, heap) {
      forall w | Walk(x, w, heap) ensures CleanWalk(w, entered, heap) {
        LongerWalk(id, x, w, heap);
        ShorterClean(id, w, active, heap);
      }
    }
  }

  lemma LongerWalk(id: Id, x: Value, w: seq<Id>, heap: Heap)
    requires id in heap && x in Children(heap[id]) && Walk(x, w, heap)
    ensures Walk(Ref(id), [id] + w, heap)
  {
    hide Holds;
    var l := [id] + w;
    assert Holds(Ref(id), id) by { HoldsSelf(id); }
    forall i | 0 <= i < |l| - 1 ensures CellHolds(heap[l[i]], l[i + 1]) {
      if i > 0 { assert CellHolds(heap[w[i - 1]], w[i - 1 + 1]); }
    }
  }

  lemma HoldsSelf(id: Id)
    ensures Holds(Ref(id), id)
  {
  }

  lemma ShorterClean(id: Id, w: seq<Id>, active: set<Mark>, heap: Heap)
    requires id in heap && CleanWalk([id] + w, active, heap)
    ensures CleanWalk(w, active + {MarkOf(heap[id])}, heap)
  {
    hide CellValid;
    var l := [id] + w;
    forall i, j | 0 <= i < j < |w| ensures !SameMark(w[i], w[j], heap) {
      assert l[i + 1] == w[i] && l[j + 1] == w[j];
    }
    forall k | k in w && k in heap ensures k in l && MarkOf(heap[k]) != MarkOf(heap[id]) {
      var i :| 0 <= i < |w| && w[i] == k;
      assert l[0] == id && l[i + 1] == k;
      assert !SameMark(l[0], l[i + 1], heap);
    }
  }

  /** Everything reached is valid. */
  ghost predicate ReachesValid(v: Value, heap: Heap) {
    LocallyValid(v) && forall w, id | Walk(v, w, heap) && id in w && id in heap :: CellValid(heap[id])
  }

  ghost predicate Acyclic(v: Value, heap: Heap) {
    forall w | Walk(v, w, heap) :: !Repeats(w)
  }

  ghost predicate MarkedApart(v: Value, heap: Heap) {
    forall w | Walk(v, w, heap) :: !Revisits(w, heap)
  }

  /** Whether validation reports nothing. */
  predicate Passes(v: Value, path: Text, heap: Heap) {
    AddAll(EMPTY, IssuesAt(v, path, {}, heap)).count == 0
  }

  /**
   Validation reports nothing exactly when the value and every cell it reaches
   are valid and no walk along references meets a mark twice. A cell reached
   along two different walks is not an issue.
   */
  lemma NoIssuesExactlyWhenValidAndMarkedApart(v: Value, path: Text, heap: Heap)
    requires Closed(heap) && Rooted(v, heap)
    ensures Passes(v, path, heap) <==> ReachesValid(v, heap) && MarkedApart(v, heap)
  {
    hide Clean, IssuesAt, LocallyValid, CellValid, Revisits;
    NoIssueIsClean(v, path, {}, heap);
    CountedIssues(EMPTY, IssuesAt(v, path, {}, heap));
    if Clean(v, {}, heap) {
      CleanHolds(v, 0, {}, heap);
      forall w | Walk(v, w, heap) ensures CleanWalk(w, {}, heap) {
        CleanWalks(v, w, {}, heap);
      }
    }
    if ReachesValid(v, heap) && MarkedApart(v, heap) {
      forall w | Walk(v, w, heap) ensures CleanWalk(w, {}, heap) {}
      WalksMakeClean(v, {}, heap);
    }
  }

  /** Different cells with one mark on a walk. */
  ghost predicate Confused(v: Value, heap: Heap) {
    exists w, i, j :: Walk(v, w, heap) && 0 <= i < j < |w| && w[i] != w[j] && SameMark(w[i], w[j], heap)
  }

  /**
   What passes is valid and acyclic. What is valid and acyclic passes if and
   only if no walk meets different cells with one mark.
   */
  lemma NoIssuesExactlyWhenValidAndAcyclic(v: Value, path: Text, heap: Heap)
    requires Closed(heap) && Rooted(v, heap)
    ensures Passes(v, path, heap) ==> ReachesValid(v, heap) && Acyclic(v, heap)
    ensures ReachesValid(v, heap) && Acyclic(v, heap) ==> (Passes(v, path, heap) <==> !Confused(v, heap))
    ensures !Confused(v, heap) ==> (Passes(v, path, heap) <==> ReachesValid(v, heap) && Acyclic(v, heap))
  {
    hide Passes, ReachesValid;
    NoIssuesExactlyWhenValidAndMarkedApart(v, path, heap);
    if MarkedApart(v, heap) {
      forall w | Walk(v, w, heap) ensures !Repeats(w) {
        assert forall i, j | 0 <= i < j < |w| :: !SameMark(w[i], w[j], heap);
      }
      assert !Confused(v, heap);
    } else {
      var w :| Walk(v, w, heap) && Revisits(w, heap);
      var i, j :| 0 <= i < j < |w| && SameMark(w[i], w[j], heap);
      assert w[i] == w[j] || Confused(v, heap);
    }
  }

  // ----- an input -----

  /** An array of a number and a pointer to that number, and a pointer to the array, which is at the same address. */
  const OVERLAID: Heap := map[0 := Pointer(1, Array(PAIR)), 1 := Pointer(1, Plain)]

  const PAIR: seq<Value> := [Plain, Ref(1)]

  lemma OverlaidHolds(id: Id)
    ensures Holds(Array(PAIR), id) ==> id == 1
    ensures CellHolds(OVERLAID[0], id) ==> id == 1
    ensures !CellHolds(OVERLAID[1], id)
  {
    forall x | x in PAIR ensures Holds(x, id) ==> id == 1 {}
  }

  lemma OverlaidWalks(w: seq<Id>)
    requires Walk(Ref(0), w, OVERLAID)
    ensures !Repeats(w)
  {
    hide CellHolds, Holds;
    if |w| > 0 { assert Holds(Ref(0), w[0]) ==> w[0] == 0 by { HoldsOnlySelf(0, w[0]); } }
    if |w| > 1 {
      assert CellHolds(OVERLAID[w[0]], w[0 + 1]);
      OverlaidHolds(w[1]);
    }
    if |w| > 2 {
      assert CellHolds(OVERLAID[w[1]], w[1 + 1]);
      OverlaidHolds(w[2]);
    }
  }

  lemma HoldsOnlySelf(id: Id, other: Id)
    ensures Holds(Ref(id), other) ==> other == id
  {
  }

  lemma OverlaidIssues(path: Text, active: set<Mark>)
    requires MarkOf(OVERLAID[1]) in active
    ensures CellIssues(OVERLAID[0], path, active, OVERLAID) == [Issue(Cycle, Indexed(path, 1))]
  {
    hide Indexed;
    assert ItemIssues(PAIR, 1, path, active, OVERLAID) == ItemIssues(PAIR, 0, path, active, OVERLAID) + [];
    assert IssuesAt(Array(PAIR), path, active, OVERLAID) == ItemIssues(PAIR, 2, path, active, OVERLAID);
    assert OVERLAID[0] == Pointer(1, Array(PAIR));
  }

  /** It is valid and acyclic, and a cycle is reported. */
  lemma OverlaidIsReported(path: Text)
    ensures Closed(OVERLAID) && Rooted(Ref(0), OVERLAID)
    ensures ReachesValid(Ref(0), OVERLAID) && Acyclic(Ref(0), OVERLAID)
    ensures IssuesAt(Ref(0), path, {}, OVERLAID) == [Issue(Cycle, Indexed(path, 1))]
  {
    forall w | Walk(Ref(0), w, OVERLAID) ensures !Repeats(w) {
      OverlaidWalks(w);
    }
    forall id | CellHolds(OVERLAID[0], id) || CellHolds(OVERLAID[1], id) ensures id in OVERLAID {
      OverlaidHolds(id);
    }
    OverlaidIssues(path, {} + {MarkOf(OVERLAID[0])});
    hide CellIssues, Indexed, Holds;
  }

  lemma {:induction false} CountedIssues(a: Aggregate, issues: seq<Issue>)
    ensures AddAll(a, issues).count == 0 <==> a.count == 0 && issues == []
    decreases |issues|
  {
    if issues != [] {
      CountedIssues(a, issues[..|issues| - 1]);
    }
  }
}
