/** The interpreter's environment: shared binding cells, scopes that own them, and
    loans of a cell's value to a call. */
module Bindings {
  import opened Text

  /** Scalars are integers, floats and booleans. Fields of an object are listed in
      iteration order. A borrowed value is a view of what a lease holds. */
  datatype Value =
    | Scalar(code: int)
    | Null
    | Str(text: string)
    | Task(id: nat)
    | Array(items: seq<Value>)
    | Object(fields: seq<Field>)
    | Result(ok: bool, inner: Value)
    | Borrowed(lease: BorrowLease)

  datatype Field = Field(key: string, value: Value)

  predicate IsScalar(v: Value)
  {
    v.Scalar? || v.Null?
  }

  /** The tasks that a value owns. A view owns nothing. */
  function Tasks(v: Value): seq<nat>
  {
    match v
    case Task(id) => [id]
    case Array(items) => TasksIn(items)
    case Object(fields) => TasksOf(fields)
    case Result(_, inner) => Tasks(inner)
    case _ => []
  }

  function TasksIn(items: seq<Value>): seq<nat>
  {
    if items == [] then [] else Tasks(items[0]) + TasksIn(items[1..])
  }

  function TasksOf(fields: seq<Field>): seq<nat>
  {
    if fields == [] then [] else Tasks(fields[0].value) + TasksOf(fields[1..])
  }

  /** A view anywhere in an owned tree. */
  predicate ContainsBorrowed(v: Value)
  {
    match v
    case Borrowed(_) => true
    case Array(items) => exists k :: 0 <= k < |items| && ContainsBorrowed(items[k])
    case Object(fields) => exists k :: 0 <= k < |fields| && ContainsBorrowed(fields[k].value)
    case Result(_, inner) => ContainsBorrowed(inner)
    case _ => false
  }

  // ---------- the owned tree ----------

  /** Every value of an owned tree, itself first. */
  function Within(v: Value): seq<Value>
  {
    [v] + match v
    case Array(items) => WithinAll(items)
    case Object(fields) => WithinFields(fields)
    case Result(_, inner) => Within(inner)
    case _ => []
  }

  function WithinAll(items: seq<Value>): seq<Value>
  {
    if items == [] then [] else Within(items[0]) + WithinAll(items[1..])
  }

  function WithinFields(fields: seq<Field>): seq<Value>
  {
    if fields == [] then [] else Within(fields[0].value) + WithinFields(fields[1..])
  }

  function TaskIds(vs: seq<Value>): seq<nat>
  {
    if vs == [] then [] else (if vs[0].Task? then [vs[0].id] else []) + TaskIds(vs[1..])
  }

  ghost predicate SomeView(vs: seq<Value>)
  {
    exists k :: 0 <= k < |vs| && vs[k].Borrowed?
  }

  lemma TaskIdsCons(v: Value, rest: seq<Value>)
    ensures TaskIds([v] + rest) == (if v.Task? then [v.id] else []) + TaskIds(rest)
  {
    assert ([v] + rest)[1..] == rest;
  }

  lemma {:induction false} TaskIdsConcat(a: seq<Value>, b: seq<Value>)
    ensures TaskIds(a + b) == TaskIds(a) + TaskIds(b)
  {
    hide TaskIds;
    if a == [] {
      NothingWithin();
      assert a + b == b;
    } else {
      TaskIdsConcat(a[1..], b);
      assert a + b == [a[0]] + (a[1..] + b) && a == [a[0]] + a[1..];
      TaskIdsCons(a[0], a[1..] + b);
      TaskIdsCons(a[0], a[1..]);
    }
  }

  lemma SomeViewConcat(a: seq<Value>, b: seq<Value>)
    ensures SomeView(a + b) <==> SomeView(a) || SomeView(b)
  {
    assert forall k :: 0 <= k < |a| ==> (a + b)[k] == a[k];
    assert forall k :: 0 <= k < |b| ==> (a + b)[|a| + k] == b[k];
  }

  /** The tasks a value owns are the tasks in its tree, in order, and it contains a view
      exactly when its tree does. */
  lemma {:induction false} TreeMeaning(v: Value)
    ensures Tasks(v) == TaskIds(Within(v)) && (ContainsBorrowed(v) <==> SomeView(Within(v)))
    decreases v, 1
  {
    match v
    case Array(items) => ItemsMeaning(items); Rooted(v, WithinAll(items));
    case Object(fields) => FieldsMeaning(fields); Rooted(v, WithinFields(fields));
    case Result(_, inner) => TreeMeaning(inner); Rooted(v, Within(inner));
    case _ => Rooted(v, []);
  }

  lemma Rooted(v: Value, below: seq<Value>)
    ensures TaskIds([v] + below) == (if v.Task? then [v.id] else []) + TaskIds(below)
    ensures SomeView([v] + below) <==> v.Borrowed? || SomeView(below)
  {
    assert ([v] + below)[1..] == below;
    SomeViewConcat([v], below);
    assert [v][0] == v;
  }

  lemma {:induction false} ItemsMeaning(items: seq<Value>)
    ensures TasksIn(items) == TaskIds(WithinAll(items))
    ensures (exists k :: 0 <= k < |items| && ContainsBorrowed(items[k])) <==> SomeView(WithinAll(items))
    decreases items, 0
  {
    hide Tasks, ContainsBorrowed, Within, TaskIds, SomeView;
    if items == [] {
      NothingWithin();
    } else {
      TreeMeaning(items[0]);
      ItemsMeaning(items[1..]);
      TaskIdsConcat(Within(items[0]), WithinAll(items[1..]));
      SomeViewConcat(Within(items[0]), WithinAll(items[1..]));
      assert forall k :: 0 < k < |items| ==> items[k] == items[1..][k - 1];
    }
  }

  lemma {:induction false} FieldsMeaning(fields: seq<Field>)
    ensures TasksOf(fields) == TaskIds(WithinFields(fields))
    ensures (exists k :: 0 <= k < |fields| && ContainsBorrowed(fields[k].value)) <==> SomeView(WithinFields(fields))
    decreases fields, 0
  {
    hide Tasks, ContainsBorrowed, Within, TaskIds, SomeView;
    if fields == [] {
      NothingWithin();
    } else {
      TreeMeaning(fields[0].value);
      FieldsMeaning(fields[1..]);
      TaskIdsConcat(Within(fields[0].value), WithinFields(fields[1..]));
      SomeViewConcat(Within(fields[0].value), WithinFields(fields[1..]));
      assert forall k :: 0 < k < |fields| ==> fields[k] == fields[1..][k - 1];
    }
  }

  lemma NothingWithin()
    ensures TaskIds([]) == [] && !SomeView([])
  {
  }

  /** One binding. */
  class Cell {
    var value: Value
    const mutable: bool
    const ownerTask: int
    const borrowedParameter: bool
    var probe: bool

    constructor (value: Value, mutable: bool, task: int)
      ensures this.value == value && this.mutable == mutable && ownerTask == task
      ensures borrowedParameter == value.Borrowed? && !probe
    {
      this.value, this.mutable, ownerTask, borrowedParameter, probe := value, mutable, task, value.Borrowed?, false;
    }

    /** `check_assignable`. */
    predicate Assignable(task: int)
      reads this
    {
      !value.Borrowed? && mutable && ownerTask == task
    }
  }

  /** Holds a borrowed value for the duration of a call. `taken` is the value that was
      in the cell when the loan began. */
  class BorrowLease {
    const source: Cell
    var root: Option<Value>
    const ownerTask: int
    ghost const taken: Value

    constructor (source: Cell, value: Value, task: int)
      ensures this.source == source && root == Some(value) && ownerTask == task && taken == value
    {
      this.source, root, ownerTask, taken := source, Some(value), task, value;
    }

    /** `drop`: the value goes back to its cell; a second drop does nothing. */
    method Drop()
      modifies this, source
      ensures root == None
      ensures source.value == if old(root).Some? then old(root).value else old(source.value)
      ensures source.probe == old(source.probe)
    {
      if root.Some? {
        source.value := root.value;
        root := None;
      }
    }
  }

  // ---------- scopes ----------

  /** Names and the cells they denote, and the names whose cells this scope cleans up. */
  datatype Scope = Scope(bindings: map<string, Cell>, owned: set<string>)

  const EMPTY_SCOPE: Scope := Scope(map[], {})

  /** The innermost scope that binds a name. */
  function Find(scopes: seq<Scope>, name: string): (r: Option<nat>)
    ensures r.Some? ==> r.value < |scopes| && name in scopes[r.value].bindings
    ensures forall k :: (if r.Some? then r.value else -1) < k < |scopes| ==> name !in scopes[k].bindings
  {
    if |scopes| == 0 then None
    else if name in scopes[|scopes| - 1].bindings then Some(|scopes| - 1)
    else Find(scopes[..|scopes| - 1], name)
  }

  function Lookup(scopes: seq<Scope>, name: string): Option<Cell>
  {
    var k := Find(scopes, name);
    if k.Some? then Some(scopes[k.value].bindings[name]) else None
  }

  /** Bind a name in the innermost scope. */
  function Bind(scopes: seq<Scope>, name: string, cell: Cell): seq<Scope>
    requires |scopes| > 0
  {
    var last := scopes[|scopes| - 1];
    scopes[..|scopes| - 1] + [last.(bindings := last.bindings[name := cell])]
  }

  /** The innermost scope takes responsibility for a name. */
  function Own(scopes: seq<Scope>, name: string): seq<Scope>
    requires |scopes| > 0
  {
    var last := scopes[|scopes| - 1];
    scopes[..|scopes| - 1] + [last.(owned := last.owned + {name})]
  }

  function Disown(scopes: seq<Scope>, name: string): seq<Scope>
    requires |scopes| > 0
  {
    var last := scopes[|scopes| - 1];
    scopes[..|scopes| - 1] + [last.(owned := last.owned - {name})]
  }

  /** The same cells, owned by nobody here. */
  function Shared(scopes: seq<Scope>): (r: seq<Scope>)
    ensures |r| == |scopes|
  {
    seq(|scopes|, k requires 0 <= k < |scopes| => scopes[k].(owned := {}))
  }

  function Captured(scopes: seq<Scope>, names: set<string>): map<string, Cell>
  {
    map n | n in names && Lookup(scopes, n).Some? :: Lookup(scopes, n).value
  }

  /** The innermost scope that binds the name owns it, and the cell is the task's own. */
  ghost predicate OwnedHere(scopes: seq<Scope>, name: string, c: Cell, task: int)
  {
    && Find(scopes, name).Some? && name in scopes[Find(scopes, name).value].owned
    && !c.borrowedParameter && c.ownerTask == task
  }

  /** All cells that a list of scopes can reach. */
  ghost function Reach(scopes: seq<Scope>): set<Cell>
  {
    set k, n | 0 <= k < |scopes| && n in scopes[k].bindings :: scopes[k].bindings[n]
  }

  ghost function Target(scopes: seq<Scope>, name: string): set<Cell>
  {
    match Lookup(scopes, name) case None => {} case Some(c) => {c}
  }

  lemma TargetInReach(scopes: seq<Scope>, name: string)
    ensures Target(scopes, name) <= Reach(scopes)
  {
  }

  /** Binding a name changes what that name denotes and nothing else. */
  lemma BindLookup(scopes: seq<Scope>, name: string, cell: Cell, other: string)
    requires |scopes| > 0
    ensures Lookup(Bind(scopes, name, cell), other) == if other == name then Some(cell) else Lookup(scopes, other)
  {
    var last := |scopes| - 1;
    var bound := Bind(scopes, name, cell);
    assert bound[..last] == scopes[..last];
    if other != name && other !in scopes[last].bindings {
      assert Find(bound, other) == Find(bound[..last], other) && Find(scopes, other) == Find(scopes[..last], other);
    }
  }

  /** Ownership has no influence on what names denote. */
  lemma OwnLookup(scopes: seq<Scope>, name: string, other: string)
    requires |scopes| > 0
    ensures Lookup(Own(scopes, name), other) == Lookup(scopes, other)
    ensures Lookup(Disown(scopes, name), other) == Lookup(scopes, other)
  {
    var last := |scopes| - 1;
    assert Own(scopes, name)[..last] == scopes[..last] && Disown(scopes, name)[..last] == scopes[..last];
  }

  // ---------- the environment ----------

  /** How strictly a definition checks for views: `define`, `define_owned` and
      `define_function_self`, `define_parameter`. */
  datatype Admission = Deep | Root | Parameter

  predicate Admitted(a: Admission, v: Value)
  {
    match a
    case Deep => !ContainsBorrowed(v)
    case Root => !v.Borrowed?
    case Parameter => true
  }

  class Env {
    var scopes: seq<Scope>

    constructor ()
      ensures scopes == [EMPTY_SCOPE]
    {
      scopes := [EMPTY_SCOPE];
    }

    constructor Of(scopes: seq<Scope>)
      ensures this.scopes == scopes
    {
      this.scopes := scopes;
    }

    method PushScope()
      modifies this
      ensures scopes == old(scopes) + [EMPTY_SCOPE]
    {
      scopes := scopes + [EMPTY_SCOPE];
    }

    method PopScope()
      modifies this
      ensures scopes == if |old(scopes)| > 1 then old(scopes)[..|old(scopes)| - 1] else old(scopes)
    {
      if |scopes| > 1 {
        scopes := scopes[..|scopes| - 1];
      }
    }

    method ClearCallFrame()
      modifies this
      ensures scopes == []
    {
      scopes := [];
    }

    /** `define` and its variants: a new cell, owned by the innermost scope. */
    method Define(a: Admission, name: string, value: Value, mutable: bool, task: int) returns (made: Option<Cell>)
      requires |scopes| > 0
      modifies this
      ensures made.Some? <==> Admitted(a, value) && name !in old(scopes)[|old(scopes)| - 1].bindings
      ensures made.Some? ==> && fresh(made.value) && made.value.value == value && made.value.mutable == mutable
                             && made.value.ownerTask == task && !made.value.probe
                             && scopes == Own(Bind(old(scopes), name, made.value), name)
                             && name in scopes[|scopes| - 1].owned
                             && (forall m :: Lookup(scopes, m) == if m == name then made else Lookup(old(scopes), m))
      ensures made.None? ==> scopes == old(scopes)
    {
      var last := |scopes| - 1;
      if !Admitted(a, value) || name in scopes[last].bindings {
        return None;
      }
      var cell := new Cell(value, mutable, task);
      var scope := scopes[last];
      scope := scope.(bindings := scope.bindings[name := cell]);
      scope := scope.(owned := scope.owned + {name});
      ghost var bound := Bind(scopes, name, cell);
      forall m
        ensures Lookup(Own(bound, name), m) == if m == name then Some(cell) else Lookup(scopes, m)
      {
        BindLookup(scopes, name, cell, m);
        OwnLookup(bound, name, m);
      }
      scopes := scopes[..last] + [scope];
      made := Some(cell);
    }

    /** `define_task_match_probe`: a tentative binding that no scope owns. */
    method DefineProbe(name: string, value: Value, task: int) returns (made: Option<Cell>)
      requires |scopes| > 0
      modifies this
      ensures made.Some? <==> !value.Borrowed? && name !in old(scopes)[|old(scopes)| - 1].bindings
      ensures made.Some? ==> && fresh(made.value) && made.value.value == value && made.value.ownerTask == task
                             && made.value.probe && !made.value.mutable
                             && scopes == Disown(Bind(old(scopes), name, made.value), name)
                             && name !in scopes[|scopes| - 1].owned
                             && (forall m :: Lookup(scopes, m) == if m == name then made else Lookup(old(scopes), m))
      ensures made.None? ==> scopes == old(scopes)
    {
      made := Define(Root, name, value, false, task);
      if made.Some? {
        made.value.probe := true;
        var last := |scopes| - 1;
        var kept := scopes[last].owned - {name};
        assert kept == old(scopes)[last].owned - {name};
        forall m
          ensures Lookup(Disown(scopes, name), m) == Lookup(scopes, m)
        {
          OwnLookup(scopes, name, m);
        }
        scopes := scopes[..last] + [scopes[last].(owned := kept)];
      }
    }

    /** The cells of the innermost scope. */
    ghost function LastCells(): set<Cell>
      reads this
    {
      if |scopes| > 0 then scopes[|scopes| - 1].bindings.Values else {}
    }

    /** `commit_task_match_probe`: the tentative binding gets its value and an owner. */
    method CommitProbe(name: string, value: Value, task: int) returns (ok: bool)
      modifies this, LastCells()
      ensures ok ==> |old(scopes)| > 0
      ensures |old(scopes)| > 0 ==>
                var last := old(scopes)[|old(scopes)| - 1];
                && (ok <==> && !value.Borrowed? && name in last.bindings
                            && old(last.bindings[name].probe) && last.bindings[name].ownerTask == task)
                && (ok ==> && scopes == Own(old(scopes), name)
                           && var cell := last.bindings[name];
                              && cell.value == value && !cell.probe
                              && forall c :: c in last.bindings.Values && c != cell ==>
                                   c.value == old(c.value) && c.probe == old(c.probe))
      ensures !ok ==> scopes == old(scopes) && forall c :: c in old(LastCells()) ==>
                 c.value == old(c.value) && c.probe == old(c.probe)
    {
      var last := |scopes| - 1;
      if value.Borrowed? || last < 0 || name !in scopes[last].bindings {
        return false;
      }
      var cell := scopes[last].bindings[name];
      assert cell in scopes[last].bindings.Values;
      if !cell.probe || cell.ownerTask != task {
        return false;
      }
      cell.value := value;
      cell.probe := false;
      scopes := scopes[..last] + [scopes[last].(owned := scopes[last].owned + {name})];
      ok := true;
    }

    /** `borrow`: a view of the named value. A view is handed on and a scalar copied,
        both without a lease; any other value moves into a new lease. */
    method Borrow(name: string, task: int) returns (view: Option<Value>, lease: Option<BorrowLease>)
      modifies Target(scopes, name)
      ensures lease.Some? ==> fresh(lease.value)
      ensures match old(Lookup(scopes, name))
              case None => view.None? && lease.None?
              case Some(c) =>
                && c.probe == old(c.probe)
                && (old(c.value).Borrowed? || old(c.value).Scalar? || old(c.value).Null? ==>
                      lease.None? && c.value == old(c.value))
                && (old(c.value).Borrowed? ==>
                      view == if old(c.value).lease.ownerTask == task then Some(old(c.value)) else None)
                && (old(c.value).Scalar? || old(c.value).Null? ==> view == Some(old(c.value)))
                && (!old(c.value).Borrowed? && !old(c.value).Scalar? && !old(c.value).Null? ==>
                      && lease.Some? && lease.value.source == c && lease.value.ownerTask == task
                      && lease.value.taken == old(c.value) && lease.value.root == Some(old(c.value))
                      && c.value == Borrowed(lease.value) && view == Some(c.value))
    {
      var k := Find(scopes, name);
      if k.None? {
        return None, None;
      }
      var source := scopes[k.value].bindings[name];
      if source.value.Borrowed? {
        return if source.value.lease.ownerTask == task then Some(source.value) else None, None;
      }
      if IsScalar(source.value) {
        return Some(source.value), None;
      }
      var l := new BorrowLease(source, source.value, task);
      source.value := Borrowed(l);
      return Some(source.value), Some(l);
    }

    /** `assign_owned` (root check) and `assign` (deep check). */
    method Assign(deep: bool, name: string, value: Value, task: int) returns (ok: bool)
      modifies Target(scopes, name)
      ensures match old(Lookup(scopes, name))
              case None => !ok
              case Some(c) =>
                && (ok <==> && Admitted(if deep then Deep else Root, value)
                            && !old(c.value).Borrowed? && c.mutable && c.ownerTask == task)
                && c.value == (if ok then value else old(c.value))
                && c.probe == old(c.probe)
    {
      var k := Find(scopes, name);
      if !Admitted(if deep then Deep else Root, value) || k.None? {
        return false;
      }
      var cell := scopes[k.value].bindings[name];
      if !cell.Assignable(task) {
        return false;
      }
      cell.value := value;
      ok := true;
    }

    /** `append_string`: appends, declines another kind of value, or fails. */
    method AppendString(name: string, text: string, task: int) returns (ok: bool)
      modifies Target(scopes, name)
      ensures match old(Lookup(scopes, name))
              case None => !ok
              case Some(c) =>
                && (ok <==> old(c.value).Str? && c.mutable && c.ownerTask == task)
                && c.value == (if ok then Str(old(c.value).text + text) else old(c.value))
                && c.probe == old(c.probe)
    {
      var k := Find(scopes, name);
      if k.None? {
        return false;
      }
      var cell := scopes[k.value].bindings[name];
      if !cell.value.Str? || !cell.Assignable(task) {
        return false;
      }
      cell.value := Str(cell.value.text + text);
      ok := true;
    }

    /** `append_array`. */
    method AppendArray(name: string, value: Value, task: int) returns (ok: bool)
      modifies Target(scopes, name)
      ensures match old(Lookup(scopes, name))
              case None => !ok
              case Some(c) =>
                && (ok <==> !value.Borrowed? && old(c.value).Array? && c.mutable && c.ownerTask == task)
                && c.value == (if ok then Array(old(c.value).items + [value]) else old(c.value))
                && c.probe == old(c.probe)
    {
      var k := Find(scopes, name);
      if value.Borrowed? || k.None? {
        return false;
      }
      var cell := scopes[k.value].bindings[name];
      if !cell.Assignable(task) || !cell.value.Array? {
        return false;
      }
      cell.value := Array(cell.value.items + [value]);
      ok := true;
    }

    /** May the innermost binding of a name be moved out of? */
    predicate Movable(k: nat, name: string, task: int)
      requires k < |scopes| && name in scopes[k].bindings
      reads this, scopes[k].bindings[name]
    {
      var cell := scopes[k].bindings[name];
      && !cell.probe && name in scopes[k].owned && !cell.borrowedParameter && cell.ownerTask == task
    }

    /** `take_owned_string` and, with `json`, `take_owned_json_value`: move a value out
        of its owning scope. `shared` says whether others hold the cell. */
    method Take(json: bool, shared: bool, name: string, task: int) returns (taken: Option<Value>)
      modifies Target(scopes, name)
      ensures match old(Lookup(scopes, name))
              case None => taken.None?
              case Some(c) =>
                && (taken.Some? <==> && OwnedHere(scopes, name, c, task) && !old(c.probe) && !old(c.value).Borrowed?
                                     && if json then !shared else old(c.value).Str?)
                && (taken.Some? ==> taken.value == old(c.value))
                && c.value == (if taken.Some? then Null else old(c.value))
                && c.probe == old(c.probe)
    {
      var k := Find(scopes, name);
      if k.None? {
        return None;
      }
      var cell := scopes[k.value].bindings[name];
      if !Movable(k.value, name, task) || cell.value.Borrowed? || (json && shared) || (!json && !cell.value.Str?) {
        return None;
      }
      taken := Some(cell.value);
      cell.value := Null;
    }

    /** `get_owning`: a value that owns tasks moves, any other is copied. A read by
        another task during a loan sees the loaned value itself. */
    method GetOwning(name: string, task: int) returns (r: Option<Value>)
      modifies Target(scopes, name)
      ensures match old(Lookup(scopes, name))
              case None => r.None?
              case Some(c) =>
                && c.probe == old(c.probe)
                && (Tasks(old(c.value)) == [] ==> c.value == old(c.value))
                && (Tasks(old(c.value)) != [] ==>
                      && (r.Some? <==> OwnedHere(scopes, name, c, task) && !old(c.probe))
                      && (r.Some? ==> r.value == old(c.value) && c.value == Null)
                      && (r.None? ==> c.value == old(c.value)))
                && (Tasks(old(c.value)) == [] && !old(c.value).Borrowed? ==> r == Some(old(c.value)))
                && (old(c.value).Borrowed? && old(c.value).lease.ownerTask == task ==> r == Some(old(c.value)))
                && (old(c.value).Borrowed? && old(c.value).lease.ownerTask != task ==>
                      r == if c.borrowedParameter || old(c.value.lease.root).None?
                              || Tasks(old(c.value.lease.root.value)) != [] then None
                           else old(c.value.lease.root))
    {
      var k := Find(scopes, name);
      if k.None? {
        return None;
      }
      var cell := scopes[k.value].bindings[name];
      if Tasks(cell.value) != [] {
        if !Movable(k.value, name, task) {
          return None;
        }
        r := Some(cell.value);
        cell.value := Null;
        return;
      }
      if cell.value.Borrowed? && cell.value.lease.ownerTask != task {
        var root := cell.value.lease.root;
        if cell.borrowedParameter || root.None? || Tasks(root.value) != [] {
          return None;
        }
        return root;
      }
      r := Some(cell.value);
    }

    /** `clone`: shares every cell and owns none. */
    method Clone() returns (copy: Env)
      ensures fresh(copy) && copy.scopes == Shared(scopes) && |copy.scopes| == |scopes|
      ensures forall k :: 0 <= k < |scopes| ==> copy.scopes[k] == Scope(scopes[k].bindings, {})
    {
      copy := new Env.Of(Shared(scopes));
    }

    /** `capture`: one scope with the named cells, owning none. */
    method Capture(names: set<string>) returns (copy: Env)
      ensures fresh(copy) && copy.scopes == [Scope(Captured(scopes, names), {})]
      ensures forall n :: n in copy.scopes[0].bindings <==> n in names && Lookup(scopes, n).Some?
      ensures forall n :: n in copy.scopes[0].bindings ==> Lookup(scopes, n) == Some(copy.scopes[0].bindings[n])
    {
      var captured: map<string, Cell> := map[];
      var left := names;
      while left != {}
        invariant left <= names && captured == Captured(scopes, names - left)
        decreases left
      {
        var name :| name in left;
        var k := Find(scopes, name);
        assert names - (left - {name}) == (names - left) + {name};
        if k.Some? {
          captured := captured[name := scopes[k.value].bindings[name]];
        }
        left := left - {name};
      }
      assert names - left == names;
      copy := new Env.Of([Scope(captured, {})]);
    }
  }
}
