/** Who cleans up a cell, and what a loan promises, over every history of
    environments that share cells. */
module Ownership {
  import opened Text
  import opened Bindings

  // ---------- owners, as a relation on tables of scopes ----------

  /** The scopes of every environment. */
  type Tables = seq<seq<Scope>>

  /** One name in one scope of one environment. */
  datatype Slot = Slot(env: nat, scope: nat, name: string)

  /** The cell that a slot is responsible for. */
  ghost function Owned(t: Tables, s: Slot): Option<Cell>
  {
    if s.env < |t| && s.scope < |t[s.env]| then
      var scope := t[s.env][s.scope];
      if s.name in scope.owned && s.name in scope.bindings then Some(scope.bindings[s.name]) else None
    else None
  }

  /** Each cell is cleaned up by at most one scope. */
  ghost predicate Unique(t: Tables)
  {
    forall s, s' :: Owned(t, s).Some? && Owned(t, s) == Owned(t, s') ==> s == s'
  }

  /** No owner is new except, possibly, `s0` for `c0`. */
  ghost predicate OnlyNew(t: Tables, t': Tables, s0: Slot, c0: Cell)
  {
    forall s :: Owned(t', s).Some? ==> Owned(t', s) == Owned(t, s) || (s == s0 && Owned(t', s) == Some(c0))
  }

  ghost predicate NothingNew(t: Tables, t': Tables)
  {
    forall s :: Owned(t', s).Some? ==> Owned(t', s) == Owned(t, s)
  }

  ghost predicate Ownerless(t: Tables, c: Cell)
  {
    forall s :: Owned(t, s) != Some(c)
  }

  lemma NewOwnerIsUnique(t: Tables, t': Tables, s0: Slot, c0: Cell)
    requires Unique(t) && OnlyNew(t, t', s0, c0) && Ownerless(t, c0)
    ensures Unique(t')
  {
    hide Owned;
  }

  lemma FewerOwnersAreUnique(t: Tables, t': Tables)
    requires Unique(t) && NothingNew(t, t')
    ensures Unique(t')
  {
    hide Owned;
  }

  lemma DefineOwners(t: Tables, k: nat, name: string, c: Cell)
    requires k < |t| && |t[k]| > 0 && name !in t[k][|t[k]| - 1].bindings
    ensures OnlyNew(t, t[k := Own(Bind(t[k], name, c), name)], Slot(k, |t[k]| - 1, name), c)
  {
  }

  lemma ProbeOwners(t: Tables, k: nat, name: string, c: Cell)
    requires k < |t| && |t[k]| > 0
    ensures NothingNew(t, t[k := Disown(Bind(t[k], name, c), name)])
  {
  }

  lemma CommitOwners(t: Tables, k: nat, name: string)
    requires k < |t| && |t[k]| > 0 && name in t[k][|t[k]| - 1].bindings
    ensures var last := |t[k]| - 1;
            OnlyNew(t, t[k := Own(t[k], name)], Slot(k, last, name), t[k][last].bindings[name])
  {
  }

  lemma ScopeOwners(t: Tables, k: nat, scopes: seq<Scope>)
    requires k < |t|
    requires scopes == t[k] + [EMPTY_SCOPE] || scopes <= t[k]
    ensures NothingNew(t, t[k := scopes])
  {
  }

  lemma SharedOwners(t: Tables, scopes: seq<Scope>)
    requires forall i :: 0 <= i < |scopes| ==> scopes[i].owned == {}
    ensures NothingNew(t, t + [scopes])
  {
  }

  lemma OwnerIsReached(t: Tables, s: Slot)
    requires Owned(t, s).Some?
    ensures s.env < |t| && Owned(t, s).value in Reach(t[s.env])
  {
  }

  // ---------- every history ----------

  /** An operation on the environment or lease with the given number. */
  datatype Op =
    | New
    | Clone(env: nat)
    | Capture(env: nat, names: set<string>)
    | Push(env: nat)
    | Pop(env: nat)
    | Clear(env: nat)
    | Define(env: nat, admission: Admission, name: string, value: Value, mutable: bool)
    | Probe(env: nat, name: string, value: Value)
    | Commit(env: nat, name: string, value: Value)
    | Borrow(env: nat, name: string)
    | DropLease(lease: nat)
    | Assign(env: nat, deep: bool, name: string, value: Value)
    | AppendString(env: nat, name: string, text: string)
    | AppendArray(env: nat, name: string, value: Value)
    | Take(env: nat, json: bool, shared: bool, name: string)
    | GetOwning(env: nat, name: string)

  ghost predicate Distinct<T>(xs: seq<T>)
  {
    forall i, j :: 0 <= i < j < |xs| ==> xs[i] != xs[j]
  }

  /** An open lease keeps the value taken from its cell. */
  ghost predicate LeaseHolds(l: BorrowLease)
    reads l
  {
    l.root.Some? ==> l.root.value == l.taken && !l.taken.Borrowed? && !IsScalar(l.taken)
  }

  /** The cell still holds the view that the lease left in it. */
  ghost predicate Views(l: BorrowLease)
    reads l.source
  {
    l.source.value == Borrowed(l)
  }

  /** What can end a loan: a tentative cell got its value, or a lease gave its value back. */
  datatype Event = Committed(cell: Cell) | Restored(lease: BorrowLease)

  /** An event that puts another value into the cell of this lease. */
  predicate Disturbs(e: Event, l: BorrowLease)
  {
    match e
    case Committed(cell) => cell == l.source
    case Restored(other) => other != l && other.source == l.source
  }

  ghost predicate Disturbed(events: seq<Event>, l: BorrowLease)
  {
    exists i :: 0 <= i < |events| && Disturbs(events[i], l)
  }

  lemma DisturbedConcat(a: seq<Event>, b: seq<Event>, l: BorrowLease)
    ensures Disturbed(a + b, l) <==> Disturbed(a, l) || Disturbed(b, l)
  {
    hide Disturbs;
    assert forall i :: 0 <= i < |a| ==> (a + b)[i] == a[i];
    assert forall i :: 0 <= i < |b| ==> (a + b)[|a| + i] == b[i];
  }

  predicate Writes(op: Op)
  {
    op.Assign? || op.AppendString? || op.AppendArray? || op.Take? || op.GetOwning?
  }

  lemma AdmittedIsOwned(deep: bool, value: Value)
    ensures Admitted(if deep then Deep else Root, value) ==> !value.Borrowed?
  {
  }

  /** None of these operations touches a value on loan, or makes a loan. */
  method Write(e: Env, op: Op, task: int)
    requires Writes(op)
    modifies Target(e.scopes, op.name)
    ensures forall c :: c in Target(e.scopes, op.name) ==>
              && (old(c.value).Borrowed? || c.value.Borrowed? ==> c.value == old(c.value))
              && c.probe == old(c.probe)
  {
    hide Find, Admitted;
    match op
    case Assign(_, deep, name, value) =>
      AdmittedIsOwned(deep, value);
      var _ := e.Assign(deep, name, value, task);
    case AppendString(_, name, text) => var _ := e.AppendString(name, text, task);
    case AppendArray(_, name, value) => var _ := e.AppendArray(name, value, task);
    case Take(_, json, shared, name) => var _ := e.Take(json, shared, name, task);
    case GetOwning(_, name) => var _ := e.GetOwning(name, task);
  }

  /** The scopes know only these cells, and each of these has at most one owner; a
      tentative one has none. */
  ghost predicate OneOwner(t: Tables, cells: set<Cell>)
    reads cells
  {
    && (forall k :: 0 <= k < |t| ==> Reach(t[k]) <= cells)
    && Unique(t)
    && (forall s :: Owned(t, s).Some? ==> Owned(t, s).value in cells && !Owned(t, s).value.probe)
  }

  lemma KnownReach(t: Tables, cells: set<Cell>, k: nat)
    requires OneOwner(t, cells) && k < |t|
    ensures Reach(t[k]) <= cells
  {
  }

  /** A change of one environment that makes nobody an owner. */
  lemma NoNewOwner(t: Tables, cells: set<Cell>, k: nat, scopes: seq<Scope>, more: set<Cell>)
    requires OneOwner(t, cells) && k < |t| && NothingNew(t, t[k := scopes]) && Reach(scopes) <= cells + more
    ensures OneOwner(t[k := scopes], cells + more)
  {
    hide Owned, Reach, Unique;
    FewerOwnersAreUnique(t, t[k := scopes]);
  }

  /** A change of one environment that gives one cell, without an owner so far, its owner. */
  lemma OneNewOwner(t: Tables, cells: set<Cell>, k: nat, scopes: seq<Scope>, more: set<Cell>, s: Slot, c: Cell)
    requires OneOwner(t, cells) && k < |t| && OnlyNew(t, t[k := scopes], s, c) && Ownerless(t, c)
    requires Reach(scopes) <= cells + more && c in cells + more && !c.probe
    ensures OneOwner(t[k := scopes], cells + more)
  {
    hide Owned, Reach, Unique;
    NewOwnerIsUnique(t, t[k := scopes], s, c);
  }

  class Runtime {
    var envs: seq<Env>
    var leases: seq<BorrowLease>
    ghost var cells: set<Cell>
    ghost var events: seq<Event>

    ghost function Table(): (t: Tables)
      reads this, envs
      ensures |t| == |envs| && forall k :: 0 <= k < |t| ==> t[k] == envs[k].scopes
    {
      seq(|envs|, k requires 0 <= k < |envs| reads this, envs => envs[k].scopes)
    }

    /** One owner per cell, none for a tentative one. */
    ghost predicate Owners()
      reads this, envs, cells
    {
      Distinct(envs) && OneOwner(Table(), cells)
    }

    ghost predicate Loans()
      reads this, leases, cells
    {
      && Distinct(leases)
      && (forall l :: l in leases ==> l.source in cells && LeaseHolds(l))
    }

    ghost predicate Valid()
      reads this, envs, leases, cells
    {
      Owners() && Loans()
    }

    /** The event that an operation of a task causes in this state, if any: a commit
        of an owned value to a tentative cell of that task in the innermost scope, or the
        drop of an open lease. */
    ghost function Happening(op: Op, task: int): seq<Event>
      requires Valid()
      reads this, envs, leases, cells
    {
      if op.Commit? && op.env < |envs| && CommitTarget(op.env, op.name, op.value, task).Some? then
        [Committed(CommitTarget(op.env, op.name, op.value, task).value)]
      else if op.DropLease? && op.lease < |leases| && leases[op.lease].root.Some? then [Restored(leases[op.lease])]
      else []
    }

    /** The cell that a commit would hit. */
    ghost function CommitTarget(k: nat, name: string, value: Value, task: int): Option<Cell>
      requires Valid() && k < |envs|
      reads this, envs, leases, cells
    {
      var scopes := envs[k].scopes;
      if |scopes| == 0 || value.Borrowed? || name !in scopes[|scopes| - 1].bindings then None
      else
        var cell := scopes[|scopes| - 1].bindings[name];
        assert cell in Reach(scopes);
        if cell.probe && cell.ownerTask == task then Some(cell) else None
    }

    /** No open lease has this cell. */
    ghost predicate Vacant(c: Cell)
      reads this, leases
    {
      forall l :: l in leases && l.root.Some? ==> l.source != c
    }

    /** No other open lease has the same cell. */
    ghost predicate Alone(l: BorrowLease)
      reads this, leases
    {
      forall other :: other in leases && other.root.Some? && other.source == l.source ==> other == l
    }

    /** Environments, leases and cells are only added, and what is added is new. */
    twostate predicate Grows()
      reads this
    {
      && |old(leases)| <= |leases| && leases[..|old(leases)|] == old(leases) && old(cells) <= cells
      && (forall e :: e in envs ==> e in old(envs) || fresh(e))
      && (forall l :: l in leases ==> l in old(leases) || fresh(l))
      && (forall c :: c in cells ==> c in old(cells) || fresh(c))
    }

    /** Nothing happened to earlier leases and their views. */
    twostate predicate KeepsLoans()
      reads this, leases, cells
    {
      && Grows() && events == old(events)
      && (forall l :: l in old(leases) ==> l.root == old(l.root))
      && (forall l :: l in old(leases) && l.source in old(cells) ==> (Views(l) <==> old(Views(l))))
      && NewLeases()
    }

    /** A new lease takes its value from a cell that was not on loan. */
    twostate predicate NewLeases()
      reads this, leases, cells
    {
      forall l :: l in leases && l !in old(leases) ==>
        var cell := l.source;
        cell in old(cells) && !old(cell.value).Borrowed?
    }

    constructor ()
      ensures Valid() && envs == [] && leases == [] && cells == {} && events == []
    {
      envs, leases, cells, events := [], [], {}, [];
    }

    /** A new environment that owns nothing yet. */
    method Adopt(e: Env)
      requires Valid() && e !in envs && Reach(e.scopes) <= cells
      requires forall i :: 0 <= i < |e.scopes| ==> e.scopes[i].owned == {}
      modifies this`envs
      ensures Valid() && envs == old(envs) + [e]
    {
      hide Owned, Reach, Unique, LeaseHolds, Views;
      ghost var t := Table();
      SharedOwners(t, e.scopes);
      envs := envs + [e];
      assert Table() == t + [e.scopes];
      FewerOwnersAreUnique(t, Table());
    }

    /** Enter, leave or clear scopes. */
    method Rescope(k: nat, op: Op)
      requires Valid() && k < |envs| && (op.Push? || op.Pop? || op.Clear?)
      modifies envs[k]
      ensures Valid() && KeepsLoans()
    {
      hide OneOwner, Owned, Reach, Loans, KeepsLoans;
      ghost var t := Table();
      var e := envs[k];
      KnownReach(t, cells, k);
      if op.Push? {
        e.PushScope();
      } else if op.Pop? {
        e.PopScope();
      } else {
        e.ClearCallFrame();
      }
      ScopeOwners(t, k, e.scopes);
      ScopeReach(t[k], e.scopes);
      NoNewOwner(t, cells, k, e.scopes, {});
      assert cells + {} == cells && Table() == t[k := e.scopes];
      Unchanged();
    }

    method DefineIn(k: nat, a: Admission, name: string, value: Value, mutable: bool, task: int)
      requires Valid() && k < |envs| && |envs[k].scopes| > 0
      modifies this`cells, envs[k]
      ensures Valid() && KeepsLoans()
    {
      hide OneOwner, Owned, Reach, Loans, KeepsLoans, Admitted, Own, Disown, Bind;
      ghost var t := Table();
      ghost var known := cells;
      var made := envs[k].Define(a, name, value, mutable, task);
      if made.Some? {
        ghost var c := made.value;
        NewCell(t, known, k, name, c);
        cells := cells + {c};
        assert Table() == t[k := envs[k].scopes];
      } else {
        assert Table() == t;
      }
      Unchanged();
    }

    method ProbeIn(k: nat, name: string, value: Value, task: int)
      requires Valid() && k < |envs| && |envs[k].scopes| > 0
      modifies this`cells, envs[k]
      ensures Valid() && KeepsLoans()
    {
      hide OneOwner, Owned, Reach, Loans, KeepsLoans, Admitted, Own, Disown, Bind;
      ghost var t := Table();
      ghost var known := cells;
      var made := envs[k].DefineProbe(name, value, task);
      if made.Some? {
        ghost var c := made.value;
        NewProbe(t, known, k, name, c);
        cells := cells + {c};
        assert Table() == t[k := envs[k].scopes];
      } else {
        assert Table() == t;
      }
      Unchanged();
    }

    /** A commit gives the tentative cell its only owner. Every view is kept by it
        exactly unless the commit goes through and hits the cell of that view. */
    method CommitIn(k: nat, name: string, value: Value, task: int) returns (ok: bool)
      requires Valid() && k < |envs| && |envs[k].scopes| > 0
      modifies this`events, envs[k], envs[k].scopes[|envs[k].scopes| - 1].bindings.Values
      ensures Valid()
      ensures ok <==> old(CommitTarget(k, name, value, task)).Some?
      ensures ok ==> old(CommitTarget(k, name, value, task)).value.value == value
      ensures events == old(events) + if ok then [Committed(old(CommitTarget(k, name, value, task)).value)] else []
      ensures forall l :: l in leases ==>
                && l.root == old(l.root)
                && (Views(l) <==> old(Views(l)) && old(CommitTarget(k, name, value, task)) != Some(l.source))
    {
      hide OneOwner, Owned, Reach, LeaseHolds, Own, Ownerless;
      ghost var t := Table();
      ghost var last: Scope := t[k][|t[k]| - 1];
      LastIsReached(t[k]);
      KnownReach(t, cells, k);
      if name in last.bindings && last.bindings[name].probe {
        ProbeIsOwnerless(t, cells, last.bindings[name]);
      }
      ok := envs[k].CommitProbe(name, value, task);
      FewerProbes(t);
      if ok {
        NewCommit(t, cells, k, name);
        events := events + [Committed(last.bindings[name])];
        assert Table() == t[k := envs[k].scopes];
      } else {
        assert Table() == t;
      }
    }

    /** Cells that stop being tentative do not disturb the owners. */
    twostate lemma FewerProbes(t: Tables)
      requires cells == old(cells) && old(OneOwner(t, cells)) && forall c :: c in cells && c.probe ==> old(c.probe)
      ensures OneOwner(t, cells)
    {
      hide Owned, Reach, Unique;
    }

    method BorrowIn(k: nat, name: string, task: int) returns (lease: Option<BorrowLease>)
      requires Valid() && k < |envs|
      modifies this`leases, Target(envs[k].scopes, name)
      ensures Valid() && KeepsLoans()
      ensures leases == old(leases) + if lease.Some? then [lease.value] else []
      ensures lease.Some? ==> fresh(lease.value)
      ensures match old(Lookup(envs[k].scopes, name))
              case None => lease.None?
              case Some(c) =>
                && (lease.Some? <==> !old(c.value).Borrowed? && !IsScalar(old(c.value)))
                && (lease.None? ==> c.value == old(c.value))
                && (lease.Some? ==> && lease.value.source == c && lease.value.root == Some(old(c.value))
                                    && lease.value.taken == old(c.value) && c.value == Borrowed(lease.value))
    {
      hide OneOwner, Owned, Reach, Find;
      KnownReach(Table(), cells, k);
      ghost var t := Table();
      TargetInReach(t[k], name);
      var _, l := envs[k].Borrow(name, task);
      FewerProbes(t);
      lease := l;
      if lease.Some? {
        leases := leases + [lease.value];
      }
      assert Table() == t;
    }

    lemma Known(k: nat, name: string)
      requires Valid() && k < |envs|
      ensures Target(envs[k].scopes, name) <= cells
    {
      TargetInReach(envs[k].scopes, name);
    }

    /** Borrow a value that must move: the cell's lease, alone on it if it was vacant. */
    method Open(k: nat, name: string, task: int, c: Cell) returns (lease: BorrowLease)
      requires Valid() && k < |envs| && Lookup(envs[k].scopes, name) == Some(c)
      requires !c.value.Borrowed? && !IsScalar(c.value)
      modifies this`leases, c
      ensures Valid() && KeepsLoans() && fresh(lease) && leases == old(leases) + [lease]
      ensures lease.source == c && lease.root == Some(old(c.value)) && lease.taken == old(c.value) && Views(lease)
      ensures old(Vacant(c)) ==> Alone(lease)
    {
      hide Owned, Reach, Find, Valid;
      var l := BorrowIn(k, name, task);
      lease := l.value;
    }

    /** The operations that change at most one value. None touches a value on loan. */
    method WriteIn(k: nat, op: Op, task: int)
      requires Valid() && k < |envs|
      requires Writes(op)
      modifies Target(envs[k].scopes, op.name)
      ensures Valid() && KeepsLoans()
      ensures forall c :: c in cells && old(c.value).Borrowed? ==> c.value == old(c.value)
    {
      hide Owned, Reach, Find;
      TargetInReach(envs[k].scopes, op.name);
      ghost var t := Table();
      Write(envs[k], op, task);
      assert Table() == t;
    }

    method DropIn(j: nat)
      requires Valid() && j < |leases|
      modifies this`events, leases[j], leases[j].source
      ensures Valid() && leases[j].root == None
      ensures old(leases[j].root).Some? ==> leases[j].source.value == leases[j].taken
      ensures events == old(events) + if old(leases[j].root).Some? then [Restored(leases[j])] else []
      ensures forall l :: l in leases && l != leases[j] ==>
                && l.root == old(l.root)
                && (Views(l) <==> old(Views(l)) && !(old(leases[j].root).Some? && l.source == leases[j].source))
    {
      hide Owned, Reach, Unique;
      ghost var t := Table();
      if leases[j].root.Some? {
        events := events + [Restored(leases[j])];
      }
      leases[j].Drop();
      assert Table() == t;
    }

    /** A new, cloned or capturing environment. */
    method Create(op: Op)
      requires Valid() && (op.New? || ((op.Clone? || op.Capture?) && op.env < |envs|))
      modifies this`envs
      ensures Valid() && KeepsLoans()
    {
      hide Owned, Find, Unique, LeaseHolds, Views;
      var e: Env;
      if op.New? {
        e := new Env();
      } else if op.Clone? {
        e := envs[op.env].Clone();
        SharedReach(envs[op.env].scopes);
      } else {
        e := envs[op.env].Capture(op.names);
        CapturedReach(envs[op.env].scopes, op.names);
      }
      hide Reach;
      Adopt(e);
    }

    /** Only a commit commits, and only an open lease is restored. */
    twostate predicate FromHere(op: Op, happened: seq<Event>)
      reads this
    {
      forall e :: e in happened ==>
        && (e.Committed? ==> op.Commit?)
        && (e.Restored? ==> var l := e.lease; l in old(leases) && old(l.root).Some?)
    }

    /** What one operation does to leases and loans: only a drop closes a lease, and an
        open lease keeps its view exactly unless the operation's event disturbs it. */
    twostate predicate Effect(op: Op, happened: seq<Event>)
      reads this, leases, cells
    {
      && Grows() && NewLeases() && events == old(events) + happened && FromHere(op, happened)
      && (forall j :: 0 <= j < |old(leases)| ==>
            && leases[j] == old(leases)[j] && leases[j].source in old(cells) && leases[j].source in cells
            && (op == DropLease(j) ==> leases[j].root == None)
            && (op != DropLease(j) ==>
                  && leases[j].root == old(leases[j].root)
                  && (Views(leases[j]) <==> old(Views(leases[j])) && !Disturbed(happened, leases[j]))))
    }

    twostate lemma Quiet(op: Op)
      requires old(Loans()) && KeepsLoans()
      requires forall j :: 0 <= j < |old(leases)| ==> op != DropLease(j)
      ensures Effect(op, [])
    {
      hide LeaseHolds, Views;
      Undisturbed();
      assert events == old(events) + [];
    }

    /** A lease alone on its cell stays so, with its view, unless its cell is committed. */
    twostate predicate Solitude(op: Op, happened: seq<Event>)
      reads this, leases, cells
    {
      forall j :: 0 <= j < |old(leases)| && op != DropLease(j) && old(leases[j].root).Some?
                  && old(Views(leases[j]) && Alone(leases[j])) ==>
        && j < |leases| && leases[j].source in cells
        && ((Views(leases[j]) && Alone(leases[j])) || Committed(leases[j].source) in happened)
    }

    /** Any operation, by any task. One that names no environment, scope or lease
        changes nothing. */
    method Step(op: Op, task: int)
      requires Valid()
      modifies this, envs, leases, cells
      ensures Valid() && Effect(op, old(Happening(op, task))) && Solitude(op, old(Happening(op, task)))
    {
      Perform(op, task);
    }

    method Perform(op: Op, task: int)
      requires Valid()
      modifies this, envs, leases, cells
      ensures Valid() && Effect(op, old(Happening(op, task)))
    {
      hide Owned, Reach, Owners, LeaseHolds, Views;
      if op.DropLease? {
        DropStep(op.lease, task);
      } else if op.New? || ((op.Clone? || op.Capture?) && op.env < |envs|) {
        Create(op);
        Quiet(op);
      } else if !op.Clone? && !op.Capture? && op.env < |envs| {
        OnEnv(op, task);
      } else {
        Quiet(op);
      }
    }

    method DropStep(j: nat, task: int)
      requires Valid()
      modifies this`events, leases, cells
      ensures Valid() && Effect(DropLease(j), old(Happening(DropLease(j), task)))
    {
      hide Owned, Reach, LeaseHolds, Views;
      ghost var happened := Happening(DropLease(j), task);
      if j < |leases| {
        var dropped := leases[j];
        DropIn(j);
        assert happened != [] ==> happened[0] == Restored(dropped);
        assert forall l :: Disturbed(happened, l) <==> happened != [] && Disturbs(Restored(dropped), l);
      } else {
        Quiet(DropLease(j));
      }
    }

    method OnEnv(op: Op, task: int)
      requires Valid() && !op.DropLease? && !op.New? && !op.Clone? && !op.Capture? && op.env < |envs|
      modifies this, envs, cells
      ensures Valid() && Effect(op, old(Happening(op, task)))
    {
      hide Owned, LeaseHolds, Views, Effect, KeepsLoans, Unique;
      var k := op.env;
      var scoped := |envs[k].scopes| > 0;
      if op.Push? || op.Pop? || op.Clear? {
        Rescope(k, op);
        Quiet(op);
      } else if Writes(op) {
        TargetInReach(envs[k].scopes, op.name);
        WriteIn(k, op, task);
        Quiet(op);
      } else if op.Borrow? {
        TargetInReach(envs[k].scopes, op.name);
        var _ := BorrowIn(k, op.name, task);
        Quiet(op);
      } else if scoped {
        LastIsReached(envs[k].scopes);
        Introduce(op, task);
      } else {
        Unchanged();
        Quiet(op);
      }
    }

    /** Whatever only adds cells keeps all loans. */
    twostate lemma Unchanged()
      requires old(Loans()) && envs == old(envs) && leases == old(leases) && events == old(events)
      requires old(cells) <= cells && forall c :: c in cells ==> c in old(cells) || fresh(c)
      requires forall l :: l in leases ==> l.root == old(l.root)
      requires forall c :: c in old(cells) ==> c.value == old(c.value)
      ensures Loans() && KeepsLoans()
    {
    }

    method Introduce(op: Op, task: int)
      requires Valid() && (op.Define? || op.Probe? || op.Commit?)
      requires op.env < |envs| && |envs[op.env].scopes| > 0
      modifies this`cells, this`events, envs[op.env], envs[op.env].scopes[|envs[op.env].scopes| - 1].bindings.Values
      ensures Valid() && Effect(op, old(Happening(op, task)))
    {
      hide Owned, Reach;
      ghost var happened := Happening(op, task);
      if op.Define? {
        DefineIn(op.env, op.admission, op.name, op.value, op.mutable, task);
        Quiet(op);
      } else if op.Probe? {
        ProbeIn(op.env, op.name, op.value, task);
        Quiet(op);
      } else {
        ghost var target := CommitTarget(op.env, op.name, op.value, task);
        var ok := CommitIn(op.env, op.name, op.value, task);
        assert ok ==> happened == [Committed(target.value)] && happened[0] == Committed(target.value);
      }
    }

    /** Every history keeps one owner per cell and none per tentative binding. A lease
        that it does not drop keeps its value. Its view is kept exactly unless an event
        disturbed it; and if no other open lease had its cell, exactly unless that very
        cell was committed. */
    method Run(history: seq<(Op, int)>)
      requires Valid()
      modifies this, envs, leases, cells
      ensures Valid() && Grows() && |old(events)| <= |events| && events[..|old(events)|] == old(events)
      ensures forall j :: 0 <= j < |old(leases)| && old(leases[j].root).Some? && NoDrop(history, j) ==>
                && leases[j] == old(leases)[j] && leases[j].root == old(leases[j].root)
                && (Views(leases[j]) <==> old(Views(leases[j])) && !Disturbed(events[|old(events)|..], leases[j]))
                && (old(Views(leases[j]) && Alone(leases[j])) ==>
                      (Views(leases[j]) <==> Committed(leases[j].source) !in events[|old(events)|..]))
      ensures NoCommit(history) ==> forall e :: e in events[|old(events)|..] ==> !e.Committed?
    {
      hide Owned, Reach, Valid, Happening, Disturbed, Views, Alone;
      ghost var since: seq<Event> := [];
      Undisturbed();
      for i := 0 to |history|
        invariant Valid() && Grows() && events == old(events) + since
        invariant forall k :: 0 <= k < |envs| ==> envs[k] in old(envs) || fresh(envs[k])
        invariant forall k :: 0 <= k < |leases| ==> leases[k] in old(leases) || fresh(leases[k])
        invariant forall j :: 0 <= j < |old(leases)| && old(leases[j].root).Some? && NoDrop(history, j) ==>
                    && leases[j] == old(leases)[j] && leases[j].root == old(leases[j].root)
                    && (Views(leases[j]) <==> old(Views(leases[j])) && !Disturbed(since, leases[j]))
                    && (old(Views(leases[j]) && Alone(leases[j])) ==>
                          (Views(leases[j]) && Alone(leases[j])) || Committed(leases[j].source) in since)
        invariant NoCommit(history) ==> forall e :: e in since ==> !e.Committed?
      {
        ghost var happened := Happening(history[i].0, history[i].1);
        DisturbedTogether(since, happened);
        Step(history[i].0, history[i].1);
        since := since + happened;
      }
      assert events[|old(events)|..] == since;
      CommitDisturbs(since);
    }

    /** A whole loan: borrow, let any tasks do anything but drop the lease, then drop it.
        The cell ends with exactly the value it had. Until then it held the same view
        exactly unless an event disturbed it; and if no other open lease had the cell,
        exactly unless that very cell was committed. */
    method Loan(k: nat, name: string, task: int, during: seq<(Op, int)>)
      returns (view: Value, before: Value, ghost since: seq<Event>)
      requires Valid() && k < |envs| && Lookup(envs[k].scopes, name).Some?
      requires var c := Lookup(envs[k].scopes, name).value; !c.value.Borrowed? && !IsScalar(c.value)
      requires NoDrop(during, |leases|)
      modifies this, envs, leases, cells
      ensures Valid() && view.Borrowed?
      ensures var c := old(Lookup(envs[k].scopes, name).value);
              && c.value == old(c.value) && view.lease.source == c
              && (before == view <==> !Disturbed(since, view.lease))
              && (old(Vacant(c)) ==> (before == view <==> Committed(c) !in since))
      ensures NoCommit(during) ==> forall e :: e in since ==> !e.Committed?
      ensures events == old(events) + since + [Restored(view.lease)]
    {
      hide Owned, Reach, Find, Valid, Happening, Disturbed;
      var c := envs[k].scopes[Find(envs[k].scopes, name).value].bindings[name];
      assert c == Lookup(envs[k].scopes, name).value;
      Known(k, name);
      var j := |leases|;
      var lease := Open(k, name, task, c);
      view := c.value;
      Run(during);
      since := events[|old(events)|..];
      assert leases[j] == lease;
      before := c.value;
      DropIn(j);
    }
  }

  /** A tentative cell can be borrowed and then committed. The view is lost at once,
      and dropping the lease brings back the old value over the committed one. */
  method CommitDuringLoan() returns (committed: Value, afterwards: Value)
    ensures committed == Str("new") && afterwards == Str("old")
  {
    var e := new Env();
    var made := e.DefineProbe("x", Str("old"), 0);
    var cell := made.value;
    assert Find(e.scopes, "x") == Some(0);
    var _, lease := e.Borrow("x", 0);
    assert cell in e.scopes[0].bindings.Values;
    var _ := e.CommitProbe("x", Str("new"), 0);
    committed := cell.value;
    lease.value.Drop();
    afterwards := cell.value;
  }

  ghost predicate NoDrop(history: seq<(Op, int)>, j: nat)
  {
    forall i :: 0 <= i < |history| ==> history[i].0 != DropLease(j)
  }

  ghost predicate NoCommit(history: seq<(Op, int)>)
  {
    forall i :: 0 <= i < |history| ==> !history[i].0.Commit?
  }

  lemma Undisturbed()
    ensures forall l :: !Disturbed([], l)
  {
  }

  lemma DisturbedTogether(a: seq<Event>, b: seq<Event>)
    ensures forall l :: Disturbed(a + b, l) <==> Disturbed(a, l) || Disturbed(b, l)
  {
    hide Disturbed;
    forall l
      ensures Disturbed(a + b, l) <==> Disturbed(a, l) || Disturbed(b, l)
    {
      DisturbedConcat(a, b, l);
    }
  }

  lemma CommitDisturbs(events: seq<Event>)
    ensures forall l: BorrowLease :: Committed(l.source) in events ==> Disturbed(events, l)
  {
  }

  lemma SharedReach(scopes: seq<Scope>)
    ensures Reach(Shared(scopes)) <= Reach(scopes)
  {
  }

  lemma CapturedReach(scopes: seq<Scope>, names: set<string>)
    ensures Reach([Scope(Captured(scopes, names), {})]) <= Reach(scopes)
  {
    forall c | c in Reach([Scope(Captured(scopes, names), {})])
      ensures c in Reach(scopes)
    {
      var n :| n in Captured(scopes, names) && Captured(scopes, names)[n] == c;
      TargetInReach(scopes, n);
    }
  }

  lemma ScopeReach(scopes: seq<Scope>, scopes': seq<Scope>)
    requires scopes' == scopes + [EMPTY_SCOPE] || scopes' <= scopes
    ensures Reach(scopes') <= Reach(scopes)
  {
  }

  lemma OwnReach(scopes: seq<Scope>, name: string)
    requires |scopes| > 0
    ensures Reach(Own(scopes, name)) <= Reach(scopes)
  {
  }

  lemma LastIsReached(scopes: seq<Scope>)
    requires |scopes| > 0
    ensures scopes[|scopes| - 1].bindings.Values <= Reach(scopes)
  {
  }

  lemma BindReach(scopes: seq<Scope>, name: string, c: Cell)
    requires |scopes| > 0
    ensures Reach(Bind(scopes, name, c)) <= Reach(scopes) + {c}
    ensures Reach(Own(Bind(scopes, name, c), name)) <= Reach(scopes) + {c}
    ensures Reach(Disown(Bind(scopes, name, c), name)) <= Reach(scopes) + {c}
  {
  }

  lemma Unreached(t: Tables, cells: set<Cell>, c: Cell)
    requires forall i :: 0 <= i < |t| ==> Reach(t[i]) <= cells
    requires c !in cells
    ensures Ownerless(t, c)
  {
    forall s
      ensures Owned(t, s) != Some(c)
    {
      if Owned(t, s).Some? {
        OwnerIsReached(t, s);
      }
    }
  }

  lemma ProbeIsOwnerless(t: Tables, cells: set<Cell>, c: Cell)
    requires OneOwner(t, cells) && c in cells && c.probe
    ensures Ownerless(t, c)
  {
    hide Owned, Reach, Unique;
  }

  lemma NewCell(t: Tables, cells: set<Cell>, k: nat, name: string, c: Cell)
    requires k < |t| && |t[k]| > 0 && name !in t[k][|t[k]| - 1].bindings
    requires OneOwner(t, cells) && c !in cells && !c.probe
    ensures OneOwner(t[k := Own(Bind(t[k], name, c), name)], cells + {c})
  {
    hide Owned, Reach, Unique;
    var scopes := Own(Bind(t[k], name, c), name);
    DefineOwners(t, k, name, c);
    BindReach(t[k], name, c);
    Unreached(t, cells, c);
    hide OneOwner;
    KnownReach(t, cells, k);
    OneNewOwner(t, cells, k, scopes, {c}, Slot(k, |t[k]| - 1, name), c);
  }

  lemma NewCommit(t: Tables, cells: set<Cell>, k: nat, name: string)
    requires k < |t| && |t[k]| > 0 && name in t[k][|t[k]| - 1].bindings && OneOwner(t, cells)
    requires var c := t[k][|t[k]| - 1].bindings[name]; c in cells && !c.probe && Ownerless(t, c)
    ensures OneOwner(t[k := Own(t[k], name)], cells)
  {
    hide OneOwner, Owned, Reach, Unique, Ownerless, OnlyNew;
    var last := |t[k]| - 1;
    CommitOwners(t, k, name);
    OwnReach(t[k], name);
    KnownReach(t, cells, k);
    OneNewOwner(t, cells, k, Own(t[k], name), {}, Slot(k, last, name), t[k][last].bindings[name]);
    assert cells + {} == cells;
  }

  lemma NewProbe(t: Tables, cells: set<Cell>, k: nat, name: string, c: Cell)
    requires k < |t| && |t[k]| > 0 && OneOwner(t, cells)
    ensures OneOwner(t[k := Disown(Bind(t[k], name, c), name)], cells + {c})
  {
    hide OneOwner, Owned, Reach, Unique;
    var scopes := Disown(Bind(t[k], name, c), name);
    ProbeOwners(t, k, name, c);
    BindReach(t[k], name, c);
    KnownReach(t, cells, k);
    NoNewOwner(t, cells, k, scopes, {c});
  }
}
