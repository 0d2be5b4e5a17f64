/** Collecting the tasks that a scope must settle on exit: the general collector, and
    the count and the collector that never grow their buffer. */
module ScopeTasks {
  import opened Text
  import opened Bindings

  // ---------- values ----------

  const ERROR_FIELDS: seq<string> := ["domain", "code", "message"]

  predicate HasText(fields: seq<Field>, key: string)
  {
    exists k :: 0 <= k < |fields| && fields[k].key == key && fields[k].value.Str?
  }

  /** An error object: exactly the three fields, all of them text. */
  predicate ErrorObject(v: Value)
  {
    v.Object? && |v.fields| == 3 && forall i :: 0 <= i < 3 ==> HasText(v.fields, ERROR_FIELDS[i])
  }

  /** A result that holds a scalar, or an error object. */
  predicate Selected(v: Value)
  {
    v.Result? && if v.ok then IsScalar(v.inner) else ErrorObject(v.inner)
  }

  predicate SelectedString(v: Value)
  {
    Selected(v) || (v.Result? && v.ok && v.inner.Str?)
  }

  /** `simple_scope_task_count`: only values of a known flat shape are counted. */
  function SimpleCount(v: Value): Option<nat>
  {
    if IsScalar(v) || v.Str? then Some(0)
    else if v.Task? then Some(1)
    else if Selected(v) then Some(0)
    else None
  }

  lemma ErrorObjectHasNoTasks(v: Value)
    requires ErrorObject(v)
    ensures Tasks(v) == []
  {
    var f := v.fields;
    assert HasText(f, ERROR_FIELDS[0]) && HasText(f, ERROR_FIELDS[1]) && HasText(f, ERROR_FIELDS[2]);
    var a :| 0 <= a < 3 && f[a].key == "domain" && f[a].value.Str?;
    var b :| 0 <= b < 3 && f[b].key == "code" && f[b].value.Str?;
    var c :| 0 <= c < 3 && f[c].key == "message" && f[c].value.Str?;
    KeysDiffer();
    assert f[0].value.Str? && f[1].value.Str? && f[2].value.Str?;
    assert f == [f[0], f[1], f[2]];
    TextFieldsHaveNoTasks(f);
  }

  lemma KeysDiffer()
    ensures "domain" != "code" && "code" != "message" && "domain" != "message"
  {
    assert |"domain"| == 6 && |"code"| == 4 && |"message"| == 7;
  }

  lemma {:induction false} TextFieldsHaveNoTasks(fields: seq<Field>)
    requires forall k :: 0 <= k < |fields| ==> fields[k].value.Str?
    ensures TasksOf(fields) == []
  {
    if fields != [] {
      TextFieldsHaveNoTasks(fields[1..]);
    }
  }

  /** Exactly which values have a simple count: scalars, text, tasks, results that hold
      a scalar, and failures that hold an error object. */
  lemma SimpleShapes(v: Value)
    ensures SimpleCount(v).Some? <==>
            match v
            case Scalar(_) => true
            case Null => true
            case Str(_) => true
            case Task(_) => true
            case Result(ok, inner) =>
              if ok then inner.Scalar? || inner.Null?
              else inner.Object? && |inner.fields| == 3 && HasText(inner.fields, "domain")
                   && HasText(inner.fields, "code") && HasText(inner.fields, "message")
            case _ => false
    ensures SelectedString(v) <==>
            v.Result? && ((v.ok && v.inner.Str?) || SimpleCount(v).Some?)
  {
    hide HasText;
    if v.Result? && !v.ok && v.inner.Object? && |v.inner.fields| == 3 {
      assert ERROR_FIELDS[0] == "domain" && ERROR_FIELDS[1] == "code" && ERROR_FIELDS[2] == "message";
    }
  }

  /** A simple count is the number of tasks the value owns. */
  lemma SimpleCountIsExact(v: Value)
    ensures SimpleCount(v).Some? ==> |Tasks(v)| == SimpleCount(v).value <= 1
    ensures SelectedString(v) ==> Tasks(v) == []
  {
    hide ErrorObject;
    if v.Result? && ErrorObject(v.inner) {
      ErrorObjectHasNoTasks(v.inner);
    }
  }

  // ---------- what a collector sees ----------

  /** A cell as the current task sees it: not its business, a value in place, or a
      value on loan, read through the lease. */
  datatype Look = Hidden | Direct(value: Value) | Loaned(root: Option<Value>)

  function LookAt(c: Cell, task: int): Look
    reads c, if c.value.Borrowed? then {c.value.lease} else {}
  {
    if c.borrowedParameter || c.probe || c.ownerTask != task then Hidden
    else if c.value.Borrowed? then Loaned(c.value.lease.root)
    else Direct(c.value)
  }

  ghost function LeasesIn(cells: set<Cell>): set<BorrowLease>
    reads cells
  {
    set c | c in cells && c.value.Borrowed? :: c.value.lease
  }

  /** The owned names of a scope, in the order in which they are visited. */
  ghost function Looks(scope: Scope, order: seq<string>, task: int): (r: seq<Look>)
    reads scope.bindings.Values, LeasesIn(scope.bindings.Values)
    ensures |r| == |order|
  {
    if |order| == 0 then []
    else
      var rest := order[..|order| - 1];
      var name := order[|order| - 1];
      Looks(scope, rest, task) +
      [LookFor(scope, name, task)]
  }

  /** All tasks, as the general collector gathers them; nothing if a loan has ended. */
  function General(looks: seq<Look>): Option<seq<nat>>
  {
    if |looks| == 0 then Some([])
    else
      var before := General(looks[..|looks| - 1]);
      match (before, looks[|looks| - 1])
      case (None, _) => None
      case (Some(ts), Hidden) => Some(ts)
      case (Some(ts), Direct(v)) => Some(ts + Tasks(v))
      case (Some(ts), Loaned(root)) => if root.Some? then Some(ts + Tasks(root.value)) else None
  }

  /** One look's share of the simple count. A value on loan is judged without the
      allowance for results that hold a string. */
  function CountOne(strings: bool, look: Look): Option<nat>
  {
    match look
    case Hidden => Some(0)
    case Loaned(root) => if root.Some? then SimpleCount(root.value) else None
    case Direct(v) => if strings && SelectedString(v) then Some(0) else SimpleCount(v)
  }

  function Count(strings: bool, looks: seq<Look>): Option<nat>
  {
    if |looks| == 0 then Some(0)
    else
      var before := Count(strings, looks[..|looks| - 1]);
      var one := CountOne(strings, looks[|looks| - 1]);
      if before.Some? && one.Some? then Some(before.value + one.value) else None
  }

  lemma GeneralSnoc(looks: seq<Look>, look: Look)
    requires General(looks).Some?
    ensures General(looks + [look]) ==
            match look
            case Hidden => General(looks)
            case Direct(v) => Some(General(looks).value + Tasks(v))
            case Loaned(root) => if root.Some? then Some(General(looks).value + Tasks(root.value)) else None
  {
    assert (looks + [look])[..|looks|] == looks;
  }

  lemma CountSnoc(strings: bool, looks: seq<Look>, look: Look)
    ensures Count(strings, looks + [look]) ==
            if Count(strings, looks).Some? && CountOne(strings, look).Some?
            then Some(Count(strings, looks).value + CountOne(strings, look).value) else None
  {
    assert (looks + [look])[..|looks|] == looks;
  }

  /** Whenever the simple count answers, the general collector succeeds with exactly
      that many handles. */
  lemma {:induction false} CountMatchesGeneral(strings: bool, looks: seq<Look>)
    ensures Count(strings, looks).Some? ==>
              General(looks).Some? && |General(looks).value| == Count(strings, looks).value
  {
    hide SimpleCount, SelectedString, Tasks;
    if |looks| > 0 {
      var look := looks[|looks| - 1];
      CountMatchesGeneral(strings, looks[..|looks| - 1]);
      match look
      case Hidden =>
      case Direct(v) => SimpleCountIsExact(v);
      case Loaned(root) => if root.Some? { SimpleCountIsExact(root.value); }
    }
  }

  /** A prefix that cannot be counted spoils the whole count, and counts only grow. */
  lemma {:induction false} CountPrefix(strings: bool, looks: seq<Look>, k: nat)
    requires k <= |looks| && Count(strings, looks).Some?
    ensures Count(strings, looks[..k]).Some? && Count(strings, looks[..k]).value <= Count(strings, looks).value
  {
    hide CountOne;
    if k == |looks| {
      assert looks[..k] == looks;
    } else {
      CountPrefix(strings, looks[..|looks| - 1], k);
      assert looks[..|looks| - 1][..k] == looks[..k];
    }
  }

  // ---------- the order of visits ----------

  function Share(look: Look): multiset<nat>
  {
    match look
    case Hidden => multiset{}
    case Direct(v) => multiset(Tasks(v))
    case Loaned(root) => if root.Some? then multiset(Tasks(root.value)) else multiset{}
  }

  function Total(looks: seq<Look>): multiset<nat>
  {
    if |looks| == 0 then multiset{} else Total(looks[..|looks| - 1]) + Share(looks[|looks| - 1])
  }

  lemma {:induction false} GeneralTotal(looks: seq<Look>)
    ensures General(looks).Some? <==> forall k :: 0 <= k < |looks| ==> looks[k] != Loaned(None)
    ensures General(looks).Some? ==> multiset(General(looks).value) == Total(looks)
  {
    hide Tasks;
    if |looks| > 0 {
      GeneralTotal(looks[..|looks| - 1]);
    }
  }

  lemma {:induction false} TotalRemove(looks: seq<Look>, i: nat)
    requires i < |looks|
    ensures Total(looks) == Total(looks[..i] + looks[i + 1..]) + Share(looks[i])
  {
    hide Share;
    var last := |looks| - 1;
    var rest := looks[..i] + looks[i + 1..];
    if i == last {
      assert rest == looks[..last];
    } else {
      TotalRemove(looks[..last], i);
      assert rest[..|rest| - 1] == looks[..last][..i] + looks[..last][i + 1..];
    }
  }

  lemma RemoveOne(looks: seq<Look>, i: nat)
    requires i < |looks|
    ensures multiset(looks[..i] + looks[i + 1..]) == multiset(looks) - multiset{looks[i]}
  {
    assert looks == looks[..i] + [looks[i]] + looks[i + 1..];
  }

  lemma FindLook(looks: seq<Look>, look: Look) returns (i: nat)
    requires look in multiset(looks)
    ensures i < |looks| && looks[i] == look
  {
    i :| i < |looks| && looks[i] == look;
  }

  lemma {:induction false} TotalOfPermutation(a: seq<Look>, b: seq<Look>)
    requires multiset(a) == multiset(b)
    ensures Total(a) == Total(b)
    decreases |a|
  {
    hide Share, Total;
    assert |a| == |multiset(a)| == |multiset(b)| == |b|;
    if |a| > 0 {
      assert a[0] in multiset(a);
      var i := FindLook(b, a[0]);
      TotalRemove(a, 0);
      TotalRemove(b, i);
      RemoveOne(a, 0);
      RemoveOne(b, i);
      TotalOfPermutation(a[..0] + a[1..], b[..i] + b[i + 1..]);
    } else {
      assert a == b;
    }
  }

  /** The handles gathered do not depend on the order in which a hash set is visited. */
  lemma OrderDoesNotMatter(a: seq<Look>, b: seq<Look>)
    requires multiset(a) == multiset(b)
    ensures General(a).Some? <==> General(b).Some?
    ensures General(a).Some? ==> multiset(General(a).value) == multiset(General(b).value)
  {
    hide General, Total;
    GeneralTotal(a);
    GeneralTotal(b);
    TotalOfPermutation(a, b);
    SameElements(a, b);
  }

  lemma SameElements(a: seq<Look>, b: seq<Look>)
    requires multiset(a) == multiset(b)
    ensures (forall k :: 0 <= k < |a| ==> a[k] != Loaned(None)) <==> (forall k :: 0 <= k < |b| ==> b[k] != Loaned(None))
  {
    assert (exists k :: 0 <= k < |a| && a[k] == Loaned(None)) <==> Loaned(None) in multiset(a);
    assert (exists k :: 0 <= k < |b| && b[k] == Loaned(None)) <==> Loaned(None) in multiset(b);
  }

  /** `order` visits every owned name of the scope exactly once. */
  ghost predicate Visits(scope: Scope, order: seq<string>)
  {
    && (forall i, j :: 0 <= i < j < |order| ==> order[i] != order[j])
    && (forall n :: n in scope.owned <==> n in order)
  }

  lemma {:induction false} NamesOnce(a: seq<string>, n: string)
    requires forall i, j :: 0 <= i < j < |a| ==> a[i] != a[j]
    ensures multiset(a)[n] == if n in a then 1 else 0
  {
    if |a| > 0 {
      var last := |a| - 1;
      assert a == a[..last] + [a[last]];
      NamesOnce(a[..last], n);
    }
  }

  lemma SameNames(scope: Scope, a: seq<string>, b: seq<string>)
    requires Visits(scope, a) && Visits(scope, b)
    ensures multiset(a) == multiset(b)
  {
    forall n: string
      ensures multiset(a)[n] == multiset(b)[n]
    {
      NamesOnce(a, n);
      NamesOnce(b, n);
      assert n in a <==> n in b;
    }
  }

  lemma LooksSplit(scope: Scope, order: seq<string>, task: int, i: nat)
    requires i < |order|
    ensures Looks(scope, order, task)[..i] + Looks(scope, order, task)[i + 1..]
            == Looks(scope, order[..i] + order[i + 1..], task)
  {
    hide LookFor;
    var looks, rest := Looks(scope, order, task), order[..i] + order[i + 1..];
    forall k | 0 <= k < |rest|
      ensures Looks(scope, rest, task)[k] == (looks[..i] + looks[i + 1..])[k]
    {
      LooksAt(scope, rest, k, task);
      LooksAt(scope, order, if k < i then k else k + 1, task);
    }
  }

  lemma NameRemoved(order: seq<string>, i: nat)
    requires i < |order|
    ensures multiset(order[..i] + order[i + 1..]) == multiset(order) - multiset{order[i]}
  {
    assert order == order[..i] + [order[i]] + order[i + 1..];
  }

  lemma LooksWithout(scope: Scope, order: seq<string>, task: int, i: nat)
    requires i < |order|
    ensures multiset(Looks(scope, order, task))
            == multiset(Looks(scope, order[..i] + order[i + 1..], task)) + multiset{LookFor(scope, order[i], task)}
  {
    hide Looks, LookFor;
    var looks := Looks(scope, order, task);
    LooksSplit(scope, order, task, i);
    LooksAt(scope, order, i, task);
    RemoveOne(looks, i);
  }

  /** Visiting the same names in another order sees the same cells. */
  lemma {:induction false} LooksPermute(scope: Scope, a: seq<string>, b: seq<string>, task: int)
    requires multiset(a) == multiset(b)
    ensures multiset(Looks(scope, a, task)) == multiset(Looks(scope, b, task))
    decreases |a|
  {
    hide Looks, LookFor;
    assert |a| == |multiset(a)| == |multiset(b)| == |b|;
    if |a| == 0 {
      assert a == b;
    } else {
      assert a[0] in multiset(b);
      var i :| 0 <= i < |b| && b[i] == a[0];
      var a', b' := a[..0] + a[1..], b[..i] + b[i + 1..];
      NameRemoved(a, 0);
      NameRemoved(b, i);
      LooksPermute(scope, a', b', task);
      LooksWithout(scope, a, task, 0);
      LooksWithout(scope, b, task, i);
    }
  }

  lemma {:induction false} CountAnswers(strings: bool, looks: seq<Look>)
    ensures Count(strings, looks).Some? <==>
            forall k :: 0 <= k < |looks| ==> CountOne(strings, looks[k]).Some?
  {
    hide CountOne;
    if |looks| > 0 {
      CountAnswers(strings, looks[..|looks| - 1]);
    }
  }

  lemma CountPermutes(strings: bool, a: seq<Look>, b: seq<Look>)
    requires multiset(a) == multiset(b) && Count(strings, a).Some?
    ensures Count(strings, b).Some?
  {
    hide CountOne, Count;
    CountAnswers(strings, a);
    CountAnswers(strings, b);
    forall k | 0 <= k < |b|
      ensures CountOne(strings, b[k]).Some?
    {
      assert b[k] in multiset(a);
      var i := FindLook(a, b[k]);
    }
  }

  /** Whatever order a scope's owned names are visited in: the general collector
      gathers the same handles and the simple count gives the same answer. */
  lemma AnyOrder(scope: Scope, a: seq<string>, b: seq<string>, strings: bool, task: int)
    requires Visits(scope, a) && Visits(scope, b)
    ensures var x, y := Looks(scope, a, task), Looks(scope, b, task);
            && (General(x).Some? <==> General(y).Some?)
            && (General(x).Some? ==> multiset(General(x).value) == multiset(General(y).value))
            && Count(strings, x) == Count(strings, y)
  {
    hide Looks, General, Count;
    var x, y := Looks(scope, a, task), Looks(scope, b, task);
    SameNames(scope, a, b);
    LooksPermute(scope, a, b, task);
    OrderDoesNotMatter(x, y);
    CountMatchesGeneral(strings, x);
    CountMatchesGeneral(strings, y);
    if Count(strings, x).Some? {
      CountPermutes(strings, x, y);
      assert |multiset(General(x).value)| == |multiset(General(y).value)|;
    } else if Count(strings, y).Some? {
      CountPermutes(strings, y, x);
    }
  }

  /** The tasks that one owned name contributes. */
  function TasksAt(look: Look): seq<nat>
  {
    match look
    case Hidden => []
    case Direct(v) => Tasks(v)
    case Loaned(root) => if root.Some? then Tasks(root.value) else []
  }

  lemma {:induction false} GeneralHas(looks: seq<Look>, id: nat)
    requires General(looks).Some?
    ensures id in General(looks).value <==> exists k :: 0 <= k < |looks| && id in TasksAt(looks[k])
  {
    hide Tasks;
    if |looks| > 0 {
      var last := |looks| - 1;
      var rest := looks[..last];
      GeneralHas(rest, id);
      assert General(looks).value == General(rest).value + TasksAt(looks[last]);
      assert forall k :: 0 <= k < last ==> rest[k] == looks[k];
    }
  }

  /** A name contributes a task: it is bound to a cell of the current task that is neither
      a borrowed parameter nor tentative, and the task is in the value of that cell or,
      while it is on loan, in the value its lease holds. */
  ghost predicate Contributes(scope: Scope, n: string, task: int, id: nat)
    reads scope.bindings.Values, LeasesIn(scope.bindings.Values)
  {
    && n in scope.bindings
    && var c := scope.bindings[n];
       && c in scope.bindings.Values && !c.borrowedParameter && !c.probe && c.ownerTask == task
       && match c.value
          case Borrowed(lease) => lease in LeasesIn(scope.bindings.Values) && lease.root.Some? && id in Tasks(lease.root.value)
          case v => id in Tasks(v)
  }

  lemma ContributesIs(scope: Scope, n: string, task: int, id: nat)
    ensures Contributes(scope, n, task, id) <==> id in TasksAt(LookFor(scope, n, task))
  {
    hide Tasks;
    if n in scope.bindings {
      var c := scope.bindings[n];
      assert c in scope.bindings.Values;
      if c.value.Borrowed? {
        assert c.value.lease in LeasesIn(scope.bindings.Values);
      }
    }
  }

  /** A task is gathered exactly when some owned name of the scope contributes it. */
  lemma GathersOwned(scope: Scope, order: seq<string>, task: int, id: nat)
    requires Visits(scope, order) && General(Looks(scope, order, task)).Some?
    ensures id in General(Looks(scope, order, task)).value <==>
            exists n :: n in scope.owned && Contributes(scope, n, task, id)
  {
    hide Looks, LookFor, General, TasksAt, Contributes;
    var looks := Looks(scope, order, task);
    GeneralHas(looks, id);
    forall k: nat | k < |order|
      ensures looks[k] == LookFor(scope, order[k], task) && order[k] in scope.owned
    {
      LooksAt(scope, order, k, task);
    }
    if k :| 0 <= k < |looks| && id in TasksAt(looks[k]) {
      ContributesIs(scope, order[k], task, id);
      assert order[k] in scope.owned && Contributes(scope, order[k], task, id);
    }
    if n :| n in scope.owned && Contributes(scope, n, task, id) {
      ContributesIs(scope, n, task, id);
      var k :| 0 <= k < |order| && order[k] == n;
      assert id in TasksAt(looks[k]);
    }
  }

  // ---------- the collectors ----------

  function LookFor(scope: Scope, name: string, task: int): Look
    reads scope.bindings.Values, LeasesIn(scope.bindings.Values)
  {
    if name in scope.bindings then
      assert scope.bindings[name] in scope.bindings.Values;
      LookAt(scope.bindings[name], task)
    else Hidden
  }

  /** `current_scope_owned_tasks`, visiting the owned names in the given order. */
  method OwnedTasks(scope: Scope, order: seq<string>, task: int) returns (r: Option<seq<nat>>)
    ensures r == General(Looks(scope, order, task))
    ensures Visits(scope, order) && r.Some? ==>
              forall id :: id in r.value <==> exists n :: n in scope.owned && Contributes(scope, n, task, id)
  {
    hide Tasks, TasksAt, Visits, Contributes;
    var tasks: seq<nat> := [];
    ghost var looks := Looks(scope, order, task);
    for i := 0 to |order|
      invariant looks == Looks(scope, order, task) && General(looks[..i]) == Some(tasks)
    {
      var look := LookFor(scope, order[i], task);
      LooksAt(scope, order, i, task);
      assert looks[..i + 1] == looks[..i] + [look];
      GeneralSnoc(looks[..i], look);
      if look == Loaned(None) {
        GeneralStops(looks, i + 1);
        return None;
      }
      if look.Direct? {
        tasks := tasks + Tasks(look.value);
      } else if look.Loaned? {
        tasks := tasks + Tasks(look.root.value);
      }
    }
    assert looks[..|order|] == looks;
    r := Some(tasks);
    if Visits(scope, order) {
      AllGathered(scope, order, task);
    }
  }

  lemma AllGathered(scope: Scope, order: seq<string>, task: int)
    requires Visits(scope, order) && General(Looks(scope, order, task)).Some?
    ensures forall id :: id in General(Looks(scope, order, task)).value <==>
              exists n :: n in scope.owned && Contributes(scope, n, task, id)
  {
    hide Looks, LookFor, General, TasksAt, Visits, Contributes;
    forall id
      ensures id in General(Looks(scope, order, task)).value <==>
              exists n :: n in scope.owned && Contributes(scope, n, task, id)
    {
      GathersOwned(scope, order, task, id);
    }
  }

  lemma {:induction false} LooksAt(scope: Scope, order: seq<string>, i: nat, task: int)
    requires i < |order|
    ensures Looks(scope, order, task)[i] == LookFor(scope, order[i], task)
    decreases |order|
  {
    hide LookFor;
    if i < |order| - 1 {
      LooksAt(scope, order[..|order| - 1], i, task);
    }
  }

  lemma {:induction false} GeneralStops(looks: seq<Look>, k: nat)
    requires k <= |looks| && General(looks[..k]).None?
    ensures General(looks).None?
  {
    if k == |looks| {
      assert looks[..k] == looks;
    } else {
      assert looks[..|looks| - 1][..k] == looks[..k];
      GeneralStops(looks[..|looks| - 1], k);
    }
  }

  /** `current_scope_simple_task_count` and, with `strings`, its selected-string variant. */
  method SimpleTaskCount(scope: Scope, order: seq<string>, strings: bool, task: int) returns (n: Option<nat>)
    ensures n == Count(strings, Looks(scope, order, task))
  {
    hide CountOne;
    var tasks := 0;
    ghost var looks := Looks(scope, order, task);
    for i := 0 to |order|
      invariant looks == Looks(scope, order, task) && Count(strings, looks[..i]) == Some(tasks)
    {
      var look := LookFor(scope, order[i], task);
      LooksAt(scope, order, i, task);
      assert looks[..i + 1] == looks[..i] + [look];
      CountSnoc(strings, looks[..i], look);
      var counted := CountOne(strings, look);
      if counted.None? {
        if Count(strings, looks).Some? {
          CountPrefix(strings, looks, i + 1);
        }
        return None;
      }
      tasks := tasks + counted.value;
    }
    assert looks[..|order|] == looks;
    n := Some(tasks);
  }

  /** `collect_current_scope_simple_tasks_reserved`: succeeds exactly when the simple
      count answers and fits the free slots, then appends exactly the handles of the
      general collector. The buffer never outgrows its capacity, also on failure. */
  method CollectReserved(scope: Scope, order: seq<string>, strings: bool, task: int, handles: seq<nat>, capacity: nat)
    returns (ok: bool, out: seq<nat>)
    requires |handles| <= capacity
    ensures handles <= out && |out| <= capacity
    ensures var looks := Looks(scope, order, task);
            && (ok <==> Count(strings, looks).Some? && |handles| + Count(strings, looks).value <= capacity)
            && (ok ==> General(looks).Some? && out == handles + General(looks).value)
  {
    hide CountOne, Tasks, General, Count, Proxy;
    out := handles;
    ghost var looks := Looks(scope, order, task);
    Start(strings, looks);
    for i := 0 to |order|
      invariant looks == Looks(scope, order, task)
      invariant Count(strings, looks[..i]).Some? && General(looks[..i]).Some?
      invariant |General(looks[..i]).value| == Count(strings, looks[..i]).value
      invariant out == handles + General(looks[..i]).value && |out| <= capacity
    {
      var look := LookFor(scope, order[i], task);
      LooksAt(scope, order, i, task);
      assert looks[..i + 1] == looks[..i] + [look];
      CountSnoc(strings, looks[..i], look);
      GeneralSnoc(looks[..i], look);
      var proxy := Proxy(strings, look, |out| < capacity);
      ProxyIsExact(strings, look, |out| < capacity);
      if proxy.None? {
        if Count(strings, looks).Some? {
          CountPrefix(strings, looks, i + 1);
        }
        return false, out;
      }
      out := out + proxy.value;
    }
    assert looks[..|order|] == looks;
    ok := true;
  }

  lemma Start(strings: bool, looks: seq<Look>)
    ensures Count(strings, looks[..0]) == Some(0) && General(looks[..0]) == Some([])
  {
  }

  /** `simple_scope_task_proxy` on what the collector sees: at most one handle, and only
      if a slot is free. */
  function Proxy(strings: bool, look: Look, available: bool): Option<seq<nat>>
  {
    match look
    case Hidden => Some([])
    case Loaned(None) => None
    case Loaned(Some(root)) => ProxyOf(root, available)
    case Direct(v) => if strings && SelectedString(v) then Some([]) else ProxyOf(v, available)
  }

  function ProxyOf(v: Value, available: bool): Option<seq<nat>>
  {
    if IsScalar(v) || v.Str? then Some([])
    else if v.Task? then if available then Some([v.id]) else None
    else if Selected(v) then Some([])
    else None
  }

  /** A proxy is refused exactly when the value is not simple or its task finds no
      slot; otherwise it is the value's own tasks, as many as the simple count says. */
  lemma ProxyIsExact(strings: bool, look: Look, available: bool)
    ensures var r, n := Proxy(strings, look, available), CountOne(strings, look);
            && (r.Some? <==> n.Some? && (n.value == 0 || available))
            && (n.Some? ==> n.value <= 1)
            && (r.Some? ==> && look != Loaned(None) && |r.value| == n.value
                            && r.value == match look
                                          case Hidden => []
                                          case Direct(v) => Tasks(v)
                                          case Loaned(root) => if root.Some? then Tasks(root.value) else [])
  {
    hide Selected, SelectedString;
    if look.Direct? {
      SimpleCountIsExact(look.value);
    } else if look.Loaned? && look.root.Some? {
      SimpleCountIsExact(look.root.value);
    }
  }
}
