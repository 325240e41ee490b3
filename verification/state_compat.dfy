/** The upgrade check: which changes to a contract's public shape break stored state or clients. */
module StateCompat {

  datatype Shape = Shape(
    errors: map<string, map<string, int>>,
    enums: map<string, map<string, string>>,
    structs: map<string, map<string, string>>,
    functions: map<string, string>)

  datatype Kind = ErrorEnum | Enum | Struct | Function

  datatype Problem =
    | ItemRemoved(kind: Kind, item: string)
    | MemberRemoved(kind: Kind, item: string, member: string)
    | MemberChanged(kind: Kind, item: string, member: string)
    | CodeReused(item: string, member: string)
    | SignatureChanged(item: string)

  datatype Warning = FieldAdded(item: string, member: string)

  // ---- what an upgrade must keep ----

  /** The error names a client may read behind a code. */
  function Names(vars: map<string, int>, code: int): set<string> {
    set v | v in vars && vars[v] == code
  }

  /** Every code the old contract could return still means what it meant. */
  ghost predicate CodesKept(was: map<string, int>, next: map<string, int>) {
    forall v :: v in was ==> Names(next, was[v]) == Names(was, was[v])
  }

  ghost predicate MembersKept<V>(was: map<string, V>, next: map<string, V>) {
    forall m :: m in was ==> m in next && next[m] == was[m]
  }

  ghost predicate ErrorsKept(was: map<string, map<string, int>>, next: map<string, map<string, int>>) {
    forall e :: e in was ==> e in next && CodesKept(was[e], next[e])
  }

  ghost predicate ItemsKept(was: map<string, map<string, string>>, next: map<string, map<string, string>>) {
    forall t :: t in was ==> t in next && MembersKept(was[t], next[t])
  }

  ghost predicate Compatible(was: Shape, next: Shape) {
    && ErrorsKept(was.errors, next.errors)
    && ItemsKept(was.enums, next.enums)
    && ItemsKept(was.structs, next.structs)
    && MembersKept(was.functions, next.functions)
  }

  // ---- what the check reports ----

  ghost predicate MemberProblem<V>(kind: Kind, item: string, was: map<string, V>, next: map<string, V>, p: Problem) {
    || (p.MemberRemoved? && p.kind == kind && p.item == item && p.member in was && p.member !in next)
    || (p.MemberChanged? && p.kind == kind && p.item == item && p.member in was && p.member in next
      && next[p.member] != was[p.member])
  }

  ghost predicate ReuseProblem(item: string, was: map<string, int>, next: map<string, int>, p: Problem) {
    p.CodeReused? && p.item == item && p.member in next && p.member !in was && next[p.member] in was.Values
  }

  ghost predicate ErrorProblem(was: map<string, map<string, int>>, next: map<string, map<string, int>>, p: Problem) {
    && p.item in was
    && if p.item !in next then p == ItemRemoved(ErrorEnum, p.item)
       else (MemberProblem(ErrorEnum, p.item, was[p.item], next[p.item], p)
             || ReuseProblem(p.item, was[p.item], next[p.item], p))
  }

  ghost predicate ItemProblem(
    kind: Kind, was: map<string, map<string, string>>, next: map<string, map<string, string>>, p: Problem)
  {
    && p.item in was
    && if p.item !in next then p == ItemRemoved(kind, p.item)
      else MemberProblem(kind, p.item, was[p.item], next[p.item], p)
  }

  ghost predicate FunctionProblem(was: map<string, string>, next: map<string, string>, p: Problem) {
    && p.item in was
    && if p.item !in next then p == ItemRemoved(Function, p.item)
       else next[p.item] != was[p.item] && p == SignatureChanged(p.item)
  }

  ghost predicate IsProblem(was: Shape, next: Shape, p: Problem) {
    || ErrorProblem(was.errors, next.errors, p)
    || ItemProblem(Enum, was.enums, next.enums, p)
    || ItemProblem(Struct, was.structs, next.structs, p)
    || FunctionProblem(was.functions, next.functions, p)
  }

  ghost predicate IsWarning(was: map<string, map<string, string>>, next: map<string, map<string, string>>, w: Warning) {
    w.item in was && w.item in next && w.member in next[w.item] && w.member !in was[w.item]
  }

  // ---- no problem means compatible ----

  lemma {:induction false} CodesKeptExactly(item: string, was: map<string, int>, next: map<string, int>)
    ensures (forall p :: !MemberProblem(ErrorEnum, item, was, next, p) && !ReuseProblem(item, was, next, p))
      <==> CodesKept(was, next)
  {
    if forall p :: !MemberProblem(ErrorEnum, item, was, next, p) && !ReuseProblem(item, was, next, p) {
      forall v | v in was ensures Names(next, was[v]) == Names(was, was[v]) {
        forall w ensures w in Names(next, was[v]) <==> w in Names(was, was[v]) {
          assert !MemberProblem(ErrorEnum, item, was, next, MemberRemoved(ErrorEnum, item, w));
          assert !MemberProblem(ErrorEnum, item, was, next, MemberChanged(ErrorEnum, item, w));
          assert !ReuseProblem(item, was, next, CodeReused(item, w));
        }
      }
    }
    if CodesKept(was, next) {
      forall p ensures !MemberProblem(ErrorEnum, item, was, next, p) && !ReuseProblem(item, was, next, p) {
        CodesKeptNoProblem(item, was, next, p);
      }
    }
  }

  lemma {:induction false} CodesKeptNoProblem(item: string, was: map<string, int>, next: map<string, int>, p: Problem)
    requires CodesKept(was, next)
    ensures !MemberProblem(ErrorEnum, item, was, next, p)
    ensures !ReuseProblem(item, was, next, p)
  {
    forall v | v in was ensures v in next && next[v] == was[v] {
      assert v in Names(was, was[v]);
      assert v in Names(next, was[v]);
    }
    forall v, u | v in was && u in next && next[u] == was[v] ensures u in was {
      assert u in Names(next, was[v]);
      assert u in Names(was, was[v]);
    }
  }

  lemma {:induction false} MembersKeptExactly(
    kind: Kind, item: string, was: map<string, string>, next: map<string, string>)
    ensures (forall p :: !MemberProblem(kind, item, was, next, p)) <==> MembersKept(was, next)
  {
    if forall p :: !MemberProblem(kind, item, was, next, p) {
      forall m | m in was ensures m in next && next[m] == was[m] {
        assert !MemberProblem(kind, item, was, next, MemberRemoved(kind, item, m));
        assert !MemberProblem(kind, item, was, next, MemberChanged(kind, item, m));
      }
    }
  }

  lemma {:induction false} ErrorsKeptExactly(was: map<string, map<string, int>>, next: map<string, map<string, int>>)
    ensures (forall p :: !ErrorProblem(was, next, p)) <==> ErrorsKept(was, next)
  {
    if forall p :: !ErrorProblem(was, next, p) {
      forall e | e in was ensures e in next && CodesKept(was[e], next[e]) {
        assert !ErrorProblem(was, next, ItemRemoved(ErrorEnum, e));
        forall p ensures !MemberProblem(ErrorEnum, e, was[e], next[e], p) && !ReuseProblem(e, was[e], next[e], p) {
          assert !ErrorProblem(was, next, p);
        }
        CodesKeptExactly(e, was[e], next[e]);
      }
    }
    if ErrorsKept(was, next) {
      forall p ensures !ErrorProblem(was, next, p) {
        if p.item in was { CodesKeptNoProblem(p.item, was[p.item], next[p.item], p); }
      }
    }
  }

  lemma {:induction false} ItemsKeptExactly(
    kind: Kind, was: map<string, map<string, string>>, next: map<string, map<string, string>>)
    ensures (forall p :: !ItemProblem(kind, was, next, p)) <==> ItemsKept(was, next)
  {
    if forall p :: !ItemProblem(kind, was, next, p) {
      forall t | t in was ensures t in next && MembersKept(was[t], next[t]) {
        assert !ItemProblem(kind, was, next, ItemRemoved(kind, t));
        forall p ensures !MemberProblem(kind, t, was[t], next[t], p) {
          assert !ItemProblem(kind, was, next, p);
        }
        MembersKeptExactly(kind, t, was[t], next[t]);
      }
    }
  }

  lemma {:induction false} FunctionsKeptExactly(was: map<string, string>, next: map<string, string>)
    ensures (forall p :: !FunctionProblem(was, next, p)) <==> MembersKept(was, next)
  {
    if forall p :: !FunctionProblem(was, next, p) {
      forall f | f in was ensures f in next && next[f] == was[f] {
        assert !FunctionProblem(was, next, ItemRemoved(Function, f));
        assert !FunctionProblem(was, next, SignatureChanged(f));
      }
    }
  }

  lemma {:induction false} CompatibleExactly(was: Shape, next: Shape)
    ensures (forall p :: !IsProblem(was, next, p)) <==> Compatible(was, next)
  {
    ErrorsKeptExactly(was.errors, next.errors);
    ItemsKeptExactly(Enum, was.enums, next.enums);
    ItemsKeptExactly(Struct, was.structs, next.structs);
    FunctionsKeptExactly(was.functions, next.functions);
    if forall p :: !IsProblem(was, next, p) {
      forall p
        ensures !ErrorProblem(was.errors, next.errors, p) && !ItemProblem(Enum, was.enums, next.enums, p)
        ensures !ItemProblem(Struct, was.structs, next.structs, p) && !FunctionProblem(was.functions, next.functions, p)
      {
        assert !IsProblem(was, next, p);
      }
    }
  }

  // ---- chains of upgrades ----

  lemma {:induction false} CodesKeptTransitive(a: map<string, int>, b: map<string, int>, c: map<string, int>)
    requires CodesKept(a, b) && CodesKept(b, c)
    ensures CodesKept(a, c)
  {
    forall v | v in a ensures Names(c, a[v]) == Names(a, a[v]) {
      assert v in Names(a, a[v]);
      assert v in Names(b, a[v]);
      assert Names(c, b[v]) == Names(b, b[v]);
    }
  }

  lemma {:induction false} CompatibleTransitive(a: Shape, b: Shape, c: Shape)
    requires Compatible(a, b) && Compatible(b, c)
    ensures Compatible(a, c)
  {
    forall e | e in a.errors ensures e in c.errors && CodesKept(a.errors[e], c.errors[e]) {
      CodesKeptTransitive(a.errors[e], b.errors[e], c.errors[e]);
    }
  }

  /** Releases that each pass against their predecessor pass end to end; a release passes against itself. */
  lemma {:induction false} ChainIsCompatible(shapes: seq<Shape>)
    requires shapes != []
    requires forall i :: 0 < i < |shapes| ==> Compatible(shapes[i - 1], shapes[i])
    ensures Compatible(shapes[0], shapes[|shapes| - 1])
  {
    var n := |shapes| - 1;
    if n > 0 {
      ChainIsCompatible(shapes[..n]);
      CompatibleTransitive(shapes[0], shapes[n - 1], shapes[n]);
    }
  }

  /** Without warnings too, the stored structs are exactly what they were. */
  lemma {:induction false} NoWarningMeansSameStructs(
    was: map<string, map<string, string>>, next: map<string, map<string, string>>)
    requires ItemsKept(was, next)
    ensures (forall w :: !IsWarning(was, next, w)) <==> (forall t :: t in was ==> next[t] == was[t])
  {
    if forall w :: !IsWarning(was, next, w) {
      forall t | t in was ensures next[t] == was[t] {
        forall m ensures m in next[t] <==> m in was[t] {
          assert !IsWarning(was, next, FieldAdded(t, m));
        }
      }
    }
  }

  // ---- the check ----

  method CompareMembers<V(==)>(kind: Kind, item: string, was: map<string, V>, next: map<string, V>)
    returns (problems: seq<Problem>)
    ensures forall p :: p in problems <==> MemberProblem(kind, item, was, next, p)
  {
    problems := [];
    var todo := was.Keys;
    while todo != {}
      invariant todo <= was.Keys
      invariant forall p :: p in problems <==> MemberProblem(kind, item, was, next, p) && p.member !in todo
      decreases |todo|
    {
      var m :| m in todo;
      if m !in next {
        problems := problems + [MemberRemoved(kind, item, m)];
      } else if next[m] != was[m] {
        problems := problems + [MemberChanged(kind, item, m)];
      }
      todo := todo - {m};
    }
  }

  method FindReusedCodes(item: string, was: map<string, int>, next: map<string, int>) returns (problems: seq<Problem>)
    ensures forall p :: p in problems <==> ReuseProblem(item, was, next, p)
  {
    problems := [];
    var todo := next.Keys;
    while todo != {}
      invariant todo <= next.Keys
      invariant forall p :: p in problems <==> ReuseProblem(item, was, next, p) && p.member !in todo
      decreases |todo|
    {
      var v :| v in todo;
      if v !in was && next[v] in was.Values { problems := problems + [CodeReused(item, v)]; }
      todo := todo - {v};
    }
  }

  method CompareErrors(
    was: map<string, map<string, int>>, next: map<string, map<string, int>>)
    returns (problems: seq<Problem>)
    ensures forall p :: p in problems <==> ErrorProblem(was, next, p)
  {
    problems := [];
    var todo := was.Keys;
    while todo != {}
      invariant todo <= was.Keys
      invariant forall p :: p in problems <==> ErrorProblem(was, next, p) && p.item !in todo
      decreases |todo|
    {
      var e :| e in todo;
      if e !in next {
        problems := problems + [ItemRemoved(ErrorEnum, e)];
      } else {
        var broken := CompareMembers(ErrorEnum, e, was[e], next[e]);
        var reused := FindReusedCodes(e, was[e], next[e]);
        problems := problems + broken + reused;
      }
      todo := todo - {e};
    }
  }

  method CompareItems(
    kind: Kind, was: map<string, map<string, string>>, next: map<string, map<string, string>>)
    returns (problems: seq<Problem>)
    ensures forall p :: p in problems <==> ItemProblem(kind, was, next, p)
  {
    problems := [];
    var todo := was.Keys;
    while todo != {}
      invariant todo <= was.Keys
      invariant forall p :: p in problems <==> ItemProblem(kind, was, next, p) && p.item !in todo
      decreases |todo|
    {
      var t :| t in todo;
      if t !in next {
        problems := problems + [ItemRemoved(kind, t)];
      } else {
        var broken := CompareMembers(kind, t, was[t], next[t]);
        problems := problems + broken;
      }
      todo := todo - {t};
    }
  }

  predicate IsAdded(was: map<string, string>, next: map<string, string>, member: string) {
    member in next && member !in was
  }

  method FindAddedFields(
    was: map<string, map<string, string>>, next: map<string, map<string, string>>)
    returns (warnings: seq<Warning>)
    ensures forall w :: w in warnings <==> IsWarning(was, next, w)
  {
    warnings := [];
    var todo := was.Keys;
    while todo != {}
      invariant todo <= was.Keys
      invariant forall w :: w in warnings <==> IsWarning(was, next, w) && w.item !in todo
      decreases |todo|
    {
      var t :| t in todo;
      if t in next {
        var added := next[t].Keys - was[t].Keys;
        ghost var before := warnings;
        while added != {}
          invariant added <= next[t].Keys - was[t].Keys
          invariant forall w ::
            w in warnings <==> w in before || (w.item == t && IsAdded(was[t], next[t], w.member) && w.member !in added)
          decreases |added|
        {
          var m :| m in added;
          warnings := warnings + [FieldAdded(t, m)];
          added := added - {m};
        }
      }
      todo := todo - {t};
    }
  }

  method CompareFunctions(was: map<string, string>, next: map<string, string>) returns (problems: seq<Problem>)
    ensures forall p :: p in problems <==> FunctionProblem(was, next, p)
  {
    problems := [];
    var todo := was.Keys;
    while todo != {}
      invariant todo <= was.Keys
      invariant forall p :: p in problems <==> FunctionProblem(was, next, p) && p.item !in todo
      decreases |todo|
    {
      var f :| f in todo;
      if f !in next {
        problems := problems + [ItemRemoved(Function, f)];
      } else if next[f] != was[f] {
        problems := problems + [SignatureChanged(f)];
      }
      todo := todo - {f};
    }
  }

  /** No error exactly when the upgrade is compatible; each error and warning names a real change. */
  method Compare(was: Shape, next: Shape) returns (errors: seq<Problem>, warnings: seq<Warning>)
    ensures forall p :: p in errors <==> IsProblem(was, next, p)
    ensures forall w :: w in warnings <==> IsWarning(was.structs, next.structs, w)
    ensures errors == [] <==> Compatible(was, next)
  {
    var inErrors := CompareErrors(was.errors, next.errors);
    var inEnums := CompareItems(Enum, was.enums, next.enums);
    var inStructs := CompareItems(Struct, was.structs, next.structs);
    var inFunctions := CompareFunctions(was.functions, next.functions);
    errors := inErrors + inEnums + inStructs + inFunctions;
    warnings := FindAddedFields(was.structs, next.structs);
    CompatibleExactly(was, next);
    NothingListed(errors, was, next);
  }

  lemma NothingListed(errors: seq<Problem>, was: Shape, next: Shape)
    requires forall p :: p in errors <==> IsProblem(was, next, p)
    ensures errors == [] <==> forall p :: !IsProblem(was, next, p)
  {
    if errors != [] { assert IsProblem(was, next, errors[0]); }
  }
}
