/** What the canonical dependency text holds, field by field. */
module DependencyText {
  import opened Basics
  import opened Json
  import opened Timestamp
  import opened ProofModel
  import opened Hashing
  import opened Text

  // ----- Sorting keys keeps every value under its key -----

  function CanonOption(j: Option<Json>): Option<Json> {
    if j.Some? then Some(Canon(j.value)) else None
  }

  lemma {:induction false} LookupInsert(m: Member, ms: List<Member>, key: string)
    requires m.key !in Keys(ms)
    ensures Lookup(Insert(m, ms), key) == if key == m.key then Some(m.value) else Lookup(ms, key)
  {
    if ms.Cons? {
      if Less(ms.head.key, m.key) {
        LookupInsert(m, ms.tail, key);
      } else if key == m.key {
        AbsentKey(ms, key);
      }
    }
  }

  lemma {:induction false} AbsentKey(ms: List<Member>, key: string)
    requires key !in Keys(ms)
    ensures Lookup(ms, key) == None
  {
    if ms.Cons? {
      AbsentKey(ms.tail, key);
    }
  }

  lemma {:induction false} LookupCanon(ms: List<Member>, key: string)
    requires WellFormedMembers(ms)
    ensures Lookup(CanonMembers(ms), key) == CanonOption(Lookup(ms, key))
  {
    if ms.Cons? {
      LookupCanon(ms.tail, key);
      LookupInsert(Member(ms.head.key, Canon(ms.head.value)), CanonMembers(ms.tail), key);
    }
  }

  /** A dict read back from its canonical text: same keys, each value in canonical form. */
  lemma SubscriptCanon(j: Json, key: string)
    requires j.Obj? && WellFormed(j)
    ensures Canon(j).Obj? && Keys(Canon(j).members) == Keys(j.members)
    ensures Subscript(Canon(j), key) == CanonOption(Subscript(j, key))
  {
    LookupCanon(j.members, key);
  }

  // ----- Lists -----

  function ItemAt(items: List<Json>, i: nat): Option<Json> {
    match items
    case Nil => None
    case Cons(j, rest) => if i == 0 then Some(j) else ItemAt(rest, i - 1)
  }

  lemma {:induction false} CanonItemAt(items: List<Json>, i: nat)
    ensures ItemAt(CanonItems(items), i) == CanonOption(ItemAt(items, i))
  {
    if items.Cons? && i > 0 {
      CanonItemAt(items.tail, i - 1);
    }
  }

  lemma {:induction false} EvaluationAt(es: seq<EvaluationText>, i: nat)
    ensures ItemAt(EvaluationItems(es), i) == if i < |es| then Some(Obj(EvaluationMembers(es[i]))) else None
  {
    if es != [] && i > 0 {
      EvaluationAt(es[1..], i - 1);
    }
  }

  lemma {:induction false} DependencyAt(ds: seq<DependencyText>, i: nat)
    ensures ItemAt(DependencyItems(ds), i) == if i < |ds| then Some(Obj(DependencyMembers(ds[i]))) else None
  {
    if ds != [] && i > 0 {
      DependencyAt(ds[1..], i - 1);
    }
  }

  // ----- The fields of one evaluation and of one dependency -----

  /** A dict with exactly these entries: type, result and time under their own names, a policy only when not empty. */
  predicate HoldsEvaluation(j: Json, evaluationType: string, policy: string, result: string, evaluatedAt: string) {
    && j.Obj?
    && Keys(j.members) == {"evaluation_type", "evaluation_result", "evaluated_at"} + (if policy == "" then {} else {"evaluation_policy"})
    && Subscript(j, "evaluation_type") == Some(Str(evaluationType))
    && Subscript(j, "evaluation_result") == Some(Str(result))
    && Subscript(j, "evaluated_at") == Some(Str(evaluatedAt))
    && (policy != "" ==> Subscript(j, "evaluation_policy") == Some(Str(policy)))
  }

  /** A dict with exactly the URI (null if there is none), the task id, and the evaluations when there are any. */
  predicate HoldsDependency(j: Json, systemUri: Option<string>, taskId: string, evaluations: bool) {
    && j.Obj?
    && Keys(j.members) == {"system_uri", "task_id"} + (if evaluations then {"evaluations"} else {})
    && Subscript(j, "system_uri") == Some(if systemUri.Some? then Str(systemUri.value) else Null)
    && Subscript(j, "task_id") == Some(Str(taskId))
    && (evaluations ==> Subscript(j, "evaluations").Some? && Subscript(j, "evaluations").value.Arr?)
  }

  lemma EvaluationLookups(e: EvaluationText)
    ensures HoldsEvaluation(Obj(EvaluationMembers(e)), e.evaluationType, e.policy, e.result, e.evaluatedAt)
  {
    var last := Cons(Member("evaluated_at", Str(e.evaluatedAt)), Nil);
    var rest := Cons(Member("evaluation_result", Str(e.result)), last);
    var policy := Cons(Member("evaluation_policy", Str(e.policy)), rest);
    assert Keys(last) == {"evaluated_at"} && Keys(rest) == {"evaluation_result", "evaluated_at"};
    assert Keys(policy) == {"evaluation_policy", "evaluation_result", "evaluated_at"};
    assert Lookup(last, "evaluated_at") == Some(Str(e.evaluatedAt));
    assert Lookup(rest, "evaluated_at") == Lookup(last, "evaluated_at");
    assert Lookup(policy, "evaluated_at") == Lookup(rest, "evaluated_at");
    assert Lookup(policy, "evaluation_result") == Lookup(rest, "evaluation_result") == Some(Str(e.result));
    assert Lookup(policy, "evaluation_policy") == Some(Str(e.policy));
  }

  lemma DependencyLookups(d: DependencyText)
    ensures HoldsDependency(Obj(DependencyMembers(d)), d.systemUri, d.taskId, d.evaluations != [])
    ensures d.evaluations != [] ==> Subscript(Obj(DependencyMembers(d)), "evaluations") == Some(Arr(EvaluationItems(d.evaluations)))
  {
    var last := if d.evaluations == [] then Nil
                else Cons(Member("evaluations", Arr(EvaluationItems(d.evaluations))), Nil);
    var rest := Cons(Member("task_id", Str(d.taskId)), last);
    assert Keys(last) == if d.evaluations == [] then {} else {"evaluations"};
    assert Keys(rest) == {"task_id"} + Keys(last);
    assert Lookup(rest, "task_id") == Some(Str(d.taskId));
    assert d.evaluations != [] ==> Lookup(rest, "evaluations") == Lookup(last, "evaluations");
  }

  lemma HoldsEvaluationCanon(j: Json, evaluationType: string, policy: string, result: string, evaluatedAt: string)
    requires WellFormed(j) && HoldsEvaluation(j, evaluationType, policy, result, evaluatedAt)
    ensures HoldsEvaluation(Canon(j), evaluationType, policy, result, evaluatedAt)
  {
    hide Subscript;
    SubscriptCanon(j, "evaluation_type");
    SubscriptCanon(j, "evaluation_result");
    SubscriptCanon(j, "evaluated_at");
    SubscriptCanon(j, "evaluation_policy");
  }

  lemma HoldsDependencyCanon(j: Json, systemUri: Option<string>, taskId: string, evaluations: bool)
    requires WellFormed(j) && HoldsDependency(j, systemUri, taskId, evaluations)
    ensures HoldsDependency(Canon(j), systemUri, taskId, evaluations)
  {
    hide Subscript;
    SubscriptCanon(j, "system_uri");
    SubscriptCanon(j, "task_id");
    SubscriptCanon(j, "evaluations");
  }

  // ----- The whole text, read back -----

  /** The i-th dict of a canonical dependency text. */
  function ReadDependency(text: string, i: nat): Option<Json> {
    var list :- Parse(text);
    if list.Arr? then ItemAt(list.items, i) else None
  }

  function ReadEvaluation(text: string, i: nat, j: nat): Option<Json> {
    var dependency :- ReadDependency(text, i);
    var list :- Subscript(dependency, "evaluations");
    if list.Arr? then ItemAt(list.items, j) else None
  }

  /** On raw dicts: read back, the text holds exactly the dicts given, in order, each field under its own name. */
  lemma DictTextFields(ds: seq<DependencyText>, i: nat, j: nat)
    ensures
      var text := DictDependenciesText(ds);
      && (ReadDependency(text, i).Some? <==> i < |ds|)
      && (i < |ds| ==>
          HoldsDependency(ReadDependency(text, i).value, ds[i].systemUri, ds[i].taskId, ds[i].evaluations != []))
      && (ReadEvaluation(text, i, j).Some? <==> i < |ds| && j < |ds[i].evaluations|)
      && (i < |ds| && j < |ds[i].evaluations| ==>
          var e := ds[i].evaluations[j];
          HoldsEvaluation(ReadEvaluation(text, i, j).value, e.evaluationType, e.policy, e.result, e.evaluatedAt))
  {
    hide HoldsDependency, HoldsEvaluation, EvaluationMembers, DependencyMembers, WellFormed, Parse, Dumps;
    ParseDumps(Arr(DependencyItems(ds)));
    CanonItemAt(DependencyItems(ds), i);
    DependencyAt(ds, i);
    if i < |ds| {
      var d := ds[i];
      DependencyMeaning(d);
      DependencyLookups(d);
      HoldsDependencyCanon(Obj(DependencyMembers(d)), d.systemUri, d.taskId, d.evaluations != []);
      SubscriptCanon(Obj(DependencyMembers(d)), "evaluations");
      if d.evaluations == [] {
        NoEvaluations(Canon(Obj(DependencyMembers(d))), d.systemUri, d.taskId);
      } else {
        CanonItemAt(EvaluationItems(d.evaluations), j);
        EvaluationAt(d.evaluations, j);
        if j < |d.evaluations| {
          var e := d.evaluations[j];
          EvaluationMeaning(e);
          EvaluationLookups(e);
          HoldsEvaluationCanon(Obj(EvaluationMembers(e)), e.evaluationType, e.policy, e.result, e.evaluatedAt);
        }
      }
    }
  }

  lemma NoEvaluations(j: Json, systemUri: Option<string>, taskId: string)
    requires HoldsDependency(j, systemUri, taskId, false)
    ensures Subscript(j, "evaluations") == None
  {
    AbsentKey(j.members, "evaluations");
  }

  /**
   * On `Dependency` objects: read back, the text holds the dependencies in order, each with its own URI and task id
   * and no challenge URL, and each evaluation with its own type, result, RFC 3339 time, and policy unless empty.
   */
  lemma DependenciesTextFields(ds: seq<Dependency>, i: nat, j: nat)
    requires FormattableDependencies(ds)
    ensures
      var text := DependenciesText(Some(ds));
      && (ReadDependency(text, i).Some? <==> i < |ds|)
      && (i < |ds| ==>
          HoldsDependency(ReadDependency(text, i).value, ds[i].systemUri, ds[i].taskId, ds[i].evaluations != []))
      && (ReadEvaluation(text, i, j).Some? <==> i < |ds| && j < |ds[i].evaluations|)
      && (i < |ds| && j < |ds[i].evaluations| ==>
          var e := ds[i].evaluations[j];
          HoldsEvaluation(ReadEvaluation(text, i, j).value, e.evaluationType, e.policy.GetOr(""), e.result, FormatRfc3339(e.evaluatedAt)))
  {
    hide HoldsDependency, HoldsEvaluation, DictDependenciesText, ReadDependency, ReadEvaluation, FormatRfc3339, Formattable;
    DictTextFields(DependenciesToText(ds), i, j);
    SameDictText(ds);
  }

  lemma SameDictText(ds: seq<Dependency>)
    requires FormattableDependencies(ds)
    ensures DependenciesText(Some(ds)) == DictDependenciesText(DependenciesToText(ds))
  {
  }

  /** The hash is taken of that text, prefixed with the algorithm. */
  lemma DependenciesHashText(h: HashFn, ds: Option<seq<Dependency>>)
    requires FormattableDependencies(ds.GetOr([]))
    ensures DependenciesHash(h, ds) == "sha256:" + h(DependenciesText(ds))
    ensures ds.None? ==> DependenciesText(ds) == "[]"
  {
    assert DependenciesText(Some([])) == Dumps(Arr(Nil)) == "[]";
  }
}
