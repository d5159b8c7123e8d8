/** The texts that are hashed: data, dependency lists and the proof message. */
module Hashing {
  import opened Basics
  import opened Text
  import opened Json
  import opened CanonicalJson
  import opened Timestamp
  import opened ProofModel

  /** The digest of a text as lower-case hex; SHA-256 in the program, a parameter here. */
  type HashFn = string -> string

  ghost predicate Injective(h: HashFn) {
    forall x: string, y: string :: h(x) == h(y) ==> x == y
  }

  // ----- compute_data_hash / hash_with_prefix -----

  predicate IsContainer(j: Json) {
    j.Arr? || j.Obj?
  }

  /** The preimage: a str as it is, a dict or list as canonical JSON, anything else as `str(data)`. */
  function DataText(j: Json): string {
    match j
    case Str(s) => s
    case Arr(_) => Dumps(j)
    case Obj(_) => Dumps(j)
    case Null => "None"
    case Bool(b) => if b then "True" else "False"
    case Num(n) => PrintInt(n)
  }

  const SHA_PREFIX := "sha256:"

  function HashWithPrefix(h: HashFn, j: Json): string {
    SHA_PREFIX + h(DataText(j))
  }

  lemma PrefixCancels(x: string, y: string)
    ensures SHA_PREFIX + x == SHA_PREFIX + y <==> x == y
  {
    assert (SHA_PREFIX + x)[7..] == x && (SHA_PREFIX + y)[7..] == y;
  }

  /** What is hashed: a string as it is, a dict or list as canonical JSON, anything else as Python's `str` writes it. */
  lemma HashedText(h: HashFn, j: Json)
    ensures j.Str? ==> HashWithPrefix(h, j) == "sha256:" + h(j.s)
    ensures IsContainer(j) ==> HashWithPrefix(h, j) == "sha256:" + h(Dumps(j))
    ensures j.Num? ==> HashWithPrefix(h, j) == "sha256:" + h(Dumps(j))
    ensures j == Null ==> HashWithPrefix(h, j) == "sha256:" + h("None")
    ensures j == Bool(true) ==> HashWithPrefix(h, j) == "sha256:" + h("True")
    ensures j == Bool(false) ==> HashWithPrefix(h, j) == "sha256:" + h("False")
  {
    hide PrintInt;
  }

  /** On dicts and lists the hash decides equality up to key order. */
  lemma ContainerHashDecides(h: HashFn, a: Json, b: Json)
    requires Injective(h)
    requires IsContainer(a) && IsContainer(b) && WellFormed(a) && WellFormed(b)
    ensures HashWithPrefix(h, a) == HashWithPrefix(h, b) <==> Meaning(a) == Meaning(b)
  {
    PrefixCancels(h(DataText(a)), h(DataText(b)));
    DumpsNormalForm(a, b);
  }

  lemma IntTextDecides(m: int, n: int)
    ensures PrintInt(m) == PrintInt(n) <==> m == n
    ensures PrintInt(m)[0] == '-' || IsDigit(PrintInt(m)[0])
  {
    DecimalValue(if m < 0 then -m else m);
    DecimalValue(if n < 0 then -n else n);
    ReadPrintedInt(m, "");
    ReadPrintedInt(n, "");
    assert PrintInt(m) + "" == PrintInt(m) && PrintInt(n) + "" == PrintInt(n);
  }

  /** All collisions of preimages: besides equal values, only a string against a non-string whose text it spells. */
  lemma DataTextCollisions(a: Json, b: Json)
    requires WellFormed(a) && WellFormed(b)
    ensures DataText(a) == DataText(b) <==>
            || Meaning(a) == Meaning(b)
            || (a.Str? && !b.Str? && a.s == DataText(b))
            || (b.Str? && !a.Str? && b.s == DataText(a))
  {
    DumpsNormalForm(a, b);
    if a.Num? {
      IntTextDecides(a.n, if b.Num? then b.n else 0);
    }
    if b.Num? {
      IntTextDecides(b.n, if a.Num? then a.n else 0);
    }
    ContainerStart(a);
    ContainerStart(b);
  }

  lemma ContainerStart(j: Json)
    ensures j.Arr? ==> DataText(j)[0] == '['
    ensures j.Obj? ==> DataText(j)[0] == '{'
  {
  }

  /** The string "[]" and the empty list share a preimage. */
  lemma EmptyListCollides()
    ensures DataText(Str("[]")) == DataText(Arr(Nil))
    ensures Meaning(Str("[]")) != Meaning(Arr(Nil))
  {
  }

  // ----- Dependencies -----

  /** What the canonical form keeps of an evaluation: an empty policy counts as none, the time is text. */
  datatype EvaluationText = EvaluationText(evaluationType: string, policy: string, result: string, evaluatedAt: string)

  /** What the canonical form keeps of a dependency: the challenge URL is gone. */
  datatype DependencyText = DependencyText(systemUri: Option<string>, taskId: string, evaluations: seq<EvaluationText>)

  predicate FormattableEvaluations(es: seq<Evaluation>) {
    forall i :: 0 <= i < |es| ==> Formattable(es[i].evaluatedAt)
  }

  /** Every evaluation time lies in the years the formatter handles. */
  predicate FormattableDependencies(ds: seq<Dependency>) {
    forall i :: 0 <= i < |ds| ==> FormattableEvaluations(ds[i].evaluations)
  }

  function EvaluationToText(e: Evaluation): EvaluationText
    requires Formattable(e.evaluatedAt)
  {
    EvaluationText(e.evaluationType, e.policy.GetOr(""), e.result, FormatRfc3339(e.evaluatedAt))
  }

  function DependencyToText(d: Dependency): DependencyText
    requires FormattableEvaluations(d.evaluations)
  {
    DependencyText(d.systemUri, d.taskId,
                   seq(|d.evaluations|, i requires 0 <= i < |d.evaluations| => EvaluationToText(d.evaluations[i])))
  }

  function DependenciesToText(ds: seq<Dependency>): (r: seq<DependencyText>)
    requires FormattableDependencies(ds)
  {
    seq(|ds|, i requires 0 <= i < |ds| => DependencyToText(ds[i]))
  }

  /** `_dep_eval_to_canonical`: an empty policy is omitted. */
  function EvaluationMembers(e: EvaluationText): List<Member> {
    var rest := Cons(Member("evaluation_result", Str(e.result)), Cons(Member("evaluated_at", Str(e.evaluatedAt)), Nil));
    Cons(Member("evaluation_type", Str(e.evaluationType)),
         if e.policy != "" then Cons(Member("evaluation_policy", Str(e.policy)), rest) else rest)
  }

  function EvaluationItems(es: seq<EvaluationText>): List<Json> {
    if es == [] then Nil else Cons(Obj(EvaluationMembers(es[0])), EvaluationItems(es[1..]))
  }

  function OptionalText(s: Option<string>): Json {
    if s.Some? then Str(s.value) else Null
  }

  /** `_dep_to_canonical`: an empty evaluation list is omitted. */
  function DependencyMembers(d: DependencyText): List<Member> {
    Cons(Member("system_uri", OptionalText(d.systemUri)),
         Cons(Member("task_id", Str(d.taskId)),
              if d.evaluations == [] then Nil
              else Cons(Member("evaluations", Arr(EvaluationItems(d.evaluations))), Nil)))
  }

  function DependencyItems(ds: seq<DependencyText>): List<Json> {
    if ds == [] then Nil else Cons(Obj(DependencyMembers(ds[0])), DependencyItems(ds[1..]))
  }

  function DependenciesText(ds: Option<seq<Dependency>>): string
    requires FormattableDependencies(ds.GetOr([]))
  {
    Dumps(Arr(DependencyItems(DependenciesToText(ds.GetOr([])))))
  }

  /** `compute_dependencies_hash`. */
  function DependenciesHash(h: HashFn, ds: Option<seq<Dependency>>): string
    requires FormattableDependencies(ds.GetOr([]))
  {
    SHA_PREFIX + h(DependenciesText(ds))
  }

  // ----- The dicts determine the records they were built from -----

  lemma EvaluationMeaning(e: EvaluationText)
    ensures WellFormed(Obj(EvaluationMembers(e)))
    ensures
      var rest := map["evaluated_at" := VStr(e.evaluatedAt)]["evaluation_result" := VStr(e.result)];
      MembersMeaning(EvaluationMembers(e)) ==
      (if e.policy == "" then rest else rest["evaluation_policy" := VStr(e.policy)])["evaluation_type" := VStr(e.evaluationType)]
  {
    var last := Cons(Member("evaluated_at", Str(e.evaluatedAt)), Nil);
    var rest := Cons(Member("evaluation_result", Str(e.result)), last);
    var policy := Cons(Member("evaluation_policy", Str(e.policy)), rest);
    assert Keys(last) == {"evaluated_at"} && Keys(rest) == {"evaluation_result", "evaluated_at"};
    assert Keys(policy) == {"evaluation_policy", "evaluation_result", "evaluated_at"};
    assert WellFormedMembers(last);
    assert WellFormedMembers(rest);
    assert WellFormedMembers(policy);
    assert MembersMeaning(last) == map["evaluated_at" := VStr(e.evaluatedAt)];
    assert MembersMeaning(rest) == MembersMeaning(last)["evaluation_result" := VStr(e.result)];
    assert MembersMeaning(policy) == MembersMeaning(rest)["evaluation_policy" := VStr(e.policy)];
  }

  lemma EvaluationDecided(a: EvaluationText, b: EvaluationText)
    ensures MembersMeaning(EvaluationMembers(a)) == MembersMeaning(EvaluationMembers(b)) ==> a == b
  {
    EvaluationMeaning(a);
    EvaluationMeaning(b);
    var m, n := MembersMeaning(EvaluationMembers(a)), MembersMeaning(EvaluationMembers(b));
    assert m == n ==> m["evaluation_type"] == n["evaluation_type"] && m["evaluation_result"] == n["evaluation_result"];
    assert m == n ==> m["evaluated_at"] == n["evaluated_at"];
  }

  lemma {:induction false} EvaluationItemsDecided(a: seq<EvaluationText>, b: seq<EvaluationText>)
    ensures WellFormedItems(EvaluationItems(a))
    ensures ItemsMeaning(EvaluationItems(a)) == ItemsMeaning(EvaluationItems(b)) ==> a == b
  {
    if a != [] {
      EvaluationMeaning(a[0]);
      EvaluationItemsDecided(a[1..], if b == [] then [] else b[1..]);
      if b != [] {
        EvaluationDecided(a[0], b[0]);
        assert ItemsMeaning(EvaluationItems(a)).head == VObj(MembersMeaning(EvaluationMembers(a[0])));
        assert ItemsMeaning(EvaluationItems(b)).head == VObj(MembersMeaning(EvaluationMembers(b[0])));
        assert a == [a[0]] + a[1..] && b == [b[0]] + b[1..];
      }
    }
  }

  lemma DependencyMeaning(d: DependencyText)
    ensures WellFormed(Obj(DependencyMembers(d)))
    ensures
      var rest := if d.evaluations == [] then map[] else map["evaluations" := VArr(ItemsMeaning(EvaluationItems(d.evaluations)))];
      MembersMeaning(DependencyMembers(d)) == rest["task_id" := VStr(d.taskId)]["system_uri" := Meaning(OptionalText(d.systemUri))]
  {
    EvaluationItemsDecided(d.evaluations, []);
    var last := if d.evaluations == [] then Nil
                else Cons(Member("evaluations", Arr(EvaluationItems(d.evaluations))), Nil);
    var rest := Cons(Member("task_id", Str(d.taskId)), last);
    assert Keys(last) <= {"evaluations"} && Keys(rest) <= {"task_id", "evaluations"};
    assert WellFormedMembers(Nil);
    assert WellFormedMembers(last);
    assert WellFormedMembers(rest);
    assert MembersMeaning(last) ==
           if d.evaluations == [] then map[] else map["evaluations" := VArr(ItemsMeaning(EvaluationItems(d.evaluations)))];
    assert MembersMeaning(rest) == MembersMeaning(last)["task_id" := VStr(d.taskId)];
  }

  lemma DependencyDecided(a: DependencyText, b: DependencyText)
    ensures MembersMeaning(DependencyMembers(a)) == MembersMeaning(DependencyMembers(b)) ==> a == b
  {
    DependencyMeaning(a);
    DependencyMeaning(b);
    EvaluationItemsDecided(a.evaluations, b.evaluations);
    var m, n := MembersMeaning(DependencyMembers(a)), MembersMeaning(DependencyMembers(b));
    assert m == n ==> m["system_uri"] == n["system_uri"] && m["task_id"] == n["task_id"];
    assert "evaluations" in m <==> a.evaluations != [];
    assert "evaluations" in n <==> b.evaluations != [];
    assert m == n && a.evaluations != [] ==> m["evaluations"] == n["evaluations"];
  }

  lemma {:induction false} DependencyItemsDecided(a: seq<DependencyText>, b: seq<DependencyText>)
    ensures WellFormedItems(DependencyItems(a))
    ensures ItemsMeaning(DependencyItems(a)) == ItemsMeaning(DependencyItems(b)) ==> a == b
  {
    if a != [] {
      DependencyMeaning(a[0]);
      DependencyItemsDecided(a[1..], if b == [] then [] else b[1..]);
      if b != [] {
        DependencyDecided(a[0], b[0]);
        assert ItemsMeaning(DependencyItems(a)).head == VObj(MembersMeaning(DependencyMembers(a[0])));
        assert ItemsMeaning(DependencyItems(b)).head == VObj(MembersMeaning(DependencyMembers(b[0])));
        assert a == [a[0]] + a[1..] && b == [b[0]] + b[1..];
      }
    }
  }

  // ----- Which lists the canonical text identifies -----

  predicate SameEvaluation(a: Evaluation, b: Evaluation) {
    && a.evaluationType == b.evaluationType
    && a.policy.GetOr("") == b.policy.GetOr("")
    && a.result == b.result
    && Instant(a.evaluatedAt) == Instant(b.evaluatedAt)
  }

  predicate SameEvaluations(a: seq<Evaluation>, b: seq<Evaluation>) {
    |a| == |b| && forall i :: 0 <= i < |a| ==> SameEvaluation(a[i], b[i])
  }

  predicate SameDependency(a: Dependency, b: Dependency) {
    a.systemUri == b.systemUri && a.taskId == b.taskId && SameEvaluations(a.evaluations, b.evaluations)
  }

  /** Equal in order, without challenge URLs, with None and empty policies identified and times as instants. */
  predicate SameDependencies(a: seq<Dependency>, b: seq<Dependency>) {
    |a| == |b| && forall i :: 0 <= i < |a| ==> SameDependency(a[i], b[i])
  }

  lemma EvaluationTextDecides(a: Evaluation, b: Evaluation)
    requires Formattable(a.evaluatedAt) && Formattable(b.evaluatedAt)
    ensures EvaluationToText(a) == EvaluationToText(b) <==> SameEvaluation(a, b)
  {
    FormatDecidesInstant(a.evaluatedAt, b.evaluatedAt);
  }

  lemma DependencyTextDecides(a: Dependency, b: Dependency)
    requires FormattableEvaluations(a.evaluations) && FormattableEvaluations(b.evaluations)
    ensures DependencyToText(a) == DependencyToText(b) <==> SameDependency(a, b)
  {
    var x, y := DependencyToText(a).evaluations, DependencyToText(b).evaluations;
    if |x| == |y| {
      forall i | 0 <= i < |x|
        ensures x[i] == y[i] <==> SameEvaluation(a.evaluations[i], b.evaluations[i])
      {
        EvaluationTextDecides(a.evaluations[i], b.evaluations[i]);
      }
    }
  }

  lemma DependenciesToTextDecides(a: seq<Dependency>, b: seq<Dependency>)
    requires FormattableDependencies(a) && FormattableDependencies(b)
    ensures DependenciesToText(a) == DependenciesToText(b) <==> SameDependencies(a, b)
  {
    var x, y := DependenciesToText(a), DependenciesToText(b);
    if |x| == |y| {
      forall i | 0 <= i < |x|
        ensures x[i] == y[i] <==> SameDependency(a[i], b[i])
      {
        DependencyTextDecides(a[i], b[i]);
      }
    }
  }

  /** Canonical dependency texts are equal exactly when the lists match; a missing list counts as empty. */
  lemma DependenciesTextDecides(a: Option<seq<Dependency>>, b: Option<seq<Dependency>>)
    requires FormattableDependencies(a.GetOr([])) && FormattableDependencies(b.GetOr([]))
    ensures DependenciesText(a) == DependenciesText(b) <==> SameDependencies(a.GetOr([]), b.GetOr([]))
  {
    var x, y := DependenciesToText(a.GetOr([])), DependenciesToText(b.GetOr([]));
    DependenciesToTextDecides(a.GetOr([]), b.GetOr([]));
    DependencyItemsDecided(x, y);
    DependencyItemsDecided(y, x);
    DumpsNormalForm(Arr(DependencyItems(x)), Arr(DependencyItems(y)));
  }

  /** The same for the hash itself; no dependencies hash as the literal `[]`. */
  lemma DependenciesHashDecides(h: HashFn, a: Option<seq<Dependency>>, b: Option<seq<Dependency>>)
    requires Injective(h)
    requires FormattableDependencies(a.GetOr([])) && FormattableDependencies(b.GetOr([]))
    ensures DependenciesHash(h, a) == DependenciesHash(h, b) <==> SameDependencies(a.GetOr([]), b.GetOr([]))
    ensures DependenciesHash(h, None) == DependenciesHash(h, Some([])) == SHA_PREFIX + h("[]")
  {
    DependenciesTextDecides(a, b);
    PrefixCancels(h(DependenciesText(a)), h(DependenciesText(b)));
    assert Dumps(Arr(Nil)) == "[]";
  }

  // ----- Proofs and sketches -----

  /** A sketch that tells the truth about a stored proof: same task, hashes of the stored content. */
  predicate Matches(h: HashFn, proof: StoredProof, sketch: Sketch) {
    && proof.task.taskId == sketch.taskId
    && proof.task.invocationHash == HashWithPrefix(h, proof.task.invocation) == sketch.invocationHash
    && proof.task.outcomeHash == HashWithPrefix(h, proof.task.outcome) == sketch.outcomeHash
    && FormattableDependencies(proof.dependencies)
    && sketch.dependenciesHash == Some(DependenciesHash(h, Some(proof.dependencies)))
  }

  // ----- The dict form -----

  /** `compute_dependencies_hash` on raw dicts: `evaluated_at` is passed through as the text it is. */
  function DictDependenciesText(ds: seq<DependencyText>): string {
    Dumps(Arr(DependencyItems(ds)))
  }

  /** Dicts and objects hash alike exactly when the dicts already carry the RFC 3339 texts of the objects. */
  lemma DictFormAgrees(dicts: seq<DependencyText>, ds: seq<Dependency>)
    requires FormattableDependencies(ds)
    ensures DictDependenciesText(dicts) == DependenciesText(Some(ds)) <==> dicts == DependenciesToText(ds)
  {
    var texts := DependenciesToText(ds);
    DependencyItemsDecided(dicts, texts);
    DependencyItemsDecided(texts, dicts);
    DumpsNormalForm(Arr(DependencyItems(dicts)), Arr(DependencyItems(texts)));
  }
}
