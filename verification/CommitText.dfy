/** The texts that are hashed for a task: the canonical invocation and outcome, written out. */
module CommitText {
  import opened Basics
  import opened Text
  import opened Json
  import opened JsonText
  import opened Commits

  lemma OneMember(key: string, value: Json)
    ensures Canon(Obj(Field(key, value, Nil))) == Obj(Field(key, Canon(value), Nil))
  {
  }

  /** The canonical invocation of a query. */
  lemma InvocationText(query: string)
    ensures Dumps(InvocationDict(query)) ==
            "{" + ("\"input\":" + ("{" + ("\"query\":" + Print(Str(query))) + "}")) + ","
            + ("\"method\":" + "\"query\"") + "," + ("\"trigger\":" + ("{" + ("\"type\":" + "\"user_message\"") + "}")) + "}"
  {
    hide EscapeAll, Canon, PrintMember, Print;
    var trigger := Obj(Field("type", Str("user_message"), Nil));
    var input := Obj(Field("query", Str(query), Nil));
    InvocationOrder(query, trigger, input);
    Quoted("query", "\"query\"");
    Quoted("user_message", "\"user_message\"");
    MarkedMember("type", "\"type\":", Str("user_message"));
    MarkedMember("query", "\"query\":", Str(query));
    MarkedMember("input", "\"input\":", input);
    MarkedMember("method", "\"method\":", Str("query"));
    MarkedMember("trigger", "\"trigger\":", trigger);
    ThreeMembers("input", input, "method", Str("query"), "trigger", trigger);
    JoinThree(PrintMember(Member("input", input)), PrintMember(Member("method", Str("query"))), PrintMember(Member("trigger", trigger)));
  }

  lemma InvocationOrder(query: string, trigger: Json, input: Json)
    requires trigger == Obj(Field("type", Str("user_message"), Nil)) && input == Obj(Field("query", Str(query), Nil))
    ensures Canon(InvocationDict(query)) ==
            Obj(Field("input", input, Field("method", Str("query"), Field("trigger", trigger, Nil))))
  {
    OneMember("type", Str("user_message"));
    OneMember("query", Str(query));
    assert Less("input", "trigger") && Less("input", "method") && Less("method", "trigger");
    assert !Less("trigger", "method") && !Less("trigger", "input") && !Less("method", "input");
    var i, t, m := Member("input", input), Member("trigger", trigger), Member("method", Str("query"));
    assert Canon(input) == input && Canon(trigger) == trigger;
    assert CanonMembers(Cons(i, Nil)) == Cons(i, Nil);
    InsertLast(t, Cons(i, Nil));
    assert CanonMembers(Cons(t, Cons(i, Nil))) == Insert(t, Cons(i, Nil));
    assert Insert(m, Cons(t, Nil)) == Cons(m, Cons(t, Nil));
    assert Insert(m, Cons(i, Cons(t, Nil))) == Cons(i, Cons(m, Cons(t, Nil)));
    assert CanonMembers(Cons(m, Cons(t, Cons(i, Nil)))) == Cons(i, Cons(m, Cons(t, Nil)));
  }

  lemma JoinOutcome(a: string, x: string, e: string, r: string, t: string)
    ensures ['{'] + (a + [','] + (x + [','] + (e + [','] + (r + [','] + t)))) + ['}'] == "{" + a + "," + (x + ",") + e + "," + r + "," + t + "}"
    ensures ['{'] + (a + [','] + (e + [','] + (r + [','] + t))) + ['}'] == "{" + a + "," + "" + e + "," + r + "," + t + "}"
  {
  }

  /** The canonical outcome of a response, with its artifacts in their place if there are any. */
  lemma OutcomeText(response: string, artifacts: Option<Json>)
    ensures Dumps(OutcomeDict(response, artifacts)) ==
            "{" + ("\"actions\":" + "[]") + ","
            + (if artifacts.Some? then "\"artifacts\":" + Dumps(artifacts.value) + "," else "")
            + ("\"error\":" + "null") + "," + ("\"response\":" + ("{" + ("\"text\":" + Print(Str(response))) + "}")) + ","
            + ("\"status\":" + "\"success\"") + "}"
  {
    hide EscapeAll, Canon, PrintMember, PrintMembers, Print;
    var text := Obj(Field("text", Str(response), Nil));
    var later := Field("error", Null, Field("response", text, Field("status", Str("success"), Nil)));
    var a := if artifacts.Some? then Canon(artifacts.value) else Null;
    OutcomeOrder(response, artifacts, text, later);
    OutcomeMarks(response, a, text);
    LaterText(text, later);
    JoinOutcome(PrintMember(Member("actions", Arr(Nil))), PrintMember(Member("artifacts", a)), PrintMember(Member("error", Null)),
                PrintMember(Member("response", text)), PrintMember(Member("status", Str("success"))));
    if artifacts.Some? {
      NextMember("artifacts", a, later);
      NextMember("actions", Arr(Nil), Field("artifacts", a, later));
      ObjectText(Field("actions", Arr(Nil), Field("artifacts", a, later)));
    } else {
      NextMember("actions", Arr(Nil), later);
      ObjectText(Field("actions", Arr(Nil), later));
    }
  }

  lemma OutcomeMarks(response: string, artifacts: Json, text: Json)
    requires text == Obj(Field("text", Str(response), Nil))
    ensures PrintMember(Member("actions", Arr(Nil))) == "\"actions\":" + "[]"
    ensures PrintMember(Member("artifacts", artifacts)) == "\"artifacts\":" + Print(artifacts)
    ensures PrintMember(Member("error", Null)) == "\"error\":" + "null"
    ensures PrintMember(Member("response", text)) == "\"response\":" + ("{" + ("\"text\":" + Print(Str(response))) + "}")
    ensures PrintMember(Member("status", Str("success"))) == "\"status\":" + "\"success\""
  {
    hide PrintMember, Print, EscapeAll;
    Quoted("success", "\"success\"");
    EmptyTexts();
    MarkedMember("text", "\"text\":", Str(response));
    MarkedMember("actions", "\"actions\":", Arr(Nil));
    MarkedMember("artifacts", "\"artifacts\":", artifacts);
    MarkedMember("error", "\"error\":", Null);
    MarkedMember("response", "\"response\":", text);
    MarkedMember("status", "\"status\":", Str("success"));
  }

  lemma EmptyTexts()
    ensures Print(Arr(Nil)) == "[]" && Print(Null) == "null"
  {
  }

  lemma ObjectText(ms: List<Member>)
    ensures Print(Obj(ms)) == ['{'] + PrintMembers(ms) + ['}']
  {
    hide PrintMembers;
  }

  lemma NextMember(key: string, value: Json, rest: List<Member>)
    requires rest.Cons?
    ensures PrintMembers(Field(key, value, rest)) == PrintMember(Member(key, value)) + [','] + PrintMembers(rest)
  {
    hide PrintMember;
  }

  lemma LaterText(text: Json, later: List<Member>)
    requires later == Field("error", Null, Field("response", text, Field("status", Str("success"), Nil)))
    ensures PrintMembers(later) ==
            PrintMember(Member("error", Null)) + [','] + (PrintMember(Member("response", text)) + [',']
            + PrintMember(Member("status", Str("success"))))
  {
    hide PrintMember;
    var last := Field("status", Str("success"), Nil);
    assert PrintMembers(last) == PrintMember(Member("status", Str("success")));
    NextMember("response", text, last);
    NextMember("error", Null, Field("response", text, last));
  }

  lemma OutcomeOrder(response: string, artifacts: Option<Json>, text: Json, later: List<Member>)
    requires text == Obj(Field("text", Str(response), Nil))
    requires later == Field("error", Null, Field("response", text, Field("status", Str("success"), Nil)))
    ensures Canon(OutcomeDict(response, artifacts)) ==
            Obj(Field("actions", Arr(Nil), if artifacts.Some? then Field("artifacts", Canon(artifacts.value), later) else later))
  {
    hide Less, Insert;
    OneMember("text", Str(response));
    OutcomeKeys();
    var e, a, s, r := Member("error", Null), Member("actions", Arr(Nil)), Member("status", Str("success")), Member("response", text);
    var extra := if artifacts.Some? then Cons(Member("artifacts", artifacts.value), Nil) else Nil;
    assert CanonMembers(Cons(r, Cons(s, Cons(a, Cons(e, extra))))) ==
           Insert(r, Insert(s, Insert(a, Insert(e, CanonMembers(extra))))) by {
      Unfold(r, s, a, e, extra);
    }
    assert Insert(e, Nil) == Cons(e, Nil) by {
      InsertEmpty(e);
    }
    if artifacts.Some? {
      var x := Member("artifacts", Canon(artifacts.value));
      assert CanonMembers(extra) == Cons(x, Nil) by {
        OneCanon("artifacts", artifacts.value);
      }
      InsertLast(e, Cons(x, Nil));
      InsertFirst(a, Cons(x, Cons(e, Nil)));
      InsertPast(s, a, Cons(x, Cons(e, Nil)));
      InsertPast(s, x, Cons(e, Nil));
      InsertLast(s, Cons(e, Nil));
      InsertPast(r, a, Cons(x, Cons(e, Cons(s, Nil))));
      InsertPast(r, x, Cons(e, Cons(s, Nil)));
    } else {
      InsertFirst(a, Cons(e, Nil));
      InsertPast(s, a, Cons(e, Nil));
      InsertLast(s, Cons(e, Nil));
      InsertPast(r, a, Cons(e, Cons(s, Nil)));
    }
    InsertPast(r, e, Cons(s, Nil));
    InsertFirst(r, Cons(s, Nil));
  }

  lemma Unfold(r: Member, s: Member, a: Member, e: Member, extra: List<Member>)
    requires Canon(r.value) == r.value && Canon(s.value) == s.value && Canon(a.value) == a.value && Canon(e.value) == e.value
    ensures CanonMembers(Cons(r, Cons(s, Cons(a, Cons(e, extra))))) ==
            Insert(r, Insert(s, Insert(a, Insert(e, CanonMembers(extra)))))
  {
    hide Insert;
    assert CanonMembers(Cons(e, extra)) == Insert(e, CanonMembers(extra));
    assert CanonMembers(Cons(a, Cons(e, extra))) == Insert(a, CanonMembers(Cons(e, extra)));
    assert CanonMembers(Cons(s, Cons(a, Cons(e, extra)))) == Insert(s, CanonMembers(Cons(a, Cons(e, extra))));
  }

  lemma OneCanon(key: string, value: Json)
    ensures CanonMembers(Cons(Member(key, value), Nil)) == Cons(Member(key, Canon(value)), Nil)
  {
  }

  lemma InsertEmpty(m: Member)
    ensures Insert(m, Nil) == Cons(m, Nil)
  {
  }

  lemma InsertPast(m: Member, first: Member, rest: List<Member>)
    requires Less(first.key, m.key)
    ensures Insert(m, Cons(first, rest)) == Cons(first, Insert(m, rest))
  {
  }

  lemma InsertFirst(m: Member, ms: List<Member>)
    requires ms.Cons? && !Less(ms.head.key, m.key)
    ensures Insert(m, ms) == Cons(m, ms)
  {
  }

  lemma InsertLast(s: Member, ms: List<Member>)
    requires ms.Cons? && ms.tail == Nil && Less(ms.head.key, s.key)
    ensures Insert(s, ms) == Cons(ms.head, Cons(s, Nil))
  {
  }

  lemma OutcomeKeys()
    ensures Less("artifacts", "error") && Less("actions", "artifacts") && !Less("artifacts", "actions") && Less("actions", "error")
    ensures !Less("error", "actions") && Less("error", "status") && Less("actions", "status") && Less("artifacts", "status")
    ensures Less("actions", "response") && Less("artifacts", "response") && Less("error", "response")
    ensures !Less("status", "response") && !Less("error", "artifacts")
  {
    assert "actions"[1..] == "ctions" && "artifacts"[1..] == "rtifacts";
    assert Less("ctions", "rtifacts") && !Less("rtifacts", "ctions");
    assert "status"[0] == 's' && "response"[0] == 'r' && "error"[0] == 'e';
  }
}
