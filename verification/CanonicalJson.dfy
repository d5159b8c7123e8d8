/** The canonical text decides equality up to key order: it is a normal form. */
module CanonicalJson {
  import opened Basics
  import opened Text
  import opened Json

  /** Keys strictly increasing in every object. */
  predicate Sorted(j: Json) {
    match j
    case Arr(items) => SortedItems(items)
    case Obj(members) => SortedMembers(members)
    case _ => true
  }

  predicate SortedItems(items: List<Json>) {
    match items
    case Nil => true
    case Cons(j, rest) => Sorted(j) && SortedItems(rest)
  }

  predicate SortedMembers(ms: List<Member>) {
    match ms
    case Nil => true
    case Cons(m, rest) =>
      (rest.Cons? ==> Less(m.key, rest.head.key)) && Sorted(m.value) && SortedMembers(rest)
  }

  lemma {:induction false} HeadIsLeast(ms: List<Member>, key: string)
    requires SortedMembers(ms) && ms.Cons? && key in Keys(ms.tail)
    ensures Less(ms.head.key, key)
  {
    if ms.tail.head.key != key {
      HeadIsLeast(ms.tail, key);
      LessTransitive(ms.head.key, ms.tail.head.key, key);
    }
  }

  // ----- Canon sorts, and keeps the meaning -----

  lemma {:induction false} InsertSorts(m: Member, ms: List<Member>)
    requires SortedMembers(ms) && Sorted(m.value) && m.key !in Keys(ms)
    ensures SortedMembers(Insert(m, ms))
    ensures MembersMeaning(Insert(m, ms)) == MembersMeaning(ms)[m.key := Meaning(m.value)]
  {
    hide Less, Sorted, Meaning;
    if ms.Cons? {
      LessTrichotomy(ms.head.key, m.key);
      if Less(ms.head.key, m.key) {
        InsertSorts(m, ms.tail);
      }
    }
  }

  lemma {:induction false} CanonSorts(j: Json)
    requires WellFormed(j)
    ensures Sorted(Canon(j)) && Meaning(Canon(j)) == Meaning(j)
    decreases j, 0
  {
    match j
    case Arr(items) => CanonItemsSorts(items);
    case Obj(members) => CanonMembersSorts(members);
    case _ =>
  }

  lemma {:induction false} CanonItemsSorts(items: List<Json>)
    requires WellFormedItems(items)
    ensures SortedItems(CanonItems(items)) && ItemsMeaning(CanonItems(items)) == ItemsMeaning(items)
    decreases items, 1
  {
    if items.Cons? {
      CanonSorts(items.head);
      CanonItemsSorts(items.tail);
    }
  }

  lemma {:induction false} CanonMembersSorts(ms: List<Member>)
    requires WellFormedMembers(ms)
    ensures SortedMembers(CanonMembers(ms)) && MembersMeaning(CanonMembers(ms)) == MembersMeaning(ms)
    decreases ms, 1
  {
    if ms.Cons? {
      CanonSorts(ms.head.value);
      CanonMembersSorts(ms.tail);
      InsertSorts(Member(ms.head.key, Canon(ms.head.value)), CanonMembers(ms.tail));
    }
  }

  // ----- A sorted value is determined by its meaning -----

  lemma {:induction false} SortedUnique(a: Json, b: Json)
    requires Sorted(a) && Sorted(b) && Meaning(a) == Meaning(b)
    ensures a == b
    decreases a, 0
  {
    match a
    case Arr(items) => SortedItemsUnique(items, b.items);
    case Obj(members) => SortedMembersUnique(members, b.members);
    case _ =>
  }

  lemma {:induction false} SortedItemsUnique(xs: List<Json>, ys: List<Json>)
    requires SortedItems(xs) && SortedItems(ys) && ItemsMeaning(xs) == ItemsMeaning(ys)
    ensures xs == ys
    decreases xs, 1
  {
    if xs.Cons? {
      SortedUnique(xs.head, ys.head);
      SortedItemsUnique(xs.tail, ys.tail);
    }
  }

  /** Removing the first member of a sorted object removes exactly its key from the meaning. */
  lemma TailMeaning(ms: List<Member>)
    requires SortedMembers(ms) && ms.Cons?
    ensures MembersMeaning(ms.tail) == MembersMeaning(ms) - {ms.head.key}
  {
    if ms.head.key in Keys(ms.tail) {
      HeadIsLeast(ms, ms.head.key);
      LessTrichotomy(ms.head.key, ms.head.key);
    }
  }

  lemma SameFirstKey(ms: List<Member>, ns: List<Member>)
    requires SortedMembers(ms) && SortedMembers(ns) && ms.Cons? && ns.Cons? && Keys(ms) == Keys(ns)
    ensures ms.head.key == ns.head.key
  {
    if ms.head.key != ns.head.key {
      assert ms.head.key in Keys(ns) && ns.head.key in Keys(ms);
      HeadIsLeast(ms, ns.head.key);
      HeadIsLeast(ns, ms.head.key);
      LessTrichotomy(ms.head.key, ns.head.key);
    }
  }

  lemma {:induction false} SortedMembersUnique(ms: List<Member>, ns: List<Member>)
    requires SortedMembers(ms) && SortedMembers(ns) && MembersMeaning(ms) == MembersMeaning(ns)
    ensures ms == ns
    decreases ms, 1
  {
    assert Keys(ms) == MembersMeaning(ms).Keys == Keys(ns);
    assert ns.Cons? ==> ns.head.key in Keys(ns);
    if ms.Cons? {
      assert ms.head.key in Keys(ns);
      SameFirstKey(ms, ns);
      assert MembersMeaning(ms)[ms.head.key] == MembersMeaning(ns)[ns.head.key];
      SortedUnique(ms.head.value, ns.head.value);
      TailMeaning(ms);
      TailMeaning(ns);
      SortedMembersUnique(ms.tail, ns.tail);
    }
  }

  // ----- Main results -----

  /** Two values print to the same canonical text exactly when they are equal up to key order at every depth. */
  lemma DumpsNormalForm(a: Json, b: Json)
    requires WellFormed(a) && WellFormed(b)
    ensures Dumps(a) == Dumps(b) <==> Meaning(a) == Meaning(b)
  {
    CanonSorts(a);
    CanonSorts(b);
    if Dumps(a) == Dumps(b) {
      ParseDumps(a);
      ParseDumps(b);
    }
    if Meaning(a) == Meaning(b) {
      SortedUnique(Canon(a), Canon(b));
    }
  }

  /** Canonicalising twice changes nothing, so reading a canonical text and printing it again gives the text back. */
  lemma DumpsStable(j: Json)
    requires WellFormed(j)
    ensures Parse(Dumps(j)).Some? && Dumps(Parse(Dumps(j)).value) == Dumps(j)
  {
    ParseDumps(j);
    CanonSorts(j);
    CanonWellFormed(j);
    DumpsNormalForm(j, Canon(j));
  }

  lemma {:induction false} SortedWellFormed(j: Json)
    requires Sorted(j)
    ensures WellFormed(j)
    decreases j, 0
  {
    match j
    case Arr(items) => SortedItemsWellFormed(items);
    case Obj(members) => SortedMembersWellFormed(members);
    case _ =>
  }

  lemma {:induction false} SortedItemsWellFormed(items: List<Json>)
    requires SortedItems(items)
    ensures WellFormedItems(items)
    decreases items, 1
  {
    if items.Cons? {
      SortedWellFormed(items.head);
      SortedItemsWellFormed(items.tail);
    }
  }

  lemma {:induction false} SortedMembersWellFormed(ms: List<Member>)
    requires SortedMembers(ms)
    ensures WellFormedMembers(ms)
    decreases ms, 1
  {
    if ms.Cons? {
      SortedWellFormed(ms.head.value);
      SortedMembersWellFormed(ms.tail);
      if ms.head.key in Keys(ms.tail) {
        HeadIsLeast(ms, ms.head.key);
        LessTrichotomy(ms.head.key, ms.head.key);
      }
    }
  }

  lemma CanonWellFormed(j: Json)
    requires WellFormed(j)
    ensures WellFormed(Canon(j))
  {
    CanonSorts(j);
    SortedWellFormed(Canon(j));
  }

  // ----- The text is plain ASCII, so its UTF-8 bytes are its characters -----

  predicate Ascii(s: string) {
    forall i :: 0 <= i < |s| ==> ' ' <= s[i] <= '~'
  }

  lemma {:induction false} EscapeAllAscii(s: string)
    ensures Ascii(EscapeAll(s))
  {
    if s != "" {
      EscapeAllAscii(s[1..]);
      assert Ascii(Escape(s[0]));
    }
  }

  lemma {:induction false} PrintAscii(j: Json)
    ensures Ascii(Print(j))
    decreases j, 0
  {
    match j
    case Num(n) => assert AllDigits(Decimal(if n < 0 then -n else n));
    case Str(s) => EscapeAllAscii(s);
    case Arr(items) => PrintItemsAscii(items);
    case Obj(members) => PrintMembersAscii(members);
    case _ =>
  }

  lemma {:induction false} PrintItemsAscii(items: List<Json>)
    ensures Ascii(PrintItems(items))
    decreases items, 1
  {
    if items.Cons? {
      PrintAscii(items.head);
      PrintItemsAscii(items.tail);
    }
  }

  lemma {:induction false} PrintMembersAscii(ms: List<Member>)
    ensures Ascii(PrintMembers(ms))
    decreases ms, 1
  {
    if ms.Cons? {
      EscapeAllAscii(ms.head.key);
      PrintAscii(ms.head.value);
      PrintMembersAscii(ms.tail);
    }
  }
}
