/** The `|`-joined message behind the ephemeral proof hash. */
module ProofMessage {
  import opened Basics
  import opened Text
  import opened Calendar
  import opened Timestamp
  import opened ProofModel
  import opened Hashing

  datatype Parts = Parts(
    systemUri: string, taskId: string, invocationHash: string, outcomeHash: string,
    dependenciesHash: Option<string>, timestamp: DateTime)

  /** Commits without a dependency hash use the older five-field message. */
  predicate IsLegacy(p: Parts) {
    p.dependenciesHash.GetOr("") == ""
  }

  function Bar(head: string, field: string): string {
    head + ['|'] + field
  }

  function Message(p: Parts): string
    requires InlineFormattable(p.timestamp)
  {
    var head := Bar(Bar(Bar(p.systemUri, p.taskId), p.invocationHash), p.outcomeHash);
    Bar(if IsLegacy(p) then head else Bar(head, p.dependenciesHash.value), FormatInline(p.timestamp))
  }

  /** `_compute_proof_hash_parts`. */
  function ProofHash(h: HashFn, p: Parts): string
    requires InlineFormattable(p.timestamp)
  {
    h(Message(p))
  }

  /** The sketch form of `compute_proof_hash`. */
  function SketchParts(s: Sketch): Parts {
    Parts(s.systemUri, s.taskId, s.invocationHash, s.outcomeHash, s.dependenciesHash, s.timestamp)
  }

  predicate BarFree(s: string) {
    '|' !in s
  }

  /** No `|` in any field after the system URI. */
  predicate BarFreeAfterUri(p: Parts) {
    BarFree(p.taskId) && BarFree(p.invocationHash) && BarFree(p.outcomeHash) && BarFree(p.dependenciesHash.GetOr(""))
  }

  /** Two legacy or two new-formula tuples that agree in every hashed field. */
  predicate SameParts(p: Parts, q: Parts) {
    && p.systemUri == q.systemUri && p.taskId == q.taskId
    && p.invocationHash == q.invocationHash && p.outcomeHash == q.outcomeHash
    && p.dependenciesHash.GetOr("") == q.dependenciesHash.GetOr("")
    && p.timestamp.local == q.timestamp.local
  }

  lemma LastBar(x: string, y: string)
    requires BarFree(y)
    ensures Bar(x, y)[|x|] == '|'
    ensures forall i :: |x| < i < |Bar(x, y)| ==> Bar(x, y)[i] != '|'
  {
    forall i | |x| < i < |Bar(x, y)|
      ensures Bar(x, y)[i] != '|'
    {
      assert Bar(x, y)[i] == y[i - |x| - 1];
    }
  }

  /** A bar-free last field can be split off in one way only. */
  lemma LastFieldUnique(x: string, y: string, x': string, y': string)
    requires BarFree(y) && BarFree(y')
    ensures Bar(x, y) == Bar(x', y') <==> x == x' && y == y'
  {
    var s, t := Bar(x, y), Bar(x', y');
    if s == t {
      LastBar(x, y);
      LastBar(x', y');
      assert s[..|x|] == x && t[..|x'|] == x';
      assert s[|x| + 1..] == y && t[|x'| + 1..] == y';
    }
  }

  lemma StampBarFree(c: Civil, tail: string)
    requires Valid(c) && BarFree(tail)
    ensures BarFree(Stamp(c, tail))
  {
    assert forall n: nat, w: nat :: BarFree(Pad(n, w));
  }

  lemma TimestampBarFree(dt: DateTime)
    requires InlineFormattable(dt)
    ensures BarFree(FormatInline(dt))
  {
    var us := dt.local.micro;
    assert BarFree(Pad(us, 6)) && StripZeros(Pad(us, 6)) <= Pad(us, 6);
    StampBarFree(dt.local, FractionText(us) + ['Z']);
  }

  /** Within one formula the message determines every field; only the system URI may hold a `|`. */
  lemma MessageDetermines(p: Parts, q: Parts)
    requires InlineFormattable(p.timestamp) && InlineFormattable(q.timestamp)
    requires BarFreeAfterUri(p) && BarFreeAfterUri(q)
    requires IsLegacy(p) == IsLegacy(q)
    ensures Message(p) == Message(q) <==> SameParts(p, q)
  {
    TimestampBarFree(p.timestamp);
    TimestampBarFree(q.timestamp);
    InlineDecidesFields(p.timestamp, q.timestamp);
    var p1, q1 := Bar(p.systemUri, p.taskId), Bar(q.systemUri, q.taskId);
    var p2, q2 := Bar(p1, p.invocationHash), Bar(q1, q.invocationHash);
    var p3, q3 := Bar(p2, p.outcomeHash), Bar(q2, q.outcomeHash);
    var p4 := if IsLegacy(p) then p3 else Bar(p3, p.dependenciesHash.value);
    var q4 := if IsLegacy(q) then q3 else Bar(q3, q.dependenciesHash.value);
    LastFieldUnique(p4, FormatInline(p.timestamp), q4, FormatInline(q.timestamp));
    LastFieldUnique(p3, p.dependenciesHash.GetOr(""), q3, q.dependenciesHash.GetOr(""));
    LastFieldUnique(p2, p.outcomeHash, q2, q.outcomeHash);
    LastFieldUnique(p1, p.invocationHash, q1, q.invocationHash);
    LastFieldUnique(p.systemUri, p.taskId, q.systemUri, q.taskId);
  }

  // ----- The message, taken apart -----

  /** `s.split("|")`. */
  function SplitBars(s: string): (r: seq<string>)
    ensures |r| > 0
  {
    if s == "" then [""]
    else
      var r := SplitBars(s[..|s| - 1]);
      var last := |r| - 1;
      if s[|s| - 1] == '|' then r + [""] else r[..last] + [r[last] + [s[|s| - 1]]]
  }

  lemma {:induction false} SplitField(head: string, field: string)
    requires BarFree(field)
    ensures SplitBars(Bar(head, field)) == SplitBars(head) + [field]
  {
    var s := Bar(head, field);
    if field == "" {
      assert s[..|s| - 1] == head;
    } else {
      var last := |field| - 1;
      SplitField(head, field[..last]);
      assert s[..|s| - 1] == Bar(head, field[..last]);
      assert field == field[..last] + [field[last]];
    }
  }

  /** Split at its bars, the message gives the URI's parts, then each field in its place, then the time. */
  lemma MessageFields(p: Parts)
    requires InlineFormattable(p.timestamp) && BarFreeAfterUri(p)
    ensures SplitBars(Message(p)) ==
            SplitBars(p.systemUri) + [p.taskId, p.invocationHash, p.outcomeHash]
            + (if p.dependenciesHash.GetOr("") == "" then [] else [p.dependenciesHash.value]) + [FormatInline(p.timestamp)]
  {
    hide FormatInline, SplitBars, Bar, BarFree;
    TimestampBarFree(p.timestamp);
    var p1 := Bar(p.systemUri, p.taskId);
    var p2 := Bar(p1, p.invocationHash);
    var p3 := Bar(p2, p.outcomeHash);
    SplitField(p.systemUri, p.taskId);
    SplitField(p1, p.invocationHash);
    SplitField(p2, p.outcomeHash);
    if IsLegacy(p) {
      SplitField(p3, FormatInline(p.timestamp));
    } else {
      SplitField(p3, p.dependenciesHash.value);
      SplitField(Bar(p3, p.dependenciesHash.value), FormatInline(p.timestamp));
    }
  }

  // ----- The two formulas -----

  /** A text with a `|` splits at its last one. */
  lemma {:induction false} SplitAtLastBar(s: string) returns (head: string, tail: string)
    requires !BarFree(s)
    ensures s == Bar(head, tail) && BarFree(tail)
  {
    var last := |s| - 1;
    if s[last] == '|' {
      head, tail := s[..last], "";
    } else {
      var t := s[..last];
      assert s == t + [s[last]];
      head, tail := SplitAtLastBar(t);
      assert Bar(head, tail) + [s[last]] == Bar(head, tail + [s[last]]);
      tail := tail + [s[last]];
    }
  }

  /** The new-formula tuple whose fields are those of a legacy one, shifted by a URI split in two. */
  function NewTwin(p: Parts, head: string, tail: string): Parts {
    Parts(head, tail, p.taskId, p.invocationHash, Some(p.outcomeHash), p.timestamp)
  }

  /** `q` is a tuple of the new formula with the message of the legacy tuple `p`. */
  predicate Collides(p: Parts, q: Parts)
    requires InlineFormattable(p.timestamp)
  {
    InlineFormattable(q.timestamp) && !IsLegacy(q) && BarFreeAfterUri(q) && Message(q) == Message(p)
  }

  /** Equal messages across the formulas shift every field by one. */
  lemma CollisionShifts(p: Parts, q: Parts)
    requires InlineFormattable(p.timestamp) && IsLegacy(p) && BarFreeAfterUri(p) && Collides(p, q)
    ensures p.outcomeHash == q.dependenciesHash.value && p.systemUri == Bar(q.systemUri, q.taskId)
  {
    TimestampBarFree(p.timestamp);
    TimestampBarFree(q.timestamp);
    var p1, q1 := Bar(p.systemUri, p.taskId), Bar(q.systemUri, q.taskId);
    var p2, q2 := Bar(p1, p.invocationHash), Bar(q1, q.invocationHash);
    var p3, q3 := Bar(p2, p.outcomeHash), Bar(q2, q.outcomeHash);
    LastFieldUnique(p3, FormatInline(p.timestamp), Bar(q3, q.dependenciesHash.value), FormatInline(q.timestamp));
    LastFieldUnique(p2, p.outcomeHash, q3, q.dependenciesHash.value);
    LastFieldUnique(p1, p.invocationHash, q2, q.outcomeHash);
    LastFieldUnique(p.systemUri, p.taskId, q1, q.invocationHash);
  }

  /** Exactly when a legacy message is also a new-formula message: its URI holds a `|` and its outcome hash is not empty. */
  lemma LegacyCollidesExactly(p: Parts)
    requires InlineFormattable(p.timestamp) && IsLegacy(p) && BarFreeAfterUri(p)
    ensures (exists q :: Collides(p, q)) <==> !BarFree(p.systemUri) && p.outcomeHash != ""
  {
    if q :| Collides(p, q) {
      CollisionShifts(p, q);
      assert p.systemUri[|q.systemUri|] == '|';
    }
    if !BarFree(p.systemUri) && p.outcomeHash != "" {
      var head, tail := SplitAtLastBar(p.systemUri);
      assert Collides(p, NewTwin(p, head, tail));
    }
  }

  /** And every new-formula message is the message of a legacy tuple, bar-free after its URI if the original was. */
  function LegacyTwin(q: Parts): Parts
    requires !IsLegacy(q)
  {
    Parts(Bar(q.systemUri, q.taskId), q.invocationHash, q.outcomeHash, q.dependenciesHash.value, None, q.timestamp)
  }

  lemma LegacyTwinCollides(q: Parts)
    requires InlineFormattable(q.timestamp) && !IsLegacy(q) && BarFreeAfterUri(q)
    ensures IsLegacy(LegacyTwin(q)) && BarFreeAfterUri(LegacyTwin(q)) && Collides(LegacyTwin(q), q)
    ensures !BarFree(LegacyTwin(q).systemUri)
  {
    assert LegacyTwin(q).systemUri[|q.systemUri|] == '|';
  }

  /** Over both formulas: the hash decides all fields, with None and an empty dependency hash identified. */
  lemma ProofHashDecides(h: HashFn, p: Parts, q: Parts)
    requires Injective(h)
    requires InlineFormattable(p.timestamp) && InlineFormattable(q.timestamp)
    requires BarFree(p.systemUri) && BarFree(q.systemUri) && BarFreeAfterUri(p) && BarFreeAfterUri(q)
    ensures ProofHash(h, p) == ProofHash(h, q) <==> SameParts(p, q)
  {
    if IsLegacy(p) == IsLegacy(q) {
      MessageDetermines(p, q);
    } else if IsLegacy(p) {
      LegacyCollidesExactly(p);
      assert !Collides(p, q);
    } else {
      LegacyCollidesExactly(q);
      assert !Collides(q, p);
    }
  }

  /** Not so for instants: the inline timestamp drops the offset, so one instant has several hashes. */
  lemma OffsetChangesProofHash(h: HashFn, p: Parts, offset: int)
    requires Injective(h) && BarFreeAfterUri(p)
    requires InlineFormattable(p.timestamp) && p.timestamp.offset == Some(0)
    requires offset != 0 && Micros(p.timestamp.local) + offset >= FIRST_INSTANT
    requires InlineFormattable(DateTime(FromMicros(Micros(p.timestamp.local) + offset), Some(offset)))
    ensures
      var q := p.(timestamp := DateTime(FromMicros(Micros(p.timestamp.local) + offset), Some(offset)));
      Instant(q.timestamp) == Instant(p.timestamp) && ProofHash(h, q) != ProofHash(h, p)
  {
    var q := p.(timestamp := DateTime(FromMicros(Micros(p.timestamp.local) + offset), Some(offset)));
    MessageDetermines(p, q);
  }
}
