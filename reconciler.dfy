/**
 * The reconciler: getChatBucket, ensureCharacterEntry and the loop of
 * reconcileAndInject that runs it for every discovered identity. It merges
 * and never prunes: an existing record only gets its display name refreshed.
 */
module Reconciler {
  import opened Wrappers
  import opened Identity
  import opened Records

  /** getChatBucket: the chat's bucket, an empty one when the chat has none. */
  function BucketOf(chats: map<string, Bucket>, chatId: string): Bucket {
    if chatId in chats then chats[chatId] else map[]
  }

  /**
   * ensureCharacterEntry: a known key keeps its scores and timestamp and takes
   * the candidate's name; an unknown key gets a fresh record at zero stamped now.
   */
  function EnsureEntry(b: Bucket, c: Candidate, now: int): (r: Bucket)
    ensures r.Keys == b.Keys + {c.key}
    ensures forall k :: k in b && k != c.key ==> r[k] == b[k]
    ensures r[c.key].name == c.name
    ensures c.key in b ==> && r[c.key].intoxication == b[c.key].intoxication
                           && r[c.key].arousal == b[c.key].arousal
                           && r[c.key].updatedAt == b[c.key].updatedAt
    ensures c.key !in b ==> r[c.key].intoxication == 0 && r[c.key].arousal == 0 && r[c.key].updatedAt == now
  {
    if c.key in b then b[c.key := b[c.key].(name := c.name)]
    else b[c.key := Record(c.name, 0, 0, now)]
  }

  /** The bucket after ensureCharacterEntry has run for each candidate in turn. */
  function ReconcileBucket(b: Bucket, cs: seq<Candidate>, now: int): Bucket {
    if cs == [] then b
    else EnsureEntry(ReconcileBucket(b, cs[..|cs| - 1], now), cs[|cs| - 1], now)
  }

  /**
   * What reconciliation should leave for key k, stated without running the loop:
   * untouched when no candidate has k, renamed to the last candidate's name when
   * the record exists, a zeroed record otherwise.
   */
  function Expected(b: Bucket, cs: seq<Candidate>, now: int, k: string): Record
    requires k in b || k in CandKeys(cs)
  {
    match LastName(cs, k)
    case None => if k in b then b[k] else Record("", 0, 0, now)
    case Some(n) => if k in b then b[k].(name := n) else Record(n, 0, 0, now)
  }

  /** The reference definition of a reconciled bucket, key by key. */
  function Merged(b: Bucket, cs: seq<Candidate>, now: int): Bucket {
    map k | k in b.Keys + CandKeys(cs) :: Expected(b, cs, now, k)
  }

  lemma MergedSnocAt(b: Bucket, p: seq<Candidate>, c: Candidate, now: int, k: string)
    requires k in b.Keys + CandKeys(p) + {c.key}
    ensures CandKeys(p + [c]) == CandKeys(p) + {c.key}
    ensures EnsureEntry(Merged(b, p, now), c, now)[k] == Expected(b, p + [c], now, k)
  {
    CandKeysSnoc(p, c);
    LastNameSnoc(p, c, k);
    LastNameSpec(p, k);
  }

  /** One more candidate: ensureCharacterEntry on the reference bucket is the reference bucket. */
  lemma MergedSnoc(b: Bucket, p: seq<Candidate>, c: Candidate, now: int)
    ensures EnsureEntry(Merged(b, p, now), c, now) == Merged(b, p + [c], now)
  {
    CandKeysSnoc(p, c);
    var l := EnsureEntry(Merged(b, p, now), c, now);
    var r := Merged(b, p + [c], now);
    assert l.Keys == r.Keys;
    forall k | k in l ensures l[k] == r[k] {
      MergedSnocAt(b, p, c, now, k);
    }
  }

  /** Running the loop gives the reference definition. */
  lemma {:induction false} ReconcileIsMerged(b: Bucket, cs: seq<Candidate>, now: int)
    ensures ReconcileBucket(b, cs, now) == Merged(b, cs, now)
  {
    if cs != [] {
      var p := cs[..|cs| - 1];
      var c := cs[|cs| - 1];
      assert p + [c] == cs;
      ReconcileIsMerged(b, p, now);
      MergedSnoc(b, p, c, now);
    }
  }

  /** Reconciliation never removes a record; it adds exactly the unknown candidate keys. */
  lemma ReconcileKeys(b: Bucket, cs: seq<Candidate>, now: int)
    ensures ReconcileBucket(b, cs, now).Keys == b.Keys + CandKeys(cs)
  {
    ReconcileIsMerged(b, cs, now);
  }

  /**
   * Reconciliation never touches a score or a timestamp of an existing record,
   * and leaves a record no candidate names exactly as it was.
   */
  lemma ReconcileKeepsValues(b: Bucket, cs: seq<Candidate>, now: int, k: string)
    requires k in b
    ensures var r := ReconcileBucket(b, cs, now);
            && k in r
            && r[k].intoxication == b[k].intoxication
            && r[k].arousal == b[k].arousal
            && r[k].updatedAt == b[k].updatedAt
            && (k !in CandKeys(cs) ==> r[k] == b[k])
  {
    ReconcileIsMerged(b, cs, now);
    LastNameSpec(cs, k);
  }

  /**
   * A candidate's record carries the name of the last candidate with its key;
   * when it was new, it starts at zero and is stamped now.
   */
  lemma ReconcileNames(b: Bucket, cs: seq<Candidate>, now: int, k: string)
    requires k in CandKeys(cs)
    ensures var r := ReconcileBucket(b, cs, now);
            && k in r
            && Some(r[k].name) == LastName(cs, k)
            && (k !in b ==> r[k].intoxication == 0 && r[k].arousal == 0 && r[k].updatedAt == now)
  {
    ReconcileIsMerged(b, cs, now);
    LastNameSpec(cs, k);
  }

  /**
   * Idempotence: a second pass with the same candidates, at any later time,
   * changes nothing, field for field.
   */
  lemma ReconcileIdempotent(b: Bucket, cs: seq<Candidate>, now: int, later: int)
    ensures ReconcileBucket(ReconcileBucket(b, cs, now), cs, later) == ReconcileBucket(b, cs, now)
  {
    var once := ReconcileBucket(b, cs, now);
    ReconcileIsMerged(b, cs, now);
    ReconcileIsMerged(once, cs, later);
    var twice := Merged(once, cs, later);
    assert twice.Keys == once.Keys;
    forall k | k in once ensures twice[k] == once[k] {
      LastNameSpec(cs, k);
    }
  }

  /** Reconciliation keeps every score on the scale. */
  lemma ReconcileInRange(b: Bucket, cs: seq<Candidate>, now: int)
    requires InRange(b)
    ensures InRange(ReconcileBucket(b, cs, now))
  {
    ReconcileIsMerged(b, cs, now);
  }
}
