/**
 * The state changes behind the settings panel's buttons and sliders: "Reset all
 * to 0", a row's "Reset", a row's "Forget", and setVal of a slider.
 */
module Edits {
  import opened Wrappers
  import opened Identity
  import opened Records
  import opened Reconciler

  /** A record with both scores back to 0, stamped now; its name is kept. */
  function Zeroed(r: Record, now: int): Record {
    r.(intoxication := 0, arousal := 0, updatedAt := now)
  }

  /** "Reset all to 0": every record of the bucket zeroed, no record added or removed. */
  function ResetAllBucket(b: Bucket, now: int): (r: Bucket)
    ensures r.Keys == b.Keys
    ensures forall k :: k in r ==> r[k].name == b[k].name && r[k].intoxication == 0 && r[k].arousal == 0
  {
    map k | k in b :: Zeroed(b[k], now)
  }

  /** A row's "Reset": the one record zeroed when it exists; nothing otherwise. */
  function ResetOneBucket(b: Bucket, key: string, now: int): (r: Bucket)
    ensures r.Keys == b.Keys
    ensures forall k :: k in b && k != key ==> r[k] == b[k]
    ensures key in b ==> r[key] == Zeroed(b[key], now)
  {
    if key in b then b[key := Zeroed(b[key], now)] else b
  }

  /** A row's "Forget": `delete b.characters[key]`. */
  function ForgetBucket(b: Bucket, key: string): (r: Bucket)
    ensures r.Keys == b.Keys - {key}
    ensures forall k :: k in r ==> r[k] == b[k]
  {
    b - {key}
  }

  /**
   * setVal: the clamped value goes into the one field; a missing record is
   * first created at zero; the row's name and the time are written too.
   */
  function SetValBucket(b: Bucket, key: string, name: string, f: Field, v: Option<int>, now: int): (r: Bucket)
    ensures r.Keys == b.Keys + {key}
    ensures forall k :: k in b && k != key ==> r[k] == b[k]
    ensures Get(r[key], f) == Clamp01(v)
    ensures forall g :: g != f ==> Get(r[key], g) == if key in b then Get(b[key], g) else 0
    ensures r[key].name == name && r[key].updatedAt == now
  {
    var base := if key in b then b[key] else Record(name, 0, 0, now);
    b[key := Put(base, f, Clamp01(v)).(name := name, updatedAt := now)]
  }

  /** Resetting the rows one by one, in a list of keys. */
  function ResetEach(b: Bucket, keys: seq<string>, now: int): Bucket {
    if keys == [] then b else ResetOneBucket(ResetEach(b, keys[..|keys| - 1], now), keys[|keys| - 1], now)
  }

  /** ResetEach zeroes exactly the listed records that exist. */
  lemma {:induction false} ResetEachSpec(b: Bucket, keys: seq<string>, now: int)
    ensures ResetEach(b, keys, now).Keys == b.Keys
    ensures forall k :: k in b ==> ResetEach(b, keys, now)[k] == if k in keys then Zeroed(b[k], now) else b[k]
  {
    if keys != [] {
      var p := keys[..|keys| - 1];
      assert keys == p + [keys[|keys| - 1]];
      ResetEachSpec(b, p, now);
    }
  }

  /** "Reset all to 0" is a row "Reset" on every row, in whatever order the rows come. */
  lemma ResetAllIsResetEachRow(b: Bucket, keys: seq<string>, now: int)
    requires forall k :: k in b ==> k in keys
    ensures ResetAllBucket(b, now) == ResetEach(b, keys, now)
  {
    ResetEachSpec(b, keys, now);
  }

  /** Every edit keeps the scores on the scale. */
  lemma EditsKeepRange(b: Bucket, key: string, name: string, f: Field, v: Option<int>, now: int)
    requires InRange(b)
    ensures InRange(ResetAllBucket(b, now))
    ensures InRange(ResetOneBucket(b, key, now))
    ensures InRange(ForgetBucket(b, key))
    ensures InRange(SetValBucket(b, key, name, f, v, now))
  {
    var r := SetValBucket(b, key, name, f, v, now);
    forall g: Field ensures Low <= Get(r[key], g) <= High {
    }
    assert RecordInRange(r[key]) by {
      assert Get(r[key], Intoxication) == r[key].intoxication;
      assert Get(r[key], Arousal) == r[key].arousal;
    }
  }

  /**
   * The "Forget" button re-renders the panel, and rendering reconciles the
   * discovered identities again. So a forgotten character that is still
   * discovered comes straight back at zero with a new timestamp (a reset that
   * also takes the discovered name), and one that is no longer discovered is gone.
   */
  lemma ForgetThenReconcile(b: Bucket, key: string, cs: seq<Candidate>, now: int)
    ensures var r := ReconcileBucket(ForgetBucket(b, key), cs, now);
            && (key in CandKeys(cs) ==> key in r && r[key].intoxication == 0 && r[key].arousal == 0
                                        && r[key].updatedAt == now && Some(r[key].name) == LastName(cs, key))
            && (key !in CandKeys(cs) ==> key !in r)
  {
    ReconcileKeys(ForgetBucket(b, key), cs, now);
    if key in CandKeys(cs) {
      ReconcileNames(ForgetBucket(b, key), cs, now, key);
    }
  }

  /**
   * "Reset all to 0" re-renders the panel, which reconciles again: every
   * record, old or newly discovered, is then at zero.
   */
  lemma ResetAllThenReconcile(b: Bucket, cs: seq<Candidate>, now: int, later: int)
    ensures var r := ReconcileBucket(ResetAllBucket(b, now), cs, later);
            && r.Keys == b.Keys + CandKeys(cs)
            && forall k :: k in r ==> r[k].intoxication == 0 && r[k].arousal == 0
  {
    var z := ResetAllBucket(b, now);
    var r := ReconcileBucket(z, cs, later);
    ReconcileKeys(z, cs, later);
    forall k | k in r ensures r[k].intoxication == 0 && r[k].arousal == 0 {
      if k in z {
        ReconcileKeepsValues(z, cs, later, k);
      } else {
        ReconcileNames(z, cs, later, k);
      }
    }
  }
}
