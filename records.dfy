/**
 * The stored data: one record per character of a chat, and the clamping rule
 * (clamp01) that keeps a score within its scale.
 */
module Records {
  import opened Wrappers

  /** `{ name, intoxication, arousal, updatedAt }`; updatedAt is a clock reading. */
  datatype Record = Record(name: string, intoxication: int, arousal: int, updatedAt: int)

  /** `state.chats[chatId].characters`: identity key to record. */
  type Bucket = map<string, Record>

  /** The two scores a slider can set. */
  datatype Field = Intoxication | Arousal

  function Get(r: Record, f: Field): int {
    match f
    case Intoxication => r.intoxication
    case Arousal => r.arousal
  }

  function Put(r: Record, f: Field, v: int): (r': Record)
    ensures Get(r', f) == v && r'.name == r.name && r'.updatedAt == r.updatedAt
    ensures forall g :: g != f ==> Get(r', g) == Get(r, g)
  {
    match f
    case Intoxication => r.(intoxication := v)
    case Arousal => r.(arousal := v)
  }

  const Low := 0
  const High := 100

  /**
   * clamp01: `Number(x)` saturated to [0, 100]; a value that is not a number
   * (None) counts as 0.
   */
  function Clamp01(x: Option<int>): (r: int)
    ensures Low <= r <= High
    ensures x.None? ==> r == Low
    ensures x.Some? && Low <= x.value <= High ==> r == x.value
    ensures x.Some? && x.value < Low ==> r == Low
    ensures x.Some? && x.value > High ==> r == High
  {
    match x
    case None => Low
    case Some(n) => if n < Low then Low else if n > High then High else n
  }

  /** Clamping a clamped value changes nothing. */
  lemma ClampIdempotent(x: Option<int>)
    ensures Clamp01(Some(Clamp01(x))) == Clamp01(x)
  {
  }

  predicate RecordInRange(r: Record) {
    Low <= r.intoxication <= High && Low <= r.arousal <= High
  }

  /** Every score of the bucket lies on the scale. */
  predicate InRange(b: Bucket) {
    forall k :: k in b ==> RecordInRange(b[k])
  }
}
