/**
 * Prompt synthesis (buildSystemPrompt): a fixed header, then one line per
 * record of the chat's bucket in display order, each showing the clamped scores.
 * The same text serves as the settings panel's preview and as the injected prompt.
 */
module Prompt {
  import opened Wrappers
  import opened Identity
  import opened Records
  import opened Text
  import opened Edits

  /** `{ key, ...record }`: a record together with its key. */
  datatype Entry = Entry(key: string, rec: Record)

  function EntryOf(b: Bucket, k: string): Entry
    requires k in b
  {
    Entry(k, b[k])
  }

  /**
   * Display order: case-insensitive by name, ties broken by key. This stands in
   * for `localeCompare` on the names.
   */
  predicate EntryLe(a: Entry, b: Entry) {
    var x, y := Lower(a.rec.name), Lower(b.rec.name);
    (x != y && StrLe(x, y)) || (x == y && StrLe(a.key, b.key))
  }

  lemma EntryLeTotal(a: Entry, b: Entry)
    ensures EntryLe(a, b) || EntryLe(b, a)
  {
    StrLeTotal(Lower(a.rec.name), Lower(b.rec.name));
    StrLeTotal(a.key, b.key);
  }

  lemma EntryLeTransitive(a: Entry, b: Entry, c: Entry)
    requires EntryLe(a, b) && EntryLe(b, c)
    ensures EntryLe(a, c)
  {
    var x, y, z := Lower(a.rec.name), Lower(b.rec.name), Lower(c.rec.name);
    if x != y && y != z {
      StrLeTransitive(x, y, z);
      if x == z {
        StrLeAntisymmetric(x, y);
      }
    } else if x == y && y == z {
      StrLeTransitive(a.key, b.key, c.key);
    }
  }

  /** Two entries that precede each other have the same key. */
  lemma EntryLeAntisymmetric(a: Entry, b: Entry)
    requires EntryLe(a, b) && EntryLe(b, a)
    ensures a.key == b.key
  {
    var x, y := Lower(a.rec.name), Lower(b.rec.name);
    if x != y {
      StrLeAntisymmetric(x, y);
    } else {
      StrLeAntisymmetric(a.key, b.key);
    }
  }

  /** k's entry comes first among the bucket's entries. */
  predicate IsMinKey(b: Bucket, k: string) {
    k in b && forall k' {:trigger EntryOf(b, k')} :: k' in b ==> EntryLe(EntryOf(b, k), EntryOf(b, k'))
  }

  lemma RemoveSize(b: Bucket, k: string)
    requires k in b
    ensures |b - {k}| == |b| - 1
  {
    assert (b - {k}).Keys == b.Keys - {k};
  }

  lemma {:induction false} MinKeyExists(b: Bucket)
    requires |b| > 0
    ensures exists k :: IsMinKey(b, k)
    decreases |b|
  {
    assert |b.Keys| > 0;
    var x :| x in b.Keys;
    var rest := b - {x};
    RemoveSize(b, x);
    assert b.Keys == rest.Keys + {x};
    EntryLeTotal(EntryOf(b, x), EntryOf(b, x));
    if |rest| == 0 {
      assert rest.Keys == {};
      assert IsMinKey(b, x);
    } else {
      MinKeyExists(rest);
      var m :| IsMinKey(rest, m);
      EntryLeTotal(EntryOf(b, x), EntryOf(b, m));
      if EntryLe(EntryOf(b, x), EntryOf(b, m)) {
        forall k | k in rest ensures EntryLe(EntryOf(b, x), EntryOf(b, k)) {
          assert EntryOf(rest, k) == EntryOf(b, k);
          EntryLeTransitive(EntryOf(b, x), EntryOf(b, m), EntryOf(b, k));
        }
        assert IsMinKey(b, x);
      } else {
        forall k | k in rest ensures EntryLe(EntryOf(b, m), EntryOf(b, k)) {
          assert EntryOf(rest, k) == EntryOf(b, k);
        }
        assert IsMinKey(b, m);
      }
    }
  }

  lemma MinKeyUnique(b: Bucket)
    ensures forall k1, k2 :: IsMinKey(b, k1) && IsMinKey(b, k2) ==> k1 == k2
  {
    forall k1, k2 | IsMinKey(b, k1) && IsMinKey(b, k2) ensures k1 == k2 {
      EntryLeAntisymmetric(EntryOf(b, k1), EntryOf(b, k2));
    }
  }

  /** The key whose entry comes first. */
  function MinKey(b: Bucket): (k: string)
    requires |b| > 0
    ensures IsMinKey(b, k)
  {
    MinKeyExists(b);
    MinKeyUnique(b);
    var k :| IsMinKey(b, k);
    k
  }

  /** The bucket's entries in display order (the `.sort` of buildSystemPrompt). */
  function Listing(b: Bucket): (l: seq<Entry>)
    ensures |l| == |b|
    decreases |b|
  {
    if |b| == 0 then []
    else
      var k := MinKey(b);
      RemoveSize(b, k);
      [EntryOf(b, k)] + Listing(b - {k})
  }

  predicate Sorted(s: seq<Entry>) {
    forall i, j :: 0 <= i < j < |s| ==> EntryLe(s[i], s[j])
  }

  function ListingKeys(s: seq<Entry>): set<string> {
    set i | 0 <= i < |s| :: s[i].key
  }

  lemma ListingUnfold(b: Bucket)
    requires |b| > 0
    ensures MinKey(b) in b && |b - {MinKey(b)}| == |b| - 1
    ensures Listing(b) == [EntryOf(b, MinKey(b))] + Listing(b - {MinKey(b)})
  {
    RemoveSize(b, MinKey(b));
  }

  /** The listing has one entry per record, each the record stored under its key. */
  lemma {:induction false} ListingEntries(b: Bucket)
    ensures |Listing(b)| == |b|
    ensures forall i :: 0 <= i < |Listing(b)| ==> Listing(b)[i].key in b && Listing(b)[i].rec == b[Listing(b)[i].key]
    decreases |b|
  {
    if |b| > 0 {
      ListingUnfold(b);
      ListingEntries(b - {MinKey(b)});
    }
  }

  /** No key is listed twice. */
  lemma {:induction false} ListingDistinct(b: Bucket)
    ensures forall i, j :: 0 <= i < j < |Listing(b)| ==> Listing(b)[i].key != Listing(b)[j].key
    decreases |b|
  {
    if |b| > 0 {
      var k := MinKey(b);
      ListingUnfold(b);
      ListingDistinct(b - {k});
      ListingEntries(b - {k});
    }
  }

  lemma ListingKeysCons(e: Entry, s: seq<Entry>)
    ensures ListingKeys([e] + s) == {e.key} + ListingKeys(s)
  {
    var l := [e] + s;
    forall x | x in ListingKeys(s) ensures x in ListingKeys(l) {
      var i :| 0 <= i < |s| && s[i].key == x;
      assert l[i + 1] == s[i];
    }
    forall i | 0 < i < |l| ensures l[i].key in ListingKeys(s) {
      assert l[i] == s[i - 1];
    }
    assert l[0] == e;
    forall x | x in ListingKeys(l) ensures x in {e.key} + ListingKeys(s) {
      var i :| 0 <= i < |l| && l[i].key == x;
    }
  }

  /** Every key of the bucket is listed. */
  lemma {:induction false} ListingCovers(b: Bucket)
    ensures ListingKeys(Listing(b)) == b.Keys
    decreases |b|
  {
    if |b| > 0 {
      var k := MinKey(b);
      var rest := b - {k};
      ListingUnfold(b);
      ListingCovers(rest);
      ListingKeysCons(EntryOf(b, k), Listing(rest));
      assert b.Keys == {k} + rest.Keys;
    }
  }

  /** The listing is in display order. */
  lemma {:induction false} ListingSorted(b: Bucket)
    ensures Sorted(Listing(b))
    decreases |b|
  {
    if |b| > 0 {
      var k := MinKey(b);
      var rest := b - {k};
      ListingUnfold(b);
      ListingSorted(rest);
      ListingEntries(rest);
      var l := Listing(b);
      var tail := Listing(rest);
      forall j | 0 < j < |l| ensures EntryLe(l[0], l[j]) {
        assert l[j] == tail[j - 1];
        assert l[j] == EntryOf(b, l[j].key);
      }
      forall i, j | 0 < i < j < |l| ensures EntryLe(l[i], l[j]) {
        assert l[i] == tail[i - 1] && l[j] == tail[j - 1];
      }
    }
  }

  /**
   * The listing holds every record of the bucket exactly once, with its own key,
   * sorted in display order.
   */
  lemma ListingSpec(b: Bucket)
    ensures |Listing(b)| == |b|
    ensures ListingKeys(Listing(b)) == b.Keys
    ensures forall i :: 0 <= i < |Listing(b)| ==> Listing(b)[i].key in b && Listing(b)[i].rec == b[Listing(b)[i].key]
    ensures forall i, j :: 0 <= i < j < |Listing(b)| ==> Listing(b)[i].key != Listing(b)[j].key
    ensures Sorted(Listing(b))
  {
    ListingEntries(b);
    ListingDistinct(b);
    ListingCovers(b);
    ListingSorted(b);
  }

  /** The fixed header: six lines of text and an empty line. */
  const Header: seq<string> := [
    "EXTENSION: Intox-system",
    "The following per-character states apply for this chat. Treat them as an always-on condition.",
    "Interpretation guidelines:",
    "- intoxication: 0-100 (0 sober, 100 extremely intoxicated).",
    "- arousal: 0-100 (0 none, 100 extremely aroused).",
    "- These are descriptive constraints; reflect them in behavior, dialogue, and narration appropriately.",
    ""
  ]

  /** `${name}: intoxication=${clamp01(intoxication)}, arousal=${clamp01(arousal)}`. */
  function Line(e: Entry): string {
    e.rec.name + ": intoxication=" + Decimal(Clamp01(Some(e.rec.intoxication)))
    + ", arousal=" + Decimal(Clamp01(Some(e.rec.arousal)))
  }

  function Lines(es: seq<Entry>): (ls: seq<string>)
    ensures |ls| == |es|
  {
    seq(|es|, i requires 0 <= i < |es| => Line(es[i]))
  }

  function PromptLines(b: Bucket): seq<string> {
    Header + Lines(Listing(b))
  }

  /** The prompt text of a bucket: its lines joined by newlines. */
  function PromptText(b: Bucket): string {
    Join(PromptLines(b))
  }

  /**
   * buildSystemPrompt: push the header lines, then one line per entry of the
   * sorted listing, and join.
   */
  lemma LinesSnoc(es: seq<Entry>, i: nat)
    requires i < |es|
    ensures Lines(es[..i + 1]) == Lines(es[..i]) + [Line(es[i])]
  {
  }

  method BuildSystemPrompt(b: Bucket) returns (text: string)
    ensures text == PromptText(b)
  {
    var chars := Listing(b);
    var lines := Header;
    for i := 0 to |chars|
      invariant lines == Header + Lines(chars[..i])
    {
      var intox := Clamp01(Some(chars[i].rec.intoxication));
      var ar := Clamp01(Some(chars[i].rec.arousal));
      LinesSnoc(chars, i);
      lines := lines + [chars[i].rec.name + ": intoxication=" + Decimal(intox) + ", arousal=" + Decimal(ar)];
    }
    assert chars[..|chars|] == chars;
    text := Join(lines);
  }

  /**
   * The prompt's lines: the seven header lines (the last one empty), then
   * exactly one line per record, the i-th showing the i-th record in display
   * order; an empty bucket gives the header alone.
   */
  lemma PromptShape(b: Bucket)
    ensures |Header| == 7 && Header[6] == ""
    ensures |PromptLines(b)| == 7 + |b|
    ensures PromptLines(b)[..7] == Header
    ensures forall i :: 0 <= i < |b| ==> PromptLines(b)[7 + i] == Line(Listing(b)[i])
    ensures |b| == 0 ==> PromptText(b) == Join(Header)
  {
    ListingEntries(b);
    if |b| == 0 {
      assert Lines(Listing(b)) == [];
      assert PromptLines(b) == Header;
    }
  }

  lemma LineNoNewline(e: Entry)
    requires NoNewline(e.rec.name)
    ensures NoNewline(Line(e))
  {
    var a := Decimal(Clamp01(Some(e.rec.intoxication)));
    var c := Decimal(Clamp01(Some(e.rec.arousal)));
    assert NoNewline(a) && NoNewline(c);
  }

  /**
   * Each record's line is a line of its own in the prompt text: splitting the
   * text at newlines gives the header's pieces followed by exactly the
   * records' lines, provided no character name contains a newline.
   */
  lemma PromptRoundTrip(b: Bucket)
    requires forall k :: k in b ==> NoNewline(b[k].name)
    ensures Split(PromptText(b)) == Split(Join(Header)) + Lines(Listing(b))
  {
    ListingEntries(b);
    var ls := Lines(Listing(b));
    if |ls| == 0 {
      assert PromptLines(b) == Header;
    } else {
      forall i | 0 <= i < |ls| ensures NoNewline(ls[i]) {
        LineNoNewline(Listing(b)[i]);
      }
      SplitJoinAppend(Header, ls);
    }
  }

  /** The display order looks only at keys and names. */
  lemma MinKeySameOrder(b1: Bucket, b2: Bucket)
    requires |b1| > 0 && b1.Keys == b2.Keys
    requires forall k :: k in b1 ==> b1[k].name == b2[k].name
    ensures MinKey(b1) == MinKey(b2)
  {
    var k := MinKey(b1);
    forall k' | k' in b2 ensures EntryLe(EntryOf(b2, k), EntryOf(b2, k')) {
      assert EntryLe(EntryOf(b1, k), EntryOf(b1, k'));
    }
    assert IsMinKey(b2, k);
    MinKeyUnique(b2);
  }

  /**
   * Two buckets with the same keys and the same names list their records in
   * the same order, whatever their scores.
   */
  lemma {:induction false} ListingSameOrder(b1: Bucket, b2: Bucket)
    requires b1.Keys == b2.Keys
    requires forall k :: k in b1 ==> b1[k].name == b2[k].name
    ensures |Listing(b1)| == |Listing(b2)|
    ensures forall i :: 0 <= i < |Listing(b1)| ==> Listing(b1)[i].key == Listing(b2)[i].key
    decreases |b1|
  {
    assert |b1| == |b1.Keys| == |b2|;
    if |b1| > 0 {
      MinKeySameOrder(b1, b2);
      var k := MinKey(b1);
      ListingUnfold(b1);
      ListingUnfold(b2);
      ListingSameOrder(b1 - {k}, b2 - {k});
    }
  }

  lemma ZeroLine(e: Entry)
    requires e.rec.intoxication == 0 && e.rec.arousal == 0
    ensures Line(e) == e.rec.name + ": intoxication=0, arousal=0"
  {
    assert Decimal(0) == "0";
  }

  /**
   * After Reset all, the prompt lists the same characters in the same order,
   * each at zero intoxication and zero arousal.
   */
  lemma ResetAllShowsZeros(b: Bucket, now: int)
    ensures |PromptLines(ResetAllBucket(b, now))| == |PromptLines(b)|
    ensures forall i :: 0 <= i < |b| ==>
      PromptLines(ResetAllBucket(b, now))[7 + i] == Listing(b)[i].rec.name + ": intoxication=0, arousal=0"
  {
    var r := ResetAllBucket(b, now);
    ListingSameOrder(b, r);
    ListingEntries(b);
    ListingEntries(r);
    PromptShape(r);
    forall i | 0 <= i < |b| ensures PromptLines(r)[7 + i] == Listing(b)[i].rec.name + ": intoxication=0, arousal=0" {
      var e := Listing(r)[i];
      ZeroLine(e);
    }
  }

  /**
   * Forget removes exactly one line: the forgotten character's, when it had one.
   */
  lemma ForgetOmitsLine(b: Bucket, key: string)
    ensures |PromptLines(ForgetBucket(b, key))| == if key in b then |PromptLines(b)| - 1 else |PromptLines(b)|
    ensures ListingKeys(Listing(ForgetBucket(b, key))) == ListingKeys(Listing(b)) - {key}
  {
    var f := ForgetBucket(b, key);
    ListingCovers(b);
    ListingCovers(f);
    if key in b {
      RemoveSize(b, key);
      assert f.Keys == (b - {key}).Keys;
      assert |f| == |f.Keys| == |(b - {key}).Keys| == |b - {key}|;
    } else {
      assert f.Keys == b.Keys;
      assert |f| == |f.Keys| == |b.Keys| == |b|;
    }
  }

  lemma ExampleOrder(b: Bucket, now: int)
    requires b == map["bob" := Record("Bob", 0, 0, now), "alice" := Record("alice", 70, 10, now)]
    ensures MinKey(b) == "alice" && b - {"alice"} == map["bob" := Record("Bob", 0, 0, now)]
  {
    assert Lower("Bob") == "bob";
    assert Lower("alice") == "alice";
    assert StrLe("alice", "bob");
    assert b.Keys == {"alice", "bob"};
    assert EntryLe(EntryOf(b, "alice"), EntryOf(b, "bob"));
    assert EntryLe(EntryOf(b, "alice"), EntryOf(b, "alice"));
    assert IsMinKey(b, "alice");
    MinKeyUnique(b);
  }

  lemma SingleListing(b: Bucket, k: string, r: Record)
    requires b == map[k := r]
    ensures Listing(b) == [Entry(k, r)]
  {
    assert b.Keys == {k};
    StrLeTotal(k, k);
    assert EntryLe(EntryOf(b, k), EntryOf(b, k));
    assert IsMinKey(b, k);
    MinKeyUnique(b);
    ListingUnfold(b);
    assert b - {k} == map[];
  }

  lemma ExampleListing(b: Bucket, now: int)
    requires b == map["bob" := Record("Bob", 0, 0, now), "alice" := Record("alice", 70, 10, now)]
    ensures Listing(b) == [Entry("alice", Record("alice", 70, 10, now)), Entry("bob", Record("Bob", 0, 0, now))]
  {
    ExampleOrder(b, now);
    ListingUnfold(b);
    SingleListing(b - {"alice"}, "bob", Record("Bob", 0, 0, now));
  }

  lemma ExampleLines(now: int)
    ensures Line(Entry("alice", Record("alice", 70, 10, now))) == "alice" + ": intoxication=" + "70" + ", arousal=" + "10"
    ensures Line(Entry("bob", Record("Bob", 0, 0, now))) == "Bob" + ": intoxication=" + "0" + ", arousal=" + "0"
  {
    assert Decimal(70) == "70" && Decimal(10) == "10" && Decimal(0) == "0";
  }

  /**
   * A concrete bucket: "alice" is listed before "Bob" although 'B' precedes 'a'
   * as a code unit, because the order ignores case; scores print as decimals.
   */
  lemma OrderingExample(b: Bucket, now: int)
    requires b == map["bob" := Record("Bob", 0, 0, now), "alice" := Record("alice", 70, 10, now)]
    ensures |PromptLines(b)| == 9
    ensures PromptLines(b)[7] == "alice" + ": intoxication=" + "70" + ", arousal=" + "10"
    ensures PromptLines(b)[8] == "Bob" + ": intoxication=" + "0" + ", arousal=" + "0"
  {
    ExampleListing(b, now);
    PromptShape(b);
    ExampleLines(now);
  }
}
