/**
 * Character discovery (discoverCharactersInChat): the names reported by the
 * message log, the current character, the group roster and the chat display
 * are set, in that order, into a table keyed by identity key. A later report
 * of a key replaces the display name and keeps the key's first position. When
 * nothing is reported, the result is one default character.
 */
module Discovery {
  import opened Wrappers
  import opened Identity

  /** One message of the host's log: the four fields that may hold its author. */
  datatype Message = Message(name: Option<string>, characterName: Option<string>,
                             author: Option<string>, from: Option<string>)

  /** A name element of the chat display: its data-author attribute and its text. */
  datatype NameNode = NameNode(dataAuthor: Option<string>, textContent: string)

  /**
   * What one pass read from the three sources. A source that is missing or that
   * fails contributes nothing (or what it read before failing).
   */
  datatype Sources = Sources(messages: seq<Message>, character: Option<string>,
                             group: seq<Option<string>>, nodes: seq<NameNode>)

  /** The default identity used when no source names anybody. */
  const Sentinel := Candidate("character", "Character")

  /** `m?.name || m?.character_name || m?.author || m?.from`: the first truthy field. */
  function MessageName(m: Message): (r: Option<string>)
    ensures Truthy(r) <==> Truthy(m.name) || Truthy(m.characterName) || Truthy(m.author) || Truthy(m.from)
    ensures Truthy(m.name) ==> r == m.name
    ensures !Truthy(m.name) && Truthy(m.characterName) ==> r == m.characterName
    ensures !Truthy(m.name) && !Truthy(m.characterName) && Truthy(m.author) ==> r == m.author
    ensures !Truthy(m.name) && !Truthy(m.characterName) && !Truthy(m.author) ==> r == m.from
  {
    Or(Or(Or(m.name, m.characterName), m.author), m.from)
  }

  /** `n.getAttribute('data-author') || n.textContent`. */
  function NodeName(n: NameNode): (r: Option<string>)
    ensures Truthy(n.dataAuthor) ==> r == n.dataAuthor
    ensures !Truthy(n.dataAuthor) ==> r == Some(n.textContent)
    ensures Truthy(r) <==> Truthy(n.dataAuthor) || n.textContent != ""
  {
    Or(n.dataAuthor, Some(n.textContent))
  }

  /** A name from the log or the roster is reported as given. */
  function NamedReport(name: Option<string>): seq<Candidate> {
    if Truthy(name) then [Candidate(NormalizeKey(name), name.value)] else []
  }

  function MessageReport(m: Message): seq<Candidate> {
    NamedReport(MessageName(m))
  }

  /** A name read from the display is reported trimmed. */
  function NodeReport(n: NameNode): seq<Candidate> {
    var name := NodeName(n);
    if Truthy(name) then [Candidate(NormalizeKey(name), Trim(name.value))] else []
  }

  /** The reports of one source, in the order the source lists them. */
  function Collect<T>(xs: seq<T>, f: T -> seq<Candidate>): seq<Candidate> {
    if xs == [] then [] else Collect(xs[..|xs| - 1], f) + f(xs[|xs| - 1])
  }

  /** Every `out.set` call of one pass, in order. */
  function Reports(src: Sources): seq<Candidate> {
    Collect(src.messages, MessageReport) + NamedReport(src.character)
    + Collect(src.group, NamedReport) + Collect(src.nodes, NodeReport)
  }

  /** No source holds a truthy name. */
  predicate NoNames(src: Sources) {
    && (forall i :: 0 <= i < |src.messages| ==> !Truthy(MessageName(src.messages[i])))
    && !Truthy(src.character)
    && (forall i :: 0 <= i < |src.group| ==> !Truthy(src.group[i]))
    && (forall i :: 0 <= i < |src.nodes| ==> !Truthy(NodeName(src.nodes[i])))
  }

  predicate Distinct(s: seq<string>) {
    forall i, j :: 0 <= i < j < |s| ==> s[i] != s[j]
  }

  /** An insertion-ordered map from key to display name (a JavaScript Map). */
  datatype Table = Table(names: map<string, string>, order: seq<string>)

  predicate TableWf(t: Table) {
    && Distinct(t.order)
    && (forall i :: 0 <= i < |t.order| ==> t.order[i] in t.names)
    && (forall k :: k in t.names ==> k in t.order)
  }

  /** Map.prototype.set: a new key goes last, a known key keeps its place. */
  function Set(t: Table, c: Candidate): Table {
    Table(t.names[c.key := c.name], if c.key in t.names then t.order else t.order + [c.key])
  }

  /** The table after setting every report in turn into an empty one. */
  function MergeAll(cs: seq<Candidate>): (t: Table)
    ensures TableWf(t)
  {
    if cs == [] then Table(map[], [])
    else Set(MergeAll(cs[..|cs| - 1]), cs[|cs| - 1])
  }

  /** The merged table holds every reported key, with the name its last report carried. */
  lemma {:induction false} MergeAllSpec(cs: seq<Candidate>)
    ensures MergeAll(cs).names.Keys == CandKeys(cs)
    ensures forall k :: k in MergeAll(cs).names ==> LastName(cs, k) == Some(MergeAll(cs).names[k])
  {
    if cs != [] {
      var p := cs[..|cs| - 1];
      var c := cs[|cs| - 1];
      assert p + [c] == cs;
      MergeAllSpec(p);
      CandKeysSnoc(p, c);
      forall k ensures LastName(cs, k) == if c.key == k then Some(c.name) else LastName(p, k) {
        LastNameSnoc(p, c, k);
      }
    }
  }

  /** `[...out.values()]`. */
  function Values(t: Table): (r: seq<Candidate>)
    requires TableWf(t)
  {
    seq(|t.order|, i requires 0 <= i < |t.order| => Candidate(t.order[i], t.names[t.order[i]]))
  }

  /** The identities one discovery pass yields. */
  function Resolve(src: Sources): seq<Candidate> {
    var t := MergeAll(Reports(src));
    if t.order == [] then [Sentinel] else Values(t)
  }

  lemma MergeSnoc(cs: seq<Candidate>, more: seq<Candidate>)
    requires |more| <= 1
    ensures MergeAll(cs + more) == if more == [] then MergeAll(cs) else Set(MergeAll(cs), more[0])
  {
    if more == [] {
      assert cs + more == cs;
    } else {
      assert (cs + more)[..|cs|] == cs;
    }
  }

  lemma CollectStep<T>(xs: seq<T>, f: T -> seq<Candidate>, i: nat)
    requires i < |xs|
    ensures Collect(xs[..i + 1], f) == Collect(xs[..i], f) + f(xs[i])
  {
    assert xs[..i + 1][..i] == xs[..i];
  }

  /** One iteration of a scanning loop sets at most one report into the table. */
  lemma ScanStep<T>(pre: seq<Candidate>, xs: seq<T>, f: T -> seq<Candidate>, i: nat)
    requires i < |xs| && |f(xs[i])| <= 1
    ensures MergeAll(pre + Collect(xs[..i + 1], f))
         == if f(xs[i]) == [] then MergeAll(pre + Collect(xs[..i], f))
            else Set(MergeAll(pre + Collect(xs[..i], f)), f(xs[i])[0])
  {
    CollectStep(xs, f, i);
    assert pre + Collect(xs[..i + 1], f) == (pre + Collect(xs[..i], f)) + f(xs[i]);
    MergeSnoc(pre + Collect(xs[..i], f), f(xs[i]));
  }

  lemma {:induction false} CollectEmpty<T>(xs: seq<T>, f: T -> seq<Candidate>)
    ensures Collect(xs, f) == [] <==> forall i :: 0 <= i < |xs| ==> f(xs[i]) == []
  {
    if xs != [] {
      var p := xs[..|xs| - 1];
      CollectEmpty(p, f);
      assert forall i :: 0 <= i < |p| ==> p[i] == xs[i];
    }
  }

  /** Every report pairs a key with a name whose fold is that key. */
  predicate AllFolded(cs: seq<Candidate>) {
    forall i :: 0 <= i < |cs| ==> cs[i].key == Fold(cs[i].name)
  }

  lemma AllFoldedAppend(a: seq<Candidate>, b: seq<Candidate>)
    requires AllFolded(a) && AllFolded(b)
    ensures AllFolded(a + b)
  {
    forall i | 0 <= i < |a + b| ensures (a + b)[i].key == Fold((a + b)[i].name) {
      if i < |a| {
        assert (a + b)[i] == a[i];
      } else {
        assert (a + b)[i] == b[i - |a|];
      }
    }
  }

  lemma {:induction false} CollectFolded<T>(xs: seq<T>, f: T -> seq<Candidate>)
    requires forall x :: AllFolded(f(x))
    ensures AllFolded(Collect(xs, f))
  {
    if xs != [] {
      CollectFolded(xs[..|xs| - 1], f);
      AllFoldedAppend(Collect(xs[..|xs| - 1], f), f(xs[|xs| - 1]));
    }
  }

  lemma NamedReportFolded(name: Option<string>)
    ensures AllFolded(NamedReport(name))
  {
  }

  lemma NodeReportFolded(n: NameNode)
    ensures AllFolded(NodeReport(n))
  {
    var name := NodeName(n);
    if Truthy(name) {
      FoldOfTrim(name.value);
    }
  }

  lemma ReportsFolded(src: Sources)
    ensures AllFolded(Reports(src))
  {
    forall m: Message ensures AllFolded(MessageReport(m)) {
      NamedReportFolded(MessageName(m));
    }
    forall n: NameNode ensures AllFolded(NodeReport(n)) {
      NodeReportFolded(n);
    }
    forall g: Option<string> ensures AllFolded(NamedReport(g)) {
      NamedReportFolded(g);
    }
    var c1, c2 := Collect(src.messages, MessageReport), NamedReport(src.character);
    var c3, c4 := Collect(src.group, NamedReport), Collect(src.nodes, NodeReport);
    CollectFolded(src.messages, MessageReport);
    CollectFolded(src.group, NamedReport);
    CollectFolded(src.nodes, NodeReport);
    AllFoldedAppend(c1, c2);
    AllFoldedAppend(c1 + c2, c3);
    AllFoldedAppend(c1 + c2 + c3, c4);
  }

  /** The sources produce no report exactly when none of them holds a name. */
  lemma ReportsEmptyIff(src: Sources)
    ensures Reports(src) == [] <==> NoNames(src)
  {
    CollectEmpty(src.messages, MessageReport);
    CollectEmpty(src.group, NamedReport);
    CollectEmpty(src.nodes, NodeReport);
  }

  /** Discovery never yields two identities with the same key, nor an empty list. */
  lemma ResolveNonEmpty(src: Sources)
    ensures Resolve(src) != []
  {
    ResolveUnique(src);
  }

  lemma ResolveUnique(src: Sources)
    ensures |Resolve(src)| >= 1
    ensures forall i, j :: 0 <= i < j < |Resolve(src)| ==> Resolve(src)[i].key != Resolve(src)[j].key
  {
  }

  lemma SentinelFolded()
    ensures Sentinel.key == Fold(Sentinel.name)
  {
    var c := "Character";
    assert !IsWhite(c[0]) && !IsWhite(c[8]);
    TrimFixedPoint(c);
    assert Lower(c) == "character" by {
      forall i | 0 <= i < 9 ensures Lower(c)[i] == "character"[i] {
        assert Lower(c)[i] == LowerChar(c[i]);
      }
    }
  }

  /** Each identity's key is the folded form of the display name it carries. */
  lemma ResolveKeysFolded(src: Sources)
    ensures AllFolded(Resolve(src))
  {
    var cs := Reports(src);
    ReportsFolded(src);
    MergeFolded(cs);
    var t := MergeAll(cs);
    if t.order == [] {
      SentinelFolded();
    } else {
      ValuesSpec(t);
    }
  }

  lemma ValuesSpec(t: Table)
    requires TableWf(t)
    ensures |Values(t)| == |t.order|
    ensures forall i :: 0 <= i < |t.order| ==> Values(t)[i] == Candidate(t.order[i], t.names[t.order[i]])
    ensures CandKeys(Values(t)) == t.names.Keys
  {
    var r := Values(t);
    forall k | k in t.names ensures k in CandKeys(r) {
      var i :| 0 <= i < |t.order| && t.order[i] == k;
      assert r[i].key == k;
    }
  }

  /** A merged table of folded reports maps every key to a name whose fold is the key. */
  lemma {:induction false} MergeFolded(cs: seq<Candidate>)
    requires AllFolded(cs)
    ensures forall k :: k in MergeAll(cs).names ==> Fold(MergeAll(cs).names[k]) == k
  {
    if cs != [] {
      MergeFolded(cs[..|cs| - 1]);
    }
  }

  /**
   * When some source names somebody, the keys are exactly the reported keys
   * (the default identity is not added), and each display name is the one the
   * last report of that key carried.
   */
  lemma ResolveLastWins(src: Sources)
    requires !NoNames(src)
    ensures CandKeys(Resolve(src)) == CandKeys(Reports(src))
    ensures forall i :: 0 <= i < |Resolve(src)| ==> LastName(Reports(src), Resolve(src)[i].key) == Some(Resolve(src)[i].name)
  {
    var cs := Reports(src);
    ReportsEmptyIff(src);
    var t := MergeAll(cs);
    MergeAllSpec(cs);
    assert t.order != [] by {
      assert cs[0].key in CandKeys(cs);
    }
    ValuesSpec(t);
  }

  /** When no source names anybody, discovery yields exactly the default identity. */
  lemma ResolveFallback(src: Sources)
    requires NoNames(src)
    ensures Resolve(src) == [Sentinel]
  {
    ReportsEmptyIff(src);
  }

  /** `out.set(key, {key, name})`. */
  method Put(out: Table, key: string, name: string) returns (t: Table)
    ensures t == Set(out, Candidate(key, name))
  {
    var order := out.order;
    if key !in out.names {
      order := order + [key];
    }
    t := Table(out.names[key := name], order);
  }

  /** Pass 1: the author of each message of the log. */
  method ScanMessages(out: Table, messages: seq<Message>, ghost done: seq<Candidate>) returns (t: Table)
    requires out == MergeAll(done)
    ensures t == MergeAll(done + Collect(messages, MessageReport))
  {
    t := out;
    assert done + Collect(messages[..0], MessageReport) == done;
    for i := 0 to |messages|
      invariant t == MergeAll(done + Collect(messages[..i], MessageReport))
    {
      ScanStep(done, messages, MessageReport, i);
      var name := MessageName(messages[i]);
      if Truthy(name) {
        t := Put(t, NormalizeKey(name), name.value);
      }
    }
    assert messages[..|messages|] == messages;
  }

  /** Pass 2, first half: the current character. */
  method ScanCharacter(out: Table, character: Option<string>, ghost done: seq<Candidate>) returns (t: Table)
    requires out == MergeAll(done)
    ensures t == MergeAll(done + NamedReport(character))
  {
    t := out;
    MergeSnoc(done, NamedReport(character));
    if Truthy(character) {
      t := Put(t, NormalizeKey(character), character.value);
    }
  }

  /** Pass 2, second half: each member of the group. */
  method ScanGroup(out: Table, group: seq<Option<string>>, ghost done: seq<Candidate>) returns (t: Table)
    requires out == MergeAll(done)
    ensures t == MergeAll(done + Collect(group, NamedReport))
  {
    t := out;
    assert done + Collect(group[..0], NamedReport) == done;
    for i := 0 to |group|
      invariant t == MergeAll(done + Collect(group[..i], NamedReport))
    {
      ScanStep(done, group, NamedReport, i);
      var name := group[i];
      if Truthy(name) {
        t := Put(t, NormalizeKey(name), name.value);
      }
    }
    assert group[..|group|] == group;
  }

  /** Pass 3: the name elements of the chat display, trimmed. */
  method ScanNodes(out: Table, nodes: seq<NameNode>, ghost done: seq<Candidate>) returns (t: Table)
    requires out == MergeAll(done)
    ensures t == MergeAll(done + Collect(nodes, NodeReport))
  {
    t := out;
    assert done + Collect(nodes[..0], NodeReport) == done;
    for i := 0 to |nodes|
      invariant t == MergeAll(done + Collect(nodes[..i], NodeReport))
    {
      ScanStep(done, nodes, NodeReport, i);
      var name := NodeName(nodes[i]);
      if Truthy(name) {
        t := Put(t, NormalizeKey(name), Trim(name.value));
      }
    }
    assert nodes[..|nodes|] == nodes;
  }

  /**
   * discoverCharactersInChat: the three passes fill one Map; its values are the
   * result, or the default identity when it stayed empty.
   */
  method Discover(src: Sources) returns (r: seq<Candidate>)
    ensures r == Resolve(src)
  {
    var out := Table(map[], []);
    out := ScanMessages(out, src.messages, []);
    ghost var done := Collect(src.messages, MessageReport);
    assert [] + done == done;
    out := ScanCharacter(out, src.character, done);
    done := done + NamedReport(src.character);
    out := ScanGroup(out, src.group, done);
    done := done + Collect(src.group, NamedReport);
    out := ScanNodes(out, src.nodes, done);
    assert done + Collect(src.nodes, NodeReport) == Reports(src);
    if |out.order| == 0 {
      r := [Sentinel];
    } else {
      r := Values(out);
    }
  }
}
