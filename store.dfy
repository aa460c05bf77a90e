/**
 * The extension's mutable state and the operations that change it: the
 * per-chat buckets and the last chat that was reconciled, updated in place
 * by getChatBucket, ensureCharacterEntry, renderUI, reconcileAndInject, the
 * settings panel's handlers and the chat-swap observer. The current chat id,
 * the discovery sources, the host and the clock are parameters.
 */
module StoreState {
  import opened Wrappers
  import opened Identity
  import opened Records
  import opened Reconciler
  import opened Edits
  import opened Injection
  import Prompt
  import Discovery

  /**
   * What loadState finds in storage: nothing, text that does not parse to an
   * object, or an object whose `chats` and `ui.lastKnownChatId` may be missing.
   */
  datatype Saved = Missing | Unreadable | Parsed(chats: Option<map<string, Bucket>>, lastKnownChatId: Option<string>)

  /** Overwriting one chat's bucket twice leaves the second. */
  lemma Overwrite(m: map<string, Bucket>, k: string, x: Bucket, y: Bucket)
    ensures m[k := x][k := y] == m[k := y]
  {
  }

  /** Every stored score lies on the scale. */
  predicate ChatsInRange(chats: map<string, Bucket>) {
    forall c :: c in chats ==> InRange(chats[c])
  }

  /** Replacing one chat's bucket by one within range keeps the whole store within range. */
  lemma UpdateInRange(chats: map<string, Bucket>, chatId: string, b: Bucket)
    requires ChatsInRange(chats) && InRange(b)
    ensures ChatsInRange(chats[chatId := b])
  {
  }

  /** setVal's statements, in order, compute SetValBucket. */
  lemma SetValSteps(b: Bucket, key: string, name: string, f: Field, v: Option<int>, now: int)
    ensures var base := if key in b then b else b[key := Record(name, 0, 0, now)];
            base[key := Put(base[key], f, Clamp01(v)).(name := name).(updatedAt := now)] == SetValBucket(b, key, name, f, v, now)
  {
  }

  class Store {
    var chats: map<string, Bucket>
    var lastKnownChatId: Option<string>

    /** loadState with nothing stored: no chats, no chat seen yet. */
    constructor ()
      ensures chats == map[] && lastKnownChatId == None
    {
      chats := map[];
      lastKnownChatId := None;
    }

    /** loadState: a parsed object keeps its chats (empty when missing); anything else starts empty. */
    constructor Load(saved: Saved)
      ensures saved.Parsed? && saved.chats.Some? ==> chats == saved.chats.value
      ensures !(saved.Parsed? && saved.chats.Some?) ==> chats == map[]
      ensures lastKnownChatId == if saved.Parsed? then saved.lastKnownChatId else None
    {
      match saved
      case Parsed(c, last) =>
        chats := if c.Some? then c.value else map[];
        lastKnownChatId := last;
      case _ =>
        chats := map[];
        lastKnownChatId := None;
    }

    /** The bucket a chat has now, empty when it has none yet. */
    function Current(chatId: string): Bucket
      reads this
    {
      BucketOf(chats, chatId)
    }

    /** Every stored score lies on the scale. */
    predicate AllInRange()
      reads this
    {
      ChatsInRange(chats)
    }

    /** getChatBucket: creates the chat's empty bucket on first use and returns it. */
    method GetChatBucket(chatId: string) returns (b: Bucket)
      modifies this
      ensures b == BucketOf(old(chats), chatId)
      ensures chats == old(chats)[chatId := b]
      ensures lastKnownChatId == old(lastKnownChatId)
    {
      if chatId !in chats {
        chats := chats[chatId := map[]];
      }
      b := chats[chatId];
    }

    /** ensureCharacterEntry: refresh an existing record's name, or add a fresh one at zero. */
    method EnsureCharacterEntry(chatId: string, c: Candidate, now: int) returns (rec: Record)
      modifies this
      ensures chats == old(chats)[chatId := EnsureEntry(BucketOf(old(chats), chatId), c, now)]
      ensures rec == chats[chatId][c.key]
      ensures lastKnownChatId == old(lastKnownChatId)
    {
      var b := GetChatBucket(chatId);
      if c.key in b {
        rec := b[c.key].(name := c.name);
      } else {
        rec := Record(c.name, 0, 0, now);
      }
      chats := chats[chatId := b[c.key := rec]];
    }

    /** `for (const c of chars) ensureCharacterEntry(chatId, c)`. */
    method ReconcileChat(chatId: string, cs: seq<Candidate>, now: int)
      modifies this
      ensures cs == [] ==> chats == old(chats)
      ensures cs != [] ==> chats == old(chats)[chatId := ReconcileBucket(BucketOf(old(chats), chatId), cs, now)]
      ensures lastKnownChatId == old(lastKnownChatId)
    {
      ghost var b0 := BucketOf(old(chats), chatId);
      for i := 0 to |cs|
        invariant i == 0 ==> chats == old(chats)
        invariant i > 0 ==> chats == old(chats)[chatId := ReconcileBucket(b0, cs[..i], now)]
        invariant lastKnownChatId == old(lastKnownChatId)
      {
        assert cs[..i + 1][..i] == cs[..i];
        var _ := EnsureCharacterEntry(chatId, cs[i], now);
      }
      assert cs[..|cs|] == cs;
    }

    /** buildSystemPrompt: the prompt text of the chat's bucket, created if missing. */
    method BuildSystemPrompt(chatId: string) returns (text: string)
      modifies this
      ensures chats == old(chats)[chatId := BucketOf(old(chats), chatId)]
      ensures text == Prompt.PromptText(BucketOf(old(chats), chatId))
      ensures lastKnownChatId == old(lastKnownChatId)
    {
      var b := GetChatBucket(chatId);
      text := Prompt.BuildSystemPrompt(b);
    }

    /**
     * injectPromptForChat: nothing at all without a setter; otherwise build the
     * prompt and try the conventions in order until one does not throw.
     */
    method InjectPromptForChat(chatId: string, host: Host) returns (tried: seq<Call>, d: Option<Call>)
      modifies this
      ensures !host.hasSetter ==> chats == old(chats)
      ensures host.hasSetter ==> chats == old(chats)[chatId := BucketOf(old(chats), chatId)]
      ensures tried == Tried(host, Prompt.PromptText(BucketOf(old(chats), chatId)))
      ensures d == Delivered(host, Prompt.PromptText(BucketOf(old(chats), chatId)))
      ensures lastKnownChatId == old(lastKnownChatId)
    {
      if !host.hasSetter {
        return [], None;
      }
      var prompt := BuildSystemPrompt(chatId);
      TriedUnrolled(host, prompt);
      var position := Position(host);
      var first := CallFor(OptionsObject, prompt, position);
      tried := [first];
      if OptionsObject in host.accepts {
        return tried, Some(first);
      }
      var second := CallFor(TypeAndRole, prompt, position);
      tried := tried + [second];
      if TypeAndRole in host.accepts {
        return tried, Some(second);
      }
      var third := CallFor(PromptAndType, prompt, position);
      tried := tried + [third];
      d := if PromptAndType in host.accepts then Some(third) else None;
    }

    /**
     * renderUI, less the DOM: discover, reconcile into the chat's bucket, and
     * build the prompt shown in the preview.
     */
    method RenderUI(chatId: string, src: Discovery.Sources, now: int) returns (preview: string)
      modifies this
      ensures chats == old(chats)[chatId := ReconcileBucket(BucketOf(old(chats), chatId), Discovery.Resolve(src), now)]
      ensures preview == Prompt.PromptText(chats[chatId])
      ensures lastKnownChatId == old(lastKnownChatId)
      ensures old(AllInRange()) ==> AllInRange()
    {
      ghost var wasInRange := AllInRange();
      var chars := Discovery.Discover(src);
      Discovery.ResolveNonEmpty(src);
      ghost var b0 := BucketOf(chats, chatId);
      ghost var r := ReconcileBucket(b0, chars, now);
      var _ := GetChatBucket(chatId);
      assert BucketOf(chats, chatId) == b0;
      ReconcileChat(chatId, chars, now);
      Overwrite(old(chats), chatId, b0, r);
      assert chats == old(chats)[chatId := r];
      assert BucketOf(chats, chatId) == r;
      preview := BuildSystemPrompt(chatId);
      Overwrite(old(chats), chatId, r, r);
      if wasInRange {
        ReconcileInRange(b0, chars, now);
        UpdateInRange(old(chats), chatId, r);
      }
    }

    /**
     * reconcileAndInject: remember the chat, reconcile the discovered
     * identities, inject, then render (at a later time). The render's second
     * reconcile changes nothing, so the preview shows exactly the prompt that
     * was injected.
     */
    method ReconcileAndInject(chatId: string, src: Discovery.Sources, host: Host, now: int, later: int)
      returns (tried: seq<Call>, d: Option<Call>, preview: string)
      modifies this
      ensures lastKnownChatId == Some(chatId)
      ensures chats == old(chats)[chatId := ReconcileBucket(BucketOf(old(chats), chatId), Discovery.Resolve(src), now)]
      ensures preview == Prompt.PromptText(chats[chatId])
      ensures tried == Tried(host, preview) && d == Delivered(host, preview)
      ensures old(AllInRange()) ==> AllInRange()
    {
      ghost var wasInRange := AllInRange();
      lastKnownChatId := Some(chatId);
      var chars := Discovery.Discover(src);
      Discovery.ResolveNonEmpty(src);
      ghost var b0 := BucketOf(chats, chatId);
      ghost var r := ReconcileBucket(b0, chars, now);
      ReconcileChat(chatId, chars, now);
      assert chats == old(chats)[chatId := r];
      assert BucketOf(chats, chatId) == r;
      tried, d := InjectPromptForChat(chatId, host);
      Overwrite(old(chats), chatId, r, r);
      assert chats == old(chats)[chatId := r];
      preview := RenderUI(chatId, src, later);
      ReconcileIdempotent(b0, chars, now, later);
      Overwrite(old(chats), chatId, r, r);
      if wasInRange {
        ReconcileInRange(b0, chars, now);
        UpdateInRange(old(chats), chatId, r);
      }
    }

    /**
     * The chat-swap observer: reconcileAndInject runs exactly when the chat
     * differs from the last one reconciled. Afterwards the chat is the last
     * one either way, so a second mutation in the same chat does nothing.
     */
    method OnChatMutation(chatId: string, src: Discovery.Sources, host: Host, now: int, later: int)
      returns (ran: bool, d: Option<Call>)
      modifies this
      ensures ran <==> old(lastKnownChatId) != Some(chatId)
      ensures lastKnownChatId == Some(chatId)
      ensures !ran ==> chats == old(chats) && d.None?
      ensures ran ==> chats == old(chats)[chatId := ReconcileBucket(BucketOf(old(chats), chatId), Discovery.Resolve(src), now)]
      ensures ran ==> d == Delivered(host, Prompt.PromptText(chats[chatId]))
      ensures old(AllInRange()) ==> AllInRange()
    {
      ran := lastKnownChatId != Some(chatId);
      d := None;
      if ran {
        var _, delivered, _ := ReconcileAndInject(chatId, src, host, now, later);
        d := delivered;
      }
    }

    /** "Refresh characters": render, then inject. */
    method OnRefresh(chatId: string, src: Discovery.Sources, host: Host, now: int)
      returns (preview: string, d: Option<Call>)
      modifies this
      ensures chats == old(chats)[chatId := ReconcileBucket(BucketOf(old(chats), chatId), Discovery.Resolve(src), now)]
      ensures preview == Prompt.PromptText(chats[chatId]) && d == Delivered(host, preview)
      ensures lastKnownChatId == old(lastKnownChatId)
      ensures old(AllInRange()) ==> AllInRange()
    {
      ghost var r := ReconcileBucket(BucketOf(chats, chatId), Discovery.Resolve(src), now);
      preview := RenderUI(chatId, src, now);
      assert BucketOf(chats, chatId) == r;
      var _, delivered := InjectPromptForChat(chatId, host);
      Overwrite(old(chats), chatId, r, r);
      d := delivered;
    }

    /**
     * Render and inject after an edit has left the bucket e in the chat:
     * the common tail of the panel's buttons.
     */
    method RenderAndInject(chatId: string, src: Discovery.Sources, host: Host, now: int, ghost e: Bucket)
      returns (preview: string, d: Option<Call>)
      modifies this
      requires chatId in chats && chats[chatId] == e
      ensures chats == old(chats)[chatId := ReconcileBucket(e, Discovery.Resolve(src), now)]
      ensures preview == Prompt.PromptText(chats[chatId]) && d == Delivered(host, preview)
      ensures lastKnownChatId == old(lastKnownChatId)
      ensures old(AllInRange()) ==> AllInRange()
    {
      ghost var r := ReconcileBucket(e, Discovery.Resolve(src), now);
      preview := RenderUI(chatId, src, now);
      assert BucketOf(chats, chatId) == r;
      var _, delivered := InjectPromptForChat(chatId, host);
      Overwrite(old(chats), chatId, r, r);
      d := delivered;
    }

    /**
     * "Reset all to 0": zero every record of the chat, then render and inject.
     * Afterwards every record shown and injected is at zero.
     */
    method OnResetAll(chatId: string, src: Discovery.Sources, host: Host, now: int)
      returns (preview: string, d: Option<Call>)
      modifies this
      ensures chats == old(chats)[chatId := ReconcileBucket(ResetAllBucket(BucketOf(old(chats), chatId), now), Discovery.Resolve(src), now)]
      ensures forall k :: k in chats[chatId] ==> chats[chatId][k].intoxication == 0 && chats[chatId][k].arousal == 0
      ensures preview == Prompt.PromptText(chats[chatId]) && d == Delivered(host, preview)
      ensures lastKnownChatId == old(lastKnownChatId)
      ensures old(AllInRange()) ==> AllInRange()
    {
      ghost var wasInRange := AllInRange();
      var b := GetChatBucket(chatId);
      var todo := b.Keys;
      while todo != {}
        invariant todo <= b.Keys
        invariant chatId in chats && chats == old(chats)[chatId := chats[chatId]]
        invariant chats[chatId].Keys == b.Keys
        invariant forall k :: k in b ==> chats[chatId][k] == if k in todo then b[k] else Zeroed(b[k], now)
        invariant lastKnownChatId == old(lastKnownChatId)
        decreases |todo|
      {
        var k :| k in todo;
        var cur := chats[chatId];
        Overwrite(old(chats), chatId, cur, cur[k := Zeroed(cur[k], now)]);
        chats := chats[chatId := cur[k := Zeroed(cur[k], now)]];
        todo := todo - {k};
      }
      ghost var z := ResetAllBucket(b, now);
      assert chats[chatId] == z;
      if wasInRange {
        EditsKeepRange(b, chatId, "", Intoxication, None, now);
        UpdateInRange(old(chats), chatId, z);
      }
      preview, d := RenderAndInject(chatId, src, host, now, z);
      Overwrite(old(chats), chatId, z, ReconcileBucket(z, Discovery.Resolve(src), now));
      ResetAllThenReconcile(b, Discovery.Resolve(src), now, now);
    }

    /**
     * A row's "Reset": when the record still exists, zero it, then render and
     * inject; otherwise only the bucket is created.
     */
    method OnResetRow(chatId: string, key: string, src: Discovery.Sources, host: Host, now: int)
      returns (ran: bool, preview: Option<string>, d: Option<Call>)
      modifies this
      ensures ran <==> key in BucketOf(old(chats), chatId)
      ensures !ran ==> chats == old(chats)[chatId := BucketOf(old(chats), chatId)] && preview.None? && d.None?
      ensures ran ==> chats == old(chats)[chatId := ReconcileBucket(ResetOneBucket(BucketOf(old(chats), chatId), key, now), Discovery.Resolve(src), now)]
      ensures ran ==> preview == Some(Prompt.PromptText(chats[chatId])) && d == Delivered(host, preview.value)
      ensures lastKnownChatId == old(lastKnownChatId)
      ensures old(AllInRange()) ==> AllInRange()
    {
      ghost var wasInRange := AllInRange();
      var b := GetChatBucket(chatId);
      ran := key in b;
      preview, d := None, None;
      if ran {
        ghost var e := ResetOneBucket(b, key, now);
        Overwrite(old(chats), chatId, b, e);
        chats := chats[chatId := b[key := Zeroed(b[key], now)]];
        if wasInRange {
          EditsKeepRange(b, key, "", Intoxication, None, now);
          UpdateInRange(old(chats), chatId, e);
        }
        var p, delivered := RenderAndInject(chatId, src, host, now, e);
        Overwrite(old(chats), chatId, e, ReconcileBucket(e, Discovery.Resolve(src), now));
        preview, d := Some(p), delivered;
      }
    }

    /** A row's "Forget": delete the record, then render and inject. */
    method OnForget(chatId: string, key: string, src: Discovery.Sources, host: Host, now: int)
      returns (preview: string, d: Option<Call>)
      modifies this
      ensures chats == old(chats)[chatId := ReconcileBucket(ForgetBucket(BucketOf(old(chats), chatId), key), Discovery.Resolve(src), now)]
      ensures preview == Prompt.PromptText(chats[chatId]) && d == Delivered(host, preview)
      ensures lastKnownChatId == old(lastKnownChatId)
      ensures old(AllInRange()) ==> AllInRange()
    {
      ghost var wasInRange := AllInRange();
      var b := GetChatBucket(chatId);
      ghost var e := ForgetBucket(b, key);
      Overwrite(old(chats), chatId, b, e);
      chats := chats[chatId := b - {key}];
      if wasInRange {
        EditsKeepRange(b, key, "", Intoxication, None, now);
        UpdateInRange(old(chats), chatId, e);
      }
      preview, d := RenderAndInject(chatId, src, host, now, e);
      Overwrite(old(chats), chatId, e, ReconcileBucket(e, Discovery.Resolve(src), now));
    }

    /**
     * setVal of a row's slider or number box: clamp, create the record if it
     * was forgotten meanwhile, write the field, the row's name and the time,
     * then inject (the panel is not re-rendered). The clamped value is what
     * both inputs then display.
     */
    method OnSetVal(chatId: string, key: string, name: string, f: Field, v: Option<int>, host: Host, now: int)
      returns (vv: int, d: Option<Call>)
      modifies this
      ensures vv == Clamp01(v) && Low <= vv <= High
      ensures chats == old(chats)[chatId := SetValBucket(BucketOf(old(chats), chatId), key, name, f, v, now)]
      ensures d == Delivered(host, Prompt.PromptText(chats[chatId]))
      ensures lastKnownChatId == old(lastKnownChatId)
      ensures old(AllInRange()) ==> AllInRange()
    {
      ghost var wasInRange := AllInRange();
      vv := Clamp01(v);
      var b := GetChatBucket(chatId);
      ghost var e := SetValBucket(b, key, name, f, v, now);
      var base := b;
      if key !in base {
        base := base[key := Record(name, 0, 0, now)];
      }
      var rec := Put(base[key], f, vv);
      rec := rec.(name := name);
      rec := rec.(updatedAt := now);
      SetValSteps(b, key, name, f, v, now);
      Overwrite(old(chats), chatId, b, e);
      chats := chats[chatId := base[key := rec]];
      var _, delivered := InjectPromptForChat(chatId, host);
      Overwrite(old(chats), chatId, e, e);
      d := delivered;
      if wasInRange {
        EditsKeepRange(b, key, name, f, v, now);
        UpdateInRange(old(chats), chatId, e);
      }
    }
  }
}
