/**
 * injectPromptForChat: the built prompt is handed to the host's
 * setExtensionPrompt under one of three calling conventions, tried in a fixed
 * order; the first call that does not throw ends the attempt, and a host
 * without the setter gets nothing. The host itself is a parameter: which
 * conventions it accepts, and the extension_prompt_types it exports.
 */
module Injection {
  import opened Wrappers

  /** The one key every keyed injection uses, so each overwrites the last. */
  const PromptKey := "intox-system:state"

  /** The role passed by the two keyed conventions. */
  const SystemRole := "system"

  /** The IN_CHAT value used when the host exports no extension_prompt_types. */
  const DefaultInChat := "in_chat"

  /**
   * The calling conventions, in the order they are tried:
   * `(key, prompt, { type, role })`, `(key, prompt, type, role)` and `(prompt, type)`.
   */
  datatype Convention = OptionsObject | TypeAndRole | PromptAndType

  const Attempts: seq<Convention> := [OptionsObject, TypeAndRole, PromptAndType]

  /** One call to setExtensionPrompt, with its arguments. */
  datatype Call = Call(convention: Convention, key: Option<string>, prompt: string, position: Option<string>, role: Option<string>)

  /**
   * The host's extension_prompt_types: none exported at all, or an exported
   * table whose IN_CHAT entry may be missing.
   */
  datatype PromptTypes = NoTypes | Types(inChat: Option<string>)

  /**
   * What the host offers: whether setExtensionPrompt is a function at all,
   * the conventions under which a call returns without throwing, and its
   * extension_prompt_types.
   */
  datatype Host = Host(hasSetter: bool, accepts: set<Convention>, types: PromptTypes)

  /**
   * `extension_prompt_types.IN_CHAT`. Only a host that exports no table gets
   * the fallback `{ IN_CHAT: 'in_chat' }`; a table without IN_CHAT gives
   * `undefined`, here None.
   */
  function Position(h: Host): (p: Option<string>)
    ensures h.types.NoTypes? ==> p == Some(DefaultInChat)
    ensures h.types.Types? ==> p == h.types.inChat
    ensures p.None? <==> h.types == Types(None)
  {
    match h.types
    case NoTypes => Some(DefaultInChat)
    case Types(v) => v
  }

  /** The arguments each convention passes. Only the last one passes no key and no role. */
  function CallFor(c: Convention, prompt: string, position: Option<string>): (call: Call)
    ensures call.convention == c && call.prompt == prompt && call.position == position
    ensures c != PromptAndType <==> call.key == Some(PromptKey)
    ensures c != PromptAndType <==> call.role == Some(SystemRole)
    ensures c == PromptAndType <==> call.key.None? && call.role.None?
  {
    match c
    case OptionsObject => Call(c, Some(PromptKey), prompt, position, Some(SystemRole))
    case TypeAndRole => Call(c, Some(PromptKey), prompt, position, Some(SystemRole))
    case PromptAndType => Call(c, None, prompt, position, None)
  }

  /** The first of the remaining conventions that the host accepts. */
  function FirstAccepted(accepts: set<Convention>, cs: seq<Convention>): (r: Option<nat>)
    ensures r.Some? ==> r.value < |cs|
  {
    if cs == [] then None
    else if cs[0] in accepts then Some(0)
    else match FirstAccepted(accepts, cs[1..])
      case None => None
      case Some(i) => Some(i + 1)
  }

  /** FirstAccepted finds the least accepted position, and None means none is accepted. */
  lemma {:induction false} FirstAcceptedSpec(accepts: set<Convention>, cs: seq<Convention>)
    ensures FirstAccepted(accepts, cs).None? <==> forall j :: 0 <= j < |cs| ==> cs[j] !in accepts
    ensures FirstAccepted(accepts, cs).Some? ==>
      var i := FirstAccepted(accepts, cs).value;
      i < |cs| && cs[i] in accepts && forall j :: 0 <= j < i ==> cs[j] !in accepts
  {
    if cs != [] && cs[0] !in accepts {
      FirstAcceptedSpec(accepts, cs[1..]);
      forall j | 0 < j < |cs| ensures cs[j] == cs[1..][j - 1] {
      }
    }
  }

  /**
   * The calls made, in order: every convention up to and including the first
   * accepted one, or all three when none is accepted; none without a setter.
   */
  function Tried(h: Host, prompt: string): seq<Call> {
    if !h.hasSetter then []
    else
      var n := match FirstAccepted(h.accepts, Attempts) case None => |Attempts| case Some(i) => i + 1;
      seq(n, j requires 0 <= j < n => CallFor(Attempts[j], prompt, Position(h)))
  }

  /** The call that took effect: the first accepted one, if any. */
  function Delivered(h: Host, prompt: string): Option<Call> {
    if !h.hasSetter then None
    else match FirstAccepted(h.accepts, Attempts)
      case None => None
      case Some(i) => Some(CallFor(Attempts[i], prompt, Position(h)))
  }

  /**
   * The injection contract: without a setter nothing is called; otherwise
   * the conventions are tried in order, each failed one is followed by the
   * next, and the prompt is delivered by the first accepted one, which is
   * the last call made; when the host accepts none, all three were tried and
   * nothing took effect.
   */
  lemma InjectSpec(h: Host, prompt: string)
    ensures !h.hasSetter ==> Tried(h, prompt) == [] && Delivered(h, prompt).None?
    ensures h.hasSetter ==> 1 <= |Tried(h, prompt)| <= 3
    ensures forall j :: 0 <= j < |Tried(h, prompt)| ==> Tried(h, prompt)[j] == CallFor(Attempts[j], prompt, Position(h))
    ensures forall j :: 0 <= j < |Tried(h, prompt)| - 1 ==> Attempts[j] !in h.accepts
    ensures Delivered(h, prompt).Some? <==> h.hasSetter && exists c :: c in h.accepts && c in Attempts
    ensures Delivered(h, prompt).Some? ==>
      var t := Tried(h, prompt);
      Delivered(h, prompt).value == t[|t| - 1] && t[|t| - 1].convention in h.accepts && t[|t| - 1].prompt == prompt
    ensures h.hasSetter && Delivered(h, prompt).None? ==> |Tried(h, prompt)| == 3
  {
    FirstAcceptedSpec(h.accepts, Attempts);
    if h.hasSetter && Delivered(h, prompt).None? {
      forall c | c in Attempts ensures c !in h.accepts {
        var j :| 0 <= j < |Attempts| && Attempts[j] == c;
      }
    }
  }

  /**
   * The three try blocks written out: the keyed options-object call first,
   * then the keyed positional call, then the keyless one.
   */
  lemma TriedUnrolled(h: Host, prompt: string)
    requires h.hasSetter
    ensures var c1, c2, c3 := CallFor(OptionsObject, prompt, Position(h)),
                              CallFor(TypeAndRole, prompt, Position(h)),
                              CallFor(PromptAndType, prompt, Position(h));
      && Tried(h, prompt) == (if OptionsObject in h.accepts then [c1]
                             else if TypeAndRole in h.accepts then [c1, c2]
                             else [c1, c2, c3])
      && Delivered(h, prompt) == (if OptionsObject in h.accepts then Some(c1)
                                 else if TypeAndRole in h.accepts then Some(c2)
                                 else if PromptAndType in h.accepts then Some(c3)
                                 else None)
  {
    var a := h.accepts;
    assert Attempts[1..] == [TypeAndRole, PromptAndType];
    assert Attempts[1..][1..] == [PromptAndType];
    assert Attempts[1..][1..][1..] == [];
    var n := if OptionsObject in a then 0 else if TypeAndRole in a then 1 else 2;
    var fa := if OptionsObject in a || TypeAndRole in a || PromptAndType in a then Some(n) else None;
    assert FirstAccepted(a, [PromptAndType]) == if PromptAndType in a then Some(0) else None;
    assert FirstAccepted(a, Attempts) == fa;
    var t := Tried(h, prompt);
    var c1, c2, c3 := CallFor(OptionsObject, prompt, Position(h)),
                      CallFor(TypeAndRole, prompt, Position(h)),
                      CallFor(PromptAndType, prompt, Position(h));
    if OptionsObject in a {
      assert t == [c1];
    } else if TypeAndRole in a {
      assert t == [c1, c2];
    } else {
      assert t == [c1, c2, c3];
    }
  }

  /** A host that takes the newest calling convention never sees the older ones. */
  lemma NewestHostCalledOnce(h: Host, prompt: string)
    requires h.hasSetter && OptionsObject in h.accepts
    ensures Tried(h, prompt) == [CallFor(OptionsObject, prompt, Position(h))]
    ensures Delivered(h, prompt) == Some(CallFor(OptionsObject, prompt, Position(h)))
  {
  }

  /**
   * The host's extension prompt table, by key. A keyed call puts its prompt
   * under PromptKey; a keyless call leaves the table as the host decides,
   * which is not modelled, so it is not applied here.
   */
  function Apply(slots: map<string, string>, call: Call): map<string, string> {
    if call.key.Some? then slots[call.key.value := call.prompt] else slots
  }

  /** The table after a run of delivered calls. */
  function ApplyAll(slots: map<string, string>, calls: seq<Call>): map<string, string> {
    if calls == [] then slots else Apply(ApplyAll(slots, calls[..|calls| - 1]), calls[|calls| - 1])
  }

  predicate Keyed(calls: seq<Call>) {
    forall i :: 0 <= i < |calls| ==> calls[i].convention != PromptAndType && calls[i].key == Some(PromptKey)
  }

  /**
   * One slot: however many prompts are injected through the keyed
   * conventions, the table gains the single key PromptKey and holds under it
   * the last prompt injected; no other entry changes.
   */
  lemma {:induction false} SingleSlot(slots: map<string, string>, calls: seq<Call>)
    requires |calls| >= 1 && Keyed(calls)
    ensures ApplyAll(slots, calls).Keys == slots.Keys + {PromptKey}
    ensures ApplyAll(slots, calls)[PromptKey] == calls[|calls| - 1].prompt
    ensures forall k :: k in slots && k != PromptKey ==> ApplyAll(slots, calls)[k] == slots[k]
  {
    var p := calls[..|calls| - 1];
    if |p| >= 1 {
      assert Keyed(p) by {
        forall i | 0 <= i < |p| ensures p[i].key == Some(PromptKey) && p[i].convention != PromptAndType {
          assert p[i] == calls[i];
        }
      }
      SingleSlot(slots, p);
    } else {
      assert p == [];
    }
  }

  /** Re-injecting the same prompt (the periodic safety re-injection) changes nothing. */
  lemma ReinjectIdempotent(slots: map<string, string>, h: Host, prompt: string)
    requires Delivered(h, prompt).Some?
    ensures var c := Delivered(h, prompt).value; Apply(Apply(slots, c), c) == Apply(slots, c)
  {
  }

  /** A delivered call under an accepted keyed convention is keyed. */
  lemma DeliveredKeyed(h: Host, prompt: string)
    requires Delivered(h, prompt).Some?
    requires OptionsObject in h.accepts || TypeAndRole in h.accepts
    ensures Keyed([Delivered(h, prompt).value])
  {
    FirstAcceptedSpec(h.accepts, Attempts);
  }
}
