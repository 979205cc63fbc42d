/**
 * Reaction roles: the registry of selector messages, the decisions taken when a
 * user adds or removes a reaction, and the reconciliation of the bot's own
 * reactions on a selector message with the selector's emoji. Platform calls are
 * returned as data rather than performed.
 */
module ReactionRoles {
  import opened Wrappers
  import opened Discord
  import opened ReactionSelector
  import opened Persistence
  import opened Commands

  // ---------------------------------------------------------------------------
  // The registry
  // ---------------------------------------------------------------------------

  /** `State`: the selector parsed from each selector message. */
  datatype Registry = Registry(selectors: map<MessageId, Selector>)

  /** `selector`: the selector registered for `message`, if any. */
  function SelectorOf(registry: Registry, message: MessageId): (s: Option<Selector>)
    ensures s.Some? <==> message in registry.selectors
    ensures s.Some? ==> registry.selectors[message] == s.value
  {
    if message in registry.selectors then Some(registry.selectors[message]) else None
  }

  /** `is_selector`: whether `message` is a registered selector message. */
  function IsSelector(registry: Registry, message: MessageId): (b: bool)
    ensures b <==> SelectorOf(registry, message).Some?
  {
    message in registry.selectors
  }

  /** `insert_selector`: register `selector` for `message`, replacing any earlier one. */
  function InsertSelector(registry: Registry, message: MessageId, selector: Selector): (r: Registry)
    ensures SelectorOf(r, message) == Some(selector)
    ensures forall m :: m != message ==> SelectorOf(r, m) == SelectorOf(registry, m)
  {
    Registry(registry.selectors[message := selector])
  }

  /** `remove_selector`: unregister `message`, handing back what was registered for it. */
  function RemoveSelector(registry: Registry, message: MessageId): (result: (Registry, Option<Selector>))
    ensures result.1 == SelectorOf(registry, message)
    ensures SelectorOf(result.0, message).None?
    ensures forall m :: m != message ==> SelectorOf(result.0, m) == SelectorOf(registry, m)
  {
    (Registry(registry.selectors - {message}), SelectorOf(registry, message))
  }

  // ---------------------------------------------------------------------------
  // Reaction events
  // ---------------------------------------------------------------------------

  /** A reaction added to or removed from a message by a user. */
  datatype Reaction = Reaction(
    guild: Option<GuildId>, user: Option<UserId>, channel: ChannelId, message: MessageId, emoji: ReactionType)

  /**
   * A platform call the core issues; whether it succeeds is the platform's
   * business. A call on the bot's own reaction names the selector emoji it is
   * about and sends `payload`, the reaction that emoji converts to.
   */
  datatype Call =
    | GrantRole(guild: GuildId, user: UserId, role: RoleId)
    | RevokeRole(guild: GuildId, user: UserId, role: RoleId)
    | DeleteReaction(reaction: Reaction)
    | RemoveOwnReaction(channel: ChannelId, message: MessageId, emoji: Emoji, payload: ReactionType)
    | AddOwnReaction(channel: ChannelId, message: MessageId, emoji: Emoji, payload: ReactionType)

  /**
   * How a reaction event ends: the calls issued, an aborted handler because the
   * acting member could not be fetched (the error is logged), or a panic on a
   * reaction kind the emoji conversion does not know.
   */
  datatype EventOutcome = Handled(calls: seq<Call>) | MemberLookupFailed | Panicked

  /** What a reaction means for a registry. */
  datatype Lookup =
    | Ignored          // no guild or no user, or not a selector message
    | Unconvertible    // a selector message, but the emoji conversion panics
    | Mapped(role: RoleId)
    | Unmapped

  function Classify(registry: Registry, reaction: Reaction): (l: Lookup)
    ensures l.Ignored? <==> reaction.guild.None? || reaction.user.None? || !IsSelector(registry, reaction.message)
    ensures l.Unconvertible? <==> !l.Ignored? && reaction.emoji.Unknown?
    ensures l.Mapped? || l.Unmapped? ==> !l.Ignored? && !reaction.emoji.Unknown?
    ensures l.Mapped? ==>
      GetRole(SelectorOf(registry, reaction.message).value, FromReaction(reaction.emoji).value) == Some(l.role)
    ensures l.Unmapped? ==>
      GetRole(SelectorOf(registry, reaction.message).value, FromReaction(reaction.emoji).value).None?
  {
    if reaction.guild.None? || reaction.user.None? then Ignored
    else match SelectorOf(registry, reaction.message)
      case None => Ignored
      case Some(selector) =>
        match FromReaction(reaction.emoji)
        case None => Unconvertible
        case Some(emoji) =>
          match GetRole(selector, emoji)
          case Some(role) => Mapped(role)
          case None => Unmapped
  }

  /**
   * `add_reaction`. `member` is the acting member as fetched from the platform
   * (`None` when the fetch fails). A mapped emoji grants its role to a member that
   * is not a bot; an unmapped emoji on a selector message has its reaction deleted.
   */
  function AddReaction(registry: Registry, reaction: Reaction, member: Option<Member>): (out: EventOutcome)
    ensures Classify(registry, reaction).Ignored? ==> out == Handled([])
    ensures out.Panicked? <==> Classify(registry, reaction).Unconvertible?
    ensures out.MemberLookupFailed? <==> Classify(registry, reaction).Mapped? && member.None?
    ensures out.Handled? ==> |out.calls| <= 1 && forall c :: c in out.calls ==> c.GrantRole? || c.DeleteReaction?
    ensures out.Handled? && out.calls != [] && out.calls[0].GrantRole? ==>
      Classify(registry, reaction) == Mapped(out.calls[0].role) && member.Some? && !member.value.bot
      && out.calls[0] == GrantRole(reaction.guild.value, reaction.user.value, out.calls[0].role)
    ensures Classify(registry, reaction).Mapped? && member.Some? && !member.value.bot ==>
      out == Handled([GrantRole(reaction.guild.value, reaction.user.value, Classify(registry, reaction).role)])
    ensures out == Handled([DeleteReaction(reaction)]) <==> Classify(registry, reaction).Unmapped?
    ensures Classify(registry, reaction).Mapped? && member.Some? && member.value.bot ==> out == Handled([])
  {
    match Classify(registry, reaction)
    case Ignored => Handled([])
    case Unconvertible => Panicked
    case Mapped(role) =>
      if member.None? then MemberLookupFailed
      else if member.value.bot then Handled([])
      else Handled([GrantRole(reaction.guild.value, reaction.user.value, role)])
    case Unmapped => Handled([DeleteReaction(reaction)])
  }

  /**
   * `remove_reaction`: a mapped emoji revokes its role from the acting member,
   * with no check for bots; anything else does nothing.
   */
  function RemoveReaction(registry: Registry, reaction: Reaction, member: Option<Member>): (out: EventOutcome)
    ensures out.Panicked? <==> Classify(registry, reaction).Unconvertible?
    ensures out.MemberLookupFailed? <==> Classify(registry, reaction).Mapped? && member.None?
    ensures out.Handled? && out.calls != [] ==>
      Classify(registry, reaction).Mapped? && member.Some?
      && out.calls == [RevokeRole(reaction.guild.value, reaction.user.value, Classify(registry, reaction).role)]
    ensures Classify(registry, reaction).Mapped? && member.Some? ==> out.Handled? && out.calls != []
  {
    match Classify(registry, reaction)
    case Ignored => Handled([])
    case Unconvertible => Panicked
    case Mapped(role) =>
      if member.None? then MemberLookupFailed
      else Handled([RevokeRole(reaction.guild.value, reaction.user.value, role)])
    case Unmapped => Handled([])
  }

  // ---------------------------------------------------------------------------
  // Reconciliation of the bot's own reactions
  // ---------------------------------------------------------------------------

  /** One reaction on a fetched message, flagged when the bot itself placed it. */
  datatype MessageReaction = MessageReaction(reactionType: ReactionType, me: bool)

  /** How a reconciliation pass ends: the calls issued, or a panic while converting the bot's reactions. */
  datatype Reconciliation = Reconciled(calls: seq<Call>) | ReconcilePanicked

  /** The kinds of the bot's own reactions on a message, in message order. */
  function MeOnly(reactions: seq<MessageReaction>): seq<ReactionType> {
    if |reactions| == 0 then []
    else (if reactions[0].me then [reactions[0].reactionType] else []) + MeOnly(reactions[1..])
  }

  /** The emoji of the bot's own reactions, in message order; `None` when one of them cannot be converted. */
  function OwnReactions(reactions: seq<MessageReaction>): (own: Option<seq<Emoji>>)
    ensures own.None? <==> exists i :: 0 <= i < |reactions| && reactions[i].me && reactions[i].reactionType.Unknown?
    ensures own.Some? ==> forall e :: e in own.value <==>
      exists i :: 0 <= i < |reactions| && reactions[i].me && FromReaction(reactions[i].reactionType) == Some(e)
  {
    if |reactions| == 0 then Some([])
    else
      var rest := OwnReactions(reactions[1..]);
      assert forall i :: 1 <= i < |reactions| ==> reactions[i] == reactions[1..][i - 1];
      var first := reactions[0];
      if !first.me then rest
      else match FromReaction(first.reactionType)
        case None => None
        case Some(e) => if rest.None? then None else Some([e] + rest.value)
  }

  /** The emoji of the bot's own reactions keep the order, and the number, of the bot's reactions. */
  lemma {:induction false} OwnReactionsInOrder(reactions: seq<MessageReaction>)
    requires OwnReactions(reactions).Some?
    ensures |OwnReactions(reactions).value| == |MeOnly(reactions)|
    ensures forall k :: 0 <= k < |MeOnly(reactions)| ==>
      FromReaction(MeOnly(reactions)[k]) == Some(OwnReactions(reactions).value[k])
  {
    if |reactions| > 0 {
      var rest := reactions[1..];
      assert OwnReactions(rest).Some?;
      OwnReactionsInOrder(rest);
      if reactions[0].me {
        assert MeOnly(reactions) == [reactions[0].reactionType] + MeOnly(rest);
        assert OwnReactions(reactions).value == [FromReaction(reactions[0].reactionType).value] + OwnReactions(rest).value;
      } else {
        assert MeOnly(reactions) == MeOnly(rest);
        assert OwnReactions(reactions) == OwnReactions(rest);
      }
    }
  }

  /**
   * The removals of the first loop: each own reaction that is not a selector key,
   * in order, sent as the reaction its emoji converts back to.
   */
  function StaleRemovals(own: seq<Emoji>, selector: Selector, channel: ChannelId, message: MessageId,
                         identify: Identify): (calls: seq<Call>)
    ensures forall c :: c in calls ==>
      && c.RemoveOwnReaction? && c.channel == channel && c.message == message && c.emoji in own
      && !Contains(selector, c.emoji) && c.payload == ToReaction(c.emoji, identify)
    ensures forall e :: e in own && !Contains(selector, e) ==>
      RemoveOwnReaction(channel, message, e, ToReaction(e, identify)) in calls
  {
    if |own| == 0 then []
    else
      var last := own[|own| - 1];
      var init := own[..|own| - 1];
      assert forall e :: e in own ==> e in init || e == last;
      StaleRemovals(init, selector, channel, message, identify)
        + (if Contains(selector, last) then [] else [RemoveOwnReaction(channel, message, last, ToReaction(last, identify))])
  }

  /** The own reactions that are not selector keys, in order. */
  function NonKeys(own: seq<Emoji>, selector: Selector): seq<Emoji> {
    if |own| == 0 then []
    else NonKeys(own[..|own| - 1], selector) + (if Contains(selector, own[|own| - 1]) then [] else [own[|own| - 1]])
  }

  /** One removal per own reaction that is not a key, in the order of the own reactions. */
  lemma {:induction false} StaleRemovalsInOrder(own: seq<Emoji>, selector: Selector, channel: ChannelId,
                                                message: MessageId, identify: Identify)
    ensures |StaleRemovals(own, selector, channel, message, identify)| == |NonKeys(own, selector)|
    ensures forall k :: 0 <= k < |NonKeys(own, selector)| ==>
      StaleRemovals(own, selector, channel, message, identify)[k]
        == RemoveOwnReaction(channel, message, NonKeys(own, selector)[k], ToReaction(NonKeys(own, selector)[k], identify))
  {
    if |own| > 0 {
      StaleRemovalsInOrder(own[..|own| - 1], selector, channel, message, identify);
    }
  }

  /** The emoji a sequence of reaction calls is about. */
  function CallEmoji(calls: seq<Call>): set<Emoji>
    requires forall c :: c in calls ==> c.RemoveOwnReaction? || c.AddOwnReaction?
  {
    set i | 0 <= i < |calls| :: calls[i].emoji
  }

  /**
   * `adds` adds each emoji of `missing` exactly once to the message, sent as the
   * reaction it converts to, and nothing else.
   */
  predicate AddsExactly(adds: seq<Call>, channel: ChannelId, message: MessageId, missing: set<Emoji>, identify: Identify) {
    && (forall c :: c in adds ==>
          c.AddOwnReaction? && c.channel == channel && c.message == message && c.payload == ToReaction(c.emoji, identify))
    && (forall i, j :: 0 <= i < j < |adds| ==> adds[i].emoji != adds[j].emoji)
    && CallEmoji(adds) == missing
  }

  function SetOf(own: seq<Emoji>): set<Emoji> {
    set e | e in own
  }

  /**
   * What `apply_selector_reactions` does for a registry and the fetched message
   * (`None` when the fetch fails): nothing unless both the selector and the
   * message are there; otherwise, first the removal of every own reaction that is
   * not a key, then the addition of every key that is not an own reaction.
   */
  ghost predicate Reconciles(registry: Registry, channel: ChannelId, message: MessageId,
                             live: Option<seq<MessageReaction>>, identify: Identify, out: Reconciliation)
  {
    if SelectorOf(registry, message).None? || live.None? then out == Reconciled([])
    else
      var selector := SelectorOf(registry, message).value;
      match OwnReactions(live.value)
      case None => out.ReconcilePanicked?
      case Some(own) =>
        var removals := StaleRemovals(own, selector, channel, message, identify);
        && out.Reconciled?
        && |removals| <= |out.calls|
        && out.calls[..|removals|] == removals
        && AddsExactly(out.calls[|removals|..], channel, message, selector.roles.Keys - SetOf(own), identify)
  }

  /** The first loop of `apply_selector_reactions`: remove each own reaction that is not a selector key. */
  method RemoveStale(own: seq<Emoji>, selector: Selector, channel: ChannelId, message: MessageId, identify: Identify)
    returns (removals: seq<Call>)
    ensures removals == StaleRemovals(own, selector, channel, message, identify)
  {
    removals := [];
    for i := 0 to |own|
      invariant removals == StaleRemovals(own[..i], selector, channel, message, identify)
    {
      assert own[..i + 1][..i] == own[..i];
      if !Contains(selector, own[i]) {
        removals := removals + [RemoveOwnReaction(channel, message, own[i], ToReaction(own[i], identify))];
      }
    }
    assert own[..|own|] == own;
  }

  /**
   * The second loop of `apply_selector_reactions`: react with each selector key
   * that is not among the bot's own reactions, visiting the keys in the table's order.
   */
  method AddMissing(own: seq<Emoji>, selector: Selector, channel: ChannelId, message: MessageId, identify: Identify)
    returns (adds: seq<Call>)
    ensures AddsExactly(adds, channel, message, selector.roles.Keys - SetOf(own), identify)
  {
    adds := [];
    var pending := Iter(selector);
    ghost var visited: set<Emoji> := {};
    assert (set p | p in pending :: p.0) == selector.roles.Keys by {
      forall e | e in selector.roles.Keys ensures e in (set p | p in pending :: p.0) {
        assert (e, selector.roles[e]) in pending;
      }
    }
    while pending != {}
      invariant pending <= Iter(selector)
      invariant forall p :: p in pending ==> p.0 !in visited
      invariant visited + (set p | p in pending :: p.0) == selector.roles.Keys
      invariant forall c :: c in adds ==>
        c.AddOwnReaction? && c.channel == channel && c.message == message && c.payload == ToReaction(c.emoji, identify)
      invariant forall i, j :: 0 <= i < j < |adds| ==> adds[i].emoji != adds[j].emoji
      invariant forall c :: c in adds ==> c.emoji in visited
      invariant CallEmoji(adds) == visited - SetOf(own)
      decreases pending
    {
      var p :| p in pending;
      if p.0 !in own {
        var call := AddOwnReaction(channel, message, p.0, ToReaction(p.0, identify));
        CallEmojiAppend(adds, call);
        adds := adds + [call];
      }
      forall q | q in pending - {p} ensures q.0 != p.0 {
        assert GetRole(selector, q.0) == Some(q.1) && GetRole(selector, p.0) == Some(p.1);
      }
      pending := pending - {p};
      visited := visited + {p.0};
    }
  }

  /**
   * `apply_selector_reactions`: the removal loop over own reactions, then the
   * addition loop over the selector. `identify` is the client library's parser
   * of custom-emoji mentions, which the conversion of each emoji to the reaction
   * sent uses.
   */
  method ApplySelectorReactions(registry: Registry, channel: ChannelId, message: MessageId,
                                live: Option<seq<MessageReaction>>, identify: Identify) returns (out: Reconciliation)
    ensures Reconciles(registry, channel, message, live, identify, out)
  {
    var found := SelectorOf(registry, message);
    if found.None? || live.None? {
      return Reconciled([]);
    }
    var selector := found.value;
    var converted := OwnReactions(live.value);
    if converted.None? {
      return ReconcilePanicked;
    }
    var own := converted.value;
    var removals := RemoveStale(own, selector, channel, message, identify);
    var adds := AddMissing(own, selector, channel, message, identify);
    out := Reconciled(removals + adds);
    assert out.calls[..|removals|] == removals && out.calls[|removals|..] == adds;
  }

  // ---------------------------------------------------------------------------
  // Convergence
  // ---------------------------------------------------------------------------

  /**
   * The emoji of the bot's own reactions after one call has succeeded, as the
   * next fetch of the message converts them: the call acts on the reaction it sends.
   */
  function Effect(reacted: set<Emoji>, call: Call): set<Emoji> {
    match call
    case RemoveOwnReaction(_, _, _, r) => if FromReaction(r).Some? then reacted - {FromReaction(r).value} else reacted
    case AddOwnReaction(_, _, _, r) => if FromReaction(r).Some? then reacted + {FromReaction(r).value} else reacted
    case _ => reacted
  }

  /** The bot's own reactions after all of `calls` have succeeded, in order. */
  function AfterCalls(reacted: set<Emoji>, calls: seq<Call>): set<Emoji> {
    if |calls| == 0 then reacted else Effect(AfterCalls(reacted, calls[..|calls| - 1]), calls[|calls| - 1])
  }

  lemma {:induction false} AfterCallsAppend(reacted: set<Emoji>, first: seq<Call>, second: seq<Call>)
    ensures AfterCalls(reacted, first + second) == AfterCalls(AfterCalls(reacted, first), second)
  {
    if |second| == 0 {
      assert first + second == first;
    } else {
      var init := second[..|second| - 1];
      assert (first + second)[..|first + second| - 1] == first + init;
      AfterCallsAppend(reacted, first, init);
    }
  }

  lemma CallEmojiAppend(calls: seq<Call>, call: Call)
    requires forall c :: c in calls + [call] ==> c.RemoveOwnReaction? || c.AddOwnReaction?
    ensures CallEmoji(calls + [call]) == CallEmoji(calls) + {call.emoji}
  {
    var all := calls + [call];
    assert all[|calls|] == call;
    forall e | e in CallEmoji(all) ensures e in CallEmoji(calls) + {call.emoji} {
      var i :| 0 <= i < |all| && all[i].emoji == e;
      if i < |calls| { assert calls[i] == all[i]; }
    }
    forall e | e in CallEmoji(calls) ensures e in CallEmoji(all) {
      var i :| 0 <= i < |calls| && calls[i].emoji == e;
      assert all[i] == calls[i];
    }
  }

  lemma {:induction false} AfterRemovals(reacted: set<Emoji>, calls: seq<Call>)
    requires forall c :: c in calls ==> c.RemoveOwnReaction? && FromReaction(c.payload) == Some(c.emoji)
    ensures AfterCalls(reacted, calls) == reacted - CallEmoji(calls)
  {
    if |calls| > 0 {
      var init, last := calls[..|calls| - 1], calls[|calls| - 1];
      assert calls == init + [last];
      assert last in calls;
      AfterRemovals(reacted, init);
      CallEmojiAppend(init, last);
    }
  }

  lemma {:induction false} AfterAdditions(reacted: set<Emoji>, calls: seq<Call>)
    requires forall c :: c in calls ==> c.AddOwnReaction? && FromReaction(c.payload) == Some(c.emoji)
    ensures AfterCalls(reacted, calls) == reacted + CallEmoji(calls)
  {
    if |calls| > 0 {
      var init, last := calls[..|calls| - 1], calls[|calls| - 1];
      assert calls == init + [last];
      assert last in calls;
      AfterAdditions(reacted, init);
      CallEmojiAppend(init, last);
    }
  }

  /** A reaction pass adds as many reactions as there are missing emoji: one each. */
  lemma {:induction false} AddsCount(adds: seq<Call>, channel: ChannelId, message: MessageId, missing: set<Emoji>,
                                     identify: Identify)
    requires AddsExactly(adds, channel, message, missing, identify)
    ensures |adds| == |missing|
  {
    if |adds| > 0 {
      var init, last := adds[..|adds| - 1], adds[|adds| - 1];
      assert adds == init + [last];
      CallEmojiAppend(init, last);
      assert last.emoji !in CallEmoji(init) by {
        forall i | 0 <= i < |init| ensures init[i].emoji != last.emoji {
          assert init[i] == adds[i];
        }
      }
      AddsCount(init, channel, message, CallEmoji(init), identify);
    }
  }

  /** The removals name exactly the own reactions that are not selector keys. */
  lemma {:induction false} StaleEmoji(own: seq<Emoji>, selector: Selector, channel: ChannelId, message: MessageId,
                                      identify: Identify)
    ensures CallEmoji(StaleRemovals(own, selector, channel, message, identify)) == SetOf(own) - selector.roles.Keys
  {
    if |own| > 0 {
      var init, last := own[..|own| - 1], own[|own| - 1];
      assert own == init + [last];
      assert SetOf(own) == SetOf(init) + {last};
      StaleEmoji(init, selector, channel, message, identify);
      var removals := StaleRemovals(init, selector, channel, message, identify);
      if !Contains(selector, last) {
        CallEmojiAppend(removals, RemoveOwnReaction(channel, message, last, ToReaction(last, identify)));
      }
    }
  }

  lemma {:induction false} NoStaleRemovals(own: seq<Emoji>, selector: Selector, channel: ChannelId, message: MessageId,
                                           identify: Identify)
    requires forall e :: e in own ==> Contains(selector, e)
    ensures StaleRemovals(own, selector, channel, message, identify) == []
  {
    if |own| > 0 {
      NoStaleRemovals(own[..|own| - 1], selector, channel, message, identify);
    }
  }

  /** Each removal's reaction reads back as its emoji, when the parser reads back the own reactions. */
  lemma RemovalsReadBack(own: seq<Emoji>, selector: Selector, channel: ChannelId, message: MessageId,
                         identify: Identify, touched: set<Emoji>)
    requires SetOf(own) <= touched && ReadsBackOn(identify, touched)
    ensures forall c :: c in StaleRemovals(own, selector, channel, message, identify) ==>
      c.RemoveOwnReaction? && FromReaction(c.payload) == Some(c.emoji)
  {
    forall c | c in StaleRemovals(own, selector, channel, message, identify)
      ensures c.RemoveOwnReaction? && FromReaction(c.payload) == Some(c.emoji)
    {
      assert c.emoji in SetOf(own);
      EmojiRoundTrip(c.emoji, identify);
    }
  }

  /** Each addition's reaction reads back as its emoji, when the parser reads back the missing keys. */
  lemma AdditionsReadBack(adds: seq<Call>, channel: ChannelId, message: MessageId, missing: set<Emoji>,
                          identify: Identify, touched: set<Emoji>)
    requires AddsExactly(adds, channel, message, missing, identify)
    requires missing <= touched && ReadsBackOn(identify, touched)
    ensures forall c :: c in adds ==> c.AddOwnReaction? && FromReaction(c.payload) == Some(c.emoji)
  {
    forall c | c in adds ensures c.AddOwnReaction? && FromReaction(c.payload) == Some(c.emoji) {
      var i :| 0 <= i < |adds| && adds[i] == c;
      assert c.emoji in CallEmoji(adds);
      EmojiRoundTrip(c.emoji, identify);
    }
  }

  /**
   * Convergence: once every call of a reconciliation pass has succeeded, the bot's
   * own reactions on the message are exactly the selector's emoji, provided the
   * mention parser accepts the text of an own reaction or of a key only when it
   * is the mention of what it returns (`ReadsBackOn`), so that every emoji the
   * pass touches survives its conversion to the reaction sent.
   */
  lemma ReconcileConverges(registry: Registry, channel: ChannelId, message: MessageId,
                           reactions: seq<MessageReaction>, identify: Identify, out: Reconciliation)
    requires SelectorOf(registry, message).Some? && OwnReactions(reactions).Some?
    requires ReadsBackOn(identify, SetOf(OwnReactions(reactions).value) + SelectorOf(registry, message).value.roles.Keys)
    requires Reconciles(registry, channel, message, Some(reactions), identify, out)
    ensures out.Reconciled?
    ensures AfterCalls(SetOf(OwnReactions(reactions).value), out.calls) == SelectorOf(registry, message).value.roles.Keys
  {
    var selector := SelectorOf(registry, message).value;
    var own := OwnReactions(reactions).value;
    var removals := StaleRemovals(own, selector, channel, message, identify);
    var adds := out.calls[|removals|..];
    assert out.calls == removals + adds;
    var touched := SetOf(own) + selector.roles.Keys;
    RemovalsReadBack(own, selector, channel, message, identify, touched);
    AdditionsReadBack(adds, channel, message, selector.roles.Keys - SetOf(own), identify, touched);
    AfterCallsAppend(SetOf(own), removals, adds);
    AfterRemovals(SetOf(own), removals);
    StaleEmoji(own, selector, channel, message, identify);
    AfterAdditions(SetOf(own) - CallEmoji(removals), adds);
  }

  /**
   * Idempotence: when the bot's own reactions already are the selector's emoji,
   * a reconciliation pass issues no call at all.
   */
  lemma ReconcileConvergedIsQuiet(registry: Registry, channel: ChannelId, message: MessageId,
                                  reactions: seq<MessageReaction>, identify: Identify, out: Reconciliation)
    requires SelectorOf(registry, message).Some? && OwnReactions(reactions).Some?
    requires SetOf(OwnReactions(reactions).value) == SelectorOf(registry, message).value.roles.Keys
    requires Reconciles(registry, channel, message, Some(reactions), identify, out)
    ensures out == Reconciled([])
  {
    var selector := SelectorOf(registry, message).value;
    var own := OwnReactions(reactions).value;
    NoStaleRemovals(own, selector, channel, message, identify);
    var adds := out.calls[0..];
    AddsCount(adds, channel, message, selector.roles.Keys - SetOf(own), identify);
    assert out.calls == adds;
  }

  /** All removals of a pass come before all of its additions. */
  lemma ReconcileRemovesFirst(registry: Registry, channel: ChannelId, message: MessageId,
                              reactions: seq<MessageReaction>, identify: Identify, out: Reconciliation)
    requires SelectorOf(registry, message).Some?
    requires Reconciles(registry, channel, message, Some(reactions), identify, out) && out.Reconciled?
    ensures forall i, j :: 0 <= i < j < |out.calls| && out.calls[j].RemoveOwnReaction? ==> out.calls[i].RemoveOwnReaction?
  {
    var selector := SelectorOf(registry, message).value;
    var own := OwnReactions(reactions).value;
    var removals := StaleRemovals(own, selector, channel, message, identify);
    var n := |removals|;
    var adds := out.calls[n..];
    forall k | 0 <= k < n ensures out.calls[k].RemoveOwnReaction? {
      assert out.calls[k] == out.calls[..n][k];
      assert removals[k] in removals;
    }
    forall k | n <= k < |out.calls| ensures out.calls[k].AddOwnReaction? {
      assert out.calls[k] == adds[k - n];
      assert adds[k - n] in adds;
    }
  }

  // ---------------------------------------------------------------------------
  // Handlers that change the registry through its store
  // ---------------------------------------------------------------------------

  /** `delete_message`: a selector message's entry is removed and written; any other message costs no write. */
  method DeleteMessage(store: Persistent<Registry>, message: MessageId)
    modifies store
    ensures !IsSelector(old(store.inner), message) ==> unchanged(store)
    ensures IsSelector(old(store.inner), message) ==>
      && store.inner == RemoveSelector(old(store.inner), message).0
      && store.disk == Some(store.inner)
      && store.writes == old(store.writes) + [store.inner]
  {
    if !IsSelector(store.Read(), message) {
      return;
    }
    var unit := store.Write((registry: Registry) => (RemoveSelector(registry, message).0, ()));
  }

  /**
   * `update_message`: when the edit carries content and the message is a
   * selector, the selector is re-parsed from the new content, written, and the
   * message reconciled against it; otherwise nothing happens.
   */
  method UpdateMessage(store: Persistent<Registry>, channel: ChannelId, message: MessageId,
                       content: Option<seq<Line>>, live: Option<seq<MessageReaction>>, identify: Identify)
    returns (out: Reconciliation)
    modifies store
    ensures content.None? || !IsSelector(old(store.inner), message) ==> unchanged(store) && out == Reconciled([])
    ensures content.Some? && IsSelector(old(store.inner), message) ==>
      && store.inner == InsertSelector(old(store.inner), message, ParseLines(content.value))
      && store.disk == Some(store.inner)
      && store.writes == old(store.writes) + [store.inner]
      && Reconciles(store.inner, channel, message, live, identify, out)
  {
    if content.None? || !IsSelector(store.Read(), message) {
      return Reconciled([]);
    }
    // The selector is parsed before the write; the write then installs it.
    var selector := Parse(content.value);
    var unit := store.Write((registry: Registry) => (InsertSelector(registry, message, selector), ()));
    out := ApplySelectorReactions(store.Read(), channel, message, live, identify);
  }

  /**
   * `add_selector`. `commandDeleted` says whether deleting the command message
   * succeeded, `target` is the content of the referenced message (`None` when it
   * cannot be fetched from the command's channel) and `live` the message as
   * fetched again for reconciliation. A panic while reconciling ends the handler
   * without a result (`None`), after the selector has been stored.
   */
  method AddSelector(store: Persistent<Registry>, channel: ChannelId, message: MessageId, commandDeleted: bool,
                     target: Option<seq<Line>>, live: Option<seq<MessageReaction>>, identify: Identify)
    returns (result: Option<CommandResult>, out: Reconciliation)
    modifies store
    ensures !commandDeleted ==> result == Some(Failure(Serenity)) && unchanged(store) && out == Reconciled([])
    ensures commandDeleted && target.None? ==>
      result == Some(Failure(InvalidMessageReference)) && unchanged(store) && out == Reconciled([])
    ensures result.None? <==> out.ReconcilePanicked?
    ensures commandDeleted && target.Some? ==>
      && (result.Some? ==> result.value == Success(()))
      && store.inner == InsertSelector(old(store.inner), message, ParseLines(target.value))
      && store.disk == Some(store.inner)
      && store.writes == old(store.writes) + [store.inner]
      && Reconciles(store.inner, channel, message, live, identify, out)
  {
    if !commandDeleted {
      return Some(Failure(Serenity)), Reconciled([]);
    }
    if target.None? {
      return Some(Failure(InvalidMessageReference)), Reconciled([]);
    }
    var selector := Parse(target.value);
    var unit := store.Write((registry: Registry) => (InsertSelector(registry, message, selector), ()));
    out := ApplySelectorReactions(store.Read(), channel, message, live, identify);
    // A panic while reconciling ends the handler before it can return.
    result := if out.ReconcilePanicked? then None else Some(Success(()));
  }
}
