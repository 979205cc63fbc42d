# Reaction roles and persisted roles, modelled in Dafny

This project models the core of a chat-server bot that manages roles:

- **Reaction-role selectors.** An admin points the bot at a message. Each line of that message pairs a role mention with an emoji. The bot parses the message into a selector, a map from emoji to role. It keeps its own reactions on the message equal to the selector's emoji. A user who reacts with a mapped emoji gets the role. Removing the reaction takes the role away. Reactions with unmapped emoji are deleted.
- **Persisted roles.** An admin marks roles of a guild as tracked. When a member leaves, the tracked roles they held are stored as a snapshot. When they join again, the snapshot is granted back and consumed.
- **The write-through store.** Both registries live in a store that rewrites its whole file after every mutation.
- **Command dispatch.** Admin commands are matched on their tokens. Their numeric argument is parsed as a `u64`. The outcome is acknowledged with ✅ or ❌.

Modules, one per source file plus shared definitions:

| module | file | models |
|---|---|---|
| `Wrappers` | `wrappers.dfy` | `Option` and `Result` |
| `Numerals` | `numerals.dfy` | `u64` written in decimal and `str::parse::<u64>` |
| `Discord` | `discord.dfy` | the platform types the core reads: ids, `ReactionType`, `Member`, permissions |
| `Persistence` | `persistent.dfy` | `Persistent<T>`, a class whose file is the field `disk` |
| `ReactionSelector` | `selector.dfy` | `Emoji`, `Selector` and `Selector::parse` |
| `ReactionRoles` | `reaction_roles.dfy` | the selector registry, the reaction handlers and reconciliation |
| `PersistentRoles` | `persistent_roles.dfy` | tracked roles and member snapshots |
| `Commands` | `commands.dfy` | `try_handle_command`, `parse_argument`, the acknowledgement, the admin check |

How the model is built:

- Handlers that change a registry are methods on a `Persistent<Registry>` or `Persistent<RolesState>` store.
- Every write goes through `Persistent.Write`. It takes the Rust closure `FnOnce(&mut T) -> R` as a Dafny function `T -> (T, R)`.
- Platform calls (grant a role, delete a reaction, react) are not performed. The model returns them as a list of `Call` values, and their success is left to the platform.
- Data the handlers fetch from the platform is passed in as a parameter: a member, a permission lookup, or a message's content and reactions. A failed fetch is `None`.
- The regex and mention parsing of a selector line is abstracted as a `Line` record. It holds the line's role mentions, custom-emoji mentions and unicode emoji, in line order. An unparseable mention is `None`.
- Two write closures call code that contains a loop: `Selector::parse` and `remove_role`. Dafny lambdas cannot call methods. So these handlers run the loop method on the current document first, and the closure installs the result. The result is the same, because `write` applies the closure to that same document at once.

Invariants and relations proved beyond single calls:

- Reconciliation converges, under three conditions: every call of the pass succeeds, no own reaction is of an unknown kind, and the custom-emoji parser accepts the text of an own reaction or of a selector key only when that text is the mention of the identifier it returns (`ReadsBackOn`). A parser that reads every named mention back as its name and id meets this condition, whatever it does with other texts. Then, after one pass, the bot's own reactions equal the selector's keys. When they are already equal, the pass issues no call.
- Snapshots keep an invariant: each snapshot holds distinct, tracked roles. `add_role`, `stop_persist_role` and member join preserve it. Member removal preserves it for a member whose roles are distinct. A member holding a role twice would be stored with the duplicate.
- The snapshot and consume steps hand a member who leaves and joins again exactly their tracked roles, in their own order, and only once. These are facts about the state functions `Snapshot` and `Consume`. The join handler itself grants nothing unless the permission check passes. That check reads the joining member's own `manage_roles` permission (src/persistent_roles.rs:84-90), not the bot's. The model follows the code, so a member without `manage_roles` is never given their roles back.
- A command written out in full dispatches to that command.
- Emoji identity is string identity. An emoji converted to a reaction and back is the same emoji, when the custom-emoji parser accepts that emoji's text only as the mention of the identifier it returns (`EmojiRoundTrip`). For every emoji at once, the parser must meet that condition on every text (`ReadsBack`).

## Model

| member | source | states |
|---|---|---|
| `Numerals.Decimal` | src/reaction_roles/selector.rs:94-95 | an id is written as a non-empty digit string with no leading zero |
| `Numerals.DecimalValue` | src/reaction_roles/selector.rs:94-95 | reading back the decimal numeral of `n` gives `n` |
| `Numerals.DecimalInjective` | src/reaction_roles/selector.rs:94-95 | two ids have the same numeral exactly when they are equal |
| `Numerals.ParseU64` | src/main.rs:140-141 | parsing succeeds exactly for an optional `+` followed by one or more digits whose value is below 2^64, and yields that value; an empty string or a bad first character fails |
| `Numerals.ParseDecimal` | src/main.rs:140-141 | every `u64` written in decimal parses back to itself |
| `Persistence.Persistent.Init` | src/persistent.rs:9-12 | a store holds its path, its document and its file content; no write has happened yet |
| `Persistence.Persistent.Open` | src/persistent.rs:15-30 | a missing file gives the default document and leaves no file; an existing file gives its decoded document; an unreadable file aborts (`None`) and nothing else does; the path is the one given |
| `Persistence.Persistent.Write` | src/persistent.rs:33-44 | `f` is applied once to the document and its result is returned; the file is then rewritten with the new document, even when `f` changed nothing; every write is recorded |
| `Persistence.Persistent.Read` | src/persistent.rs:47-58 | `read` and `deref` return the document and change nothing |
| `Persistence.ReopenAfterWrite` | src/persistent.rs:15-44 | after a write the file holds the in-memory document, and opening the path again yields that document |
| `ReactionSelector.FromReaction` | src/reaction_roles/selector.rs:86-101 | a custom emoji becomes `<:name:id>` or `<:id>` with the animated flag dropped; a unicode emoji keeps its text; any other kind panics (`None`) and only it does |
| `ReactionSelector.ToReaction` | src/reaction_roles/selector.rs:103-116 | text that parses as a custom-emoji identifier becomes a non-animated custom reaction with its id and name, and only such text does; other text becomes a unicode reaction with the same text |
| `ReactionSelector.EmojiFromStr` | src/reaction_roles/selector.rs:118-124 | parsing an emoji never fails and keeps the text as is |
| `ReactionSelector.NamedTextShape` | src/reaction_roles/selector.rs:94 | a named custom emoji's text is `<:`, the name, `:`, the id's digits and `>` |
| `ReactionSelector.NamedTextSameDigitCount` | src/reaction_roles/selector.rs:94 | when two named custom emoji have the same text, their ids have numerals of the same length |
| `ReactionSelector.NamedTextInjective` | src/reaction_roles/selector.rs:94 | two named custom emoji have the same text exactly when name and id are both equal |
| `ReactionSelector.UnnamedTextInjective` | src/reaction_roles/selector.rs:95 | two unnamed custom emoji have the same text exactly when their ids are equal |
| `ReactionSelector.NamedNeverUnnamed` | src/reaction_roles/selector.rs:94-95 | a named custom emoji never has the text of an unnamed one |
| `ReactionSelector.CustomEmojiIdentity` | src/reaction_roles/selector.rs:83-96 | two custom reactions are the same emoji exactly when id and name agree, whatever their animated flags; the same id under another name is a different key |
| `ReactionSelector.UnicodeCanEqualCustom` | src/reaction_roles/selector.rs:83-97 | emoji equality is string equality: a unicode reaction whose text is `<:x:1>` is the same key as the custom emoji `x` with id 1 |
| `ReactionSelector.CustomRoundTrip` | src/reaction_roles/selector.rs:86-116 | a named custom reaction converted to an emoji and back is the same reaction, non-animated, when the identifier parser reads back the name and id |
| `ReactionSelector.EmojiRoundTrip` | src/reaction_roles/selector.rs:86-116 | an emoji converted to a reaction and back is the same emoji, when the identifier parser accepts that emoji's text only as the mention of the identifier it returns |
| `ReactionSelector.NewSelector` | src/reaction_roles/selector.rs:12-14 | a new selector maps no emoji |
| `ReactionSelector.GetRole` | src/reaction_roles/selector.rs:22-24 | the role is present exactly when the map holds the emoji, and it is the mapped role |
| `ReactionSelector.Contains` | src/reaction_roles/selector.rs:27-29 | `contains` agrees with `get_role` being present |
| `ReactionSelector.InsertRole` | src/reaction_roles/selector.rs:17-19 | after the insertion the emoji maps to the role, overwriting any earlier role; every other emoji keeps its mapping; the key set gains the emoji |
| `ReactionSelector.Iter` | src/reaction_roles/selector.rs:32-34 | iteration yields exactly the pairs `(e, r)` with `get_role(e) == Some(r)` |
| `ReactionSelector.FirstSome` | src/reaction_roles/selector.rs:46-51 | the first parseable item of a sequence, present exactly when one parses |
| `ReactionSelector.LineEntry` | src/reaction_roles/selector.rs:46-76 | a line yields an entry exactly when it has a parseable role and a parseable custom emoji or a unicode emoji; the entry pairs the first parseable role with the first custom emoji, or with the first unicode emoji when no custom emoji parses, even if the unicode emoji comes earlier |
| `ReactionSelector.Parse` | src/reaction_roles/selector.rs:38-80 | the loop over the lines builds the selector that inserting every line's entry in order yields |
| `ReactionSelector.ParsedKeys` | src/reaction_roles/selector.rs:45-77 | an emoji is a key of the parsed selector exactly when some line's entry carries it |
| `ReactionSelector.IncompleteLineAddsNothing` | src/reaction_roles/selector.rs:74-76 | a line without a parseable role, or without an emoji, adds nothing |
| `ReactionSelector.ParsedLastLineWins` | src/reaction_roles/selector.rs:45-75 | when several lines carry the same emoji, the role of the last one is kept |
| `ReactionSelector.ParsedSize` | src/reaction_roles/selector.rs:45-77 | the parsed selector has at most as many entries as there are lines |
| `ReactionSelector.ParsedRolesMentioned` | src/reaction_roles/selector.rs:45-77 | every role in the parsed selector is mentioned in some line |
| `ReactionSelector.EveryEmojiRoundTrips` | src/reaction_roles/selector.rs:86-116 | for a custom-emoji parser that accepts no text other than the mention of the identifier it returns, every emoji converted to a reaction and back is the same emoji |
| `ReactionSelector.CanonicalParserReadsBackOn` | src/reaction_roles/selector.rs:103-116 | a parser that reads every named mention back as its name and id meets the reconciliation hypothesis on any emoji that are named mentions or texts it rejects, whatever it accepts besides (an id with a leading zero or a `+`, an animated mention) |
| `ReactionSelector.OneLineExample` | src/reaction_roles/selector.rs:66-76 | for every role and every unicode emoji, a text of one line with just that role and that emoji parses to the selector holding that single entry |
| `ReactionRoles.SelectorOf` | src/reaction_roles.rs:34-36 | the lookup is present exactly when the message is registered, and it is the registered selector |
| `ReactionRoles.IsSelector` | src/reaction_roles.rs:39-41 | `is_selector` holds exactly when `selector` is present |
| `ReactionRoles.InsertSelector` | src/reaction_roles.rs:24-26 | the message now maps to the new selector, replacing any earlier one; other messages are untouched |
| `ReactionRoles.RemoveSelector` | src/reaction_roles.rs:29-31 | returns what was registered for the message, unregisters it and leaves other messages untouched |
| `ReactionRoles.Classify` | src/reaction_roles.rs:45-55 | a reaction is ignored exactly when its guild or user is missing or the message is not a selector; on a selector message an unknown reaction kind cannot be converted; otherwise the emoji is mapped to its role or unmapped |
| `ReactionRoles.AddReaction` | src/reaction_roles.rs:44-67 | an ignored reaction issues nothing; a mapped emoji grants exactly its role to the reacting user, fails when the member cannot be fetched, and issues no call at all when the member is a bot; an unmapped emoji deletes the reaction and grants nothing; an unknown kind panics |
| `ReactionRoles.RemoveReaction` | src/reaction_roles.rs:69-87 | a mapped emoji revokes exactly its role from the user, with no bot check, and fails when the member cannot be fetched; anything else issues nothing; an unknown kind panics |
| `ReactionRoles.OwnReactions` | src/reaction_roles.rs:136-139 | the conversion panics exactly when one of the bot's own reactions has an unknown kind; otherwise it holds exactly the emoji of the bot's own reactions |
| `ReactionRoles.OwnReactionsInOrder` | src/reaction_roles.rs:136-139 | the converted emoji are as many as the bot's own reactions and are their conversions one by one, in message order |
| `ReactionRoles.StaleRemovals` | src/reaction_roles.rs:141-146 | each removal is of an own reaction that is not a selector key, on this message, sent as the reaction the emoji converts back to; every such reaction is removed |
| `ReactionRoles.StaleRemovalsInOrder` | src/reaction_roles.rs:141-146 | there is one removal per own reaction that is not a key, and the k-th removal is of the k-th such reaction, in message order |
| `ReactionRoles.RemoveStale` | src/reaction_roles.rs:141-146 | the first loop issues exactly the stale removals, in the order of the own reactions |
| `ReactionRoles.AddMissing` | src/reaction_roles.rs:148-152 | the second loop adds each selector key that is not an own reaction, once each, on this message, as the reaction the emoji converts back to, and nothing else |
| `ReactionRoles.ApplySelectorReactions` | src/reaction_roles.rs:128-155 | nothing happens without a selector or a fetched message; a panic on an unconvertible own reaction; otherwise all stale removals, then exactly the missing additions |
| `ReactionRoles.AfterCallsAppend` | src/reaction_roles.rs:141-152 | applying two batches of calls in turn is applying their concatenation |
| `ReactionRoles.CallEmojiAppend` | src/reaction_roles.rs:141-152 | the emoji of a batch extended by one call are the old ones plus that call's emoji |
| `ReactionRoles.AfterRemovals` | src/reaction_roles.rs:141-146 | after a batch of removals, the own reactions have lost exactly the removed emoji |
| `ReactionRoles.AfterAdditions` | src/reaction_roles.rs:148-152 | after a batch of additions, the own reactions have gained exactly the added emoji |
| `ReactionRoles.AddsCount` | src/reaction_roles.rs:148-152 | a pass issues as many additions as there are missing keys |
| `ReactionRoles.StaleEmoji` | src/reaction_roles.rs:141-146 | the removals name exactly the own reactions that are not selector keys |
| `ReactionRoles.NoStaleRemovals` | src/reaction_roles.rs:141-146 | when every own reaction is a key, nothing is removed |
| `ReactionRoles.ReconcileConverges` | src/reaction_roles.rs:128-155 | once every call of a pass succeeds, the bot's own reactions are exactly the selector's keys; the custom-emoji parser is only required to accept the text of an own reaction or a key as the mention of the identifier it returns |
| `ReactionRoles.ReconcileConvergedIsQuiet` | src/reaction_roles.rs:141-152 | when the own reactions already equal the keys, a pass issues no call |
| `ReactionRoles.ReconcileRemovesFirst` | src/reaction_roles.rs:141-152 | within a pass, every removal comes before every addition |
| `ReactionRoles.DeleteMessage` | src/reaction_roles.rs:96-107 | a message that is not a selector changes nothing and costs no write; a selector message's entry is removed and the store is written |
| `ReactionRoles.UpdateMessage` | src/reaction_roles.rs:109-126 | with no content, or on a message that is not a selector, nothing changes; otherwise the entry is replaced by the selector parsed from the new content, the store is written and the message is reconciled against the new registry |
| `ReactionRoles.AddSelector` | src/reaction_roles.rs:157-176 | a failed deletion of the command is a platform error; a target that cannot be fetched is `InvalidMessageReference`, with no change; otherwise the parsed selector is stored for the target, the store is written, the target is reconciled, and the command succeeds unless reconciliation panics, in which case there is no result at all; the handler ends without a result exactly when reconciliation panics |
| `PersistentRoles.AddRole` | src/persistent_roles.rs:64-67 | the guild gets an entry if it has none, and the role is tracked; no snapshot is touched; other guilds are untouched |
| `PersistentRoles.AddRoleIdempotent` | src/persistent_roles.rs:64-67 | tracking a role a second time changes nothing |
| `PersistentRoles.AddRoleKeepsWellFormed` | src/persistent_roles.rs:64-67 | tracking a role keeps every snapshot a list of distinct tracked roles |
| `PersistentRoles.Position` | src/persistent_roles.rs:73 | the index found is that of the first occurrence of the role, and there is none exactly when the role is absent |
| `PersistentRoles.SwapRemove` | src/persistent_roles.rs:74 | `swap_remove` shortens the list by one, loses exactly the element at the index, keeps the prefix before it and moves the last element into its place |
| `PersistentRoles.SwapRemoveCount` | src/persistent_roles.rs:74 | the rearranged list holds the original elements minus the removed one |
| `PersistentRoles.RemoveFirst` | src/persistent_roles.rs:73-75 | a snapshot without the role is unchanged; otherwise it loses exactly one occurrence of the role |
| `PersistentRoles.RemoveFirstReorders` | src/persistent_roles.rs:74 | removing a role can change the order of the roles that remain |
| `PersistentRoles.RemoveFirstKeepsDuplicate` | src/persistent_roles.rs:73-75 | only one occurrence goes: any list holding the role at least twice still holds it afterwards |
| `PersistentRoles.RemoveFirstDuplicateExample` | src/persistent_roles.rs:73-75 | `[1, 2, 1]` loses its first `1` and keeps the second |
| `PersistentRoles.RemoveFirstOfDistinct` | src/persistent_roles.rs:73-75 | in a list of distinct roles, the role is gone afterwards, nothing else is lost, and the list stays distinct |
| `PersistentRoles.DistinctCount` | src/persistent_roles.rs:73-75 | a list of distinct roles holds each role at most once |
| `PersistentRoles.CountTwo` | src/persistent_roles.rs:73-75 | a role found at two positions occurs at least twice |
| `PersistentRoles.RemoveRole` | src/persistent_roles.rs:69-77 | the role is no longer tracked; each snapshot has lost its first occurrence of it; no user is added or removed, and lists without the role, or left empty, stay as they are |
| `PersistentRoles.RemovedRoleKeepsWellFormed` | src/persistent_roles.rs:69-77 | when every snapshot is distinct, the untracked role is gone from all of them and the invariant holds again |
| `PersistentRoles.RemovedRoleLeavesDuplicate` | src/persistent_roles.rs:69-77 | without that invariant, any snapshot holding the role at least twice keeps a copy of a role that is no longer tracked |
| `PersistentRoles.StopPersisting` | src/persistent_roles.rs:52-56 | a guild with no entry is left without one and nothing changes; otherwise the guild's entry becomes the one `remove_role` computes, so the role is untracked there; other guilds are untouched |
| `PersistentRoles.StopPersistingKeepsWellFormed` | src/persistent_roles.rs:52-56 | untracking a role keeps the snapshot invariant |
| `PersistentRoles.TrackedOnly` | src/persistent_roles.rs:118-121 | the kept roles are exactly the member's roles that are tracked, and there are no more of them than the member has |
| `PersistentRoles.TrackedOnlyCount` | src/persistent_roles.rs:118-121 | a tracked role is kept as often as the member holds it, and an untracked role never |
| `PersistentRoles.TrackedOnlyAppend` | src/persistent_roles.rs:118-121 | filtering a concatenation is concatenating the filtered parts, so the member's order is kept |
| `PersistentRoles.TrackedOnlyAllTracked` | src/persistent_roles.rs:118-121 | a member whose roles are all tracked is stored as is |
| `PersistentRoles.TrackedOnlyDistinct` | src/persistent_roles.rs:118-121 | filtering distinct roles gives distinct roles |
| `PersistentRoles.Snapshot` | src/persistent_roles.rs:116-124 | in a tracked guild, the user's snapshot becomes their tracked roles, replacing any earlier one and stored even when empty; nothing else changes; an untracked guild is untouched |
| `PersistentRoles.SnapshotKeepsWellFormed` | src/persistent_roles.rs:116-124 | every stored snapshot lists tracked roles only, so a member with distinct roles keeps the invariant |
| `PersistentRoles.Consume` | src/persistent_roles.rs:95-101 | the user's snapshot is handed back and removed from the guild's entry; without one, nothing is handed back and nothing changes |
| `PersistentRoles.ConsumeKeepsWellFormed` | src/persistent_roles.rs:95-101 | consuming a snapshot keeps the invariant |
| `PersistentRoles.LeaveThenJoin` | src/persistent_roles.rs:95-124 | a member who leaves and joins again is handed back exactly their tracked roles, in their order, and the snapshot is gone |
| `PersistentRoles.ConsumeTwice` | src/persistent_roles.rs:95-101 | a second join finds no snapshot: the roles are granted once |
| `PersistentRoles.PersistRole` | src/persistent_roles.rs:28-43 | without a guild the command is `NotAllowed` and changes nothing; a failed deletion of the command is a platform error with no change; otherwise the role is tracked and the store written |
| `PersistentRoles.StopPersistRole` | src/persistent_roles.rs:45-62 | the same two failures; otherwise the role is untracked in the guild, a guild without an entry gets none, and the store is written either way |
| `PersistentRoles.HasGuild` | src/persistent_roles.rs:127-131 | a guild has an entry exactly when the state's map holds it |
| `PersistentRoles.OnlyAddRoleTracksGuilds` | src/persistent_roles.rs:52-131 | only tracking a role gives a guild an entry; untracking, snapshots and consumption neither add nor remove one |
| `PersistentRoles.GuildMemberAddition` | src/persistent_roles.rs:79-106 | an untracked guild, a failed permission lookup or a member without `manage_roles` changes nothing and grants nothing; otherwise the user's snapshot is consumed and granted, nothing is granted without one, and the store is written |
| `PersistentRoles.GuildMemberRemoval` | src/persistent_roles.rs:108-125 | an untracked guild changes nothing; otherwise the member's tracked roles are stored as their snapshot and the store is written |
| `Commands.ParseArgument` | src/main.rs:140-142 | an argument that parses as a `u64` gives its value; any other is `MalformedArgument` carrying the text as given |
| `Commands.TryHandleCommand` | src/main.rs:120-138 | a non-admin always gets `InvalidCommand`; for an admin, `add role selector r`, `persist role r` and `stop persist role r` select their handler with the parsed `r`, an `r` that does not parse as a `u64` is `MalformedArgument` carrying the text of `r` and no handler runs, and any other token sequence is `InvalidCommand` |
| `Commands.DispatchRoundTrip` | src/main.rs:123-135 | an admin's command written out in full dispatches to exactly that command |
| `Commands.WrongArityRejected` | src/main.rs:136 | a token sequence of any length other than three or four is `InvalidCommand` |
| `Commands.Acknowledge` | src/main.rs:109-118 | the reaction is ✅ exactly on success and ❌ exactly on failure; a text reply carrying the error is sent exactly on failure |
| `Commands.GetPermissions` | src/main.rs:151-158 | a member that is not cached, or whose lookup fails, has no permissions; otherwise the permissions found |
| `Commands.CheckMessageAdmin` | src/main.rs:144-149 | a message outside a guild is never an admin's; inside one, it is an admin's exactly when the author's permissions include administrator |

## Left out

- File access and JSON encoding in the store: the file is the field `disk`, and encoding is the identity on documents. A failure to create or write the file panics in the source. That failure is not modelled.
- The regex engine, the Unicode emoji property, `str::lines` and the library's role and emoji mention parsers are not part of this model. Each line arrives as a `Line` record of already extracted mentions.
- `EmojiIdentifier::from_str` is not part of this model. `ToReaction` takes it as the parameter `identify`.
- Platform calls (fetching members, messages and permissions; granting and revoking roles; deleting and adding reactions; deleting the command message; replying) are not performed. Fetched data comes in as parameters. Issued calls are returned as `Call` values, or as the granted roles of `GuildMemberAddition`. Failed fetches are modelled: a member fetch (`MemberLookupFailed`), a message fetch and a permission lookup (`None`). A failed deletion of the command message is modelled too (`commandDeleted`, giving `Serenity`). The success of the grant, revoke, reaction and reply calls is not modelled, and neither are the errors they would return.
- `Member::permissions` computes a member's permissions from the guild's roles. The model takes the resulting permission set as input.
- The async runtime and the lock on the shared state: handlers run one at a time, as sequential state transitions.
- `src/name_filter.rs`, `main`, the `Handler` event wiring, configuration, the ban path, and the stripping of the bot mention before the command tokens are not part of this model.
- Hash-map iteration order: the second reconciliation loop and `remove_role` visit their keys in an arbitrary order. The model picks any order, and its contracts hold for every order.
- `Selector` and the two registries are owned values in the source, never shared, so they are modelled as datatypes. `insert_role`, `insert_selector`, `remove_selector` and `add_role` return the updated value instead of updating in place.
- `ReactionRoles.ApplySelectorReactions`: the bot user id passed to the removal call is not modelled. The call names the channel, message and emoji, and carries the reaction the emoji converts back to.
- `ReactionRoles.ReconcileConverges`: convergence is proved for a custom-emoji parser that accepts the text of an own reaction or a key only as the mention of the identifier it returns. The library parser is not part of this model, so that property is a hypothesis. `CanonicalParserReadsBackOn` shows that reading named mentions back faithfully is enough for it.
- `ReactionSelector.EveryEmojiRoundTrips`: the round trip for every emoji at once assumes a parser that accepts no other text. The library parser may also accept variants such as an id with a leading zero or an animated mention, so this lemma does not describe it.
- `PersistentRoles.GuildMemberAddition`: the check reads the joining member's permission, not the bot's, as the code does. A member without `manage_roles` is never given their roles back.
- `ReactionRoles.AddReaction`, `ReactionRoles.RemoveReaction`: the registry is read once per event. A concurrent write between the lookup and the platform calls is not modelled.
