/**
 * Persisted roles: per guild, a set of tracked roles and, per user who left, a
 * snapshot of the tracked roles they held; the snapshot is granted back, and
 * consumed, when the user joins again.
 */
module PersistentRoles {
  import opened Wrappers
  import opened Discord
  import opened Persistence
  import opened Commands

  // ---------------------------------------------------------------------------
  // State
  // ---------------------------------------------------------------------------

  /** One guild's tracked roles and the role snapshots of users who left. */
  datatype GuildState = GuildState(roles: set<RoleId>, users: map<UserId, seq<RoleId>>)

  /** `GuildState::default()`. */
  const EMPTY_GUILD: GuildState := GuildState({}, map[])

  /** `State`: the tracked guilds. */
  datatype RolesState = RolesState(guilds: map<GuildId, GuildState>)

  /** `has_guild`: whether the guild has an entry. */
  function HasGuild(state: RolesState, guild: GuildId): (b: bool)
    ensures b <==> guild in state.guilds.Keys
  {
    guild in state.guilds
  }

  /** No two positions of `s` hold the same role. */
  predicate Distinct(s: seq<RoleId>) {
    forall i, j :: 0 <= i < j < |s| ==> s[i] != s[j]
  }

  /**
   * The invariant the handlers keep for one guild: every snapshot is a list of
   * distinct tracked roles.
   */
  predicate GuildWellFormed(guild: GuildState) {
    forall u :: u in guild.users ==> Distinct(guild.users[u]) && forall r :: r in guild.users[u] ==> r in guild.roles
  }

  predicate WellFormed(state: RolesState) {
    forall g :: g in state.guilds ==> GuildWellFormed(state.guilds[g])
  }

  // ---------------------------------------------------------------------------
  // add_role
  // ---------------------------------------------------------------------------

  /**
   * `add_role`: track `role` in `guild`, creating an empty entry for the guild
   * when it has none. No user's snapshot is touched.
   */
  function AddRole(state: RolesState, role: RoleId, guild: GuildId): (next: RolesState)
    ensures HasGuild(next, guild)
    ensures next.guilds[guild].roles == (if HasGuild(state, guild) then state.guilds[guild].roles else {}) + {role}
    ensures next.guilds[guild].users == (if HasGuild(state, guild) then state.guilds[guild].users else map[])
    ensures forall g :: g != guild ==> (g in next.guilds <==> g in state.guilds)
    ensures forall g :: g != guild && g in state.guilds ==> next.guilds[g] == state.guilds[g]
  {
    var entry := if guild in state.guilds then state.guilds[guild] else EMPTY_GUILD;
    RolesState(state.guilds[guild := GuildState(entry.roles + {role}, entry.users)])
  }

  /** Tracking a role twice is the same as tracking it once. */
  lemma AddRoleIdempotent(state: RolesState, role: RoleId, guild: GuildId)
    ensures AddRole(AddRole(state, role, guild), role, guild) == AddRole(state, role, guild)
  {
  }

  lemma AddRoleKeepsWellFormed(state: RolesState, role: RoleId, guild: GuildId)
    requires WellFormed(state)
    ensures WellFormed(AddRole(state, role, guild))
  {
    var next := AddRole(state, role, guild);
    forall g | g in next.guilds ensures GuildWellFormed(next.guilds[g]) {
      if g == guild && guild in state.guilds {
        assert GuildWellFormed(state.guilds[g]);
      }
    }
  }

  // ---------------------------------------------------------------------------
  // remove_role
  // ---------------------------------------------------------------------------

  /** `iter().position`: the index of the first occurrence of `role`, if any. */
  function Position(s: seq<RoleId>, role: RoleId): (index: Option<nat>)
    ensures index.None? <==> role !in s
    ensures index.Some? ==> index.value < |s| && s[index.value] == role && role !in s[..index.value]
  {
    if |s| == 0 then None
    else if s[0] == role then Some(0)
    else match Position(s[1..], role)
      case None => None
      case Some(i) =>
        assert s[..i + 1] == [s[0]] + s[1..][..i];
        Some(i + 1)
  }

  /**
   * `Vec::swap_remove`: remove the element at `index` by moving the last element
   * into its place.
   */
  function SwapRemove(s: seq<RoleId>, index: nat): (r: seq<RoleId>)
    requires index < |s|
    ensures |r| == |s| - 1
    ensures multiset(r) == multiset(s) - multiset{s[index]}
    ensures r[..index] == s[..index]
    ensures index < |s| - 1 ==> r[index] == s[|s| - 1] && r[index + 1..] == s[index + 1..|s| - 1]
  {
    if index == |s| - 1 then
      assert s == s[..index] + [s[index]];
      s[..index]
    else
      var head, mid, last := s[..index], s[index + 1..|s| - 1], s[|s| - 1];
      SwapRemoveCount(s, index);
      assert (head + [last] + mid)[..index] == head;
      assert (head + [last] + mid)[index + 1..] == mid;
      head + [last] + mid
  }

  lemma SwapRemoveCount(s: seq<RoleId>, index: nat)
    requires index < |s| - 1
    ensures multiset(s[..index] + [s[|s| - 1]] + s[index + 1..|s| - 1]) == multiset(s) - multiset{s[index]}
  {
    var head, mid, last := s[..index], s[index + 1..|s| - 1], s[|s| - 1];
    assert s == head + [s[index]] + mid + [last];
    calc {
      multiset(s);
      multiset(head) + multiset{s[index]} + multiset(mid) + multiset{last};
      multiset(head + [last] + mid) + multiset{s[index]};
    }
  }

  /** What `remove_role` does to one snapshot: drop the first occurrence of `role`, if any. */
  function RemoveFirst(s: seq<RoleId>, role: RoleId): (r: seq<RoleId>)
    ensures role !in s ==> r == s
    ensures role in s ==> |r| == |s| - 1 && multiset(r) == multiset(s) - multiset{role}
  {
    match Position(s, role)
    case None => s
    case Some(i) => SwapRemove(s, i)
  }

  /** `swap_remove` may change the order of the roles that remain. */
  lemma RemoveFirstReorders()
    ensures RemoveFirst([1, 2, 3], 1) == [3, 2]
  {
    assert Position([1, 2, 3], 1) == Some(0);
  }

  /** Only the first occurrence goes: a snapshot holding `role` twice or more still holds it. */
  lemma RemoveFirstKeepsDuplicate(s: seq<RoleId>, role: RoleId)
    requires multiset(s)[role] >= 2
    ensures role in RemoveFirst(s, role)
  {
    assert multiset(RemoveFirst(s, role))[role] >= 1;
  }

  /** For instance, `[1, 2, 1]` loses its first `1` and keeps the second. */
  lemma RemoveFirstDuplicateExample()
    ensures RemoveFirst([1, 2, 1], 1) == [1, 2]
  {
    assert Position([1, 2, 1], 1) == Some(0);
  }

  /** In a list of distinct roles, removing the first occurrence removes every occurrence. */
  lemma RemoveFirstOfDistinct(s: seq<RoleId>, role: RoleId)
    requires Distinct(s)
    ensures Distinct(RemoveFirst(s, role))
    ensures forall r :: r in RemoveFirst(s, role) <==> r in s && r != role
  {
    var t := RemoveFirst(s, role);
    assert forall r :: multiset(s)[r] <= 1 by {
      forall r ensures multiset(s)[r] <= 1 {
        DistinctCount(s, r);
      }
    }
    forall r ensures r in t <==> r in s && r != role {
      assert r in t <==> multiset(t)[r] > 0;
      assert r in s <==> multiset(s)[r] > 0;
    }
    forall i, j | 0 <= i < j < |t| ensures t[i] != t[j] {
      CountTwo(t, i, j);
    }
  }

  lemma {:induction false} DistinctCount(s: seq<RoleId>, r: RoleId)
    requires Distinct(s)
    ensures multiset(s)[r] <= 1
  {
    if |s| > 0 {
      var init, last := s[..|s| - 1], s[|s| - 1];
      assert s == init + [last];
      DistinctCount(init, r);
      if last == r {
        assert r !in init by {
          forall i | 0 <= i < |init| ensures init[i] != r {
            assert init[i] == s[i];
          }
        }
      }
    }
  }

  /** A role at two positions occurs at least twice. */
  lemma CountTwo(s: seq<RoleId>, i: nat, j: nat)
    requires i < j < |s|
    ensures s[i] == s[j] ==> multiset(s)[s[i]] >= 2
  {
    assert s == s[..j] + [s[j]] + s[j + 1..];
    assert s[..j] == s[..i] + [s[i]] + s[i + 1..j];
  }

  /**
   * What `remove_role` makes of a guild: the role is no longer tracked and every
   * snapshot has lost its first occurrence of it; no user is added or dropped.
   */
  function RemovedRole(guild: GuildState, role: RoleId): (next: GuildState) {
    GuildState(guild.roles - {role}, map u | u in guild.users :: RemoveFirst(guild.users[u], role))
  }

  /** `remove_role`: untrack the role, then visit every snapshot in the table's order. */
  method RemoveRole(guild: GuildState, role: RoleId) returns (next: GuildState)
    ensures next == RemovedRole(guild, role)
    ensures role !in next.roles
    ensures next.users.Keys == guild.users.Keys
    ensures forall u :: u in guild.users && role !in guild.users[u] ==> next.users[u] == guild.users[u]
  {
    var roles := guild.roles - {role};
    var users := guild.users;
    var pending := guild.users.Keys;
    while pending != {}
      invariant pending <= guild.users.Keys
      invariant users.Keys == guild.users.Keys
      invariant forall u :: u in users ==>
        users[u] == if u in pending then guild.users[u] else RemoveFirst(guild.users[u], role)
      decreases pending
    {
      var u :| u in pending;
      users := users[u := RemoveFirst(guild.users[u], role)];
      pending := pending - {u};
    }
    assert users == RemovedRole(guild, role).users by {
      forall u | u in users ensures users[u] == RemovedRole(guild, role).users[u] { }
    }
    next := GuildState(roles, users);
    RemovedRoleFrame(guild, role);
  }

  /** `remove_role` keeps every user, and a snapshot without the role as it is. */
  lemma RemovedRoleFrame(guild: GuildState, role: RoleId)
    ensures RemovedRole(guild, role).users.Keys == guild.users.Keys
    ensures forall u :: u in guild.users && role !in guild.users[u] ==> RemovedRole(guild, role).users[u] == guild.users[u]
  {
  }

  /** Under the invariant, an untracked role is gone from every snapshot and the invariant holds again. */
  lemma RemovedRoleKeepsWellFormed(guild: GuildState, role: RoleId)
    requires GuildWellFormed(guild)
    ensures GuildWellFormed(RemovedRole(guild, role))
    ensures forall u :: u in RemovedRole(guild, role).users ==> role !in RemovedRole(guild, role).users[u]
  {
    var next := RemovedRole(guild, role);
    forall u | u in next.users
      ensures Distinct(next.users[u]) && role !in next.users[u]
      ensures forall r :: r in next.users[u] ==> r in next.roles
    {
      RemoveFirstOfDistinct(guild.users[u], role);
    }
  }

  /**
   * Without the invariant the untracked role can survive: a snapshot that holds
   * it twice keeps one copy.
   */
  lemma RemovedRoleLeavesDuplicate(guild: GuildState, role: RoleId, u: UserId)
    requires u in guild.users && multiset(guild.users[u])[role] >= 2
    ensures role !in RemovedRole(guild, role).roles
    ensures u in RemovedRole(guild, role).users && role in RemovedRole(guild, role).users[u]
  {
    RemoveFirstKeepsDuplicate(guild.users[u], role);
  }

  /** The `stop_persist_role` closure: untrack the role in an existing guild; an absent guild stays absent. */
  function StopPersisting(state: RolesState, guild: GuildId, role: RoleId): (next: RolesState)
    ensures !HasGuild(state, guild) ==> next == state
    ensures HasGuild(state, guild) ==> HasGuild(next, guild) && role !in next.guilds[guild].roles
    ensures HasGuild(state, guild) ==> next.guilds[guild] == RemovedRole(state.guilds[guild], role)
    ensures next.guilds.Keys == state.guilds.Keys
    ensures forall g :: g != guild && g in state.guilds ==> next.guilds[g] == state.guilds[g]
  {
    if guild in state.guilds then RolesState(state.guilds[guild := RemovedRole(state.guilds[guild], role)])
    else state
  }

  lemma StopPersistingKeepsWellFormed(state: RolesState, guild: GuildId, role: RoleId)
    requires WellFormed(state)
    ensures WellFormed(StopPersisting(state, guild, role))
  {
    if guild in state.guilds {
      RemovedRoleKeepsWellFormed(state.guilds[guild], role);
    }
  }

  // ---------------------------------------------------------------------------
  // Member snapshots
  // ---------------------------------------------------------------------------

  /** The member's roles that are tracked, in the member's order. */
  function TrackedOnly(roles: seq<RoleId>, tracked: set<RoleId>): (kept: seq<RoleId>)
    ensures |kept| <= |roles|
    ensures forall r :: r in kept <==> r in roles && r in tracked
  {
    if |roles| == 0 then []
    else
      var init, last := roles[..|roles| - 1], roles[|roles| - 1];
      assert roles == init + [last];
      TrackedOnly(init, tracked) + (if last in tracked then [last] else [])
  }

  /** A tracked role is kept as often as the member holds it; an untracked one never. */
  lemma {:induction false} TrackedOnlyCount(roles: seq<RoleId>, tracked: set<RoleId>, r: RoleId)
    ensures multiset(TrackedOnly(roles, tracked))[r] == if r in tracked then multiset(roles)[r] else 0
  {
    if |roles| > 0 {
      var init, last := roles[..|roles| - 1], roles[|roles| - 1];
      assert roles == init + [last];
      TrackedOnlyCount(init, tracked, r);
    }
  }

  /** Filtering keeps the order: it distributes over concatenation. */
  lemma {:induction false} TrackedOnlyAppend(a: seq<RoleId>, b: seq<RoleId>, tracked: set<RoleId>)
    ensures TrackedOnly(a + b, tracked) == TrackedOnly(a, tracked) + TrackedOnly(b, tracked)
  {
    if |b| > 0 {
      var init, last := b[..|b| - 1], b[|b| - 1];
      var tail := if last in tracked then [last] else [];
      assert (a + b)[..|a + b| - 1] == a + init && (a + b)[|a + b| - 1] == last;
      assert TrackedOnly(a + b, tracked) == TrackedOnly(a + init, tracked) + tail;
      assert TrackedOnly(b, tracked) == TrackedOnly(init, tracked) + tail;
      TrackedOnlyAppend(a, init, tracked);
    } else {
      assert a + b == a;
    }
  }

  /** A member whose roles are all tracked is snapshotted as is. */
  lemma {:induction false} TrackedOnlyAllTracked(roles: seq<RoleId>, tracked: set<RoleId>)
    requires forall r :: r in roles ==> r in tracked
    ensures TrackedOnly(roles, tracked) == roles
  {
    if |roles| > 0 {
      var init := roles[..|roles| - 1];
      assert roles == init + [roles[|roles| - 1]];
      TrackedOnlyAllTracked(init, tracked);
    }
  }

  lemma TrackedOnlyDistinct(roles: seq<RoleId>, tracked: set<RoleId>)
    requires Distinct(roles)
    ensures Distinct(TrackedOnly(roles, tracked))
  {
    var kept := TrackedOnly(roles, tracked);
    forall r ensures multiset(kept)[r] <= 1 {
      DistinctCount(roles, r);
      TrackedOnlyCount(roles, tracked, r);
    }
    forall i, j | 0 <= i < j < |kept| ensures kept[i] != kept[j] {
      CountTwo(kept, i, j);
    }
  }

  /**
   * The `guild_member_removal` closure: a tracked guild stores the leaving
   * member's tracked roles as their snapshot, replacing any earlier one and
   * storing an empty list as well.
   */
  function Snapshot(state: RolesState, member: Member): (next: RolesState)
    ensures !HasGuild(state, member.guild) ==> next == state
    ensures HasGuild(state, member.guild) ==>
      && next.guilds.Keys == state.guilds.Keys
      && next.guilds[member.guild].roles == state.guilds[member.guild].roles
      && next.guilds[member.guild].users.Keys == state.guilds[member.guild].users.Keys + {member.user}
      && next.guilds[member.guild].users[member.user] == TrackedOnly(member.roles, state.guilds[member.guild].roles)
      && forall u :: u in state.guilds[member.guild].users && u != member.user ==>
           next.guilds[member.guild].users[u] == state.guilds[member.guild].users[u]
    ensures forall g :: g != member.guild && g in state.guilds ==> next.guilds[g] == state.guilds[g]
  {
    if member.guild in state.guilds then
      var entry := state.guilds[member.guild];
      var users := entry.users[member.user := TrackedOnly(member.roles, entry.roles)];
      RolesState(state.guilds[member.guild := GuildState(entry.roles, users)])
    else state
  }

  /** Every stored snapshot lists tracked roles only, so a member with distinct roles keeps the invariant. */
  lemma SnapshotKeepsWellFormed(state: RolesState, member: Member)
    requires WellFormed(state) && Distinct(member.roles)
    ensures WellFormed(Snapshot(state, member))
  {
    var next := Snapshot(state, member);
    if member.guild in state.guilds {
      TrackedOnlyDistinct(member.roles, state.guilds[member.guild].roles);
      assert GuildWellFormed(state.guilds[member.guild]);
      forall g | g in next.guilds ensures GuildWellFormed(next.guilds[g]) {
        assert GuildWellFormed(state.guilds[g]);
      }
    }
  }

  /**
   * The `guild_member_addition` closure: take the joining user's snapshot out of
   * the guild's entry and hand it back; nothing when there is none.
   */
  function Consume(state: RolesState, guild: GuildId, user: UserId): (result: (RolesState, Option<seq<RoleId>>))
    ensures result.1.Some? <==> HasGuild(state, guild) && user in state.guilds[guild].users
    ensures result.1.Some? ==> result.1.value == state.guilds[guild].users[user]
    ensures result.1.None? ==> result.0 == state
    ensures result.1.Some? ==>
      && result.0.guilds.Keys == state.guilds.Keys
      && result.0.guilds[guild] == GuildState(state.guilds[guild].roles, state.guilds[guild].users - {user})
      && forall g :: g != guild && g in state.guilds ==> result.0.guilds[g] == state.guilds[g]
  {
    if guild in state.guilds && user in state.guilds[guild].users then
      var entry := state.guilds[guild];
      (RolesState(state.guilds[guild := GuildState(entry.roles, entry.users - {user})]), Some(entry.users[user]))
    else (state, None)
  }

  lemma ConsumeKeepsWellFormed(state: RolesState, guild: GuildId, user: UserId)
    requires WellFormed(state)
    ensures WellFormed(Consume(state, guild, user).0)
  {
    var next := Consume(state, guild, user).0;
    forall g | g in next.guilds ensures GuildWellFormed(next.guilds[g]) {
      assert GuildWellFormed(state.guilds[g]);
    }
  }

  /**
   * A member who leaves and joins again gets back exactly the tracked roles they
   * held, in their order, and the snapshot is gone afterwards.
   */
  lemma LeaveThenJoin(state: RolesState, member: Member)
    requires HasGuild(state, member.guild)
    ensures var left := Snapshot(state, member);
      var (joined, granted) := Consume(left, member.guild, member.user);
      && granted == Some(TrackedOnly(member.roles, state.guilds[member.guild].roles))
      && member.user !in joined.guilds[member.guild].users
  {
  }

  /**
   * Only tracking a role gives a guild an entry, and no operation takes one away:
   * once tracked, a guild stays tracked.
   */
  lemma OnlyAddRoleTracksGuilds(state: RolesState, role: RoleId, guild: GuildId, member: Member, user: UserId, g: GuildId)
    ensures HasGuild(AddRole(state, role, guild), g) <==> HasGuild(state, g) || g == guild
    ensures HasGuild(StopPersisting(state, guild, role), g) <==> HasGuild(state, g)
    ensures HasGuild(Snapshot(state, member), g) <==> HasGuild(state, g)
    ensures HasGuild(Consume(state, guild, user).0, g) <==> HasGuild(state, g)
  {
  }

  /** A second join finds no snapshot: the roles are granted once. */
  lemma ConsumeTwice(state: RolesState, guild: GuildId, user: UserId)
    ensures Consume(Consume(state, guild, user).0, guild, user).1.None?
  {
  }

  // ---------------------------------------------------------------------------
  // Handlers that change the state through its store
  // ---------------------------------------------------------------------------

  /**
   * `persist_role`. `guild` is the command message's guild, `commandDeleted`
   * whether deleting the command message succeeded.
   */
  method PersistRole(store: Persistent<RolesState>, guild: Option<GuildId>, commandDeleted: bool, role: RoleId)
    returns (result: CommandResult)
    modifies store
    ensures guild.None? ==> result == Failure(NotAllowed) && unchanged(store)
    ensures guild.Some? && !commandDeleted ==> result == Failure(Serenity) && unchanged(store)
    ensures guild.Some? && commandDeleted ==>
      && result == Success(())
      && store.inner == AddRole(old(store.inner), role, guild.value)
      && store.disk == Some(store.inner)
      && store.writes == old(store.writes) + [store.inner]
  {
    if guild.None? {
      return Failure(NotAllowed);
    }
    if !commandDeleted {
      return Failure(Serenity);
    }
    var g := guild.value;
    var unit := store.Write((state: RolesState) => (AddRole(state, role, g), ()));
    result := Success(());
  }

  /**
   * `stop_persist_role`: untrack the role in the command's guild. The store is
   * written even when the guild has no entry, and no entry is created for it.
   */
  method StopPersistRole(store: Persistent<RolesState>, guild: Option<GuildId>, commandDeleted: bool, role: RoleId)
    returns (result: CommandResult)
    modifies store
    ensures guild.None? ==> result == Failure(NotAllowed) && unchanged(store)
    ensures guild.Some? && !commandDeleted ==> result == Failure(Serenity) && unchanged(store)
    ensures guild.Some? && commandDeleted ==>
      && result == Success(())
      && store.inner == StopPersisting(old(store.inner), guild.value, role)
      && store.disk == Some(store.inner)
      && store.writes == old(store.writes) + [store.inner]
  {
    if guild.None? {
      return Failure(NotAllowed);
    }
    if !commandDeleted {
      return Failure(Serenity);
    }
    var g := guild.value;
    var current := store.Read();
    if g in current.guilds {
      // The loop runs on the guild's entry before the write; the write installs it.
      var removed := RemoveRole(current.guilds[g], role);
      var unit := store.Write((state: RolesState) =>
        (if g in state.guilds then RolesState(state.guilds[g := removed]) else state, ()));
    } else {
      var unit := store.Write((state: RolesState) => (state, ()));
    }
    result := Success(());
  }

  /**
   * `guild_member_addition`. `permissions` is the joining member's permission
   * lookup (`None` when it fails). Returns the roles granted back, `None` when no
   * grant is issued.
   */
  method GuildMemberAddition(store: Persistent<RolesState>, member: Member, permissions: Option<Permissions>)
    returns (granted: Option<seq<RoleId>>)
    modifies store
    ensures !HasGuild(old(store.inner), member.guild) ==> unchanged(store) && granted.None?
    ensures permissions.None? || ManageRoles !in permissions.value ==> unchanged(store) && granted.None?
    ensures HasGuild(old(store.inner), member.guild) && permissions.Some? && ManageRoles in permissions.value ==>
      && (store.inner, granted) == Consume(old(store.inner), member.guild, member.user)
      && store.disk == Some(store.inner)
      && store.writes == old(store.writes) + [store.inner]
  {
    if !HasGuild(store.Read(), member.guild) {
      return None;
    }
    var manageRoles := if permissions.Some? then ManageRoles in permissions.value else false;
    if !manageRoles {
      return None;
    }
    granted := store.Write((state: RolesState) => Consume(state, member.guild, member.user));
  }

  /** `guild_member_removal`: snapshot the leaving member's tracked roles in a tracked guild. */
  method GuildMemberRemoval(store: Persistent<RolesState>, member: Member)
    modifies store
    ensures !HasGuild(old(store.inner), member.guild) ==> unchanged(store)
    ensures HasGuild(old(store.inner), member.guild) ==>
      && store.inner == Snapshot(old(store.inner), member)
      && store.disk == Some(store.inner)
      && store.writes == old(store.writes) + [store.inner]
  {
    if !HasGuild(store.Read(), member.guild) {
      return;
    }
    var unit := store.Write((state: RolesState) => (Snapshot(state, member), ()));
  }
}
