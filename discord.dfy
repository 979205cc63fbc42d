/**
 * The chat platform's data as the core sees it. These types belong to the client
 * library; only the fields the core reads are kept.
 */
module Discord {
  import opened Wrappers
  import opened Numerals

  type RoleId = Snowflake
  type UserId = Snowflake
  type GuildId = Snowflake
  type MessageId = Snowflake
  type ChannelId = Snowflake
  type EmojiId = Snowflake

  /**
   * A reaction payload: a custom (image-backed) emoji with its id and optional
   * display name, a unicode emoji, or a kind the client library may add later.
   */
  datatype ReactionType =
    | Custom(animated: bool, id: EmojiId, name: Option<string>)
    | Unicode(text: string)
    | Unknown

  /** The client library's parse of a custom-emoji mention `<:name:id>`. */
  datatype EmojiIdentifier = EmojiIdentifier(name: string, id: EmojiId)

  /** A guild member: who, whether the account is a bot, and its roles in order. */
  datatype Member = Member(guild: GuildId, user: UserId, bot: bool, roles: seq<RoleId>)

  /** The permission flags the core inspects; a permission set is a set of these. */
  datatype Permission = Administrator | ManageRoles | BanMembers

  type Permissions = set<Permission>
}
