/**
 * Reaction selectors: the emoji identity and the table from emoji to role that a
 * selector message's text is parsed into.
 */
module ReactionSelector {
  import opened Wrappers
  import opened Numerals
  import opened Discord

  // ---------------------------------------------------------------------------
  // Emoji identity
  // ---------------------------------------------------------------------------

  /** An emoji, identified by the text it renders as; two emoji are equal exactly when their texts are. */
  datatype Emoji = Emoji(text: string)

  /** The client library's parser of a custom-emoji mention (`EmojiIdentifier::from_str`). */
  type Identify = string -> Option<EmojiIdentifier>

  /** The text of a custom emoji: `<:name:id>` when it has a name, `<:id>` when it has none. */
  function CustomText(name: Option<string>, id: EmojiId): string {
    match name
    case Some(n) => "<:" + n + ":" + Decimal(id) + ">"
    case None => "<:" + Decimal(id) + ">"
  }

  /**
   * `Emoji::from(ReactionType)`. A custom emoji becomes its `CustomText` (the
   * animated flag is dropped), a unicode emoji keeps its own text, and any other
   * kind of reaction panics, modelled as `None`.
   */
  function FromReaction(reaction: ReactionType): (e: Option<Emoji>)
    ensures e.None? <==> reaction.Unknown?
    ensures reaction.Unicode? ==> e == Some(Emoji(reaction.text))
    ensures reaction.Custom? ==> e == Some(Emoji(CustomText(reaction.name, reaction.id)))
  {
    match reaction
    case Custom(_, id, name) => Some(Emoji(CustomText(name, id)))
    case Unicode(text) => Some(Emoji(text))
    case Unknown => None
  }

  /**
   * `Into<ReactionType> for Emoji`. `identify` is the client library's parser of
   * custom-emoji mentions (`EmojiIdentifier::from_str`): when it accepts the text
   * the result is a non-animated custom emoji with the parsed name and id,
   * otherwise a unicode emoji with the same text.
   */
  function ToReaction(e: Emoji, identify: Identify): (r: ReactionType)
    ensures !r.Unknown?
    ensures r.Custom? <==> identify(e.text).Some?
    ensures r.Custom? ==> !r.animated && r.id == identify(e.text).value.id && r.name == Some(identify(e.text).value.name)
    ensures r.Unicode? ==> r.text == e.text
  {
    match identify(e.text)
    case Some(custom) => Custom(false, custom.id, Some(custom.name))
    case None => Unicode(e.text)
  }

  /** `FromStr for Emoji`: every string is accepted as the emoji with that text. */
  function EmojiFromStr(s: string): (r: Result<Emoji, ()>)
    ensures r.Success? && r.value.text == s
  {
    Success(Emoji(s))
  }

  /** A position in a named custom text past its leading `<:` and the name is the `:` separator. */
  lemma NamedTextShape(n: string, id: EmojiId)
    ensures var t := CustomText(Some(n), id);
      |t| == 4 + |n| + |Decimal(id)| && t[..2] == "<:" && t[2..2 + |n|] == n && t[2 + |n|] == ':'
      && t[3 + |n|..|t| - 1] == Decimal(id) && t[|t| - 1] == '>'
  {
  }

  /** Helper: with the longer numeral on the left, equal named texts have numerals of equal length. */
  lemma NamedTextSameDigitCount(n1: string, id1: EmojiId, n2: string, id2: EmojiId)
    requires |Decimal(id1)| >= |Decimal(id2)|
    requires CustomText(Some(n1), id1) == CustomText(Some(n2), id2)
    ensures |Decimal(id1)| == |Decimal(id2)|
  {
    var t, d1, d2 := CustomText(Some(n1), id1), Decimal(id1), Decimal(id2);
    NamedTextShape(n1, id1);
    NamedTextShape(n2, id2);
    if |d1| > |d2| {
      // The `:` before the right-hand numeral falls inside the left-hand numeral.
      assert false;
    }
  }

  /** Two named custom emoji render alike exactly when both the names and the ids agree. */
  lemma NamedTextInjective(n1: string, id1: EmojiId, n2: string, id2: EmojiId)
    ensures CustomText(Some(n1), id1) == CustomText(Some(n2), id2) <==> n1 == n2 && id1 == id2
  {
    var t1, t2 := CustomText(Some(n1), id1), CustomText(Some(n2), id2);
    if t1 == t2 {
      if |Decimal(id1)| >= |Decimal(id2)| {
        NamedTextSameDigitCount(n1, id1, n2, id2);
      } else {
        NamedTextSameDigitCount(n2, id2, n1, id1);
      }
      NamedTextShape(n1, id1);
      NamedTextShape(n2, id2);
      assert n1 == t1[2..2 + |n1|] == t2[2..2 + |n2|] == n2;
      assert Decimal(id1) == t1[3 + |n1|..|t1| - 1] == t2[3 + |n2|..|t2| - 1] == Decimal(id2);
      DecimalInjective(id1, id2);
    }
  }

  /** Two unnamed custom emoji render alike exactly when their ids agree. */
  lemma UnnamedTextInjective(id1: EmojiId, id2: EmojiId)
    ensures CustomText(None, id1) == CustomText(None, id2) <==> id1 == id2
  {
    var t1, t2 := CustomText(None, id1), CustomText(None, id2);
    if t1 == t2 {
      assert Decimal(id1) == t1[2..|t1| - 1] == t2[2..|t2| - 1] == Decimal(id2);
      DecimalInjective(id1, id2);
    }
  }

  /** A named custom emoji never renders like an unnamed one: the latter has no `:` after `<:`. */
  lemma NamedNeverUnnamed(n: string, id1: EmojiId, id2: EmojiId)
    ensures CustomText(Some(n), id1) != CustomText(None, id2)
  {
    var t1, t2 := CustomText(Some(n), id1), CustomText(None, id2);
    NamedTextShape(n, id1);
    if t1 == t2 {
      assert false;
    }
  }

  /**
   * Identity of custom emoji: two custom reactions give the same emoji exactly
   * when they have the same id and the same (optional) name; the animated flag
   * plays no part. In particular the same id under two names gives two emoji.
   */
  lemma CustomEmojiIdentity(r1: ReactionType, r2: ReactionType)
    requires r1.Custom? && r2.Custom?
    ensures FromReaction(r1) == FromReaction(r2) <==> r1.id == r2.id && r1.name == r2.name
  {
    match (r1.name, r2.name)
    case (Some(n1), Some(n2)) => NamedTextInjective(n1, r1.id, n2, r2.id);
    case (None, None) => UnnamedTextInjective(r1.id, r2.id);
    case (Some(n1), None) => NamedNeverUnnamed(n1, r1.id, r2.id);
    case (None, Some(n2)) => NamedNeverUnnamed(n2, r2.id, r1.id);
  }

  /**
   * Identity is by text only, so a unicode reaction whose text reads like a
   * custom-emoji mention is the same emoji as that custom emoji.
   */
  lemma UnicodeCanEqualCustom()
    ensures FromReaction(Unicode("<:x:1>")) == FromReaction(Custom(true, 1, Some("x")))
  {
    assert DigitChar(1) == '1';
    assert Decimal(1) == "1";
    assert CustomText(Some("x"), 1) == "<:x:1>";
  }

  /**
   * Converting a named custom reaction to an emoji and back gives the same
   * emoji, not animated, provided the library parser reads the mention text back.
   */
  lemma CustomRoundTrip(animated: bool, id: EmojiId, name: string, identify: Identify)
    requires identify(CustomText(Some(name), id)) == Some(EmojiIdentifier(name, id))
    ensures ToReaction(FromReaction(Custom(animated, id, Some(name))).value, identify) == Custom(false, id, Some(name))
  {
  }

  /**
   * An emoji converted to a reaction and back is unchanged, provided the library
   * parser only accepts texts that are the mention of what it returns.
   */
  lemma EmojiRoundTrip(e: Emoji, identify: Identify)
    requires identify(e.text).Some? ==> e.text == CustomText(Some(identify(e.text).value.name), identify(e.text).value.id)
    ensures FromReaction(ToReaction(e, identify)) == Some(e)
  {
  }

  /** The mention parser accepts a text only when it is the mention of the identifier it returns. */
  ghost predicate ReadsBack(identify: Identify) {
    forall t :: identify(t).Some? ==> t == CustomText(Some(identify(t).value.name), identify(t).value.id)
  }

  /**
   * The mention parser accepts the text of each of the given emoji only when it is
   * the mention of the identifier it returns; other texts are unconstrained.
   */
  ghost predicate ReadsBackOn(identify: Identify, emoji: set<Emoji>) {
    forall e :: e in emoji ==>
      (identify(e.text).Some? ==> e.text == CustomText(Some(identify(e.text).value.name), identify(e.text).value.id))
  }

  /**
   * A parser that reads every named mention back as its name and id meets the
   * hypothesis on any emoji that are named mentions or texts it rejects, whatever
   * it makes of other texts (a leading zero in the id, an animated mention).
   */
  lemma CanonicalParserReadsBackOn(identify: Identify, emoji: set<Emoji>)
    requires forall name, id :: identify(CustomText(Some(name), id)) == Some(EmojiIdentifier(name, id))
    requires forall e :: e in emoji ==>
      identify(e.text).None? || exists name, id :: e.text == CustomText(Some(name), id)
    ensures ReadsBackOn(identify, emoji)
  {
    forall e | e in emoji && identify(e.text).Some?
      ensures e.text == CustomText(Some(identify(e.text).value.name), identify(e.text).value.id)
    {
      var name, id :| e.text == CustomText(Some(name), id);
      assert identify(CustomText(Some(name), id)) == Some(EmojiIdentifier(name, id));
    }
  }

  /** Under `ReadsBack`, every emoji survives its conversion to a reaction and back. */
  lemma EveryEmojiRoundTrips(identify: Identify)
    requires ReadsBack(identify)
    ensures forall e :: FromReaction(ToReaction(e, identify)) == Some(e)
  {
    forall e ensures FromReaction(ToReaction(e, identify)) == Some(e) {
      EmojiRoundTrip(e, identify);
    }
  }

  // ---------------------------------------------------------------------------
  // Selector: emoji -> role
  // ---------------------------------------------------------------------------

  datatype Selector = Selector(roles: map<Emoji, RoleId>)

  /** `Selector::new`: the empty table. */
  function NewSelector(): (s: Selector)
    ensures forall e :: GetRole(s, e).None?
  {
    Selector(map[])
  }

  /** `get_role`: the role mapped to `emoji`, if any. */
  function GetRole(s: Selector, emoji: Emoji): (r: Option<RoleId>)
    ensures r.Some? <==> emoji in s.roles
    ensures r.Some? ==> s.roles[emoji] == r.value
  {
    if emoji in s.roles then Some(s.roles[emoji]) else None
  }

  /** `contains`: whether `emoji` is a key. */
  function Contains(s: Selector, emoji: Emoji): (b: bool)
    ensures b <==> GetRole(s, emoji).Some?
  {
    emoji in s.roles
  }

  /** `insert_role`: map `emoji` to `role`, overwriting any earlier role; other keys keep theirs. */
  function InsertRole(s: Selector, emoji: Emoji, role: RoleId): (s': Selector)
    ensures GetRole(s', emoji) == Some(role)
    ensures forall e :: e != emoji ==> GetRole(s', e) == GetRole(s, e)
    ensures s'.roles.Keys == s.roles.Keys + {emoji}
  {
    Selector(s.roles[emoji := role])
  }

  /** `iter`: the (emoji, role) pairs of the table, in no particular order. */
  function Iter(s: Selector): (pairs: set<(Emoji, RoleId)>)
    ensures forall e, r :: (e, r) in pairs <==> GetRole(s, e) == Some(r)
  {
    set e | e in s.roles :: (e, s.roles[e])
  }

  // ---------------------------------------------------------------------------
  // Parsing a selector message
  // ---------------------------------------------------------------------------

  /**
   * The tokens the patterns find on one line of text, in order of appearance:
   * role mentions (`None` where the library's role parser rejects the mention),
   * custom-emoji mentions (`None` where its emoji parser rejects it) and unicode
   * emoji characters other than digits.
   */
  datatype Line = Line(
    roleMentions: seq<Option<RoleId>>,
    customMentions: seq<Option<EmojiIdentifier>>,
    unicodeEmoji: seq<string>)

  /** The first present value of a sequence of optional values (`filter_map(..).next()`). */
  function FirstSome<T>(s: seq<Option<T>>): (r: Option<T>)
    ensures r.None? <==> forall i :: 0 <= i < |s| ==> s[i].None?
    ensures r.Some? ==> exists i :: 0 <= i < |s| && s[i] == r && forall j :: 0 <= j < i ==> s[j].None?
  {
    if |s| == 0 then None
    else if s[0].Some? then s[0]
    else
      var r := FirstSome(s[1..]);
      assert r.Some? ==> exists i :: 1 <= i < |s| && s[i] == r && forall j :: 0 <= j < i ==> s[j].None? by {
        if r.Some? {
          var i :| 0 <= i < |s| - 1 && s[1..][i] == r && forall j :: 0 <= j < i ==> s[1..][j].None?;
          assert s[i + 1] == r;
          assert forall j :: 0 <= j < i + 1 ==> s[j].None? by {
            forall j | 0 <= j < i + 1 ensures s[j].None? {
              if j > 0 { assert s[j] == s[1..][j - 1]; }
            }
          }
        }
      }
      r
  }

  /** The emoji a parsed custom-emoji mention stands for (parsed mentions are never animated). */
  function CustomEmoji(x: EmojiIdentifier): Emoji {
    FromReaction(Custom(false, x.id, Some(x.name))).value
  }

  /** The first emoji of a line: custom emoji are chained before unicode ones. */
  function FirstEmoji(line: Line): Option<Emoji> {
    match FirstSome(line.customMentions)
    case Some(x) => Some(CustomEmoji(x))
    case None =>
      if |line.unicodeEmoji| > 0 then FromReaction(Unicode(line.unicodeEmoji[0])) else None
  }

  /**
   * The entry one line contributes: its first parseable role paired with its
   * first emoji, when it has both.
   */
  function LineEntry(line: Line): (entry: Option<(Emoji, RoleId)>)
    ensures entry.Some? <==>
      (exists i :: 0 <= i < |line.roleMentions| && line.roleMentions[i].Some?) &&
      ((exists i :: 0 <= i < |line.customMentions| && line.customMentions[i].Some?) || |line.unicodeEmoji| > 0)
    ensures entry.Some? ==>
      exists i :: 0 <= i < |line.roleMentions| && line.roleMentions[i] == Some(entry.value.1)
        && forall j :: 0 <= j < i ==> line.roleMentions[j].None?
    ensures entry.Some? && (exists i :: 0 <= i < |line.customMentions| && line.customMentions[i].Some?) ==>
      exists i :: 0 <= i < |line.customMentions| && line.customMentions[i].Some?
        && entry.value.0 == CustomEmoji(line.customMentions[i].value)
        && forall j :: 0 <= j < i ==> line.customMentions[j].None?
    ensures entry.Some? && (forall i :: 0 <= i < |line.customMentions| ==> line.customMentions[i].None?) ==>
      entry.value.0 == Emoji(line.unicodeEmoji[0])
  {
    match (FirstSome(line.roleMentions), FirstEmoji(line))
    case (Some(role), Some(emoji)) => Some((emoji, role))
    case _ => None
  }

  /** The selector after one more line's entry, if it has one, has been inserted. */
  function AddLine(s: Selector, line: Line): Selector {
    match LineEntry(line)
    case Some((emoji, role)) => InsertRole(s, emoji, role)
    case None => s
  }

  /** The selector that `parse` builds from the lines of a text, taking the lines in order. */
  function ParseLines(lines: seq<Line>): Selector {
    if |lines| == 0 then NewSelector() else AddLine(ParseLines(lines[..|lines| - 1]), lines[|lines| - 1])
  }

  /** `Selector::parse`, over the text's lines: one insertion per line that has a role and an emoji. */
  method Parse(lines: seq<Line>) returns (selector: Selector)
    ensures selector == ParseLines(lines)
  {
    selector := NewSelector();
    for i := 0 to |lines|
      invariant selector == ParseLines(lines[..i])
    {
      assert lines[..i + 1][..i] == lines[..i];
      var entry := LineEntry(lines[i]);
      if entry.Some? {
        selector := InsertRole(selector, entry.value.0, entry.value.1);
      }
    }
    assert lines[..|lines|] == lines;
  }

  /** The keys of a parsed selector are exactly the emoji of the lines that have an entry. */
  lemma {:induction false} ParsedKeys(lines: seq<Line>)
    ensures forall e :: e in ParseLines(lines).roles <==>
      exists i :: 0 <= i < |lines| && LineEntry(lines[i]).Some? && LineEntry(lines[i]).value.0 == e
  {
    if |lines| > 0 {
      var init, last := lines[..|lines| - 1], lines[|lines| - 1];
      ParsedKeys(init);
      AddLineKeys(ParseLines(init), last);
      assert forall i :: 0 <= i < |init| ==> init[i] == lines[i];
    }
  }

  /** One more line adds its entry's emoji, if any, to the keys. */
  lemma AddLineKeys(s: Selector, line: Line)
    ensures forall e :: e in AddLine(s, line).roles <==>
      e in s.roles || (LineEntry(line).Some? && LineEntry(line).value.0 == e)
  {
  }

  /** A line without both a parseable role and an emoji leaves the selector as it was. */
  lemma IncompleteLineAddsNothing(lines: seq<Line>, line: Line)
    requires LineEntry(line).None?
    ensures ParseLines(lines + [line]) == ParseLines(lines)
  {
    assert (lines + [line])[..|lines|] == lines;
  }

  /**
   * Later lines win: the role of an emoji is the role of the last line that
   * carries that emoji as its entry.
   */
  lemma {:induction false} ParsedLastLineWins(lines: seq<Line>, i: nat, emoji: Emoji, role: RoleId)
    requires i < |lines| && LineEntry(lines[i]) == Some((emoji, role))
    requires forall j :: i < j < |lines| && LineEntry(lines[j]).Some? ==> LineEntry(lines[j]).value.0 != emoji
    ensures GetRole(ParseLines(lines), emoji) == Some(role)
  {
    var init := lines[..|lines| - 1];
    if i < |lines| - 1 {
      assert init[i] == lines[i];
      ParsedLastLineWins(init, i, emoji, role);
    }
  }

  /** A parsed selector has at most one entry per line of text. */
  lemma {:induction false} ParsedSize(lines: seq<Line>)
    ensures |ParseLines(lines).roles| <= |lines|
  {
    if |lines| > 0 {
      var init := lines[..|lines| - 1];
      ParsedSize(init);
      var before := ParseLines(init).roles;
      var after := ParseLines(lines).roles;
      match LineEntry(lines[|lines| - 1])
      case None =>
      case Some((e, _)) =>
        assert after.Keys == before.Keys + {e};
        assert |before.Keys + {e}| <= |before.Keys| + 1;
    }
  }

  /** Every role in a parsed selector is a role mentioned on some line of the text. */
  lemma {:induction false} ParsedRolesMentioned(lines: seq<Line>)
    ensures forall e :: e in ParseLines(lines).roles ==>
      exists i, k :: 0 <= i < |lines| && 0 <= k < |lines[i].roleMentions| && lines[i].roleMentions[k] == Some(ParseLines(lines).roles[e])
  {
    if |lines| > 0 {
      var init := lines[..|lines| - 1];
      ParsedRolesMentioned(init);
      var s := ParseLines(lines);
      forall e | e in s.roles
        ensures exists i, k :: 0 <= i < |lines| && 0 <= k < |lines[i].roleMentions| && lines[i].roleMentions[k] == Some(s.roles[e])
      {
        var last := lines[|lines| - 1];
        var entry := LineEntry(last);
        if entry.Some? && entry.value.0 == e {
          var k :| 0 <= k < |last.roleMentions| && last.roleMentions[k] == Some(entry.value.1);
          assert lines[|lines| - 1].roleMentions[k] == Some(s.roles[e]);
        } else {
          assert e in ParseLines(init).roles && ParseLines(init).roles[e] == s.roles[e];
          var i, k :| 0 <= i < |init| && 0 <= k < |init[i].roleMentions| && init[i].roleMentions[k] == Some(ParseLines(init).roles[e]);
          assert lines[i] == init[i];
        }
      }
    }
  }

  /** A text of one line with one role and one unicode emoji, such as `<@&111> 🎮`, yields exactly that entry. */
  lemma OneLineExample(role: RoleId, unicode: string)
    ensures ParseLines([Line([Some(role)], [], [unicode])]).roles == map[Emoji(unicode) := role]
  {
    var line := Line([Some(role)], [], [unicode]);
    assert FirstSome(line.roleMentions) == Some(role);
    assert ParseLines([line]) == AddLine(ParseLines([]), line);
  }
}
