/** The text `lobby_embed` builds from a lobby: the status label and the list
    of participants, one line per member, in join order. Colours, title and
    footer are presentation only and are not part of this module. */
module Embed {
  import opened Wrappers
  import opened PyText

  /** Values `lobby_embed` treats as "nothing chosen"; `None` is the fifth. */
  const Placeholders: set<string> := {"무관", "?", "미설정", ""}

  /** What the participants field shows for a lobby without members. */
  const NoMembersText: string := "(아직 없음)"

  /** What goes between the entries of a position list. */
  const PositionSeparator: string := " / "

  /** The `position` value of a member record: missing or `None`, a string, or
      a list of strings (first and second choice). */
  datatype Position = NoPosition | PosText(text: string) | PosList(items: seq<string>)

  /** A member record: a dict with `position` and `tier` (a missing key reads as
      `None`), or a value that is not a dict at all. */
  datatype Info = InfoDict(position: Position, tier: Option<string>) | NotDict

  /** One entry of a lobby's insertion-ordered `members` dict. */
  datatype Member = Member(uid: nat, info: Info)

  /** Neither `None` nor a placeholder. */
  predicate Meaningful(v: Option<string>) {
    v.Some? && v.value !in Placeholders
  }

  /** The list comprehension that keeps the entries of a position list that are
      not placeholders, in their order. */
  function DropPlaceholders(items: seq<string>): (r: seq<string>)
    ensures |r| <= |items|
    ensures forall i :: 0 <= i < |r| ==> r[i] !in Placeholders && r[i] in items
    ensures r == [] <==> forall i :: 0 <= i < |items| ==> items[i] in Placeholders
    ensures (forall i :: 0 <= i < |items| ==> items[i] !in Placeholders) ==> r == items
    ensures forall x :: x in items && x !in Placeholders ==> x in r
  {
    if items == [] then []
    else
      var rest := DropPlaceholders(items[1..]);
      assert forall i :: 1 <= i < |items| ==> items[i] == items[1..][i - 1];
      if items[0] in Placeholders then rest else [items[0]] + rest
  }

  /** `position_display`: a list is filtered and joined with " / " (`None` when
      nothing is left); anything else is shown as it is. */
  function PositionDisplay(p: Position): Option<string> {
    match p
    case NoPosition => None
    case PosText(text) => Some(text)
    case PosList(items) =>
      var kept := DropPlaceholders(items);
      if kept == [] then None else Some(Join(kept, PositionSeparator))
  }

  /** `show_extra`: both the displayed position and the tier mean something. */
  predicate ShowExtra(info: Info) {
    match info
    case NotDict => false
    case InfoDict(position, tier) => Meaningful(PositionDisplay(position)) && Meaningful(tier)
  }

  /** `<@uid>`, the mention of a user. */
  function Mention(uid: nat): string {
    "<@" + Decimal(uid) + ">"
  }

  /** One participant line: the mention, then `[position | tier]` when both
      mean something. */
  function MemberLine(m: Member): string {
    Mention(m.uid) +
      if ShowExtra(m.info)
      then " [" + PositionDisplay(m.info.position).value + " | " + m.info.tier.value + "]"
      else ""
  }

  function MemberLines(ms: seq<Member>): seq<string> {
    seq(|ms|, i requires 0 <= i < |ms| => MemberLine(ms[i]))
  }

  /** `member_text`: the lines joined with newlines, or the "nobody yet" text. */
  function MemberText(ms: seq<Member>): string {
    if ms == [] then NoMembersText else Join(MemberLines(ms), "\n")
  }

  /** The loop of `lobby_embed` that appends one line per member. */
  method BuildMemberText(ms: seq<Member>) returns (text: string)
    ensures text == MemberText(ms)
  {
    var lines: seq<string> := [];
    var i := 0;
    while i < |ms|
      invariant 0 <= i <= |ms|
      invariant |lines| == i
      invariant forall k :: 0 <= k < i ==> lines[k] == MemberLine(ms[k])
    {
      lines := lines + [MemberLine(ms[i])];
      i := i + 1;
    }
    assert lines == MemberLines(ms);
    text := if lines == [] then NoMembersText else Join(lines, "\n");
  }

  function Mentions(ms: seq<Member>): seq<string> {
    seq(|ms|, i requires 0 <= i < |ms| => Mention(ms[i].uid))
  }

  /** The mentions of all members, in join order, separated by spaces, as the
      completion and cancellation notices list them. */
  function Participants(ms: seq<Member>): string {
    Join(Mentions(ms), " ")
  }

  /** `status_kr`: the Korean label of a known status name; any other name is
      shown unchanged. */
  function StatusLabel(name: string): string {
    if name == "open" then "모집 중"
    else if name == "closed" then "마감"
    else if name == "cancelled" then "취소됨"
    else if name == "started" then "시작됨"
    else name
  }

  // ---------------------------------------------------------------------------
  // Properties

  /** A filtered position list never shows a placeholder: it is either dropped
      entirely (all of its entries were placeholders) or it means something. */
  lemma {:induction false} ListDisplayMeaningful(items: seq<string>)
    ensures PositionDisplay(PosList(items)) == None <==> forall i :: 0 <= i < |items| ==> items[i] in Placeholders
    ensures PositionDisplay(PosList(items)) != None ==> Meaningful(PositionDisplay(PosList(items)))
  {
    var kept := DropPlaceholders(items);
    if |kept| >= 2 {
      assert forall i :: 0 <= i < |kept| ==> kept[i] != "" by {
        assert "" in Placeholders;
      }
      JoinLonger(kept, PositionSeparator);
      var shown := Join(kept, PositionSeparator);
      assert |shown| >= 5;
      assert shown !in Placeholders;
    }
  }

  /** The filter works entry by entry: filtering a list is filtering its two
      halves, so the kept entries stay in their order. */
  lemma {:induction false} DropPlaceholdersAppend(xs: seq<string>, ys: seq<string>)
    ensures DropPlaceholders(xs + ys) == DropPlaceholders(xs) + DropPlaceholders(ys)
    decreases |xs|
  {
    if xs != [] {
      assert (xs + ys)[1..] == xs[1..] + ys;
      DropPlaceholdersAppend(xs[1..], ys);
    } else {
      assert xs + ys == ys;
    }
  }

  /** A placeholder between two real positions is skipped: `["탑", "?", "미드"]`
      is shown as "탑 / 미드". */
  lemma {:induction false} PlaceholderSkipped(a: string, p: string, b: string)
    requires a !in Placeholders && p in Placeholders && b !in Placeholders
    ensures DropPlaceholders([a, p, b]) == [a, b]
    ensures PositionDisplay(PosList([a, p, b])) == Some(a + PositionSeparator + b)
  {
    assert [a, p, b][1..] == [p, b] && [p, b][1..] == [b] && [b][1..] == [];
    assert DropPlaceholders([b]) == [b];
    assert DropPlaceholders([p, b]) == [b];
    var kept := [a, b];
    assert kept[1..] == [b];
    assert Join(kept, PositionSeparator) == a + PositionSeparator + Join([b], PositionSeparator);
  }

  /** A line carries the bracketed extra exactly when `show_extra` holds, and
      always starts with the member's mention. */
  lemma {:induction false} LineExtraIff(m: Member)
    ensures |MemberLine(m)| >= |Mention(m.uid)| && MemberLine(m)[..|Mention(m.uid)|] == Mention(m.uid)
    ensures MemberLine(m) != Mention(m.uid) <==> ShowExtra(m.info)
  {
    var head := Mention(m.uid);
    assert MemberLine(m) == head + MemberLine(m)[|head|..];
  }

  /** The "nobody yet" text appears exactly when there are no members: a
      non-empty list starts with a mention, never with "(". */
  lemma {:induction false} MemberTextEmptyIff(ms: seq<Member>)
    ensures MemberText(ms) == NoMembersText <==> ms == []
  {
    if ms != [] {
      var lines := MemberLines(ms);
      JoinPrefix(lines, "\n");
      LineExtraIff(ms[0]);
      var text := Join(lines, "\n");
      assert text[0] == lines[0][0] == Mention(ms[0].uid)[0] == '<';
      assert NoMembersText[0] == '(';
    }
  }

  /** A new member's mention goes at the end of the participant list: the list
      follows join order. */
  lemma {:induction false} ParticipantsSnoc(ms: seq<Member>, m: Member)
    requires ms != []
    ensures Participants(ms + [m]) == Participants(ms) + " " + Mention(m.uid)
  {
    assert Mentions(ms + [m]) == Mentions(ms) + [Mention(m.uid)];
    JoinSnoc(Mentions(ms), Mention(m.uid), " ");
  }

  /** The participant list is empty exactly when there are no members. */
  lemma {:induction false} ParticipantsEmptyIff(ms: seq<Member>)
    ensures Participants(ms) == "" <==> ms == []
  {
    if ms != [] {
      JoinPrefix(Mentions(ms), " ");
      assert Mentions(ms)[0] == Mention(ms[0].uid);
    }
  }
}
