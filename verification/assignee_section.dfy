/** The assignee picker: household members that can be toggled in and out
    of the selection, and the chips of the selected user ids. */
module Assignees {
  import opened Base
  import opened Names

  datatype MemberProfile = MemberProfile(name: Option<string>, avatarUrl: Option<string>)

  /** A `household_members` row with its joined profile, which may be
      missing. */
  datatype Member = Member(id: string, userId: string, role: string, profile: Option<MemberProfile>)

  const UnknownName: string := "Unknown"
  const NoInitials: string := "?"

  /** `member.profiles?.name`. */
  function NameOf(m: Member): Option<string> {
    if m.profile.Some? then m.profile.value.name else None
  }

  /** `toggleAssignee(userId)`: a selected id is removed (every copy of
      it), an unselected one is appended. */
  function Toggle(selected: seq<string>, id: string): (r: seq<string>)
    ensures id in r <==> id !in selected
    ensures forall other :: other != id ==> Count(r, other) == Count(selected, other)
    ensures id !in selected ==> |r| == |selected| + 1 && r[..|selected|] == selected && r[|selected|] == id
  {
    if id in selected then Without(selected, id) else selected + [id]
  }

  /** Toggling keeps a selection free of duplicates. */
  lemma ToggleKeepsNoDup(selected: seq<string>, id: string)
    requires NoDup(selected)
    ensures NoDup(Toggle(selected, id))
  {
    if id in selected {
      WithoutNoDup(selected, id);
    }
  }

  /** Toggling an unselected id twice restores the selection; toggling a
      selected id twice moves it to the end. */
  lemma ToggleTwice(selected: seq<string>, id: string)
    ensures id !in selected ==> Toggle(Toggle(selected, id), id) == selected
    ensures id in selected ==> Toggle(Toggle(selected, id), id) == Without(selected, id) + [id]
  {
    if id !in selected {
      WithoutConcat(selected, [id], id);
      assert Without([id], id) == [];
    }
  }

  /** A member row is highlighted and ticked iff its user is selected. */
  predicate IsSelected(selected: seq<string>, m: Member) {
    m.userId in selected
  }

  /** Clicking a member row flips that member's selection and no one
      else's. */
  lemma ClickFlipsOnlyThatMember(selected: seq<string>, m: Member, other: Member)
    ensures IsSelected(Toggle(selected, m.userId), m) <==> !IsSelected(selected, m)
    ensures other.userId != m.userId ==> (IsSelected(Toggle(selected, m.userId), other) <==> IsSelected(selected, other))
  {
    if other.userId != m.userId {
      assert Count(Toggle(selected, m.userId), other.userId) == Count(selected, other.userId);
    }
  }

  /** `name || 'Unknown'` on an optional name. */
  function NameOrUnknown(name: Option<string>): (r: string)
    ensures r != ""
    ensures name.Some? && name.value != "" ==> r == name.value
  {
    if name.Some? && name.value != "" then name.value else UnknownName
  }

  /** The name in a member row. */
  function RowName(m: Member): string {
    NameOrUnknown(NameOf(m))
  }

  /** `members.find(m => m.user_id === userId)`. */
  function FindMember(members: seq<Member>, userId: string): (r: Option<Member>)
    ensures r.None? <==> forall i :: 0 <= i < |members| ==> members[i].userId != userId
    ensures r.Some? ==> exists i :: (0 <= i < |members| && members[i] == r.value
              && members[i].userId == userId && forall j :: 0 <= j < i ==> members[j].userId != userId)
  {
    if members == [] then None
    else if members[0].userId == userId then Some(members[0])
    else FindMember(members[1..], userId)
  }

  /** The label of the chip of a selected id: `member?.profiles?.name ||
      'Unknown'`. */
  function ChipName(members: seq<Member>, userId: string): (r: string)
    ensures (forall i :: 0 <= i < |members| ==> members[i].userId != userId) ==> r == UnknownName
  {
    match FindMember(members, userId)
    case None => UnknownName
    case Some(m) => RowName(m)
  }

  /** A chip shows the same name as the row of the first member with that
      user id. */
  lemma ChipMatchesRow(members: seq<Member>, i: nat)
    requires i < |members|
    requires forall j :: 0 <= j < i ==> members[j].userId != members[i].userId
    ensures ChipName(members, members[i].userId) == RowName(members[i])
  {
    var r := FindMember(members, members[i].userId);
    var k :| 0 <= k < |members| && members[k] == r.value && members[k].userId == members[i].userId
             && forall j :: 0 <= j < k ==> members[j].userId != members[i].userId;
    assert k == i;
  }

  /** The avatar fallback of a member row: the name's initials, or `?`
      when the name is missing or yields no initial. */
  function AvatarText(m: Member): (r: string)
    ensures r != ""
    ensures NameOf(m).None? ==> r == NoInitials
    ensures NameOf(m).Some? && (forall i :: 0 <= i < |NameOf(m).value| ==> NameOf(m).value[i] == ' ')
            ==> r == NoInitials
    ensures NameOf(m).Some? && (exists i :: 0 <= i < |NameOf(m).value| && NameOf(m).value[i] != ' ')
            ==> r == Initials(NameOf(m).value)
  {
    match NameOf(m)
    case None => NoInitials
    case Some(name) =>
      InitialsEmptyIffBlank(name);
      var t := Initials(name);
      if t == "" then NoInitials else t
  }
}
