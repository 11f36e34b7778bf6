/** The welcome page: creating a household (a household row, then the
    creator's admin membership, then selecting it), the login code shown
    to the user, and the header avatar's fallback text. */
module Welcome {
  import opened Base
  import Names
  import ChoreStore

  datatype HouseholdRow = HouseholdRow(id: string, name: string, description: Option<string>, createdBy: string)
  datatype MemberRow = MemberRow(householdId: string, userId: string, role: string)

  /** The two tables the page writes. */
  datatype HomeDb = HomeDb(households: seq<HouseholdRow>, members: seq<MemberRow>)

  const AdminRole: string := "admin"
  const CreateFailedMessage: string := "Failed to create household. Please try again."
  const FallbackAvatar: string := "U"
  const LoginCodeLength: nat := 8

  datatype Toast = HouseholdCreated(description: string) | CreateFailed(description: string)

  /** What a create attempt leaves: the tables, the household selected (if
      any) and the toast shown (if any). */
  datatype Created = Created(db: HomeDb, selected: Option<string>, toast: Option<Toast>)

  /** The household row written for a name and description as typed. */
  function HouseholdPayload(id: string, name: string, description: string, userId: string): (h: HouseholdRow)
    ensures h.name == Trim(name) && h.createdBy == userId
    ensures h.description.None? <==> AllSpace(description)
    ensures h.description.Some? ==> h.description.value == Trim(description)
  {
    var d := Trim(description);
    HouseholdRow(id, Trim(name), if d != "" then Some(d) else None, userId)
  }

  /** `handleCreateHousehold`. `freshId` is the id the store gives the new
      household; `householdWrite` and `memberWrite` are the outcomes of the
      two inserts. A failed insert throws, so later steps are skipped; a
      failed membership insert does not undo the household. */
  function CreateHousehold(user: Option<string>, name: string, description: string, db: HomeDb,
                           freshId: string, householdWrite: ChoreStore.WriteResult,
                           memberWrite: ChoreStore.WriteResult): (r: Created)
    ensures user.None? || AllSpace(name) ==> r == Created(db, None, None)
    ensures r.selected.Some? <==>
              user.Some? && !AllSpace(name) && householdWrite.Written? && memberWrite.Written?
    ensures r.selected.Some? ==> r.selected.value == freshId
    ensures |db.households| <= |r.db.households| <= |db.households| + 1
    ensures r.db.households[..|db.households|] == db.households
    ensures |db.members| <= |r.db.members| <= |db.members| + 1
    ensures r.db.members[..|db.members|] == db.members
    ensures |r.db.households| > |db.households| <==>
              user.Some? && !AllSpace(name) && householdWrite.Written?
    ensures |r.db.members| > |db.members| <==>
              user.Some? && !AllSpace(name) && householdWrite.Written? && memberWrite.Written?
    ensures r.toast == Some(CreateFailed(CreateFailedMessage)) <==>
              user.Some? && !AllSpace(name) && (householdWrite.Rejected? || memberWrite.Rejected?)
    ensures |r.db.households| > |db.households| ==>
              user.Some? && r.db.households[|db.households|] == HouseholdPayload(freshId, name, description, user.value)
    ensures |r.db.members| > |db.members| ==>
              user.Some? && r.db.members[|db.members|] == MemberRow(freshId, user.value, AdminRole)
  {
    if user.None? || Trim(name) == "" then Created(db, None, None)
    else if householdWrite.Rejected? then Created(db, None, Some(CreateFailed(CreateFailedMessage)))
    else
      var withHome := db.(households := db.households + [HouseholdPayload(freshId, name, description, user.value)]);
      if memberWrite.Rejected? then Created(withHome, None, Some(CreateFailed(CreateFailedMessage)))
      else
        Created(withHome.(members := db.members + [MemberRow(freshId, user.value, AdminRole)]),
                Some(freshId), Some(HouseholdCreated("Welcome to " + name + "!")))
  }

  /** A household is selected only if it exists and the creator is one of
      its admins in the resulting tables. */
  lemma SelectedHouseholdHasAdmin(user: Option<string>, name: string, description: string, db: HomeDb,
                                  freshId: string, hw: ChoreStore.WriteResult, mw: ChoreStore.WriteResult)
    ensures var r := CreateHousehold(user, name, description, db, freshId, hw, mw);
            r.selected.Some? ==>
              (exists i :: 0 <= i < |r.db.households| && r.db.households[i].id == r.selected.value
                           && r.db.households[i].createdBy == user.value)
              && MemberRow(r.selected.value, user.value, AdminRole) in r.db.members
  {
    var r := CreateHousehold(user, name, description, db, freshId, hw, mw);
    if r.selected.Some? {
      assert r.db.households[|db.households|].id == freshId;
      assert r.db.members[|db.members|] == MemberRow(freshId, user.value, AdminRole);
    }
  }

  /** A failed membership insert leaves the new household in place with no
      member and nothing selected. */
  lemma MemberFailureLeavesOrphan(userId: string, name: string, description: string, db: HomeDb,
                                  freshId: string, message: string)
    requires !AllSpace(name)
    ensures var r := CreateHousehold(Some(userId), name, description, db, freshId,
                                     ChoreStore.Written, ChoreStore.Rejected(message));
            && r.selected.None?
            && r.db.households == db.households + [HouseholdPayload(freshId, name, description, userId)]
            && r.db.members == db.members
            && r.toast == Some(CreateFailed(CreateFailedMessage))
  {
  }

  /** A rejected household insert writes nothing at all: no household, no
      membership, and nothing is selected. */
  lemma HouseholdFailureWritesNothing(user: Option<string>, name: string, description: string, db: HomeDb,
                                      freshId: string, mw: ChoreStore.WriteResult, message: string)
    ensures var r := CreateHousehold(user, name, description, db, freshId, ChoreStore.Rejected(message), mw);
            r.db == db && r.selected.None?
  {
    var r := CreateHousehold(user, name, description, db, freshId, ChoreStore.Rejected(message), mw);
    assert r.db.households == r.db.households[..|db.households|];
    assert r.db.members == r.db.members[..|db.members|];
  }

  // ---- login code ----

  /** ASCII `toUpperCase` of one character. */
  function Upper(c: char): (u: char)
    ensures 'a' <= c <= 'z' ==> u as int == c as int - 32
    ensures !('a' <= c <= 'z') ==> u == c
    ensures !('a' <= u <= 'z')
  {
    if 'a' <= c <= 'z' then (c as int - 32) as char else c
  }

  /** `user.id.slice(0, 8).toUpperCase()`. */
  function LoginCode(userId: string): (code: string)
    ensures |code| == if |userId| < LoginCodeLength then |userId| else LoginCodeLength
    ensures forall i :: 0 <= i < |code| ==> code[i] == Upper(userId[i])
  {
    var prefix := if |userId| < LoginCodeLength then userId else userId[..LoginCodeLength];
    seq(|prefix|, i requires 0 <= i < |prefix| => Upper(prefix[i]))
  }

  /** The code is its own code: it is already short and upper case. */
  lemma LoginCodeIdempotent(userId: string)
    ensures LoginCode(LoginCode(userId)) == LoginCode(userId)
  {
  }

  /** Only the first eight characters count, so distinct ids sharing them
      share a code. */
  lemma LoginCodeIgnoresTail(a: string, b: string)
    requires |a| >= LoginCodeLength && |b| >= LoginCodeLength && a[..LoginCodeLength] == b[..LoginCodeLength]
    ensures LoginCode(a) == LoginCode(b)
  {
    assert forall i :: 0 <= i < LoginCodeLength ==> a[i] == a[..LoginCodeLength][i] && b[i] == b[..LoginCodeLength][i];
  }

  // ---- header avatar ----

  /** `profile?.name?.split(' ').map(n => n[0]).join('') || 'U'`. */
  function AvatarFallback(profileName: Option<string>): (r: string)
    ensures r != ""
    ensures r == FallbackAvatar <==>
              profileName.None? || Names.Initials(profileName.value) == "" || Names.Initials(profileName.value) == FallbackAvatar
    ensures profileName.Some? && Names.Initials(profileName.value) != "" ==> r == Names.Initials(profileName.value)
  {
    match profileName
    case None => FallbackAvatar
    case Some(name) =>
      var t := Names.Initials(name);
      if t != "" then t else FallbackAvatar
  }

  /** The fallback shows when there is no name or the name is only spaces. */
  lemma FallbackIffNoWords(name: string)
    ensures (AvatarFallback(Some(name)) == FallbackAvatar && Names.Initials(name) != FallbackAvatar)
            <==> forall i :: 0 <= i < |name| ==> name[i] == ' '
  {
    Names.InitialsEmptyIffBlank(name);
  }
}
