/** `KioskProfileService`: the seller profile attached to a user. A profile
    holds the legal name, the ID number, the kiosk's name and description,
    the status of each uploaded document and the time the declaration was
    signed; `canOperate` says whether every document is VALID and the
    declaration is signed, and is recomputed whenever either changes. The
    kiosk name and the legal name must not belong to another live user. The
    document validator is a parameter. */
module KioskProfileService {
  import opened Common
  import opened Tables
  import opened JsText
  import opened UserRepository

  datatype DocStatus = Pending | Valid | Rejected

  datatype KioskProfile = KioskProfile(
    userId: int,
    fullLegalName: string,
    idNumber: string,
    kioskName: string,
    kioskDescr: string,
    documentsStatus: Option<map<string, DocStatus>>,
    canOperate: bool,
    declarationSignedAt: Option<int>)

  /** The profile form: `None` is a field left out. */
  datatype KioskProfileDto = KioskProfileDto(
    userId: int,
    fullLegalName: Option<string>,
    idNumber: Option<string>,
    kioskName: Option<string>,
    kioskDescr: Option<string>)

  /** Every listed document is VALID (`Object.values(...).every(...)`). */
  predicate AllValid(docs: map<string, DocStatus>)
  {
    forall k :: k in docs ==> docs[k] == Valid
  }

  /** What `canOperate` should say: all documents VALID (none listed counts
      as all valid) and the declaration signed. */
  predicate Ready(p: KioskProfile)
  {
    AllValid(p.documentsStatus.GetOr(map[])) && p.declarationSignedAt.Some?
  }

  /** The stored flag agrees with the documents and the signature. */
  predicate Consistent(ps: seq<KioskProfile>)
  {
    forall i :: 0 <= i < |ps| ==> ps[i].canOperate == Ready(ps[i])
  }

  /** The user ids of the users that are not soft-deleted. */
  function LiveIds(users: seq<User>): set<int>
  {
    set u | u in users && Live(u) :: u.userId
  }

  // ---------------------------------------------------------------------------
  // Repository
  // ---------------------------------------------------------------------------

  /** `findByUserId`: the profile keyed by the user id. */
  function FindByUserId(ps: seq<KioskProfile>, userId: int): (r: Option<nat>)
    ensures r.Some? ==> r.value < |ps| && ps[r.value].userId == userId
    ensures r.None? <==> forall i :: 0 <= i < |ps| ==> ps[i].userId != userId
  {
    FirstWhere(ps, (p: KioskProfile) => p.userId == userId)
  }

  function KioskNameOf(p: KioskProfile): string { p.kioskName }

  function LegalNameOf(p: KioskProfile): string { p.fullLegalName }

  /** `findByKioskName` / `findByFullLegalName`: the first profile with the
      name whose user is live (the join on `user.deletedAt IS NULL`). */
  function FindByName(ps: seq<KioskProfile>, live: set<int>, field: KioskProfile -> string, name: string): (r: Option<nat>)
    ensures r.Some? ==> r.value < |ps| && field(ps[r.value]) == name && ps[r.value].userId in live
    ensures r.Some? ==> forall j :: 0 <= j < r.value ==> !(field(ps[j]) == name && ps[j].userId in live)
    ensures r.None? <==> forall i :: 0 <= i < |ps| ==> !(field(ps[i]) == name && ps[i].userId in live)
  {
    FirstWhere(ps, (p: KioskProfile) => field(p) == name && p.userId in live)
  }

  /** `save` keyed by the user id: the row with the id is replaced, or the
      profile is added. */
  function Save(ps: seq<KioskProfile>, p: KioskProfile): (r: seq<KioskProfile>)
    ensures FindByUserId(ps, p.userId).Some? ==> r == ps[FindByUserId(ps, p.userId).value := p]
    ensures FindByUserId(ps, p.userId).None? ==> r == ps + [p]
    ensures FindByUserId(r, p.userId).Some? && r[FindByUserId(r, p.userId).value] == p
  {
    match FindByUserId(ps, p.userId)
    case Some(i) =>
      FirstWhereFirst(ps[i := p], (q: KioskProfile) => q.userId == p.userId, i);
      ps[i := p]
    case None =>
      FirstWhereFirst(ps + [p], (q: KioskProfile) => q.userId == p.userId, |ps|);
      ps + [p]
  }

  /** No two profiles share a user id (the primary key). */
  predicate UniqueUserIds(ps: seq<KioskProfile>)
  {
    forall i, j :: 0 <= i < j < |ps| ==> ps[i].userId != ps[j].userId
  }

  /** No two live users' profiles share a non-empty name in `field`. */
  predicate UniqueLive(ps: seq<KioskProfile>, live: set<int>, field: KioskProfile -> string)
  {
    forall i, j ::
      (0 <= i < |ps| && 0 <= j < |ps| && i != j && ps[i].userId in live && ps[j].userId in live && field(ps[i]) != "")
      ==> field(ps[i]) != field(ps[j])
  }

  // ---------------------------------------------------------------------------
  // Creation
  // ---------------------------------------------------------------------------

  /** `create`: missing strings become '', the ID document is PENDING and
      the profile cannot operate. Saving onto an existing user id updates
      that row and keeps its signature, which the form does not set. */
  function Create(ps: seq<KioskProfile>, dto: KioskProfileDto): (r: seq<KioskProfile>)
    ensures var i := FindByUserId(r, dto.userId);
      i.Some? && r[i.value].fullLegalName == dto.fullLegalName.GetOr("") && r[i.value].idNumber == dto.idNumber.GetOr("")
      && r[i.value].kioskName == dto.kioskName.GetOr("") && r[i.value].kioskDescr == dto.kioskDescr.GetOr("")
      && r[i.value].documentsStatus == Some(map["ID" := Pending]) && !r[i.value].canOperate
    ensures FindByUserId(ps, dto.userId).None? ==> |r| == |ps| + 1 && r[|ps|].declarationSignedAt.None?
    ensures forall j :: 0 <= j < |ps| && ps[j].userId != dto.userId ==> j < |r| && r[j] == ps[j]
  {
    var signed := match FindByUserId(ps, dto.userId) case Some(i) => ps[i].declarationSignedAt case None => None;
    Save(ps, KioskProfile(dto.userId, dto.fullLegalName.GetOr(""), dto.idNumber.GetOr(""), dto.kioskName.GetOr(""),
                          dto.kioskDescr.GetOr(""), Some(map["ID" := Pending]), false, signed))
  }

  /** A new profile is not ready, so its flag is right. */
  lemma CreateKeepsConsistent(ps: seq<KioskProfile>, dto: KioskProfileDto)
    requires Consistent(ps)
    ensures Consistent(Create(ps, dto))
  {
    var r := Create(ps, dto);
    var docs := map["ID" := Pending];
    assert "ID" in docs && docs["ID"] != Valid;
    forall i | 0 <= i < |r|
      ensures r[i].canOperate == Ready(r[i])
    {
      if r[i].userId != dto.userId {
        assert i < |ps| && r[i] == ps[i];
      }
    }
  }

  // ---------------------------------------------------------------------------
  // ID number and names
  // ---------------------------------------------------------------------------

  /** `validateIdNumber`: a non-empty string with 7 to 10 digits once every
      non-digit is removed. */
  function ValidateIdNumber(idNumber: string): (ok: bool)
    ensures ok ==> |idNumber| >= 7
    ensures ok <==> idNumber != "" && 7 <= |DigitsOnly(idNumber)| <= 10
  {
    DigitsOnlyCount(idNumber);
    idNumber != "" && 7 <= CountDigits(idNumber) <= 10
  }

  /** `idNumber.replace(/\D/g, '')`. */
  function DigitsOnly(s: string): string
  {
    Filter(s, IsDigit)
  }

  /** Stripping the non-digits keeps exactly the digits. */
  lemma {:induction false} DigitsOnlyCount(s: string)
    ensures |DigitsOnly(s)| == CountDigits(s)
    ensures CountDigits(DigitsOnly(s)) == CountDigits(s)
  {
    DigitsOnlyLength(s);
    CountDigitsOfDigits(DigitsOnly(s));
  }

  lemma {:induction false} DigitsOnlyLength(s: string)
    ensures |DigitsOnly(s)| == CountDigits(s)
  {
    if |s| > 0 {
      DigitsOnlyLength(s[..|s| - 1]);
    }
  }

  /** In a string of digits every character counts. */
  lemma {:induction false} CountDigitsOfDigits(d: string)
    requires forall c :: c in d ==> IsDigit(c)
    ensures CountDigits(d) == |d|
  {
    if |d| > 0 {
      assert d[|d| - 1] in d;
      assert forall c :: c in d[..|d| - 1] ==> c in d;
      CountDigitsOfDigits(d[..|d| - 1]);
    }
  }

  /** Separators do not matter: a number is accepted exactly when its
      digits alone are. */
  lemma IdNumberIgnoresSeparators(s: string)
    requires s != ""
    ensures ValidateIdNumber(s) == ValidateIdNumber(DigitsOnly(s))
  {
    DigitsOnlyCount(s);
    DigitsOnlyCount(DigitsOnly(s));
    assert DigitsOnly(s) == "" ==> CountDigits(s) == 0;
  }

  /** The name check: an empty name is always free; otherwise the first
      live profile with the name, if any, must be the user's own. */
  function IsNameFree(ps: seq<KioskProfile>, live: set<int>, field: KioskProfile -> string, name: string, userId: int): (r: bool)
    ensures FindByName(ps, live, field, name).None? ==> r
    ensures r && name != "" && FindByName(ps, live, field, name).Some? ==> ps[FindByName(ps, live, field, name).value].userId == userId
  {
    if name == "" then true
    else
      match FindByName(ps, live, field, name)
      case None => true
      case Some(i) => ps[i].userId == userId
  }

  /** Under the uniqueness the check protects, a name is free exactly when
      no other live user's profile carries it. */
  lemma NameFreeMeansNoOther(ps: seq<KioskProfile>, live: set<int>, field: KioskProfile -> string, name: string, userId: int)
    requires UniqueLive(ps, live, field)
    ensures IsNameFree(ps, live, field, name, userId) <==>
      name == "" || forall i :: 0 <= i < |ps| && field(ps[i]) == name && ps[i].userId in live ==> ps[i].userId == userId
  {
    if name != "" {
      var f := FindByName(ps, live, field, name);
      if f.Some? {
        forall i | 0 <= i < |ps| && field(ps[i]) == name && ps[i].userId in live
          ensures i == f.value
        {
        }
      }
    }
  }

  /** Replacing one profile with a version whose name in `field` is the old
      one or passed the check keeps live names unique. */
  lemma PatchKeepsUnique(ps: seq<KioskProfile>, live: set<int>, field: KioskProfile -> string, k: nat, row: KioskProfile)
    requires k < |ps| && UniqueUserIds(ps) && UniqueLive(ps, live, field)
    requires row.userId == ps[k].userId
    requires field(row) == field(ps[k]) || IsNameFree(ps, live, field, field(row), row.userId)
    ensures UniqueLive(ps[k := row], live, field)
  {
    var r := ps[k := row];
    forall i, j | 0 <= i < |r| && 0 <= j < |r| && i != j && r[i].userId in live && r[j].userId in live && field(r[i]) != ""
      ensures field(r[i]) != field(r[j])
    {
      if (i == k || j == k) && field(row) != field(ps[k]) && field(row) != "" {
        var other := if i == k then j else i;
        assert field(ps[other]) != field(row);
      }
    }
  }

  // ---------------------------------------------------------------------------
  // Profile update
  // ---------------------------------------------------------------------------

  const IdNumberMessage: string := "ID number must have between 7 and 10 digits"
  const KioskNameTakenMessage: string := "Kiosk name is already taken"
  const LegalNameTakenMessage: string := "Full legal name is already registered"
  const NullStatusMessage: string := "Cannot set properties of null (setting 'ID')"

  /** The message names the user, and no other error reads the same. */
  function NotFoundMessage(userId: int): (r: string)
    ensures r != IdNumberMessage && r != KioskNameTakenMessage && r != LegalNameTakenMessage && r != NullStatusMessage
  {
    var r := "Kiosk's profile not found for user " + IntToString(userId);
    assert r[0] == 'K' && r[5] == '\'';
    assert IdNumberMessage[0] == 'I' && KioskNameTakenMessage[5] == ' ';
    assert LegalNameTakenMessage[0] == 'F' && NullStatusMessage[0] == 'C';
    r
  }

  /** The profile with the supplied fields of the form written over it. */
  function Patch(p: KioskProfile, dto: KioskProfileDto): KioskProfile
  {
    p.(fullLegalName := dto.fullLegalName.GetOr(p.fullLegalName),
       idNumber := dto.idNumber.GetOr(p.idNumber),
       kioskName := dto.kioskName.GetOr(p.kioskName),
       kioskDescr := dto.kioskDescr.GetOr(p.kioskDescr))
  }

  /** A supplied ID number is a valid one. */
  predicate IdNumberAccepted(dto: KioskProfileDto)
  {
    dto.idNumber.Some? ==> ValidateIdNumber(dto.idNumber.value)
  }

  /** A supplied kiosk name is free for the user. */
  predicate KioskNameAccepted(ps: seq<KioskProfile>, users: seq<User>, userId: int, dto: KioskProfileDto)
  {
    dto.kioskName.Some? ==> IsNameFree(ps, LiveIds(users), KioskNameOf, dto.kioskName.value, userId)
  }

  /** `updateProfile`: the profile must exist; a supplied ID number must be
      valid; a supplied kiosk name, then a supplied legal name, must not
      belong to another live user; then only the supplied fields change. */
  function UpdateProfile(ps: seq<KioskProfile>, users: seq<User>, userId: int, dto: KioskProfileDto): (r: Result<(seq<KioskProfile>, KioskProfile), string>)
    ensures r == Err(NotFoundMessage(userId)) <==> FindByUserId(ps, userId).None?
    ensures r == Err(IdNumberMessage) <==>
      FindByUserId(ps, userId).Some? && dto.idNumber.Some? && !ValidateIdNumber(dto.idNumber.value)
    ensures r == Err(KioskNameTakenMessage) <==>
      FindByUserId(ps, userId).Some? && IdNumberAccepted(dto)
      && dto.kioskName.Some? && !IsNameFree(ps, LiveIds(users), KioskNameOf, dto.kioskName.value, userId)
    ensures r == Err(LegalNameTakenMessage) <==>
      FindByUserId(ps, userId).Some? && IdNumberAccepted(dto) && KioskNameAccepted(ps, users, userId, dto)
      && dto.fullLegalName.Some? && !IsNameFree(ps, LiveIds(users), LegalNameOf, dto.fullLegalName.value, userId)
    ensures r.Ok? <==>
      FindByUserId(ps, userId).Some? && IdNumberAccepted(dto) && KioskNameAccepted(ps, users, userId, dto)
      && (dto.fullLegalName.Some? ==> IsNameFree(ps, LiveIds(users), LegalNameOf, dto.fullLegalName.value, userId))
    ensures r.Ok? ==> var i := FindByUserId(ps, userId).value;
      r.value.1 == Patch(ps[i], dto) && r.value.0 == ps[i := r.value.1]
  {
    var live := LiveIds(users);
    match FindByUserId(ps, userId)
    case None => Err(NotFoundMessage(userId))
    case Some(i) =>
      if dto.idNumber.Some? && !ValidateIdNumber(dto.idNumber.value) then
        Err(IdNumberMessage)
      else if dto.kioskName.Some? && !IsNameFree(ps, live, KioskNameOf, dto.kioskName.value, userId) then
        Err(KioskNameTakenMessage)
      else if dto.fullLegalName.Some? && !IsNameFree(ps, live, LegalNameOf, dto.fullLegalName.value, userId) then
        Err(LegalNameTakenMessage)
      else
        var row := Patch(ps[i], dto);
        Ok((ps[i := row], row))
  }

  /** Only the supplied fields change; the documents, the signature and the
      flag are untouched. */
  lemma UpdateChangesOnlySupplied(ps: seq<KioskProfile>, users: seq<User>, userId: int, dto: KioskProfileDto)
    requires UpdateProfile(ps, users, userId, dto).Ok?
    ensures var before := ps[FindByUserId(ps, userId).value];
      var row := UpdateProfile(ps, users, userId, dto).value.1;
      row.userId == userId
      && row.documentsStatus == before.documentsStatus && row.canOperate == before.canOperate
      && row.declarationSignedAt == before.declarationSignedAt
      && (dto.kioskName.None? ==> row.kioskName == before.kioskName)
      && (dto.kioskName.Some? ==> row.kioskName == dto.kioskName.value)
      && (dto.fullLegalName.None? ==> row.fullLegalName == before.fullLegalName)
      && (dto.idNumber.None? ==> row.idNumber == before.idNumber)
      && (dto.kioskDescr.None? ==> row.kioskDescr == before.kioskDescr)
  {
  }

  /** An update keeps live kiosk names and live legal names unique. */
  lemma UpdateKeepsNamesUnique(ps: seq<KioskProfile>, users: seq<User>, userId: int, dto: KioskProfileDto)
    requires UniqueUserIds(ps)
    requires UniqueLive(ps, LiveIds(users), KioskNameOf) && UniqueLive(ps, LiveIds(users), LegalNameOf)
    requires UpdateProfile(ps, users, userId, dto).Ok?
    ensures var after := UpdateProfile(ps, users, userId, dto).value.0;
      UniqueLive(after, LiveIds(users), KioskNameOf) && UniqueLive(after, LiveIds(users), LegalNameOf)
  {
    var i := FindByUserId(ps, userId).value;
    var row := Patch(ps[i], dto);
    PatchKeepsUnique(ps, LiveIds(users), KioskNameOf, i, row);
    PatchKeepsUnique(ps, LiveIds(users), LegalNameOf, i, row);
  }

  /** An update keeps every flag right. */
  lemma UpdateKeepsConsistent(ps: seq<KioskProfile>, users: seq<User>, userId: int, dto: KioskProfileDto)
    requires Consistent(ps)
    requires UpdateProfile(ps, users, userId, dto).Ok?
    ensures Consistent(UpdateProfile(ps, users, userId, dto).value.0)
  {
  }

  // ---------------------------------------------------------------------------
  // Document upload and declaration
  // ---------------------------------------------------------------------------

  /** What one call of the document validator did: it threw, or it returned
      a result with `is_valid`. */
  datatype Attempt = Threw | Returned(isValid: bool)

  /** The document types tried, in order. */
  const DocPriority: seq<string> := ["1", "2"]

  /** The attempt loop: each type in turn; a thrown call is skipped, a
      valid result stops the loop. The answer is the validity of the last
      result returned, or `None` when every call threw. */
  function RunAttempts(types: seq<string>, validate: string -> Attempt, last: Option<bool>): (r: Option<bool>)
    requires last != Some(true)
    ensures r == Some(true) <==> exists i :: 0 <= i < |types| && validate(types[i]) == Returned(true)
    ensures r.None? <==> last.None? && forall i :: 0 <= i < |types| ==> validate(types[i]).Threw?
    decreases |types|
  {
    if |types| == 0 then last
    else
      match validate(types[0])
      case Threw =>
        var r := RunAttempts(types[1..], validate, last);
        assert forall i :: 1 <= i < |types| ==> types[i] == types[1..][i - 1];
        r
      case Returned(v) =>
        if v then Some(true)
        else
          var r := RunAttempts(types[1..], validate, Some(false));
          assert forall i :: 1 <= i < |types| ==> types[i] == types[1..][i - 1];
          r
  }

  /** The status the ID document is given. */
  function IdVerdict(validate: string -> Attempt): DocStatus
  {
    if RunAttempts(DocPriority, validate, None) == Some(true) then Valid else Rejected
  }

  /** The result of an upload: the profiles, the profile and the validity of
      the last result the validator returned (`None` if every call threw). */
  datatype Upload = Upload(profiles: seq<KioskProfile>, profile: KioskProfile, validation: Option<bool>)

  /** `uploadIdDocument`: the profile must exist; the ID document is set
      VALID if type '1' or type '2' validated, REJECTED otherwise, and the
      flag is recomputed. A profile whose status column is null cannot take
      the assignment. */
  function UploadIdDocument(ps: seq<KioskProfile>, userId: int, validate: string -> Attempt): (r: Result<Upload, string>)
    ensures r == Err(NotFoundMessage(userId)) <==> FindByUserId(ps, userId).None?
    ensures r.Err? && FindByUserId(ps, userId).Some? ==> ps[FindByUserId(ps, userId).value].documentsStatus.None?
    ensures r.Ok? ==> var i := FindByUserId(ps, userId).value;
      r.value.profiles == ps[i := r.value.profile]
      && ps[i].documentsStatus.Some?
      && r.value.profile.documentsStatus == Some(ps[i].documentsStatus.value["ID" := IdVerdict(validate)])
      && r.value.profile.canOperate == Ready(r.value.profile)
      && r.value.profile == ps[i].(documentsStatus := r.value.profile.documentsStatus, canOperate := r.value.profile.canOperate)
  {
    match FindByUserId(ps, userId)
    case None => Err(NotFoundMessage(userId))
    case Some(i) =>
      match ps[i].documentsStatus
      case None => Err(NullStatusMessage)
      case Some(docs) =>
        var docs' := docs["ID" := IdVerdict(validate)];
        var row := ps[i].(documentsStatus := Some(docs'), canOperate := AllValid(docs') && ps[i].declarationSignedAt.Some?);
        Ok(Upload(ps[i := row], row, RunAttempts(DocPriority, validate, None)))
  }

  /** The ID document ends VALID exactly when one of the two document types
      validated. */
  lemma UploadVerdict(ps: seq<KioskProfile>, userId: int, validate: string -> Attempt)
    requires UploadIdDocument(ps, userId, validate).Ok?
    ensures var docs := UploadIdDocument(ps, userId, validate).value.profile.documentsStatus.value;
      "ID" in docs && (docs["ID"] == Valid <==> validate("1") == Returned(true) || validate("2") == Returned(true))
      && (docs["ID"] != Valid ==> docs["ID"] == Rejected)
  {
    assert DocPriority[0] == "1" && DocPriority[1] == "2";
  }

  /** A valid type '1' ends the loop: what type '2' would have given does
      not matter. */
  lemma FirstValidStops(ps: seq<KioskProfile>, userId: int, validate: string -> Attempt, other: string -> Attempt)
    requires validate("1") == Returned(true) && other("1") == Returned(true)
    ensures UploadIdDocument(ps, userId, validate) == UploadIdDocument(ps, userId, other)
  {
    assert DocPriority[0] == "1";
    assert IdVerdict(validate) == Valid && IdVerdict(other) == Valid;
  }

  /** `signDeclaration`: the profile must exist; the signature time is set
      and the flag recomputed, a missing status map counting as all valid. */
  function SignDeclaration(ps: seq<KioskProfile>, userId: int, now: int): (r: Result<(seq<KioskProfile>, KioskProfile), string>)
    ensures r.Err? <==> FindByUserId(ps, userId).None?
    ensures r.Err? ==> r.error == "Profile not found"
    ensures r.Ok? ==> var i := FindByUserId(ps, userId).value;
      r.value.0 == ps[i := r.value.1] && r.value.1.declarationSignedAt == Some(now)
      && (r.value.1.canOperate <==> AllValid(ps[i].documentsStatus.GetOr(map[])))
      && r.value.1 == ps[i].(declarationSignedAt := Some(now), canOperate := r.value.1.canOperate)
  {
    match FindByUserId(ps, userId)
    case None => Err("Profile not found")
    case Some(i) =>
      var row := ps[i].(declarationSignedAt := Some(now), canOperate := AllValid(ps[i].documentsStatus.GetOr(map[])));
      Ok((ps[i := row], row))
  }

  /** Signing with no document listed makes the profile ready at once. */
  lemma SignWithoutDocumentsOperates(ps: seq<KioskProfile>, userId: int, now: int)
    requires FindByUserId(ps, userId).Some?
    requires var p := ps[FindByUserId(ps, userId).value];
      p.documentsStatus.None? || p.documentsStatus == Some(map[])
    ensures SignDeclaration(ps, userId, now).Ok? && SignDeclaration(ps, userId, now).value.1.canOperate
  {
  }

  /** Upload and signature keep every flag right, so `canOperate` always
      means "every document VALID and the declaration signed". */
  lemma UploadAndSignKeepConsistent(ps: seq<KioskProfile>, userId: int, validate: string -> Attempt, now: int)
    requires Consistent(ps)
    ensures UploadIdDocument(ps, userId, validate).Ok? ==> Consistent(UploadIdDocument(ps, userId, validate).value.profiles)
    ensures SignDeclaration(ps, userId, now).Ok? ==> Consistent(SignDeclaration(ps, userId, now).value.0)
  {
  }

  /** Signing, then uploading an ID that validates, leaves a profile whose
      only document is the ID able to operate. */
  lemma SignThenValidIdOperates(ps: seq<KioskProfile>, userId: int, now: int, validate: string -> Attempt)
    requires FindByUserId(ps, userId).Some?
    requires ps[FindByUserId(ps, userId).value].documentsStatus == Some(map["ID" := Pending])
    requires validate("1") == Returned(true)
    ensures var signed := SignDeclaration(ps, userId, now).value.0;
      UploadIdDocument(signed, userId, validate).Ok? && UploadIdDocument(signed, userId, validate).value.profile.canOperate
  {
    var signed := SignDeclaration(ps, userId, now).value.0;
    var i := FindByUserId(ps, userId).value;
    assert signed[i].userId == userId;
    FirstWhereFirst(signed, (p: KioskProfile) => p.userId == userId, i);
    UploadVerdict(signed, userId, validate);
    var docs := UploadIdDocument(signed, userId, validate).value.profile.documentsStatus.value;
    assert docs == map["ID" := Valid];
  }
}
