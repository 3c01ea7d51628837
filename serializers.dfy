/** The checks and conversions of the API's serializers
    (backend/requestAPI/serializers.py): the role a user is given, the
    validation of a user's data on registration and on update, the password
    change, the coordinates of a building, the service icon, and the update
    of a user's fields. */
module Serializers {
  import opened Common
  import opened Db
  import Models
  import Text

  /** `get_user_type`: the role the web app acts on. */
  function UserType(u: User): (t: string)
    ensures t == "admin" <==> u.isSuperuser
    ensures t == "regular" <==> !u.isSuperuser
  {
    if u.isSuperuser then "admin" else "regular"
  }

  /** The role ignores `is_staff`, which the admin-only API endpoints check
      (`IsAdminUser`): a staff user who is not a superuser is "regular" to
      the web app. */
  lemma StaffAloneIsRegular(u: User)
    requires u.isStaff && !u.isSuperuser
    ensures UserType(u) == "regular"
  {
  }

  // ---------------------------------------------------------------------
  // `UserSerializer.validate`

  /** The fields `validate` reads; absent ones are `None`. */
  datatype UserInput = UserInput(username: Option<string>, email: Option<string>, password: Option<string>,
                                 password2: Option<string>, buildingIds: Option<seq<nat>>)

  /** A `ValidationError` on one field, or the `KeyError` that
      `data['email']` raises when the key is absent (a server error). */
  datatype ValidationError = FieldError(field: string, message: string) | KeyMissing(key: string)

  /** Python truthiness of an optional text. */
  predicate Truthy(o: Option<string>) {
    o.Some? && o.value != ""
  }

  predicate UsernameTaken(users: seq<User>, name: string) {
    exists i :: 0 <= i < |users| && users[i].username == name
  }

  /** Some user other than `except` has this email. */
  predicate EmailTaken(users: seq<User>, email: string, except: Option<nat>) {
    exists i :: 0 <= i < |users| && users[i].email == email && Some(users[i].id) != except
  }

  /** The building check as written: a non-empty `building_ids` is refused
      only when none of its ids exists (`not filter(id__in=ids).exists()`). */
  predicate BuildingIdsRefusedAsWritten(existing: seq<nat>, ids: Option<seq<nat>>) {
    ids.Some? && ids.value != [] && MatchedCount(existing, ids.value) == 0
  }

  /** The building check as its message ("One or more buildings do not
      exist.") states it: refused when any id does not exist. */
  predicate BuildingIdsRefused(existing: seq<nat>, ids: Option<seq<nat>>) {
    ids.Some? && ids.value != [] && !AllFound(existing, ids.value)
  }

  /** One existing and one unknown building are let through as written. */
  lemma UnknownBuildingAcceptedAsWritten(existing: seq<nat>, known: nat, unknown: nat)
    requires NoDuplicates(existing) && known in existing && unknown !in existing
    ensures !BuildingIdsRefusedAsWritten(existing, Some([known, unknown]))
    ensures BuildingIdsRefused(existing, Some([known, unknown]))
  {
    AllFoundIff(existing, [known, unknown]);
    assert known in Matched(existing, [known, unknown]);
  }

  /** `validate(data)`; `instance` is the user being updated, `None` on
      registration; `existing` the keys of the stored buildings. */
  function ValidateUser(instance: Option<User>, data: UserInput, users: seq<User>, existing: seq<nat>)
    : (r: Result<UserInput, ValidationError>)
    ensures r.Ok? ==> r.value == data
  {
    if instance.None? && !(Truthy(data.password) && Truthy(data.password2)) then
      Err(FieldError("password", "Both password fields are required."))
    else if instance.None? && data.password != data.password2 then
      Err(FieldError("password2", "Password fields didn't match."))
    else if instance.None? && data.username.None? then Err(KeyMissing("username"))
    else if instance.None? && UsernameTaken(users, data.username.value) then
      Err(FieldError("username", "Username is already taken."))
    else if instance.None? && data.email.None? then Err(KeyMissing("email"))
    else if instance.None? && EmailTaken(users, data.email.value, None) then
      Err(FieldError("email", "Email is already taken."))
    else if instance.Some? && EmailTaken(users, data.email.GetOr(instance.value.email), Some(instance.value.id)) then
      Err(FieldError("email", "A user with that email already exists."))
    else if BuildingIdsRefused(existing, data.buildingIds) then
      Err(FieldError("building_ids", "One or more buildings do not exist."))
    else Ok(data)
  }

  /** Registration is accepted exactly when both passwords are given and
      equal, the username and email are unused, and every building exists. */
  lemma RegistrationAcceptedIff(data: UserInput, users: seq<User>, existing: seq<nat>)
    requires NoDuplicates(existing)
    ensures ValidateUser(None, data, users, existing).Ok? <==>
      Truthy(data.password) && data.password == data.password2
      && data.username.Some? && !UsernameTaken(users, data.username.value)
      && data.email.Some? && !EmailTaken(users, data.email.value, None)
      && (data.buildingIds.Some? ==> forall b :: b in data.buildingIds.value ==> b in existing)
  {
    if data.buildingIds.Some? {
      AllFoundIff(existing, data.buildingIds.value);
    }
  }

  /** An accepted update leaves no other user with the email the user will
      have: the one sent, or the current one. */
  lemma UpdateEmailUnique(instance: User, data: UserInput, users: seq<User>, existing: seq<nat>)
    requires ValidateUser(Some(instance), data, users, existing).Ok?
    ensures forall i :: 0 <= i < |users| && users[i].id != instance.id ==>
      users[i].email != data.email.GetOr(instance.email)
  {
  }

  /** An update is never refused for its passwords or for a username, as
      these checks belong to registration. */
  lemma UpdateIgnoresPasswords(instance: User, data: UserInput, users: seq<User>, existing: seq<nat>)
    ensures var r := ValidateUser(Some(instance), data, users, existing);
      r.Err? ==> r.error.FieldError? && r.error.field in {"email", "building_ids"}
  {
  }

  // ---------------------------------------------------------------------
  // `UpdatePasswordSerializer`

  function ValidatePasswordChange(newPassword1: string, newPassword2: string): (r: Result<(), ValidationError>)
    ensures r.Ok? <==> newPassword1 == newPassword2
    ensures r.Err? ==> r.error == FieldError("new_password2", "The two passwords do not match.")
  {
    if newPassword1 != newPassword2 then Err(FieldError("new_password2", "The two passwords do not match."))
    else Ok(())
  }

  /** `validate_current_password`; `check_password` is modelled as
      comparison with the stored password. */
  function ValidateCurrentPassword(user: User, value: string): (r: Result<string, ValidationError>)
    ensures r.Ok? <==> value == user.password
    ensures r.Ok? ==> r.value == value
  {
    if value != user.password then Err(FieldError("current_password", "Current password is incorrect."))
    else Ok(value)
  }

  // ---------------------------------------------------------------------
  // `BuildingSerializer`

  /** One degree in the units of the coordinates (six decimal places). */
  const Degree: int := 1000000

  function ValidateLatitude(v: int): (r: Result<int, string>)
    ensures r.Ok? <==> -90 * Degree <= v <= 90 * Degree
    ensures r.Ok? ==> r.value == v
    ensures r.Err? ==> r.error == "Latitude must be between -90 and 90 degrees."
  {
    if v < -90 * Degree || v > 90 * Degree then Err("Latitude must be between -90 and 90 degrees.") else Ok(v)
  }

  function ValidateLongitude(v: int): (r: Result<int, string>)
    ensures r.Ok? <==> -180 * Degree <= v <= 180 * Degree
    ensures r.Ok? ==> r.value == v
    ensures r.Err? ==> r.error == "Longitude must be between -180 and 180 degrees."
  {
    if v < -180 * Degree || v > 180 * Degree then Err("Longitude must be between -180 and 180 degrees.") else Ok(v)
  }

  /** Every valid latitude is a valid longitude too. */
  lemma LatitudeRangeInsideLongitudeRange(v: int)
    requires ValidateLatitude(v).Ok?
    ensures ValidateLongitude(v).Ok?
  {
  }

  // ---------------------------------------------------------------------
  // `ServiceTypeSerializer`

  const MaxIconSize: nat := 1024 * 1024 * 5
  const AllowedTypes: seq<string> := ["image/jpeg", "image/png", "image/gif"]

  /** `validate_service_icon`, given the file's size and the type that
      `mimetypes.guess_type` gives for its name (`None` when it knows none). */
  function ValidateIcon(size: nat, fileType: Option<string>): (r: Result<(), string>)
    ensures r.Ok? <==> size <= MaxIconSize && fileType.Some? && fileType.value in AllowedTypes
    ensures size > MaxIconSize ==> r == Err("Image file size should not exceed 5MB.")
  {
    if size > MaxIconSize then Err("Image file size should not exceed 5MB.")
    else if fileType.None? || fileType.value !in AllowedTypes then
      Err("Unsupported file type: " + Models.PyText(fileType) + ". Only JPEG, PNG, and GIF are allowed.")
    else Ok(())
  }

  /** The answer of Python's standard type table for the three image types,
      by the extension of the name in either case; any other name gives
      `None` here. */
  function GuessImageType(name: string): (t: Option<string>)
    ensures t.Some? ==> t.value in AllowedTypes
  {
    var n := Text.ToLower(name);
    if Text.EndsWith(n, ".jpg") || Text.EndsWith(n, ".jpeg") || Text.EndsWith(n, ".jpe") then Some("image/jpeg")
    else if Text.EndsWith(n, ".png") then Some("image/png")
    else if Text.EndsWith(n, ".gif") then Some("image/gif")
    else None
  }

  /** A file of at most 5 MB whose name ends in `.png`, in any case, is
      accepted; a larger one never is. */
  lemma PngIconAccepted(size: nat, name: string)
    requires Text.EndsWith(Text.ToLower(name), ".png") && size <= MaxIconSize
    ensures ValidateIcon(size, GuessImageType(name)).Ok?
  {
  }

  /** Schemes `to_representation` collapses. */
  const DoubledScheme: string := "https://https://"
  const Scheme: string := "https://"

  /** The icon URL as `to_representation` sends it: line breaks removed,
      surrounding white space stripped, and a doubled leading scheme
      collapsed once. */
  function CleanIconUrl(url: string): string {
    var c := Text.Trim(Text.RemoveChar(Text.RemoveChar(url, '\n'), '\r'), Text.IsPySpace);
    if Text.StartsWith(c, DoubledScheme) then Text.ReplaceFirst(c, DoubledScheme, Scheme) else c
  }

  /** The URL with breaks removed and trimmed, before the scheme fix. */
  function Stripped(url: string): (c: string)
    ensures '\n' !in c && '\r' !in c
    ensures c != [] ==> !Text.IsPySpace(c[0]) && !Text.IsPySpace(c[|c| - 1])
  {
    var b := Text.RemoveChar(Text.RemoveChar(url, '\n'), '\r');
    Text.TrimKeepsChars(b, Text.IsPySpace);
    Text.Trim(b, Text.IsPySpace)
  }

  /** The cleaned URL has no line break, and a doubled scheme at its start
      is replaced by a single one. */
  lemma {:induction false} CleanIconUrlShape(url: string)
    ensures var c := Stripped(url);
      CleanIconUrl(url) == (if Text.StartsWith(c, DoubledScheme) then Scheme + c[|DoubledScheme|..] else c)
    ensures '\n' !in CleanIconUrl(url) && '\r' !in CleanIconUrl(url)
  {
    var c := Stripped(url);
    assert CleanIconUrl(url) == (if Text.StartsWith(c, DoubledScheme) then Text.ReplaceFirst(c, DoubledScheme, Scheme) else c);
    if Text.StartsWith(c, DoubledScheme) {
      var tail := c[|DoubledScheme|..];
      assert Text.IndexOf(c, DoubledScheme) == 0;
      assert Text.ReplaceFirst(c, DoubledScheme, Scheme) == Scheme + tail by {
        assert c[..0] + Scheme + tail == Scheme + tail;
      }
      assert DoubledScheme[|Scheme|..] == Scheme;
      assert Scheme + tail == c[|Scheme|..] by {
        assert c[|Scheme|..|DoubledScheme|] == DoubledScheme[|Scheme|..];
        assert c[|Scheme|..] == c[|Scheme|..|DoubledScheme|] + tail;
      }
      assert forall x :: x in c[|Scheme|..] ==> x in c;
    }
  }

  /** A URL that needs no cleaning is sent unchanged. */
  lemma {:induction false} CleanIconUrlKeepsCleanUrl(url: string)
    requires '\n' !in url && '\r' !in url
    requires url != [] ==> !Text.IsPySpace(url[0]) && !Text.IsPySpace(url[|url| - 1])
    requires !Text.StartsWith(url, DoubledScheme)
    ensures CleanIconUrl(url) == url
  {
    RemoveAbsentChar(url, '\n');
    RemoveAbsentChar(url, '\r');
  }

  lemma {:induction false} RemoveAbsentChar(s: string, c: char)
    requires c !in s
    ensures Text.RemoveChar(s, c) == s
  {
    if s != [] {
      RemoveAbsentChar(s[1..], c);
      assert s == [s[0]] + s[1..];
    }
  }

  /** The `service_icon` of the representation: the cleaned URL when the
      type has an icon, the serializer's own empty value otherwise. */
  function IconInRepresentation(iconName: string, iconUrl: string): (r: Option<string>)
    ensures r.Some? <==> iconName != ""
    ensures r.Some? ==> '\n' !in r.value && '\r' !in r.value
  {
    CleanIconUrlShape(iconUrl);
    if iconName == "" then None else Some(CleanIconUrl(iconUrl))
  }

  // ---------------------------------------------------------------------
  // `UserSerializer.update`

  /** `setattr(instance, attr, value)` for a field of the user;
      `password2` is not one and is not stored. */
  function SetAttr(u: User, attr: string, value: string): User {
    if attr == "username" then u.(username := value)
    else if attr == "email" then u.(email := value)
    else if attr == "first_name" then u.(firstName := value)
    else if attr == "last_name" then u.(lastName := value)
    else u
  }

  /** The fields of `validated_data` applied in order. */
  function SetAll(u: User, items: seq<(string, string)>): User {
    if items == [] then u
    else SetAttr(SetAll(u, items[..|items| - 1]), items[|items| - 1].0, items[|items| - 1].1)
  }

  /** The value of a stored text field by its name. */
  function Field(u: User, attr: string): Option<string> {
    if attr == "username" then Some(u.username)
    else if attr == "email" then Some(u.email)
    else if attr == "first_name" then Some(u.firstName)
    else if attr == "last_name" then Some(u.lastName)
    else None
  }

  predicate KeysDistinct(items: seq<(string, string)>) {
    forall i, j :: 0 <= i < j < |items| ==> items[i].0 != items[j].0
  }

  /** Each field given gets its value, each field not given keeps its own,
      and the key and the privilege flags never change. */
  lemma {:induction false} SetAllFields(u: User, items: seq<(string, string)>, attr: string)
    requires KeysDistinct(items)
    ensures var t := SetAll(u, items);
      t.id == u.id && t.isStaff == u.isStaff && t.isSuperuser == u.isSuperuser && t.password == u.password
    ensures forall i :: 0 <= i < |items| && items[i].0 == attr && Field(u, attr).Some? ==>
      Field(SetAll(u, items), attr) == Some(items[i].1)
    ensures (forall i :: 0 <= i < |items| ==> items[i].0 != attr) ==> Field(SetAll(u, items), attr) == Field(u, attr)
  {
    if items != [] {
      var k := |items| - 1;
      var init := items[..k];
      assert KeysDistinct(init);
      SetAllFields(u, init, attr);
      FieldAfterSet(SetAll(u, init), items[k].0, items[k].1, attr);
      assert forall i :: 0 <= i < k ==> init[i] == items[i];
    }
  }

  /** One `setattr` changes the field it names, when it is one, and no
      other. */
  lemma FieldAfterSet(t: User, a: string, v: string, attr: string)
    ensures Field(SetAttr(t, a, v), attr) == if a == attr && Field(t, attr).Some? then Some(v) else Field(t, attr)
    ensures var t' := SetAttr(t, a, v);
      t'.id == t.id && t'.isStaff == t.isStaff && t'.isSuperuser == t.isSuperuser && t'.password == t.password
  {
  }

  /** The password after `update`: set when a non-empty one was sent. */
  function WithPassword(u: User, password: Option<string>): User {
    if Truthy(password) then u.(password := password.value) else u
  }

  /** The `setattr` loop of `update`: each validated field in turn, never
      the key or the flags. */
  method SetFields(instance: User, items: seq<(string, string)>) returns (u: User)
    ensures u == SetAll(instance, items)
    ensures u.id == instance.id && u.isStaff == instance.isStaff && u.isSuperuser == instance.isSuperuser
  {
    u := instance;
    var i := 0;
    while i < |items|
      invariant 0 <= i <= |items|
      invariant u == SetAll(instance, items[..i])
      invariant u.id == instance.id && u.isStaff == instance.isStaff && u.isSuperuser == instance.isSuperuser
    {
      assert items[..i + 1][..i] == items[..i];
      u := SetAttr(u, items[i].0, items[i].1);
      i := i + 1;
    }
    assert items[..i] == items;
  }

  /** `update(instance, validated_data)`: the fields are set one by one, the
      password when one was sent, and the buildings replaced when
      `building_ids` was sent; then the user is saved. */
  method UpdateUser(db: Database, instance: User, items: seq<(string, string)>, password: Option<string>,
                    buildingIds: Option<seq<nat>>) returns (saved: User)
    requires db.Valid() && FindUser(db.users, instance.id).Some?
    modifies db`users, db`buildings
    ensures saved == WithPassword(SetAll(instance, items), password)
    ensures saved.id == instance.id && saved.isStaff == instance.isStaff && saved.isSuperuser == instance.isSuperuser
    ensures db.users == ReplaceUser(old(db.users), saved)
    ensures db.buildings ==
      (if buildingIds.Some? then WithUserBuildings(old(db.buildings), instance.id, Elements(buildingIds.value))
       else old(db.buildings))
    ensures db.Valid()
  {
    var u := SetFields(instance, items);
    if Truthy(password) {
      u := u.(password := password.value);
    }
    saved := u;
    var users := ReplaceUser(db.users, saved);
    ReplaceUserKeepsKeys(db.users, saved);
    if buildingIds.Some? {
      var buildings := WithUserBuildings(db.buildings, instance.id, Elements(buildingIds.value));
      UserBuildingsKeepKeys(db.buildings, instance.id, Elements(buildingIds.value));
      db.buildings := buildings;
    }
    db.users := users;
  }
}
