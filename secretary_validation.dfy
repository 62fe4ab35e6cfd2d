/** `Secretaries_model::validate`: the chain of rejection rules a secretary record must
    pass before it is saved, as written and as evidently intended. */
module SecretaryValidation {
  import opened Php
  import opened SecretaryRecords

  /** MIN_PASSWORD_LENGTH. */
  const MinPasswordLength: nat := 7

  /** CALENDAR_VIEW_DEFAULT and CALENDAR_VIEW_TABLE. */
  const CalendarViewDefault: string := "default"
  const CalendarViewTable: string := "table"

  /** `validate` tests `$provider['id']` and `$provider['providers']`, but never assigns
      `$provider`: PHP reads the undefined variable as null, and indexing null gives null. */
  const UndefinedProviderId: Scalar := Null
  const UndefinedProviderProviders: ProviderField := NotArray(Null)

  // The rules, one predicate each, in the order `validate` applies them.

  predicate RequiredFieldsPresent(s: Secretary)
  {
    && !Empty(Column(s.columns, "first_name"))
    && !Empty(Column(s.columns, "last_name"))
    && !Empty(Column(s.columns, "email"))
    && !Empty(Column(s.columns, "phone_number"))
  }

  predicate EmailValid(s: Secretary, b: Builtins)
  {
    b.validEmail(Text(Column(s.columns, "email")))
  }

  /** Every provider entry is numeric; a non-array is not iterated at all. */
  predicate ProvidersNumeric(p: ProviderField, b: Builtins)
  {
    p.Items? ==> forall i :: 0 <= i < |p.ids| ==> IsNumeric(p.ids[i], b)
  }

  /** A non-empty username is not held by another user (`validate_username`, whose
      `string $username` receives the value as a string). */
  predicate UsernameRule(userSettings: map<int, Row>, s: Secretary)
  {
    var u := s.Setting("username");
    !Empty(u) ==> UsernameFree(userSettings, Text(u), s.id)
  }

  /** A non-empty password has at least MIN_PASSWORD_LENGTH characters (`strlen`). */
  predicate PasswordLengthRule(s: Secretary)
  {
    var pw := s.Setting("password");
    !Empty(pw) ==> |Text(pw)| >= MinPasswordLength
  }

  /** A record without an id carries a password. */
  predicate PasswordPresentRule(s: Secretary)
  {
    EmptyId(s.id) ==> !Empty(s.Setting("password"))
  }

  /** A non-empty calendar view is one of the two known views (`in_array`). */
  predicate CalendarViewRule(s: Secretary)
  {
    var v := s.Setting("calendar_view");
    !Empty(v) ==> v == Str(CalendarViewDefault) || v == Str(CalendarViewTable)
  }

  predicate EmailUniqueRule(users: map<int, Row>, roles: map<string, int>, s: Secretary)
  {
    !EmailTaken(users, roles, Column(s.columns, "email"), s.id)
  }

  /** The rules that follow the providers check. */
  predicate LaterRules(users: map<int, Row>, userSettings: map<int, Row>, roles: map<string, int>, s: Secretary)
  {
    && UsernameRule(userSettings, s)
    && PasswordLengthRule(s)
    && PasswordPresentRule(s)
    && CalendarViewRule(s)
    && EmailUniqueRule(users, roles, s)
  }

  /** The chain of `validate`, with the two values its id and providers checks test given
      as `guardId` and `guardProviders`; the bodies of those checks read the secretary. */
  function ValidateChecks(users: map<int, Row>, userSettings: map<int, Row>, roles: map<string, int>,
                          s: Secretary, b: Builtins, guardId: Scalar, guardProviders: ProviderField): (r: Outcome)
    ensures r.Fail? ==> r.error.InvalidArgument?
    ensures !Empty(guardId) && !(s.id.Some? && s.id.value in users) ==> r == Fail(InvalidArgument(UnknownId))
    ensures r.Pass? ==>
      && RequiredFieldsPresent(s) && EmailValid(s, b)
      && guardProviders.Items? && !ProvidersEmpty(guardProviders) && ProvidersNumeric(s.providers, b)
      && LaterRules(users, userSettings, roles, s)
  {
    var email := Column(s.columns, "email");
    var username := s.Setting("username");
    var password := s.Setting("password");
    var view := s.Setting("calendar_view");
    if !Empty(guardId) && !(s.id.Some? && s.id.value in users) then Fail(InvalidArgument(UnknownId))
    else if !RequiredFieldsPresent(s) then Fail(InvalidArgument(MissingRequiredField))
    else if !b.validEmail(Text(email)) then Fail(InvalidArgument(InvalidEmail))
    else if ProvidersEmpty(guardProviders) || !guardProviders.Items? then Fail(InvalidArgument(InvalidProviders))
    else if s.providers.Items? && exists i :: 0 <= i < |s.providers.ids| && !IsNumeric(s.providers.ids[i], b) then
      Fail(InvalidArgument(InvalidProviders))
    else if !Empty(username) && !UsernameFree(userSettings, Text(username), s.id) then Fail(InvalidArgument(UsernameInUse))
    else if !Empty(password) && |Text(password)| < MinPasswordLength then Fail(InvalidArgument(PasswordTooShort))
    else if EmptyId(s.id) && Empty(password) then Fail(InvalidArgument(PasswordRequired))
    else if !Empty(view) && view != Str(CalendarViewDefault) && view != Str(CalendarViewTable) then
      Fail(InvalidArgument(InvalidCalendarView))
    else if EmailTaken(users, roles, email, s.id) then Fail(InvalidArgument(EmailInUse))
    else Pass
  }

  /** `validate` as written: both checks test the undefined `$provider`. It never looks the
      id up, and it rejects every record: the first two rules it can fail, and otherwise
      the providers check. */
  function Validate(users: map<int, Row>, userSettings: map<int, Row>, roles: map<string, int>,
                    s: Secretary, b: Builtins): (r: Outcome)
    ensures r == Fail(InvalidArgument(
      if !RequiredFieldsPresent(s) then MissingRequiredField
      else if !EmailValid(s, b) then InvalidEmail
      else InvalidProviders))
  {
    ValidateChecks(users, userSettings, roles, s, b, UndefinedProviderId, UndefinedProviderProviders)
  }

  /** As written, a record whose id names no user is never reported as such. */
  lemma ValidateSkipsIdCheck(users: map<int, Row>, userSettings: map<int, Row>, roles: map<string, int>,
                             s: Secretary, b: Builtins)
    ensures Validate(users, userSettings, roles, s, b) != Fail(InvalidArgument(UnknownId))
  {
  }

  /** As written, `validate` accepts nothing, so `save` never reaches `insert` or `update`. */
  lemma ValidateAlwaysFails(users: map<int, Row>, userSettings: map<int, Row>, roles: map<string, int>,
                            s: Secretary, b: Builtins)
    ensures Validate(users, userSettings, roles, s, b).Fail?
  {
  }

  /** `validate` with both checks reading `$secretary`. */
  function ValidateIntended(users: map<int, Row>, userSettings: map<int, Row>, roles: map<string, int>,
                            s: Secretary, b: Builtins): Outcome
  {
    ValidateChecks(users, userSettings, roles, s, b, IdScalar(s.id), s.providers)
  }

  /** What a record must satisfy to be saved, as a conjunction of the rules. */
  predicate IntendedRules(users: map<int, Row>, userSettings: map<int, Row>, roles: map<string, int>,
                          s: Secretary, b: Builtins)
  {
    && (!EmptyId(s.id) ==> s.id.value in users)
    && RequiredFieldsPresent(s)
    && EmailValid(s, b)
    && s.providers.Items? && s.providers.ids != [] && ProvidersNumeric(s.providers, b)
    && LaterRules(users, userSettings, roles, s)
  }

  /** The intended `validate` accepts exactly the records that satisfy every rule. */
  lemma ValidateIntendedExact(users: map<int, Row>, userSettings: map<int, Row>, roles: map<string, int>,
                              s: Secretary, b: Builtins)
    ensures ValidateIntended(users, userSettings, roles, s, b) == Pass <==> IntendedRules(users, userSettings, roles, s, b)
  {
  }

  /** The intended `validate` rejects an id that names no user, before any other rule. */
  lemma ValidateIntendedChecksId(users: map<int, Row>, userSettings: map<int, Row>, roles: map<string, int>,
                                 s: Secretary, b: Builtins)
    requires !EmptyId(s.id) && s.id.value !in users
    ensures ValidateIntended(users, userSettings, roles, s, b) == Fail(InvalidArgument(UnknownId))
  {
  }
}
