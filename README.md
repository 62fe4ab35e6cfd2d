# Easy!Appointments secretaries: a Dafny model

This project models three pieces of Easy!Appointments:

- **The secretaries model.** It checks a secretary record against the validation rules. It writes records to the `users`, `user_settings` and `secretaries_providers` tables (insert, update, delete, settings, provider connections). It reads records back with `find`, `value`, `get_setting` and `attach`.
- **The `setting` helper.** It reads one session value, or writes several.
- **The calendar event popover.** It builds link targets: a Google Maps link from a user's address fields, a `mailto:` link and a `tel:` link.

The files and modules are:

- `php.dfy` (module `Php`): the PHP semantics the model relies on.
  - Scalar values and `empty()`.
  - The coercions PHP applies when a value meets a `string` parameter or return type:
    - null is a `TypeError`;
    - an integer becomes its decimal notation.
  - Ordered arrays with string keys.
- `secretary_records.dfy` (module `SecretaryRecords`):
  - the input array of `save`, split into its parts;
  - the records `find` and `attach` return;
  - the queries over the connection table, the username and email rules, and the settings view;
  - the lemmas about these.
- `secretary_validation.dfy` (module `SecretaryValidation`): `validate`, both as written and as evidently intended.
- `secretaries_model.dfy` (module `SecretariesModel`):
  - `value` and `get_setting`, as functions of the tables;
  - the class `Secretaries`, which holds the tables as fields. Its methods mirror the model's methods: `validate_username`, `set_setting`, `save_settings`, `save_provider_ids`, `insert`, `update`, `delete`, `find` and `attach`.
- `setting_helper.dfy` (module `SettingHelper`): the class `Session` with the `setting` helper as a method, plus lemmas that relate writes to later reads.
- `calendar_event_popover.dfy` (module `CalendarEventPopover`): the link targets of the three popover icons.

### How the tables are modelled

- The `users` and `user_settings` tables are maps from user id to row. A row maps column names to scalars.
- `secretaries_providers` is a sequence of connection rows, in table order.
- The `roles` table is a map from slug to role id.
- Inserted user ids come from an auto-increment counter. `Secretaries.Valid` keeps two facts: every row's `id` column equals its key, and every key is below the counter.

## Model

| member | source | states |
|---|---|---|
| SecretaryValidation.ValidateChecks | application/models/Secretaries_model.php:63-163 | The rule chain of `validate`, in source order. Every rejection is an InvalidArgumentException. A non-empty id guard whose id names no user is rejected before anything else. Acceptance implies every rule holds: required fields, a valid email, a non-empty providers array of numeric entries, a free username, the password length, a password for new records, a known calendar view, and a unique email. |
| SecretaryValidation.Validate | application/models/Secretaries_model.php:63-163 | As written, the id and providers guards read the undefined `$provider`. So `validate` rejects every record: with the first failing of the required-fields and email rules, otherwise with the providers error. |
| SecretaryValidation.ValidateSkipsIdCheck | application/models/Secretaries_model.php:66-74 | As written, no record is rejected because its id names no user. |
| SecretaryValidation.ValidateAlwaysFails | application/models/Secretaries_model.php:94-97 | As written, `validate` fails on every input, so `save` never reaches `insert` or `update`. |
| SecretaryValidation.ValidateIntendedExact | application/models/Secretaries_model.php:63-163 | With both guards reading `$secretary`, `validate` accepts a record if and only if it satisfies every rule: an existing id when one is given, the required fields, a valid email, a non-empty providers array of numeric entries, and the later rules. |
| SecretaryValidation.ValidateIntendedChecksId | application/models/Secretaries_model.php:66-74 | With the guard reading `$secretary`, a non-empty id that names no user is rejected with the unknown-id error, before any other rule. |
| SecretaryRecords.IdScalar | application/models/Secretaries_model.php:46 | `empty($secretary['id'])` holds exactly when the id is absent, null or 0. |
| SecretaryRecords.ConnectionsOf | application/models/Secretaries_model.php:299 | The connection rows selected for a secretary are exactly that secretary's rows. |
| SecretaryRecords.ConnectedProvidersMembership | application/models/Secretaries_model.php:299-306 | A provider is in the list `find` builds if and only if the connection table holds the pair (secretary, provider). |
| SecretaryRecords.SaveKeepsOldConnections | application/models/Secretaries_model.php:488-502 | As written, after `save_provider_ids` the secretary's provider list is the old list followed by the new ids. Other secretaries' lists are unchanged. |
| SecretaryRecords.SaveKeepsOldConnectionsExample | application/models/Secretaries_model.php:491 | Secretary 1, connected to provider 2 and saved with providers [3], is afterwards reported with [2, 3]. |
| SecretaryRecords.ReplaceConnectionsExact | application/models/Secretaries_model.php:488-502 | With the delete on `secretaries_providers`, the secretary's list becomes exactly the new ids. Other secretaries' lists are unchanged. |
| SecretaryRecords.ProviderRowsOf | application/models/Secretaries_model.php:571-579 | The rows `attach` joins in are exactly the `users` rows of providers that the secretary is connected to: every returned row is such a row, and every connected provider that is a user is returned. There is at most one per connection row of the secretary, and none for a null id. |
| SecretaryRecords.UsernameFreeIgnoresOwnRow | application/models/Secretaries_model.php:173-181 | With a non-empty id, the user's own settings row never decides whether a username is free. |
| SecretaryRecords.UsernameTakenByOther | application/models/Secretaries_model.php:173-181 | A username held by a user other than `id` is not free. |
| SecretaryRecords.SettingsView | application/models/Secretaries_model.php:291-297 | The settings `find` returns never contain `id_users`, `password` or `salt`. Every other column of the stored row is returned unchanged. A user without a settings row gets an empty array. |
| SecretaryRecords.WriteSettingsKeepsOthers | application/models/Secretaries_model.php:441-444 | Saving settings leaves every column not among their keys as it was. |
| SecretaryRecords.WriteSettingsStores | application/models/Secretaries_model.php:441-460 | Without null values, every saved entry is stored as a string. |
| Php.StringArg | application/models/Secretaries_model.php:454 | A value passed to `string $value` is refused (TypeError) if and only if it is null. An integer becomes a non-empty decimal string that is "0" exactly for 0. |
| Php.NatToStringRoundTrip | application/models/Secretaries_model.php:454 | The decimal string PHP writes for an integer setting reads back as the same number. |
| Php.Put | application/models/Secretaries_model.php:209-210 | After `$a[$k] = $v`, `$a[$k]` reads `v`, every other key reads as before, and no other entry is added. |
| Php.PutKeepsUniqueKeys | application/models/Secretaries_model.php:209-210 | Assigning into an array keeps its keys unique. |
| Php.GetEntry | application/models/Secretaries_model.php:441 | In an array, `$a[$k]` is the value of the entry whose key is `k`. |
| SecretariesModel.SecretaryRoleId | application/models/Secretaries_model.php:406-416 | The role id is found if and only if a role has the secretary slug, and it is that role's id. Otherwise a RuntimeException is thrown. |
| SecretariesModel.Value | application/models/Secretaries_model.php:321-349 | An empty field name or id is an InvalidArgumentException, and so is an unknown id. A field the row does not hold is an InvalidArgumentException. A field holding null is a TypeError (the `: string` return type). The call succeeds if and only if the row holds the field with a non-null value, which is returned as a string. |
| SecretariesModel.GetSetting | application/models/Secretaries_model.php:470-479 | The call succeeds if and only if the user has a settings row whose value is not `empty()`. That value is returned as a non-empty string other than "0". Otherwise a RuntimeException is thrown. |
| SecretariesModel.SaveThenGetSetting | application/models/Secretaries_model.php:426-479 | A setting saved by `save_settings`, with no nulls and a non-empty value, is what `get_setting` returns. A setting named `id_users` is kept as an ordinary column (see "Left out"). |
| SecretariesModel.InsertThenValue | application/models/Secretaries_model.php:192-216 | A column `insert` writes is what `value` returns for the new id. |
| SecretariesModel.DeleteThenValue | application/models/Secretaries_model.php:265-271 | After `delete`, `value` reports the id as not found. |
| SecretariesModel.InsertStoresSaltAndHash | application/models/Secretaries_model.php:209-213 | `insert` stores the generated salt and the password hashed with that salt. Every other setting is stored as given, as a string. A setting named `id_users` is kept as an ordinary column (see "Left out"). |
| SecretariesModel.WriteSettingsGet | application/models/Secretaries_model.php:441-444 | Each key of saved settings without nulls holds its value as a string. |
| SecretariesModel.FirstUnsupported | application/models/Secretaries_model.php:567-585 | The position of the first resource name that is not `providers`: every name before it is `providers`. |
| SecretariesModel.Secretaries.ValidateUsername | application/models/Secretaries_model.php:173-181 | Returns true if and only if no settings row of another user holds the username. When the id is empty, every user counts as another user. |
| SecretariesModel.Secretaries.SetSetting | application/models/Secretaries_model.php:454-460 | A null value is a TypeError and changes nothing. Otherwise the user's settings row gets the value as a string, and only when the row exists. A setting named `id_users` is kept as an ordinary column (see "Left out"). |
| SecretariesModel.Secretaries.SaveSettings | application/models/Secretaries_model.php:426-445 | Empty settings are an InvalidArgumentException. Otherwise the settings row is created if missing and the entries are written in order. The first null value stops with a TypeError. A setting named `id_users` is kept as an ordinary column (see "Left out"). |
| SecretariesModel.Secretaries.SaveProviderIds | application/models/Secretaries_model.php:488-502 | As written, the connection table becomes the old table followed by one row per given id, in order. Nothing is deleted. |
| SecretariesModel.Secretaries.ReplaceProviderIds | application/models/Secretaries_model.php:488-502 | With the delete on the connection table, the table becomes the other secretaries' rows followed by one row per given id. |
| SecretariesModel.Secretaries.SaveRelated | application/models/Secretaries_model.php:212-213 | The tail of `insert` and `update`. Null settings are a TypeError (`array $settings`) and nothing is saved. Otherwise the settings are saved; then a non-array providers value is a TypeError, and otherwise the ids are saved. A setting named `id_users` is kept as an ordinary column (see "Left out"). |
| SecretariesModel.Secretaries.Insert | application/models/Secretaries_model.php:192-216 | Without a secretary role, a RuntimeException and no change. Otherwise: <br>• the user row is stored under a fresh id, with the role; <br>• the settings are saved with a new salt and the hashed password (a missing or null settings entry becomes an array holding just those two); <br>• the providers are saved; <br>• the id is returned; <br>• the table invariant is kept. A setting named `id_users` is kept as an ordinary column (see "Left out"). |
| SecretariesModel.Secretaries.Update | application/models/Secretaries_model.php:227-256 | A set password for a user without a settings row is a RuntimeException with no change. Otherwise: <br>• the password is hashed with the stored salt; <br>• the stored row is overwritten by the given columns; <br>• a missing or null settings entry is then a TypeError, with the users row already written; <br>• otherwise settings and providers are saved and the id is returned. A setting named `id_users` is kept as an ordinary column (see "Left out"). |
| SecretariesModel.Secretaries.Delete | application/models/Secretaries_model.php:265-271 | Removes exactly the user row and keeps the table invariant. |
| SecretariesModel.Secretaries.Find | application/models/Secretaries_model.php:282-309 | An unknown id is an InvalidArgumentException. Otherwise it returns: <br>• the user row; <br>• the settings without the secret columns; <br>• the connected provider ids, in table order. |
| SecretariesModel.Secretaries.Attach | application/models/Secretaries_model.php:560-586 | An empty record or resource list is returned unchanged. Otherwise each leading `providers` sets the joined provider rows. The first other name is an InvalidArgumentException, and what was attached before it is kept. |
| SettingHelper.Lookup | application/helpers/setting_helper.php:56-58 | The read returns the session value unless it is missing or null, in which case it returns the default. |
| SettingHelper.Session.Setting | application/helpers/setting_helper.php:36-59 | An `empty()` key is an InvalidArgumentException. An array key writes each entry into the session in order and returns null. Any other key reads the named entry, falling back to the default. |
| SettingHelper.AssignKeepsOthers | application/helpers/setting_helper.php:46-54 | Writing an array of entries never touches a session key it does not name. |
| SettingHelper.AssignStores | application/helpers/setting_helper.php:46-54 | Every entry of the written array is in the session afterwards, with its value. |
| SettingHelper.SetThenGet | application/helpers/setting_helper.php:46-58 | A value written through `setting([...])` is what `setting(name, default)` reads back, unless it is null, when the default is returned. |
| SettingHelper.SetKeepsOtherReads | application/helpers/setting_helper.php:46-58 | Writing entries leaves what `setting` reads for every other name unchanged. |
| CalendarEventPopover.MapPartsFields | assets/js/utils/calendar_event_popover.js:28-44 | The address parts are the truthy fields among address, city, state and zip code, in that order. |
| CalendarEventPopover.RenderMapIcon | assets/js/utils/calendar_event_popover.js:27-63 | No truthy field gives no icon. Otherwise the link is the Google Maps prefix followed by the parts joined with commas. |
| CalendarEventPopover.NoIconIffNoAddress | assets/js/utils/calendar_event_popover.js:46-48 | The map icon is left out if and only if none of the four fields is truthy. |
| CalendarEventPopover.MapPartsAreFields | assets/js/utils/calendar_event_popover.js:30-44 | There are at most four parts, and each is the text of a truthy field. |
| CalendarEventPopover.JoinSplitRoundTrip | assets/js/utils/calendar_event_popover.js:53 | Joining non-empty parts that contain no separator and splitting the result gives the parts back. |
| CalendarEventPopover.MapLinkRecoversParts | assets/js/utils/calendar_event_popover.js:53 | The map link starts with the Google Maps prefix. When no part contains a comma, the rest of it splits back into the address parts. |
| CalendarEventPopover.CommaInFieldIsAmbiguous | assets/js/utils/calendar_event_popover.js:53 | An address "a,b" and the fields "a" and "b" give the same link, so the comma condition above is needed. |
| CalendarEventPopover.MailHref | assets/js/utils/calendar_event_popover.js:78 | The mail link is `mailto:` followed by the value as a string. |
| CalendarEventPopover.MailHrefDistinguishes | assets/js/utils/calendar_event_popover.js:78 | Two mail links are equal if and only if the values' strings are equal. A missing address gives `mailto:undefined`. |
| CalendarEventPopover.PhoneHref | assets/js/utils/calendar_event_popover.js:103 | The phone link is `tel:` followed by the value as a string. |
| CalendarEventPopover.PhoneHrefDistinguishes | assets/js/utils/calendar_event_popover.js:103 | Two phone links are equal if and only if the values' strings are equal. |

## Left out

- `save` (application/models/Secretaries_model.php:42-54) is not a method of the model. As written, `validate` rejects every record (`SecretaryValidation.ValidateAlwaysFails`), so `save` never goes past its first line. `Insert` and `Update` model its two branches directly.
- `get`, `search`, `query` and the constructor are not modelled. They are SQL query building and helper loading, with no state of their own.
- Private or internal helpers are not modelled:
  - `generate_salt` is a parameter (`salt`) of `Insert`;
  - `hash_password` is a parameter (`hash`) of `Insert` and `Update`;
  - `filter_var`, `is_numeric` and PHP's string-to-integer cast are fields of `Php.Builtins`.
- application/config/constants.php is not part of this model. The values of MIN_PASSWORD_LENGTH (7), CALENDAR_VIEW_DEFAULT ("default"), CALENDAR_VIEW_TABLE ("table") and DB_SLUG_SECRETARY ("secretary") are those of the Easy!Appointments configuration.
- Database failures are not modelled. These are the `RuntimeException`s thrown when an insert, update or delete returns false. Every database call succeeds in the model, with one exception. The delete at application/models/Secretaries_model.php:491 names a table that does not exist, so the database rejects it. `SaveProviderIds` treats that failure as ignored, which is what happens when the database layer reports query errors by returning false. If the database layer is configured to abort on a query error, `save_provider_ids` stops at line 491 and inserts nothing. The model does not cover that configuration.
- Exception message texts are not modelled, only the exception kind and its reason. This includes the messages in `find` and `value` that read the undefined `$provider_id`.
- `SecretariesModel.Value`, `SecretariesModel.Secretaries.Find` and `SecretaryRecords.SettingsView`: a row in the model holds only the columns that were written to it. A row read from the database holds every column of its table, with NULL for the ones never set. So where the model's `value` reports a field as not found (InvalidArgumentException), the source finds the column with `array_key_exists` and then throws a TypeError on returning its NULL value. Likewise `find` omits such NULL columns from the record and the settings. The table schemas are not part of this model.
- `SecretaryRecords.SettingsView`: for a user without a settings row, `find` stores whatever `row_array()` returns for an empty result, and then unsets three keys of it. The model takes that to be the empty array. The database layer is not part of this model.
- `Php.Scalar` holds null, integers and strings only. PHP booleans, floats and arrays as record fields or settings values are not representable, so cases such as `empty(false)` or `empty(0.0)` on a required field are not modelled. A `settings` entry that is neither an array nor null is not representable either.
- SQL details are not modelled:
  - Column types and collation: a username or email matches by exact equality of values.
  - Foreign-key cascades: `Delete` removes only the `users` row.
  - The order of joined rows: `attach` returns them in connection-table order.
- A setting named `id_users` is not modelled as the key column it is. `set_setting` writes a setting with `UPDATE user_settings SET <name> = <value> WHERE id_users = <id>` (application/models/Secretaries_model.php:456). For the name `id_users` this rewrites the key itself, so `save_settings(5, ['id_users' => '7'])` moves the settings row to user 7. Afterwards `get_setting(5, ...)` finds no row, and later settings in the same call match no row. The model keeps every settings row under the id it was written for and treats `id_users` as an ordinary column. Each member below states its promise for that model, so the promise does not hold for the key `id_users`:
- SetSetting (`SecretariesModel.Secretaries.SetSetting`): for the name `id_users`, the model writes a column of user `id`'s row, while the database moves that row to the user the value names.
- SaveSettings (`SecretariesModel.Secretaries.SaveSettings`): an `id_users` entry does not re-key the row in the model, so the entries after it are still written to user `id`'s row.
- SaveThenGetSetting (`SecretariesModel.SaveThenGetSetting`): when the saved settings hold an `id_users` entry whose value is not `id`, the database makes `get_setting` throw, while the model returns the saved value.
- SaveRelated (`SecretariesModel.Secretaries.SaveRelated`): it saves settings through `SaveSettings`, with the same gap for an `id_users` entry.
- InsertStoresSaltAndHash (`SecretariesModel.InsertStoresSaltAndHash`): a settings entry `id_users` given to `insert` is stored as an ordinary column of the new user's row. The database would move the row away.
- Insert (`SecretariesModel.Secretaries.Insert`): it saves settings through `SaveSettings`, with the same gap for an `id_users` entry.
- Update (`SecretariesModel.Secretaries.Update`): it saves settings through `SaveSettings`, with the same gap for an `id_users` entry.
- Email uniqueness is modelled abstractly. `SecretaryRecords.EmailTaken` asks whether some secretary-role user other than the given id has the same email. With no id, every user counts, as the query builder turns `!= NULL` into `IS NOT NULL`.
- `SecretaryValidation.PasswordLengthRule`: `strlen` counts bytes, while the model counts characters. The two differ only for non-ASCII passwords.
- `SecretaryValidation.CalendarViewRule`: `in_array` compares loosely. The model compares values exactly, which agrees with PHP 8 for strings and integers.
- The popover's jQuery HTML (the `div`, the `target` attribute and the icon span) is not modelled, only the link target. JavaScript numbers are modelled as integers only, and `CalendarEventPopover.ToJsString` writes every integer in plain decimal notation. JavaScript writes integers of magnitude 1e21 or more in exponent form (`1e+21`), which the model does not.
- The session internals behind `set_userdata`/`userdata` are a map from names to scalars.

## Findings

| source | as written | input that shows it | evidently intended | confidence | as-written member | corrected member |
|---|---|---|---|---|---|---|
| application/models/Secretaries_model.php:66 | The id check tests `$provider['id']`. `$provider` is never assigned, so the check never runs. | A record with id 99 where no user 99 exists is never rejected as unknown. | Test `$secretary['id']`. | not executed | SecretaryValidation.ValidateSkipsIdCheck | SecretaryValidation.ValidateIntendedChecksId |
| application/models/Secretaries_model.php:94 | The providers check tests `empty($provider['providers'])`, which is always true, so every record is rejected. | Any record with all required fields and a valid email, for example one with providers [1], fails with the providers error. | Test `$secretary['providers']`. | not executed | SecretaryValidation.ValidateAlwaysFails | SecretaryValidation.ValidateIntendedExact |
| application/models/Secretaries_model.php:491 | The delete names the table `secretary_providers`, not `secretaries_providers`. The secretary's old connections are kept. | Secretary 1, connected to provider 2 and saved with providers [3], is afterwards connected to [2, 3]. | Delete from `secretaries_providers`, so that the list becomes [3]. | not executed | SecretaryRecords.SaveKeepsOldConnectionsExample | SecretaryRecords.ReplaceConnectionsExact |

`Insert` and `Update` use the as-written `SaveProviderIds`, as the source does. `Secretaries.ReplaceProviderIds` is the corrected operation, proved against the same specification functions.
