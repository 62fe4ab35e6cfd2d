/** `Secretaries_model` (application/models/Secretaries_model.php): the secretary records
    kept in the `users`, `user_settings` and `secretaries_providers` tables, the
    operations that write them, and the read-only projections `find`, `value` and
    `get_setting`. */
module SecretariesModel {
  import opened Php
  import opened SecretaryRecords

  /** `get_secretary_role_id`: the id of the role whose slug is the secretary slug. */
  function SecretaryRoleId(roles: map<string, int>): (r: Result<int>)
    ensures r.Ok? <==> DbSlugSecretary in roles
    ensures r.Ok? ==> r.value == roles[DbSlugSecretary]
    ensures r.Err? ==> r.error == Runtime(NoSecretaryRole)
  {
    if DbSlugSecretary in roles then Ok(roles[DbSlugSecretary]) else Err(Runtime(NoSecretaryRole))
  }

  /** The `users` row `insert` writes: the given columns, the role, and the new id. */
  function NewUserRow(s: Secretary, id: int, roleId: int): Row
  {
    s.columns["id_roles" := Int(roleId)]["id" := Int(id)]
  }

  /** The `users` row after `update`: the given columns (and the id) overwrite the stored ones. */
  function UpdatedUserRow(row: Row, s: Secretary, id: int): Row
  {
    row + s.columns["id" := Int(id)]
  }

  /** The settings `insert` saves: a salt from `generate_salt`, and the password hashed with it. */
  function InsertedSettings(settings: Assoc, salt: string, hash: (Scalar, Scalar) -> string): (r: Assoc)
    ensures r != []
  {
    var salted := Put(settings, "salt", Str(salt));
    var r := Put(salted, "password", Str(hash(Str(salt), Get(settings, "password"))));
    assert Get(r, "password") != Null;
    r
  }

  /** The settings array `insert` starts from: assigning the salt into a missing or null
      `$settings` creates the array. */
  function InsertSettingsBase(settings: Option<Assoc>): Assoc
  {
    if settings.Some? then settings.value else []
  }

  /** The settings `update` saves: a password that is set is hashed with the stored salt;
      missing or null settings stay null. */
  function UpdatedSettings(settings: Option<Assoc>, stored: Row, hash: (Scalar, Scalar) -> string): Option<Assoc>
  {
    if settings.None? then None
    else
      var pw := Get(settings.value, "password");
      if pw != Null then Some(Put(settings.value, "password", Str(hash(Column(stored, "salt"), pw)))) else settings
  }

  /** The settings row `save_settings` writes into: the stored one, or the one it inserts. */
  function BaseSettingsRow(userSettings: map<int, Row>, id: int): Row
  {
    if id in userSettings then userSettings[id] else map["id_users" := Int(id)]
  }

  /** `user_settings` after `save_settings(id, settings)`. */
  function SettingsAfterSave(userSettings: map<int, Row>, id: int, settings: Assoc): map<int, Row>
  {
    if settings == [] then userSettings
    else userSettings[id := WriteSettings(BaseSettingsRow(userSettings, id), settings)]
  }

  /** How `save_settings(id, settings)` ends. */
  function SaveSettingsOutcome(settings: Assoc): Outcome
  {
    if settings == [] then Fail(InvalidArgument(EmptyArgument))
    else if HasNullValue(settings) then Fail(TypeError)
    else Pass
  }

  /** `user_settings` after the `save_settings` call of `insert` or `update`, whose
      `array $settings` refuses null before anything is written. */
  function SettingsSaved(userSettings: map<int, Row>, id: int, settings: Option<Assoc>): map<int, Row>
  {
    if settings.None? then userSettings else SettingsAfterSave(userSettings, id, settings.value)
  }

  /** The tail shared by `insert` and `update`: `save_settings`, whose `array $settings`
      refuses null, then `save_provider_ids`, whose `array $provider_ids` refuses a
      non-array. Gives the connection table afterwards and the result. */
  function RelatedSaved(conns: seq<Connection>, id: int, settings: Option<Assoc>, providers: ProviderField, b: Builtins)
    : (seq<Connection>, Result<int>)
  {
    var o := if settings.None? then Fail(TypeError) else SaveSettingsOutcome(settings.value);
    if o.Fail? then (conns, Err(o.error))
    else if providers.NotArray? then (conns, Err(TypeError))
    else (conns + NewConnections(id, providers.ids, b), Ok(id))
  }

  /** `value(id, field)`: one column of a user row, returned as a `string`. */
  function Value(users: map<int, Row>, id: int, field: string): (r: Result<string>)
    ensures field == "" || field == "0" || id == 0 ==> r == Err(InvalidArgument(EmptyArgument))
    ensures r.Ok? <==> field != "" && field != "0" && id != 0 && id in users && field in users[id] && users[id][field] != Null
    ensures r.Ok? ==> r.value == Text(users[id][field])
    ensures id != 0 && field != "" && field != "0" && id !in users ==> r == Err(InvalidArgument(NotFound))
    ensures id != 0 && field != "" && field != "0" && id in users && field !in users[id] ==>
              r == Err(InvalidArgument(FieldNotFound))
    ensures id != 0 && field != "" && field != "0" && id in users && field in users[id] && users[id][field] == Null ==>
              r == Err(TypeError)
  {
    if field == "" || field == "0" then Err(InvalidArgument(EmptyArgument))
    else if id == 0 then Err(InvalidArgument(EmptyArgument))
    else if id !in users then Err(InvalidArgument(NotFound))
    else if field !in users[id] then Err(InvalidArgument(FieldNotFound))
    else StringArg(users[id][field])
  }

  /** `get_setting(id, name)`: a non-empty setting of a user, returned as a `string`. */
  function GetSetting(userSettings: map<int, Row>, id: int, name: string): (r: Result<string>)
    ensures r.Ok? <==> id in userSettings && !Empty(Column(userSettings[id], name))
    ensures r.Ok? ==> r.value == Text(userSettings[id][name]) && r.value != "" && r.value != "0"
    ensures r.Err? ==> r.error == Runtime(SettingNotFound)
  {
    var settings := if id in userSettings then userSettings[id] else map[];
    if Empty(Column(settings, name)) then Err(Runtime(SettingNotFound))
    else StringArg(settings[name])
  }

  /** Settings saved without null values are read back by `get_setting`, as strings. */
  lemma SaveThenGetSetting(userSettings: map<int, Row>, id: int, settings: Assoc, i: nat)
    requires UniqueKeys(settings) && !HasNullValue(settings) && i < |settings|
    requires !Empty(settings[i].1)
    ensures GetSetting(SettingsAfterSave(userSettings, id, settings), id, settings[i].0) == Ok(Text(settings[i].1))
  {
    WriteSettingsStores(BaseSettingsRow(userSettings, id), settings, i);
    var v := settings[i].1;
    assert Text(v) != "" && Text(v) != "0" by {
      if v.Int? {
        assert StringArg(v).Ok? && StringArg(v).value != "";
      }
    }
  }

  /** A column `insert` writes is what `value` returns for it. */
  lemma InsertThenValue(users: map<int, Row>, s: Secretary, id: int, roleId: int, c: string)
    requires s.WellFormed() && id != 0
    requires c in s.columns && c != "id_roles" && c != "" && c != "0"
    ensures Value(users[id := NewUserRow(s, id, roleId)], id, c) == StringArg(s.columns[c])
  {
  }

  /** After `delete`, `value` no longer finds the user. */
  lemma DeleteThenValue(users: map<int, Row>, id: int, field: string)
    requires id != 0 && field != "" && field != "0"
    ensures Value(users - {id}, id, field) == Err(InvalidArgument(NotFound))
  {
  }

  /** `insert` stores the salt it generated and the password hashed with that salt; the
      other settings are stored as given. */
  lemma InsertStoresSaltAndHash(userSettings: map<int, Row>, id: int, settings: Assoc, salt: string,
                                hash: (Scalar, Scalar) -> string, c: string)
    requires UniqueKeys(settings) && !HasNullValue(settings)
    ensures var row := SettingsAfterSave(userSettings, id, InsertedSettings(settings, salt, hash))[id];
      && Column(row, "salt") == Str(salt)
      && Column(row, "password") == Str(hash(Str(salt), Get(settings, "password")))
      && (c != "salt" && c != "password" && HasKey(settings, c) ==> Column(row, c) == Str(Text(Get(settings, c))))
  {
    var salted := Put(settings, "salt", Str(salt));
    var saved := InsertedSettings(settings, salt, hash);
    PutKeepsUniqueKeys(settings, "salt", Str(salt));
    PutKeepsUniqueKeys(salted, "password", Str(hash(Str(salt), Get(settings, "password"))));
    assert !HasNullValue(saved) by {
      forall k | 0 <= k < |saved| ensures saved[k].1 != Null {
        if saved[k] in salted {
          var m :| 0 <= m < |salted| && salted[m] == saved[k];
          if salted[m] in settings {
            var n :| 0 <= n < |settings| && settings[n] == salted[m];
          }
        }
      }
    }
    var base := BaseSettingsRow(userSettings, id);
    WriteSettingsGet(base, saved, "salt");
    WriteSettingsGet(base, saved, "password");
    if c != "salt" && c != "password" && HasKey(settings, c) {
      var n :| 0 <= n < |settings| && settings[n].0 == c;
      GetEntry(settings, n);
      assert Get(saved, c) == Get(settings, c) != Null;
      WriteSettingsGet(base, saved, c);
    }
  }

  /** In an array without null values and with unique keys, every key is stored with its value. */
  lemma WriteSettingsGet(row: Row, entries: Assoc, k: string)
    requires UniqueKeys(entries) && !HasNullValue(entries) && HasKey(entries, k)
    ensures Column(WriteSettings(row, entries), k) == Str(Text(Get(entries, k)))
  {
    var i :| 0 <= i < |entries| && entries[i].0 == k;
    GetEntry(entries, i);
    WriteSettingsStores(row, entries, i);
  }

  /** The tables of the secretary resource, as the model sees the database. */
  class Secretaries {
    var users: map<int, Row>
    var userSettings: map<int, Row>
    var secretariesProviders: seq<Connection>
    var roles: map<string, int>
    /** The next value of the `users` auto-increment (`insert_id`). */
    var nextId: int

    /** User ids come from the auto-increment, and each row's `id` column is its key. */
    ghost predicate Valid()
      reads this
    {
      && 1 <= nextId
      && forall uid :: uid in users ==> uid < nextId && Column(users[uid], "id") == Int(uid)
    }

    constructor(roles: map<string, int>)
      ensures Valid()
      ensures this.roles == roles && users == map[] && userSettings == map[] && secretariesProviders == []
    {
      this.roles := roles;
      users, userSettings, secretariesProviders := map[], map[], [];
      nextId := 1;
    }

    /** `validate_username`: counts the other `user_settings` rows holding the username. */
    method ValidateUsername(username: string, id: Option<int>) returns (ok: bool)
      ensures ok <==> UsernameFree(userSettings, username, id)
    {
      var matching := set uid | uid in userSettings && (EmptyId(id) || uid != id.value)
                                && HoldsUsername(userSettings[uid], username);
      if UsernameFree(userSettings, username, id) {
        forall uid | uid in matching ensures false {
        }
        assert matching == {};
      }
      ok := |matching| == 0;
      if ok {
        assert matching == {};
        forall uid | uid in userSettings && (EmptyId(id) || uid != id.value)
          ensures !HoldsUsername(userSettings[uid], username)
        {
          assert uid !in matching;
        }
      }
    }

    /** `set_setting`: `string $value` refuses null and turns an integer into its decimal
        string; the update touches the row of the user when there is one. */
    method SetSetting(id: int, name: string, value: Scalar) returns (r: Outcome)
      modifies this`userSettings
      ensures value == Null ==> r == Fail(TypeError) && userSettings == old(userSettings)
      ensures value != Null ==>
        && r == Pass
        && userSettings == if id in old(userSettings)
                           then old(userSettings)[id := old(userSettings)[id][name := Str(Text(value))]]
                           else old(userSettings)
    {
      var v := StringArg(value);
      if v.Err? {
        return Fail(v.error);
      }
      if id in userSettings {
        userSettings := userSettings[id := userSettings[id][name := Str(v.value)]];
      }
      return Pass;
    }

    /** `save_settings`: makes sure the user has a settings row, then sets each entry in order. */
    method SaveSettings(id: int, settings: Assoc) returns (r: Outcome)
      modifies this`userSettings
      ensures userSettings == SettingsAfterSave(old(userSettings), id, settings)
      ensures r == SaveSettingsOutcome(settings)
    {
      if settings == [] {
        return Fail(InvalidArgument(EmptyArgument));
      }
      if id !in userSettings {
        userSettings := userSettings[id := map["id_users" := Int(id)]];
      }
      ghost var base := BaseSettingsRow(old(userSettings), id);
      var i := 0;
      while i < |settings|
        invariant 0 <= i <= |settings|
        invariant id in userSettings && userSettings == old(userSettings)[id := userSettings[id]]
        invariant WriteSettings(userSettings[id], settings[i..]) == WriteSettings(base, settings)
        invariant !HasNullValue(settings[..i])
      {
        var name, value := settings[i].0, settings[i].1;
        assert settings[i..][1..] == settings[i + 1..];
        r := SetSetting(id, name, value);
        if r.Fail? {
          return;
        }
        assert settings[..i + 1] == settings[..i] + [settings[i]];
        i := i + 1;
      }
      assert settings[..i] == settings;
      r := Pass;
    }

    /** `save_provider_ids` as written: its delete names `secretary_providers`, which is not
        the connection table, so no row is removed; each id is then appended in order. */
    method SaveProviderIds(sid: int, ids: seq<Scalar>, b: Builtins)
      modifies this`secretariesProviders
      ensures secretariesProviders == old(secretariesProviders) + NewConnections(sid, ids, b)
    {
      var i := 0;
      while i < |ids|
        invariant 0 <= i <= |ids|
        invariant secretariesProviders + NewConnections(sid, ids[i..], b)
                  == old(secretariesProviders) + NewConnections(sid, ids, b)
      {
        assert ids[i..][1..] == ids[i + 1..];
        secretariesProviders := secretariesProviders + [Connection(sid, IntCast(ids[i], b))];
        i := i + 1;
      }
      assert secretariesProviders + [] == secretariesProviders;
    }

    /** `save_provider_ids` with its delete on `secretaries_providers`: the secretary's old
        rows are removed before the new ones are appended. */
    method ReplaceProviderIds(sid: int, ids: seq<Scalar>, b: Builtins)
      modifies this`secretariesProviders
      ensures secretariesProviders == WithoutSecretary(old(secretariesProviders), sid) + NewConnections(sid, ids, b)
    {
      secretariesProviders := WithoutSecretary(secretariesProviders, sid);
      var i := 0;
      while i < |ids|
        invariant 0 <= i <= |ids|
        invariant secretariesProviders + NewConnections(sid, ids[i..], b)
                  == WithoutSecretary(old(secretariesProviders), sid) + NewConnections(sid, ids, b)
      {
        assert ids[i..][1..] == ids[i + 1..];
        secretariesProviders := secretariesProviders + [Connection(sid, IntCast(ids[i], b))];
        i := i + 1;
      }
      assert secretariesProviders + [] == secretariesProviders;
    }

    /** The tail of `insert` and `update`: `save_settings`, then `save_provider_ids`. */
    method SaveRelated(id: int, settings: Option<Assoc>, providers: ProviderField, b: Builtins) returns (r: Result<int>)
      modifies this`userSettings, this`secretariesProviders
      ensures userSettings == SettingsSaved(old(userSettings), id, settings)
      ensures (secretariesProviders, r) == RelatedSaved(old(secretariesProviders), id, settings, providers, b)
    {
      if settings.None? {
        return Err(TypeError);
      }
      var o := SaveSettings(id, settings.value);
      if o.Fail? {
        return Err(o.error);
      }
      if providers.NotArray? {
        return Err(TypeError);
      }
      SaveProviderIds(id, providers.ids, b);
      return Ok(id);
    }

    /** `insert`: the `users` row with the secretary role and a new id, then the settings
        with a fresh salt and the hashed password, then the provider connections. */
    method Insert(s: Secretary, b: Builtins, salt: string, hash: (Scalar, Scalar) -> string) returns (r: Result<int>)
      requires Valid() && s.WellFormed()
      modifies this`users, this`userSettings, this`secretariesProviders, this`nextId
      ensures Valid()
      ensures DbSlugSecretary !in old(roles) ==>
        && r == Err(Runtime(NoSecretaryRole))
        && users == old(users) && userSettings == old(userSettings)
        && secretariesProviders == old(secretariesProviders) && nextId == old(nextId)
      ensures DbSlugSecretary in old(roles) ==>
        var id := old(nextId);
        var settings := InsertedSettings(InsertSettingsBase(s.settings), salt, hash);
        && id !in old(users) && nextId == id + 1
        && users == old(users)[id := NewUserRow(s, id, old(roles)[DbSlugSecretary])]
        && userSettings == SettingsAfterSave(old(userSettings), id, settings)
        && (secretariesProviders, r) == RelatedSaved(old(secretariesProviders), id, Some(settings), s.providers, b)
    {
      var role := SecretaryRoleId(roles);
      if role.Err? {
        return Err(role.error);
      }
      var id := nextId;
      users := users[id := NewUserRow(s, id, role.value)];
      nextId := nextId + 1;
      var settings := InsertedSettings(InsertSettingsBase(s.settings), salt, hash);
      r := SaveRelated(id, Some(settings), s.providers, b);
    }

    /** `update`: a password that is set is hashed with the stored salt (a user without a
        settings row is refused first), then the `users` row, the settings and the provider
        connections are written. `save` calls it only with a non-empty id. */
    method Update(s: Secretary, b: Builtins, hash: (Scalar, Scalar) -> string) returns (r: Result<int>)
      requires Valid() && s.WellFormed() && !EmptyId(s.id)
      modifies this`users, this`userSettings, this`secretariesProviders
      ensures Valid()
      ensures s.Setting("password") != Null && s.id.value !in old(userSettings) ==>
        && r == Err(Runtime(NoSettingsRecord))
        && users == old(users) && userSettings == old(userSettings)
        && secretariesProviders == old(secretariesProviders)
      ensures !(s.Setting("password") != Null && s.id.value !in old(userSettings)) ==>
        var id := s.id.value;
        var settings := UpdatedSettings(s.settings, BaseSettingsRow(old(userSettings), id), hash);
        && users == (if id in old(users) then old(users)[id := UpdatedUserRow(old(users)[id], s, id)] else old(users))
        && userSettings == SettingsSaved(old(userSettings), id, settings)
        && (secretariesProviders, r) == RelatedSaved(old(secretariesProviders), id, settings, s.providers, b)
    {
      var id := s.id.value;
      if s.Setting("password") != Null && id !in userSettings {
        return Err(Runtime(NoSettingsRecord));
      }
      var settings := UpdatedSettings(s.settings, BaseSettingsRow(userSettings, id), hash);
      if id in users {
        users := users[id := UpdatedUserRow(users[id], s, id)];
      }
      r := SaveRelated(id, settings, s.providers, b);
    }

    /** `delete`: removes the `users` row. */
    method Delete(id: int)
      requires Valid()
      modifies this`users
      ensures Valid() && users == old(users) - {id}
    {
      users := users - {id};
    }

    /** `find`: the user row, its settings without the secret columns, and the ids of the
        connected providers, collected by a loop over the secretary's connection rows. */
    method Find(id: int) returns (r: Result<Record>)
      ensures id !in users ==> r == Err(InvalidArgument(NotFound))
      ensures id in users ==>
        r == Ok(Record(users[id], Some(SettingsView(userSettings, id)),
                       Some(ProviderIds(ConnectedProviders(secretariesProviders, id)))))
    {
      if id !in users {
        return Err(InvalidArgument(NotFound));
      }
      var connections := ConnectionsOf(secretariesProviders, id);
      var providers: seq<int> := [];
      var i := 0;
      while i < |connections|
        invariant 0 <= i <= |connections|
        invariant providers + ProviderColumn(connections[i..]) == ProviderColumn(connections)
      {
        assert connections[i..][1..] == connections[i + 1..];
        providers := providers + [connections[i].provider];
        i := i + 1;
      }
      assert providers + [] == providers;
      return Ok(Record(users[id], Some(SettingsView(userSettings, id)), Some(ProviderIds(providers))));
    }

    /** `attach`: for each requested resource, `providers` sets the record's providers to the
        joined provider rows; any other name throws, leaving what was set before in place. */
    method Attach(secretary: Record, resources: seq<string>, b: Builtins) returns (out: Record, err: Option<Exception>)
      ensures secretary.IsEmpty() || resources == [] ==> out == secretary && err == None
      ensures !(secretary.IsEmpty() || resources == []) ==>
        var k := FirstUnsupported(resources);
        var rows := ProviderRowsOf(users, secretariesProviders, SqlId(Column(secretary.columns, "id"), b));
        && err == (if k < |resources| then Some(InvalidArgument(UnsupportedRelation)) else None)
        && out == (if k > 0 then secretary.(providers := Some(ProviderRows(rows))) else secretary)
    {
      out, err := secretary, None;
      if secretary.IsEmpty() || resources == [] {
        return;
      }
      ghost var rows := ProviderRowsOf(users, secretariesProviders, SqlId(Column(secretary.columns, "id"), b));
      var i := 0;
      while i < |resources|
        invariant 0 <= i <= FirstUnsupported(resources)
        invariant out == if i > 0 then secretary.(providers := Some(ProviderRows(rows))) else secretary
      {
        if resources[i] == "providers" {
          var attached := ProviderRowsOf(users, secretariesProviders, SqlId(Column(out.columns, "id"), b));
          out := out.(providers := Some(ProviderRows(attached)));
        } else {
          err := Some(InvalidArgument(UnsupportedRelation));
          return;
        }
        i := i + 1;
      }
    }
  }

  /** The position of the first resource name other than `providers`, or the length. */
  function FirstUnsupported(resources: seq<string>): (k: nat)
    ensures k <= |resources|
    ensures forall i :: 0 <= i < k ==> resources[i] == "providers"
    ensures k < |resources| ==> resources[k] != "providers"
    decreases |resources|
  {
    if resources == [] || resources[0] != "providers" then 0 else 1 + FirstUnsupported(resources[1..])
  }

  /** The id a `where` on an integer column compares with: null matches no row. */
  function SqlId(v: Scalar, b: Builtins): Option<int>
  {
    if v == Null then None else Some(IntCast(v, b))
  }
}
