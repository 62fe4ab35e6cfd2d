/** The records the secretaries model reads and writes, and the queries it runs over
    the `users`, `user_settings` and `secretaries_providers` tables
    (application/models/Secretaries_model.php). */
module SecretaryRecords {
  import opened Php

  /** The slug of the secretary role in the `roles` table (DB_SLUG_SECRETARY). */
  const DbSlugSecretary: string := "secretary"

  /** A database row: column name to value. A column the row does not hold reads as null. */
  type Row = map<string, Scalar>

  function Column(r: Row, c: string): Scalar
  {
    if c in r then r[c] else Null
  }

  /** A row of `secretaries_providers`: (id_users_secretary, id_users_provider). */
  datatype Connection = Connection(secretary: int, provider: int)

  /** `$secretary['providers']` as given: an array of ids, or some non-array value
      (null when the key is absent). */
  datatype ProviderField = NotArray(v: Scalar) | Items(ids: seq<Scalar>)

  /** `empty()` on the providers field. */
  predicate ProvidersEmpty(p: ProviderField)
  {
    match p
    case NotArray(v) => Empty(v)
    case Items(ids) => ids == []
  }

  /** The `$secretary` array that `validate`, `insert` and `update` receive: its `id`
      (None when absent or null), its `providers` entry, its `settings` entry (None when
      absent or null), and the other entries, which are the columns of the `users` table. */
  datatype Secretary = Secretary(id: Option<int>, columns: Row, providers: ProviderField, settings: Option<Assoc>)
  {
    /** Each key of the PHP array is in exactly one of the four parts. */
    predicate WellFormed()
    {
      "id" !in columns && "providers" !in columns && "settings" !in columns
    }

    /** `$secretary['settings'][k]`: null when the settings entry or the key is missing. */
    function Setting(k: string): (v: Scalar)
      ensures settings.None? ==> v == Null
    {
      if settings.Some? then Get(settings.value, k) else Null
    }
  }

  /** `empty($secretary['id'])`. */
  predicate EmptyId(id: Option<int>)
  {
    id.None? || id.value == 0
  }

  /** `$secretary['id']` as a scalar. */
  function IdScalar(id: Option<int>): (v: Scalar)
    ensures Empty(v) <==> EmptyId(id)
  {
    match id
    case None => Null
    case Some(k) => Int(k)
  }

  /** What `find` returns and `attach` extends: the user columns, the settings, and the
      related providers, either as ids (from `find`) or as full user rows (from `attach`). */
  datatype Related = ProviderIds(ids: seq<int>) | ProviderRows(rows: seq<Row>)

  datatype Record = Record(columns: Row, settings: Option<Row>, providers: Option<Related>)
  {
    /** `empty($secretary)`: an array without entries. */
    predicate IsEmpty()
    {
      columns == map[] && settings.None? && providers.None?
    }
  }

  // ---------------------------------------------------------------------------
  // secretaries_providers

  /** `get_where('secretaries_providers', ['id_users_secretary' => sid])`: the rows of one
      secretary, in table order. */
  function ConnectionsOf(conns: seq<Connection>, sid: int): (r: seq<Connection>)
    ensures forall c :: c in r <==> c in conns && c.secretary == sid
    ensures |r| <= |conns|
    decreases |conns|
  {
    if conns == [] then []
    else (if conns[0].secretary == sid then [conns[0]] else []) + ConnectionsOf(conns[1..], sid)
  }

  /** The `id_users_provider` column of a list of rows. */
  function ProviderColumn(rows: seq<Connection>): seq<int>
    decreases |rows|
  {
    if rows == [] then [] else [rows[0].provider] + ProviderColumn(rows[1..])
  }

  /** The providers list that `find` builds for secretary `sid`. */
  function ConnectedProviders(conns: seq<Connection>, sid: int): seq<int>
  {
    ProviderColumn(ConnectionsOf(conns, sid))
  }

  /** The rows the `foreach` of `save_provider_ids` inserts: one per given id, in order.
      The integer column stores each id as PHP's `(int)` would read it. */
  function NewConnections(sid: int, ids: seq<Scalar>, b: Builtins): seq<Connection>
    decreases |ids|
  {
    if ids == [] then [] else [Connection(sid, IntCast(ids[0], b))] + NewConnections(sid, ids[1..], b)
  }

  /** The given ids as integers. */
  function IntCasts(ids: seq<Scalar>, b: Builtins): (r: seq<int>)
    ensures |r| == |ids|
    decreases |ids|
  {
    if ids == [] then [] else [IntCast(ids[0], b)] + IntCasts(ids[1..], b)
  }

  /** The table without the rows of secretary `sid`: what a delete of those rows leaves. */
  function WithoutSecretary(conns: seq<Connection>, sid: int): (r: seq<Connection>)
    ensures forall c :: c in r <==> c in conns && c.secretary != sid
    decreases |conns|
  {
    if conns == [] then []
    else (if conns[0].secretary == sid then [] else [conns[0]]) + WithoutSecretary(conns[1..], sid)
  }

  lemma {:induction false} ProviderColumnMembership(rows: seq<Connection>, p: int)
    ensures p in ProviderColumn(rows) <==> exists c :: c in rows && c.provider == p
    decreases |rows|
  {
    if rows != [] {
      ProviderColumnMembership(rows[1..], p);
      assert forall c :: c in rows <==> c == rows[0] || c in rows[1..];
    }
  }

  /** A provider is in a secretary's list exactly when the table connects the two. */
  lemma ConnectedProvidersMembership(conns: seq<Connection>, sid: int, p: int)
    ensures p in ConnectedProviders(conns, sid) <==> Connection(sid, p) in conns
  {
    ProviderColumnMembership(ConnectionsOf(conns, sid), p);
  }

  lemma {:induction false} ConnectionsOfAppend(a: seq<Connection>, b: seq<Connection>, sid: int)
    ensures ConnectionsOf(a + b, sid) == ConnectionsOf(a, sid) + ConnectionsOf(b, sid)
    decreases |a|
  {
    if a != [] {
      assert (a + b)[1..] == a[1..] + b;
      ConnectionsOfAppend(a[1..], b, sid);
    } else {
      assert a + b == b;
    }
  }

  lemma {:induction false} ProviderColumnAppend(a: seq<Connection>, b: seq<Connection>)
    ensures ProviderColumn(a + b) == ProviderColumn(a) + ProviderColumn(b)
    decreases |a|
  {
    if a != [] {
      assert (a + b)[1..] == a[1..] + b;
      ProviderColumnAppend(a[1..], b);
    } else {
      assert a + b == b;
    }
  }

  /** The inserted rows belong to secretary `sid` alone and list the given ids in order. */
  lemma {:induction false} NewConnectionsOf(sid: int, ids: seq<Scalar>, b: Builtins, t: int)
    ensures ConnectionsOf(NewConnections(sid, ids, b), t) == if t == sid then NewConnections(sid, ids, b) else []
    ensures ProviderColumn(NewConnections(sid, ids, b)) == IntCasts(ids, b)
    decreases |ids|
  {
    if ids != [] {
      NewConnectionsOf(sid, ids[1..], b, t);
      var n := NewConnections(sid, ids, b);
      assert n[1..] == NewConnections(sid, ids[1..], b);
    }
  }

  lemma {:induction false} WithoutSecretaryOf(conns: seq<Connection>, sid: int, t: int)
    ensures ConnectionsOf(WithoutSecretary(conns, sid), t) == if t == sid then [] else ConnectionsOf(conns, t)
    decreases |conns|
  {
    if conns != [] {
      WithoutSecretaryOf(conns[1..], sid, t);
      var w := WithoutSecretary(conns[1..], sid);
      if conns[0].secretary == sid {
        assert WithoutSecretary(conns, sid) == w;
      } else {
        assert WithoutSecretary(conns, sid) == [conns[0]] + w;
        assert ([conns[0]] + w)[1..] == w;
      }
    }
  }

  /** As written, `save_provider_ids` keeps a secretary's earlier connections: the list
      `find` reports afterwards is the old list followed by the new ids. Other
      secretaries' lists do not change. */
  lemma SaveKeepsOldConnections(conns: seq<Connection>, sid: int, ids: seq<Scalar>, b: Builtins, t: int)
    ensures ConnectedProviders(conns + NewConnections(sid, ids, b), sid)
            == ConnectedProviders(conns, sid) + IntCasts(ids, b)
    ensures t != sid ==> ConnectedProviders(conns + NewConnections(sid, ids, b), t) == ConnectedProviders(conns, t)
  {
    var n := NewConnections(sid, ids, b);
    ConnectionsOfAppend(conns, n, sid);
    NewConnectionsOf(sid, ids, b, sid);
    ProviderColumnAppend(ConnectionsOf(conns, sid), n);
    ConnectionsOfAppend(conns, n, t);
    NewConnectionsOf(sid, ids, b, t);
    assert t != sid ==> ConnectionsOf(conns, t) + [] == ConnectionsOf(conns, t);
  }

  /** An input that shows it: secretary 1 connected to provider 2, saved with providers
      [3], is then reported with providers [2, 3]. */
  lemma SaveKeepsOldConnectionsExample(b: Builtins)
    ensures ConnectedProviders([Connection(1, 2)] + NewConnections(1, [Int(3)], b), 1) == [2, 3]
  {
    SaveKeepsOldConnections([Connection(1, 2)], 1, [Int(3)], b, 1);
    assert ConnectionsOf([Connection(1, 2)], 1) == [Connection(1, 2)];
    assert IntCasts([Int(3)], b) == [3];
  }

  /** With the delete on `secretaries_providers`, the secretary's list becomes exactly the
      new ids, and other secretaries' lists do not change. */
  lemma ReplaceConnectionsExact(conns: seq<Connection>, sid: int, ids: seq<Scalar>, b: Builtins, t: int)
    ensures ConnectedProviders(WithoutSecretary(conns, sid) + NewConnections(sid, ids, b), sid) == IntCasts(ids, b)
    ensures t != sid ==>
      ConnectedProviders(WithoutSecretary(conns, sid) + NewConnections(sid, ids, b), t) == ConnectedProviders(conns, t)
  {
    var w, n := WithoutSecretary(conns, sid), NewConnections(sid, ids, b);
    ConnectionsOfAppend(w, n, sid);
    WithoutSecretaryOf(conns, sid, sid);
    NewConnectionsOf(sid, ids, b, sid);
    assert [] + n == n;
    ConnectionsOfAppend(w, n, t);
    WithoutSecretaryOf(conns, sid, t);
    NewConnectionsOf(sid, ids, b, t);
    assert t != sid ==> ConnectionsOf(conns, t) + [] == ConnectionsOf(conns, t);
  }

  /** The `users` rows that `attach` joins in for the secretary whose id is `sid`:
      one per connection row of that secretary whose provider is a user, in table order.
      A null id matches no row. */
  function ProviderRowsOf(users: map<int, Row>, conns: seq<Connection>, sid: Option<int>): (r: seq<Row>)
    ensures sid.Some? ==> |r| <= |ConnectionsOf(conns, sid.value)|
    ensures sid.None? ==> r == []
    ensures forall row :: row in r ==>
              exists p :: p in users && users[p] == row && Connection(sid.value, p) in conns
    ensures sid.Some? ==> forall p :: Connection(sid.value, p) in conns && p in users ==> users[p] in r
    decreases |conns|
  {
    if conns == [] then []
    else
      var rest := ProviderRowsOf(users, conns[1..], sid);
      assert forall row :: row in rest ==>
               exists p :: p in users && users[p] == row && Connection(sid.value, p) in conns by {
        forall row | row in rest
          ensures exists p :: p in users && users[p] == row && Connection(sid.value, p) in conns
        {
          var p :| p in users && users[p] == row && Connection(sid.value, p) in conns[1..];
        }
      }
      if sid == Some(conns[0].secretary) && conns[0].provider in users then
        [users[conns[0].provider]] + rest
      else
        rest
  }

  // ---------------------------------------------------------------------------
  // users and user_settings

  /** The `user_settings` row holds username `u` (SQL equality: a NULL column matches nothing). */
  predicate HoldsUsername(row: Row, u: string)
  {
    Column(row, "username") != Null && Text(Column(row, "username")) == u
  }

  /** No `user_settings` row holds username `u`, leaving out the row of user `id` when the
      id is not empty. */
  predicate UsernameFree(userSettings: map<int, Row>, u: string, id: Option<int>)
  {
    forall uid :: uid in userSettings && (EmptyId(id) || uid != id.value) ==> !HoldsUsername(userSettings[uid], u)
  }

  /** A user's own settings row never makes its username unavailable to it. */
  lemma UsernameFreeIgnoresOwnRow(userSettings: map<int, Row>, u: string, id: int, row: Row)
    requires id != 0
    ensures UsernameFree(userSettings[id := row], u, Some(id)) == UsernameFree(userSettings, u, Some(id))
  {
    var s := userSettings[id := row];
    if UsernameFree(s, u, Some(id)) {
      forall uid | uid in userSettings && uid != id ensures !HoldsUsername(userSettings[uid], u) {
        assert s[uid] == userSettings[uid];
      }
    }
  }

  /** Another user's row that holds `u` makes `u` unavailable. */
  lemma UsernameTakenByOther(userSettings: map<int, Row>, u: string, owner: int, id: Option<int>)
    requires owner in userSettings && HoldsUsername(userSettings[owner], u)
    requires EmptyId(id) || id.value != owner
    ensures !UsernameFree(userSettings, u, id)
  {
  }

  /** Some user of the secretary role, other than user `id`, has this email. The role is
      joined through `roles.slug`; when the id is absent every user counts as "other". */
  predicate EmailTaken(users: map<int, Row>, roles: map<string, int>, email: Scalar, id: Option<int>)
  {
    DbSlugSecretary in roles &&
    exists uid :: uid in users
      && Column(users[uid], "id_roles") == Int(roles[DbSlugSecretary])
      && Column(users[uid], "email") == email
      && (id.None? || uid != id.value)
  }

  /** The settings a user's stored `user_settings` row shows in `find`: the row (none when
      there is no row) without `id_users`, `password` and `salt`. */
  function SettingsView(userSettings: map<int, Row>, id: int): (r: Row)
    ensures "id_users" !in r && "password" !in r && "salt" !in r
    ensures forall c :: c in r <==> id in userSettings && c in userSettings[id] && c !in {"id_users", "password", "salt"}
    ensures forall c :: c in r ==> r[c] == userSettings[id][c]
  {
    if id in userSettings then userSettings[id] - {"id_users", "password", "salt"} else map[]
  }

  /** Some entry of the array has a null value. */
  predicate HasNullValue(entries: Assoc)
  {
    exists k :: 0 <= k < |entries| && entries[k].1 == Null
  }

  /** The `user_settings` row after the `foreach` of `save_settings`: each entry is written
      in order through `set_setting`, whose `string $value` turns an integer into its
      decimal string; the first null value stops the loop with a TypeError. */
  function WriteSettings(row: Row, entries: Assoc): Row
    decreases |entries|
  {
    if entries == [] || entries[0].1 == Null then row
    else WriteSettings(row[entries[0].0 := Str(Text(entries[0].1))], entries[1..])
  }

  /** Saving settings leaves every column that is not among their keys as it was. */
  lemma {:induction false} WriteSettingsKeepsOthers(row: Row, entries: Assoc, c: string)
    requires !HasKey(entries, c)
    ensures Column(WriteSettings(row, entries), c) == Column(row, c)
    decreases |entries|
  {
    if entries != [] && entries[0].1 != Null {
      assert entries[0].0 != c;
      assert !HasKey(entries[1..], c) by {
        assert forall i :: 0 <= i < |entries[1..]| ==> entries[1..][i] == entries[i + 1];
      }
      WriteSettingsKeepsOthers(row[entries[0].0 := Str(Text(entries[0].1))], entries[1..], c);
    }
  }

  /** Without null values, every entry is stored, as a string. */
  lemma {:induction false} WriteSettingsStores(row: Row, entries: Assoc, i: nat)
    requires UniqueKeys(entries) && !HasNullValue(entries) && i < |entries|
    ensures Column(WriteSettings(row, entries), entries[i].0) == Str(Text(entries[i].1))
    decreases |entries|
  {
    var row' := row[entries[0].0 := Str(Text(entries[0].1))];
    assert entries[0].1 != Null;
    assert !HasNullValue(entries[1..]) by {
      assert forall k :: 0 <= k < |entries[1..]| ==> entries[1..][k] == entries[k + 1];
    }
    if i == 0 {
      assert !HasKey(entries[1..], entries[0].0) by {
        assert forall j :: 0 <= j < |entries[1..]| ==> entries[1..][j] == entries[j + 1];
      }
      WriteSettingsKeepsOthers(row', entries[1..], entries[0].0);
    } else {
      assert entries[1..][i - 1] == entries[i];
      WriteSettingsStores(row', entries[1..], i - 1);
    }
  }
}
