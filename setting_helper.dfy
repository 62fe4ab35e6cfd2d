/** The `setting` helper (application/helpers/setting_helper.php): reads one value from
    the session, or writes several. */
module SettingHelper {
  import opened Php

  /** The `$key` argument: a scalar names one entry, an array carries entries to write. */
  datatype SettingKey = Key(v: Scalar) | Entries(entries: Assoc)

  /** `empty($key)`: an empty scalar or an empty array. */
  predicate EmptyKey(key: SettingKey)
  {
    match key
    case Key(v) => Empty(v)
    case Entries(entries) => entries == []
  }

  /** The session after `set_userdata` of each entry in order. */
  function Assign(data: map<string, Scalar>, entries: Assoc): map<string, Scalar>
    decreases |entries|
  {
    if entries == [] then data else Assign(data[entries[0].0 := entries[0].1], entries[1..])
  }

  /** `userdata($name) ?? $default`: a missing or null entry gives the default. */
  function Lookup(data: map<string, Scalar>, name: string, default: Scalar): (r: Scalar)
    ensures r != default ==> name in data && r == data[name]
    ensures r == Null ==> default == Null
    ensures name in data && data[name] != Null ==> r == data[name]
  {
    if name in data && data[name] != Null then data[name] else default
  }

  /** Writing entries never touches a key they do not name. */
  lemma {:induction false} AssignKeepsOthers(data: map<string, Scalar>, entries: Assoc, k: string)
    requires !HasKey(entries, k)
    ensures k in Assign(data, entries) <==> k in data
    ensures k in data ==> Assign(data, entries)[k] == data[k]
    decreases |entries|
  {
    if entries != [] {
      assert !HasKey(entries[1..], k) by {
        assert forall i :: 0 <= i < |entries[1..]| ==> entries[1..][i] == entries[i + 1];
      }
      assert entries[0].0 != k;
      AssignKeepsOthers(data[entries[0].0 := entries[0].1], entries[1..], k);
    }
  }

  /** With unique keys, every entry written is in the session afterwards. */
  lemma {:induction false} AssignStores(data: map<string, Scalar>, entries: Assoc, i: nat)
    requires UniqueKeys(entries) && i < |entries|
    ensures entries[i].0 in Assign(data, entries)
    ensures Assign(data, entries)[entries[i].0] == entries[i].1
    decreases |entries|
  {
    var rest := entries[1..];
    var next := data[entries[0].0 := entries[0].1];
    if i == 0 {
      assert !HasKey(rest, entries[0].0) by {
        assert forall j :: 0 <= j < |rest| ==> rest[j] == entries[j + 1];
      }
      AssignKeepsOthers(next, rest, entries[0].0);
    } else {
      assert UniqueKeys(rest) by {
        assert forall j :: 0 <= j < |rest| ==> rest[j] == entries[j + 1];
      }
      assert rest[i - 1] == entries[i];
      AssignStores(next, rest, i - 1);
    }
  }

  /** A value written through `setting([...])` is what `setting(name, default)` reads back,
      unless it is null, when the default is returned. */
  lemma SetThenGet(data: map<string, Scalar>, entries: Assoc, name: string, default: Scalar)
    requires UniqueKeys(entries) && HasKey(entries, name)
    ensures Lookup(Assign(data, entries), name, default)
            == if Get(entries, name) == Null then default else Get(entries, name)
  {
    var i :| 0 <= i < |entries| && entries[i].0 == name;
    GetEntry(entries, i);
    AssignStores(data, entries, i);
  }

  /** Writing entries leaves what `setting` reads for any other name unchanged. */
  lemma SetKeepsOtherReads(data: map<string, Scalar>, entries: Assoc, name: string, default: Scalar)
    requires !HasKey(entries, name)
    ensures Lookup(Assign(data, entries), name, default) == Lookup(data, name, default)
  {
    AssignKeepsOthers(data, entries, name);
  }

  /** The session the helper reads and writes (`$CI->session`). */
  class Session {
    var userdata: map<string, Scalar>

    constructor(userdata: map<string, Scalar>)
      ensures this.userdata == userdata
    {
      this.userdata := userdata;
    }

    /** `setting($key, $default)`: an empty key throws; an array key writes each entry and
        returns null; any other key reads the session entry it names (an integer key names
        the entry with its decimal string). */
    method Setting(key: SettingKey, default: Scalar) returns (r: Result<Scalar>)
      modifies this
      ensures EmptyKey(key) ==> r == Err(InvalidArgument(EmptyArgument)) && userdata == old(userdata)
      ensures !EmptyKey(key) && key.Entries? ==> r == Ok(Null) && userdata == Assign(old(userdata), key.entries)
      ensures !EmptyKey(key) && key.Key? ==>
        r == Ok(Lookup(old(userdata), Text(key.v), default)) && userdata == old(userdata)
    {
      if EmptyKey(key) {
        return Err(InvalidArgument(EmptyArgument));
      }
      if key.Entries? {
        var entries := key.entries;
        var i := 0;
        while i < |entries|
          invariant 0 <= i <= |entries|
          invariant Assign(userdata, entries[i..]) == Assign(old(userdata), entries)
        {
          assert entries[i..][1..] == entries[i + 1..];
          userdata := userdata[entries[i].0 := entries[i].1];
          i := i + 1;
        }
        return Ok(Null);
      }
      var value := if Text(key.v) in userdata then userdata[Text(key.v)] else Null;
      r := Ok(if value != Null then value else default);
    }
  }
}
