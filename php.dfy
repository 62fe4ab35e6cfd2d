/** PHP values as the secretary model and the setting helper see them: scalar values,
    `empty()`, the coercions PHP applies when a value meets a typed parameter, and
    ordered arrays with string keys. PHP built-ins whose internals are not modelled
    (`filter_var`, `is_numeric`, the string-to-integer cast) are parameters. */
module Php {

  datatype Option<+T> = None | Some(value: T)

  /** A scalar value as held by a database column, a request field or a session entry. */
  datatype Scalar = Null | Int(i: int) | Str(s: string)

  /** PHP's `empty()` on a scalar: null, 0, "" and "0" are empty. */
  predicate Empty(v: Scalar) {
    match v
    case Null => true
    case Int(i) => i == 0
    case Str(s) => s == "" || s == "0"
  }

  /** Why an operation threw. The message texts are not modelled. */
  datatype Reason =
    | UnknownId | MissingRequiredField | InvalidEmail | InvalidProviders
    | UsernameInUse | PasswordTooShort | PasswordRequired | InvalidCalendarView
    | EmailInUse | EmptyArgument | NotFound | FieldNotFound | SettingNotFound
    | NoSettingsRecord | NoSecretaryRole | UnsupportedRelation

  /** The exceptions of the core: `InvalidArgumentException`, `RuntimeException`, and the
      `TypeError` PHP throws when null meets a `string` or a non-array meets an `array`. */
  datatype Exception =
    | InvalidArgument(reason: Reason)
    | Runtime(reason: Reason)
    | TypeError

  datatype Result<+T> = Ok(value: T) | Err(error: Exception)

  datatype Outcome = Pass | Fail(error: Exception)

  /** The PHP built-ins the model leaves uninterpreted. */
  datatype Builtins = Builtins(
    validEmail: string -> bool,   // filter_var($s, FILTER_VALIDATE_EMAIL) !== false
    isNumeric: string -> bool,    // is_numeric on a string
    toInt: string -> int)         // (int) on a string

  function DigitChar(d: nat): (c: char)
    requires d < 10
    ensures '0' <= c <= '9'
  {
    "0123456789"[d]
  }

  function DigitValue(c: char): nat
  {
    if '0' <= c <= '9' then (c - '0') as nat else 0
  }

  /** Decimal notation of a natural number, as PHP writes an integer. */
  function NatToString(n: nat): (r: string)
    ensures |r| >= 1
    ensures forall k :: 0 <= k < |r| ==> '0' <= r[k] <= '9'
    ensures r[0] == '0' ==> n == 0
    decreases n
  {
    if n < 10 then [DigitChar(n)] else NatToString(n / 10) + [DigitChar(n % 10)]
  }

  /** Reads a string of decimal digits back as a number. */
  function ParseDigits(s: string): nat
    decreases |s|
  {
    if s == [] then 0 else ParseDigits(s[..|s| - 1]) * 10 + DigitValue(s[|s| - 1])
  }

  /** Writing a number in decimal loses nothing: it reads back as the same number. */
  lemma {:induction false} NatToStringRoundTrip(n: nat)
    ensures ParseDigits(NatToString(n)) == n
    decreases n
  {
    var r := NatToString(n);
    if n >= 10 {
      NatToStringRoundTrip(n / 10);
      assert r[..|r| - 1] == NatToString(n / 10);
      assert DigitValue(r[|r| - 1]) == n % 10;
    } else {
      assert DigitValue(r[0]) == n;
    }
  }

  /** An integer as PHP converts it to a string: a leading '-' when negative. */
  function IntToString(i: int): (r: string)
  {
    if i < 0 then "-" + NatToString(-i) else NatToString(i)
  }

  /** A scalar as PHP converts it to a string: null is "", an integer its decimal notation. */
  function Text(v: Scalar): string
  {
    match v
    case Null => ""
    case Int(i) => IntToString(i)
    case Str(s) => s
  }

  /** A scalar passed to a `string` parameter, or returned from a function declared `: string`,
      in PHP's coercive typing mode: null is a TypeError, an integer becomes its decimal string. */
  function StringArg(v: Scalar): (r: Result<string>)
    ensures r.Err? <==> v == Null
    ensures r.Ok? ==> r.value == Text(v)
    ensures v.Int? ==> r.Ok? && r.value != "" && (r.value == "0" <==> v.i == 0)
  {
    if v == Null then Err(TypeError) else Ok(Text(v))
  }

  /** `is_numeric`: every integer is numeric, null is not. */
  predicate IsNumeric(v: Scalar, b: Builtins)
  {
    match v
    case Null => false
    case Int(_) => true
    case Str(s) => b.isNumeric(s)
  }

  /** `(int)` on a scalar: null is 0. */
  function IntCast(v: Scalar, b: Builtins): int
  {
    match v
    case Null => 0
    case Int(i) => i
    case Str(s) => b.toInt(s)
  }

  /** A PHP array with string keys, as its entries in iteration order. */
  type Assoc = seq<(string, Scalar)>

  /** The keys of an array are unique, as in every PHP array. */
  predicate UniqueKeys(a: Assoc)
  {
    forall i, j :: 0 <= i < j < |a| ==> a[i].0 != a[j].0
  }

  predicate HasKey(a: Assoc, k: string)
  {
    exists i :: 0 <= i < |a| && a[i].0 == k
  }

  /** `$a[$k]`: null when the key is absent. */
  function Get(a: Assoc, k: string): (v: Scalar)
    ensures !HasKey(a, k) ==> v == Null
    ensures HasKey(a, k) ==> exists i :: 0 <= i < |a| && a[i] == (k, v)
    decreases |a|
  {
    if a == [] then Null
    else if a[0].0 == k then a[0].1
    else
      assert HasKey(a, k) ==> HasKey(a[1..], k);
      Get(a[1..], k)
  }

  /** In an array with unique keys, `$a[$k]` is the value of the entry with key k. */
  lemma {:induction false} GetEntry(a: Assoc, i: nat)
    requires UniqueKeys(a) && i < |a|
    ensures Get(a, a[i].0) == a[i].1
    decreases |a|
  {
    if i > 0 {
      GetEntry(a[1..], i - 1);
    }
  }

  /** `$a[$k] = $v`: the value is replaced in place when the key is present, appended otherwise. */
  function Put(a: Assoc, k: string, v: Scalar): (r: Assoc)
    ensures Get(r, k) == v
    ensures forall j :: j != k ==> Get(r, j) == Get(a, j)
    ensures forall i :: 0 <= i < |r| ==> r[i] in a || r[i] == (k, v)
    decreases |a|
  {
    if a == [] then [(k, v)]
    else if a[0].0 == k then [(k, v)] + a[1..]
    else [a[0]] + Put(a[1..], k, v)
  }

  /** Assigning into an array keeps its keys unique. */
  lemma {:induction false} PutKeepsUniqueKeys(a: Assoc, k: string, v: Scalar)
    requires UniqueKeys(a)
    ensures UniqueKeys(Put(a, k, v))
    decreases |a|
  {
    if a != [] && a[0].0 != k {
      PutKeepsUniqueKeys(a[1..], k, v);
      var t := Put(a[1..], k, v);
      forall i | 0 <= i < |t| ensures t[i].0 != a[0].0 {
        if t[i] in a[1..] {
          var m :| 0 <= m < |a[1..]| && a[1..][m] == t[i];
          assert a[m + 1] == t[i];
        }
      }
    } else if a != [] {
      var r := [(k, v)] + a[1..];
      forall i, j | 0 <= i < j < |r| ensures r[i].0 != r[j].0 {
        assert r[j] == a[j];
        assert r[i].0 == a[i].0;
      }
    }
  }
}
