/** The link targets of the calendar event popover icons
    (assets/js/utils/calendar_event_popover.js): a map link built from the address
    fields, a `mailto:` link and a `tel:` link. The HTML around each link is not modelled. */
module CalendarEventPopover {
  import Php

  /** A JavaScript value as the popover receives it in a user field. Numbers are integers. */
  datatype JsValue = Undefined | Null | Bool(b: bool) | Num(n: int) | Str(s: string)

  /** JavaScript truthiness: false, 0, "" , null and undefined are falsy. */
  predicate Truthy(v: JsValue)
  {
    match v
    case Undefined => false
    case Null => false
    case Bool(b) => b
    case Num(n) => n != 0
    case Str(s) => s != ""
  }

  /** `String(v)`, as `+` on a string and `join` apply it. */
  function ToJsString(v: JsValue): string
  {
    match v
    case Undefined => "undefined"
    case Null => "null"
    case Bool(b) => if b then "true" else "false"
    case Num(n) => Php.IntToString(n)
    case Str(s) => s
  }

  /** The fields of `user` the map icon reads. */
  datatype User = User(address: JsValue, city: JsValue, state: JsValue, zipCode: JsValue)

  const MapsPrefix: string := "https://google.com/maps/place/"
  const MailPrefix: string := "mailto:"
  const PhonePrefix: string := "tel:"

  /** What the map icon renders: nothing, or a link. */
  datatype MapIcon = NoIcon | Link(href: string)

  /** `Array.prototype.join` on strings. */
  function Join(parts: seq<string>, sep: char): string
    decreases |parts|
  {
    if parts == [] then ""
    else if |parts| == 1 then parts[0]
    else parts[0] + [sep] + Join(parts[1..], sep)
  }

  /** `String.prototype.split` on one character: the pieces between the separators. */
  function Split(s: string, sep: char): (r: seq<string>)
    ensures |r| >= 1
    decreases |s|
  {
    if s == [] then [""]
    else if s[0] == sep then [""] + Split(s[1..], sep)
    else
      var rest := Split(s[1..], sep);
      [[s[0]] + rest[0]] + rest[1..]
  }

  /** One field's contribution to the map link: its text when it is truthy. */
  function Keep(v: JsValue): seq<string>
  {
    if Truthy(v) then [ToJsString(v)] else []
  }

  /** The truthy values among `fields`, in order, as strings. */
  function TruthyParts(fields: seq<JsValue>): (r: seq<string>)
    ensures |r| <= |fields|
    decreases |fields|
  {
    if fields == [] then [] else Keep(fields[0]) + TruthyParts(fields[1..])
  }

  /** The address parts of the map link: address, city, state and zip code, each when truthy. */
  function MapParts(user: User): seq<string>
  {
    TruthyParts([user.address, user.city, user.state, user.zipCode])
  }

  /** The map parts are the four fields' contributions, in order. */
  lemma MapPartsFields(user: User)
    ensures MapParts(user) == Keep(user.address) + Keep(user.city) + Keep(user.state) + Keep(user.zipCode)
  {
    var fields := [user.address, user.city, user.state, user.zipCode];
    assert fields[1..] == [user.city, user.state, user.zipCode];
    assert fields[1..][1..] == [user.state, user.zipCode];
    assert fields[1..][1..][1..] == [user.zipCode];
    assert fields[1..][1..][1..][1..] == [];
    assert TruthyParts(fields[1..][1..][1..]) == Keep(user.zipCode);
    assert TruthyParts(fields[1..][1..]) == Keep(user.state) + Keep(user.zipCode);
    assert TruthyParts(fields[1..]) == Keep(user.city) + Keep(user.state) + Keep(user.zipCode);
  }

  /** `renderMapIcon`: pushes each truthy field in turn; no part means no icon, otherwise
      the parts joined with commas follow the Google Maps prefix. */
  method RenderMapIcon(user: User) returns (icon: MapIcon)
    ensures icon == if MapParts(user) == [] then NoIcon else Link(MapsPrefix + Join(MapParts(user), ','))
  {
    var data: seq<string> := [];
    if Truthy(user.address) {
      data := data + [ToJsString(user.address)];
    }
    if Truthy(user.city) {
      data := data + [ToJsString(user.city)];
    }
    if Truthy(user.state) {
      data := data + [ToJsString(user.state)];
    }
    if Truthy(user.zipCode) {
      data := data + [ToJsString(user.zipCode)];
    }
    assert data == Keep(user.address) + Keep(user.city) + Keep(user.state) + Keep(user.zipCode);
    MapPartsFields(user);
    if |data| == 0 {
      return NoIcon;
    }
    return Link(MapsPrefix + Join(data, ','));
  }

  /** The map icon is left out exactly when no address field is truthy. */
  lemma NoIconIffNoAddress(user: User)
    ensures MapParts(user) == [] <==>
      !Truthy(user.address) && !Truthy(user.city) && !Truthy(user.state) && !Truthy(user.zipCode)
  {
    MapPartsFields(user);
  }

  /** Every part is the text of a truthy field, and there are at most four. */
  lemma MapPartsAreFields(user: User)
    ensures |MapParts(user)| <= 4
    ensures forall p :: p in MapParts(user) ==>
      exists f :: f in [user.address, user.city, user.state, user.zipCode] && Truthy(f) && p == ToJsString(f)
  {
    TruthyPartsFrom([user.address, user.city, user.state, user.zipCode]);
  }

  lemma {:induction false} TruthyPartsFrom(fields: seq<JsValue>)
    ensures forall p :: p in TruthyParts(fields) ==> exists f :: f in fields && Truthy(f) && p == ToJsString(f)
    decreases |fields|
  {
    if fields != [] {
      TruthyPartsFrom(fields[1..]);
      forall p | p in TruthyParts(fields)
        ensures exists f :: f in fields && Truthy(f) && p == ToJsString(f)
      {
        if p !in TruthyParts(fields[1..]) {
          assert Truthy(fields[0]) && p == ToJsString(fields[0]);
        } else {
          var f :| f in fields[1..] && Truthy(f) && p == ToJsString(f);
          assert f in fields;
        }
      }
    }
  }

  /** A string without the separator splits into itself. */
  lemma {:induction false} SplitWithoutSeparator(s: string, sep: char)
    requires sep !in s
    ensures Split(s, sep) == [s]
    decreases |s|
  {
    if s != [] {
      SplitWithoutSeparator(s[1..], sep);
      assert [s[0]] + s[1..] == s;
    }
  }

  /** Splitting at the first separator gives the piece before it, then the split of the rest. */
  lemma {:induction false} SplitAtSeparator(p: string, sep: char, rest: string)
    requires sep !in p
    ensures Split(p + [sep] + rest, sep) == [p] + Split(rest, sep)
    decreases |p|
  {
    var s := p + [sep] + rest;
    if p == [] {
      assert s[0] == sep && s[1..] == rest;
    } else {
      assert s[0] == p[0] && s[1..] == p[1..] + [sep] + rest;
      SplitAtSeparator(p[1..], sep, rest);
      assert [p[0]] + p[1..] == p;
    }
  }

  /** When no address part contains a comma, the link text splits back into the parts. */
  lemma {:induction false} JoinSplitRoundTrip(parts: seq<string>, sep: char)
    requires parts != []
    requires forall i :: 0 <= i < |parts| ==> sep !in parts[i]
    ensures Split(Join(parts, sep), sep) == parts
    decreases |parts|
  {
    if |parts| == 1 {
      SplitWithoutSeparator(parts[0], sep);
    } else {
      JoinSplitRoundTrip(parts[1..], sep);
      SplitAtSeparator(parts[0], sep, Join(parts[1..], sep));
    }
  }

  /** The address parts can be read back from a rendered map link when none contains a comma. */
  lemma MapLinkRecoversParts(user: User, href: string)
    requires MapParts(user) != [] && href == MapsPrefix + Join(MapParts(user), ',')
    requires forall i :: 0 <= i < |MapParts(user)| ==> ',' !in MapParts(user)[i]
    ensures href[..|MapsPrefix|] == MapsPrefix
    ensures Split(href[|MapsPrefix|..], ',') == MapParts(user)
  {
    assert href[|MapsPrefix|..] == Join(MapParts(user), ',');
    JoinSplitRoundTrip(MapParts(user), ',');
  }

  /** A comma inside one field makes the link indistinguishable from two fields. */
  lemma CommaInFieldIsAmbiguous()
    ensures MapParts(User(Str("a,b"), Undefined, Undefined, Undefined))
            != MapParts(User(Str("a"), Str("b"), Undefined, Undefined))
    ensures Join(MapParts(User(Str("a,b"), Undefined, Undefined, Undefined)), ',')
            == Join(MapParts(User(Str("a"), Str("b"), Undefined, Undefined)), ',')
  {
    MapPartsFields(User(Str("a,b"), Undefined, Undefined, Undefined));
    MapPartsFields(User(Str("a"), Str("b"), Undefined, Undefined));
    assert MapParts(User(Str("a,b"), Undefined, Undefined, Undefined)) == ["a,b"];
    assert MapParts(User(Str("a"), Str("b"), Undefined, Undefined)) == ["a", "b"];
  }

  /** `renderMailIcon`: the link target is `mailto:` followed by the value as a string. */
  function MailHref(email: JsValue): (href: string)
    ensures |href| >= |MailPrefix| && href[..|MailPrefix|] == MailPrefix && href[|MailPrefix|..] == ToJsString(email)
  {
    MailPrefix + ToJsString(email)
  }

  /** `renderPhoneIcon`: the link target is `tel:` followed by the value as a string. */
  function PhoneHref(phone: JsValue): (href: string)
    ensures |href| >= |PhonePrefix| && href[..|PhonePrefix|] == PhonePrefix && href[|PhonePrefix|..] == ToJsString(phone)
  {
    PhonePrefix + ToJsString(phone)
  }

  /** Different addresses give different mail links, and a missing address is not left
      out: it reads `mailto:undefined`. */
  lemma MailHrefDistinguishes(a: JsValue, b: JsValue)
    ensures MailHref(a) == MailHref(b) <==> ToJsString(a) == ToJsString(b)
    ensures MailHref(Undefined) == "mailto:undefined"
  {
    if MailHref(a) == MailHref(b) {
      assert MailHref(a)[|MailPrefix|..] == MailHref(b)[|MailPrefix|..];
    }
  }

  /** Different numbers give different phone links. */
  lemma PhoneHrefDistinguishes(a: JsValue, b: JsValue)
    ensures PhoneHref(a) == PhoneHref(b) <==> ToJsString(a) == ToJsString(b)
  {
    if PhoneHref(a) == PhoneHref(b) {
      assert PhoneHref(a)[|PhonePrefix|..] == PhoneHref(b)[|PhonePrefix|..];
    }
  }
}
