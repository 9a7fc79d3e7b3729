/**
 Version stripping of pkg/api/version.go: the walk over a response that zeroes every field newer
 than the API version asked for.
 */
module Versioning {
  import opened Wrappers

  datatype Version = Version(major: int, minor: int) {
    predicate Before(other: Version) {
      if major != other.major then major < other.major else minor < other.minor
    }
  }

  function Min(a: Version, b: Version): Version {
    if b.Before(a) then b else a
  }

  /** A field: embedded or not, its since tag, the zero value of its type, and its value. */
  datatype Field = Field(embedded: bool, since: Option<Version>, zero: Value, value: Value)

  /** What reflection sees of a value; Scalar stands for every kind the walk does not enter. */
  datatype Value = Scalar(id: int) | Nil | Pointer(target: Value) | Interface(content: Value)
                 | Struct(fields: seq<Field>) | Slice(items: seq<Value>) | Map(entries: seq<(string, Value)>)

  /** The field is one to be zeroed; the tag of an embedded field is not looked at. */
  predicate Newer(f: Field, ver: Version) {
    !f.embedded && f.since.Some? && ver.Before(f.since.value)
  }

  /** The value with every newer field zeroed. */
  function Erase(v: Value, ver: Version): Value {
    match v
    case Scalar(_) => v
    case Nil => v
    case Pointer(target) => Pointer(Erase(target, ver))
    case Interface(content) => Interface(Erase(content, ver))
    case Struct(fields) =>
      Struct(seq(|fields|, i requires 0 <= i < |fields| =>
        fields[i].(value := if Newer(fields[i], ver) then fields[i].zero else Erase(fields[i].value, ver))))
    case Slice(items) => Slice(seq(|items|, i requires 0 <= i < |items| => Erase(items[i], ver)))
    case Map(entries) => Map(seq(|entries|, i requires 0 <= i < |entries| => (entries[i].0, Erase(entries[i].1, ver))))
  }

  /**
   Every newer field that the walk reaches can be set. What a pointer or a slice holds can; what an
   interface or a map holds cannot, unless it is behind a pointer again: setting that panics.
   */
  predicate Settable(v: Value, ver: Version, addressable: bool) {
    match v
    case Scalar(_) => true
    case Nil => true
    case Pointer(target) => Settable(target, ver, true)
    case Interface(content) => Settable(content, ver, false)
    case Struct(fields) =>
      forall i :: 0 <= i < |fields| ==>
        if Newer(fields[i], ver) then addressable else Settable(fields[i].value, ver, addressable)
    case Slice(items) => forall i :: 0 <= i < |items| ==> Settable(items[i], ver, true)
    case Map(entries) => forall i :: 0 <= i < |entries| ==> Settable(entries[i].1, ver, false)
  }

  /** The outcome of a walk: the value as it is then, or None for a panic. */
  function Stripped(v: Value, ver: Version, addressable: bool): Option<Value> {
    if Settable(v, ver, addressable) then Some(Erase(v, ver)) else None
  }

  // ---------------------------------------------------------------- the walk

  method StripValue(v: Value, ver: Version, addressable: bool) returns (r: Option<Value>)
    ensures r == Stripped(v, ver, addressable)
    decreases v, 1
  {
    match v {
      case Scalar(_) => return Some(v);
      case Nil => return Some(v);
      case Pointer(target) =>
        var t := StripValue(target, ver, true);
        return if t.Some? then Some(Pointer(t.value)) else None;
      case Interface(content) =>
        var c := StripValue(content, ver, false);
        return if c.Some? then Some(Interface(c.value)) else None;
      case Struct(fields) =>
        r := StripStruct(v, ver, addressable);
      case Slice(items) =>
        var out := [];
        for i := 0 to |items|
          invariant |out| == i
          invariant forall j :: 0 <= j < i ==> Settable(items[j], ver, true) && out[j] == Erase(items[j], ver)
        {
          var item := StripValue(items[i], ver, true);
          if item.None? {
            return None;
          }
          out := out + [item.value];
        }
        assert out == Erase(v, ver).items;
        return Some(Slice(out));
      case Map(entries) =>
        var out := [];
        for i := 0 to |entries|
          invariant |out| == i
          invariant forall j :: 0 <= j < i ==>
            Settable(entries[j].1, ver, false) && out[j] == (entries[j].0, Erase(entries[j].1, ver))
        {
          var entry := StripValue(entries[i].1, ver, false);
          if entry.None? {
            return None;
          }
          out := out + [(entries[i].0, entry.value)];
        }
        assert out == Erase(v, ver).entries;
        return Some(Map(out));
    }
  }

  method StripStruct(v: Value, ver: Version, addressable: bool) returns (r: Option<Value>)
    requires v.Struct?
    ensures r == Stripped(v, ver, addressable)
    decreases v, 0
  {
    var fields := new Field[|v.fields|](i requires 0 <= i < |v.fields| => v.fields[i]);
    for i := 0 to fields.Length
      invariant forall j :: 0 <= j < i ==>
        if Newer(v.fields[j], ver) then addressable else Settable(v.fields[j].value, ver, addressable)
      invariant forall j :: 0 <= j < i ==> fields[j] == Erase(v, ver).fields[j]
      invariant forall j :: i <= j < fields.Length ==> fields[j] == v.fields[j]
    {
      var f := fields[i];
      if f.embedded {
        var value := StripValue(f.value, ver, addressable);
        if value.None? {
          return None;
        }
        fields[i] := f.(value := value.value);
        continue;
      }
      if f.since.Some? && ver.Before(f.since.value) {
        if !addressable {
          return None;
        }
        fields[i] := f.(value := f.zero);
        continue;
      }
      var value := StripValue(f.value, ver, addressable);
      if value.None? {
        return None;
      }
      fields[i] := f.(value := value.value);
    }
    assert fields[..] == Erase(v, ver).fields;
    return Some(Struct(fields[..]));
  }

  /** A struct is copied behind a pointer first, so that its fields can be set. */
  method StripVersionedFields(v: Value, ver: Version) returns (r: Option<Value>)
    ensures r == Stripped(if v.Struct? then Pointer(v) else v, ver, false)
  {
    if v.Struct? {
      r := StripValue(Pointer(v), ver, false);
    } else {
      r := StripValue(v, ver, false);
    }
  }

  // ---------------------------------------------------------------- zero values

  /** The zero value of a type: every field is at the zero of its own type. */
  predicate IsZero(v: Value) {
    match v
    case Scalar(_) => true
    case Nil => true
    case Struct(fields) => forall i :: 0 <= i < |fields| ==> fields[i].value == fields[i].zero && IsZero(fields[i].zero)
    case Slice(items) => items == []
    case Map(entries) => entries == []
    case _ => false
  }

  /** Every field of the value has a zero value for its zero. */
  predicate Typed(v: Value) {
    match v
    case Pointer(target) => Typed(target)
    case Interface(content) => Typed(content)
    case Struct(fields) => forall i :: 0 <= i < |fields| ==> IsZero(fields[i].zero) && Typed(fields[i].value)
    case Slice(items) => forall i :: 0 <= i < |items| ==> Typed(items[i])
    case Map(entries) => forall i :: 0 <= i < |entries| ==> Typed(entries[i].1)
    case _ => true
  }

  lemma {:induction false} ZeroStays(v: Value, ver: Version)
    requires IsZero(v)
    ensures Erase(v, ver) == v && Settable(v, ver, true)
  {
    if v.Struct? {
      forall i | 0 <= i < |v.fields|
        ensures Erase(v, ver).fields[i] == v.fields[i] && Settable(v.fields[i].value, ver, true) {
        ZeroStays(v.fields[i].value, ver);
      }
      assert Erase(v, ver).fields == v.fields;
    }
  }

  // ---------------------------------------------------------------- twice is once

  /** Erasing for two versions, one after the other, erases for the older of the two. */
  lemma {:induction false} EraseTwice(v: Value, a: Version, b: Version)
    requires Typed(v)
    ensures Erase(Erase(v, a), b) == Erase(v, Min(a, b))
  {
    var twice, once := Erase(Erase(v, a), b), Erase(v, Min(a, b));
    match v {
      case Scalar(_) =>
      case Nil =>
      case Pointer(target) => EraseTwice(target, a, b);
      case Interface(content) => EraseTwice(content, a, b);
      case Struct(fields) =>
        forall i | 0 <= i < |fields| ensures twice.fields[i] == once.fields[i] {
          FieldTwice(fields[i], a, b);
          if !Newer(fields[i], a) {
            EraseTwice(fields[i].value, a, b);
          }
        }
        assert twice.fields == once.fields;
      case Slice(items) =>
        forall i | 0 <= i < |items| ensures twice.items[i] == once.items[i] {
          EraseTwice(items[i], a, b);
        }
        assert twice.items == once.items;
      case Map(entries) =>
        forall i | 0 <= i < |entries| ensures twice.entries[i] == once.entries[i] {
          EraseTwice(entries[i].1, a, b);
        }
        assert twice.entries == once.entries;
    }
  }

  lemma FieldTwice(f: Field, a: Version, b: Version)
    requires IsZero(f.zero)
    ensures Newer(f, Min(a, b)) <==> Newer(f, a) || Newer(f, b)
    ensures Erase(f.zero, b) == f.zero && Settable(f.zero, b, true)
  {
    ZeroStays(f.zero, b);
  }

  /** After a first walk that did not panic, a second one panics exactly when one for the older version would. */
  lemma {:induction false} SettableTwice(v: Value, a: Version, b: Version, addressable: bool)
    requires Typed(v) && Settable(v, a, addressable)
    ensures Settable(Erase(v, a), b, addressable) <==> Settable(v, Min(a, b), addressable)
  {
    match v {
      case Scalar(_) =>
      case Nil =>
      case Pointer(target) => SettableTwice(target, a, b, true);
      case Interface(content) => SettableTwice(content, a, b, false);
      case Struct(fields) =>
        var erased := Erase(v, a).fields;
        forall i | 0 <= i < |fields|
          ensures FieldSettable(erased[i], b, addressable) <==> FieldSettable(fields[i], Min(a, b), addressable) {
          FieldTwice(fields[i], a, b);
          if !Newer(fields[i], a) {
            SettableTwice(fields[i].value, a, b, addressable);
          }
        }
        FieldsSettable(Erase(v, a), b, addressable);
        FieldsSettable(v, Min(a, b), addressable);
      case Slice(items) =>
        forall i | 0 <= i < |items|
          ensures Settable(Erase(v, a).items[i], b, true) <==> Settable(items[i], Min(a, b), true) {
          SettableTwice(items[i], a, b, true);
        }
      case Map(entries) =>
        forall i | 0 <= i < |entries|
          ensures Settable(Erase(v, a).entries[i].1, b, false) <==> Settable(entries[i].1, Min(a, b), false) {
          SettableTwice(entries[i].1, a, b, false);
        }
    }
  }

  predicate FieldSettable(f: Field, ver: Version, addressable: bool) {
    if Newer(f, ver) then addressable else Settable(f.value, ver, addressable)
  }

  lemma FieldsSettable(v: Value, ver: Version, addressable: bool)
    requires v.Struct?
    ensures Settable(v, ver, addressable) <==>
            forall i :: 0 <= i < |v.fields| ==> FieldSettable(v.fields[i], ver, addressable)
  {
  }

  function Then(r: Option<Value>, ver: Version, addressable: bool): Option<Value> {
    if r.None? then None else Stripped(r.value, ver, addressable)
  }

  /**
   Stripping for one version and then for another is stripping once for the older of the two, panics
   included, except where the first walk panics and the one for the older version does not: there a
   field that cannot be set lies below one that the older version does not show.
   */
  lemma StripTwice(v: Value, a: Version, b: Version, addressable: bool)
    requires Typed(v)
    ensures Then(Stripped(v, a, addressable), b, addressable) == Stripped(v, Min(a, b), addressable) <==>
            Settable(v, a, addressable) || !Settable(v, Min(a, b), addressable)
  {
    if Settable(v, a, addressable) {
      EraseTwice(v, a, b);
      SettableTwice(v, a, b, addressable);
    }
  }

  /** A field inside an interface, which cannot be set, below another field. */
  function Nested(above: Version, below: Version): Value {
    Struct([Field(false, Some(above), Nil, Interface(Struct([Field(false, Some(below), Nil, Scalar(1))])))])
  }

  /**
   Where the upper field is older than the lower one: asked for the upper one's version the walk
   panics, asked for less it does not.
   */
  lemma StripTwiceFails(above: Version, below: Version, less: Version)
    requires above.Before(below) && less.Before(above)
    ensures Typed(Nested(above, below)) && Stripped(Nested(above, below), above, true).None?
    ensures Stripped(Nested(above, below), less, true).Some?
  {
    var v := Nested(above, below);
    var inner := v.fields[0].value.content;
    assert Typed(inner) && Typed(v.fields[0].value);
    FieldsSettable(inner, above, false);
    assert !FieldSettable(inner.fields[0], above, false);
    assert !Settable(v.fields[0].value, above, true);
    FieldsSettable(v, above, true);
    assert !FieldSettable(v.fields[0], above, true);
    FieldsSettable(v, less, true);
  }

  lemma StripAgain(v: Value, ver: Version, addressable: bool)
    requires Typed(v) && Stripped(v, ver, addressable).Some?
    ensures Then(Stripped(v, ver, addressable), ver, addressable) == Stripped(v, ver, addressable)
  {
    StripTwice(v, ver, ver, addressable);
  }

  // ---------------------------------------------------------------- no panic for any version

  /** Whether a version asked for shows fields tagged with floor. */
  predicate Shows(ver: Version, floor: Option<Version>) {
    floor.Some? ==> !ver.Before(floor.value)
  }

  /** The tag that decides whether the field is seen: the newest of those passed down to its value. */
  function Floor(f: Field, floor: Option<Version>): Option<Version> {
    if f.embedded || f.since.None? || (floor.Some? && f.since.value.Before(floor.value)) then floor else f.since
  }

  /**
   Told from the tags alone: every tagged field can be set, except where one as new or newer is passed
   on the way to it (floor is the newest of these).
   */
  predicate Open(v: Value, floor: Option<Version>, addressable: bool) {
    match v
    case Scalar(_) => true
    case Nil => true
    case Pointer(target) => Open(target, floor, true)
    case Interface(content) => Open(content, floor, false)
    case Struct(fields) =>
      forall i :: 0 <= i < |fields| ==>
        (addressable || Floor(fields[i], floor) == floor) && Open(fields[i].value, Floor(fields[i], floor), addressable)
    case Slice(items) => forall i :: 0 <= i < |items| ==> Open(items[i], floor, true)
    case Map(entries) => forall i :: 0 <= i < |entries| ==> Open(entries[i].1, floor, false)
  }

  lemma {:induction false} OpenIsSettable(v: Value, floor: Option<Version>, ver: Version, addressable: bool)
    requires Open(v, floor, addressable) && Shows(ver, floor)
    ensures Settable(v, ver, addressable)
  {
    match v {
      case Scalar(_) =>
      case Nil =>
      case Pointer(target) => OpenIsSettable(target, floor, ver, true);
      case Interface(content) => OpenIsSettable(content, floor, ver, false);
      case Struct(fields) =>
        forall i | 0 <= i < |fields| ensures FieldSettable(fields[i], ver, addressable) {
          if !Newer(fields[i], ver) {
            OpenIsSettable(fields[i].value, Floor(fields[i], floor), ver, addressable);
          }
        }
        FieldsSettable(v, ver, addressable);
      case Slice(items) =>
        forall i | 0 <= i < |items| ensures Settable(items[i], ver, true) {
          OpenIsSettable(items[i], floor, ver, true);
        }
      case Map(entries) =>
        forall i | 0 <= i < |entries| ensures Settable(entries[i].1, ver, false) {
          OpenIsSettable(entries[i].1, floor, ver, false);
        }
    }
  }

  lemma {:induction false} PanickingVersion(v: Value, floor: Option<Version>, addressable: bool) returns (ver: Version)
    requires !Open(v, floor, addressable)
    ensures Shows(ver, floor) && !Settable(v, ver, addressable)
    decreases v
  {
    match v {
      case Pointer(target) => ver := PanickingVersion(target, floor, true);
      case Interface(content) => ver := PanickingVersion(content, floor, false);
      case Struct(fields) =>
        var i :| 0 <= i < |fields| && !((addressable || Floor(fields[i], floor) == floor) &&
                                        Open(fields[i].value, Floor(fields[i], floor), addressable));
        if !addressable && Floor(fields[i], floor) != floor {
          ver := if floor.Some? then floor.value else Version(fields[i].since.value.major - 1, 0);
        } else {
          ver := PanickingVersion(fields[i].value, Floor(fields[i], floor), addressable);
        }
        assert !FieldSettable(fields[i], ver, addressable);
        FieldsSettable(v, ver, addressable);
      case Slice(items) =>
        var i :| 0 <= i < |items| && !Open(items[i], floor, true);
        ver := PanickingVersion(items[i], floor, true);
      case Map(entries) =>
        var i :| 0 <= i < |entries| && !Open(entries[i].1, floor, false);
        ver := PanickingVersion(entries[i].1, floor, false);
    }
  }

  /** There is no version for which the walk panics, if and only if the tags are as Open says. */
  lemma NeverPanics(v: Value, addressable: bool)
    ensures Open(v, None, addressable) <==> forall ver :: Stripped(v, ver, addressable).Some?
  {
    if Open(v, None, addressable) {
      forall ver ensures Stripped(v, ver, addressable).Some? {
        OpenIsSettable(v, None, ver, addressable);
      }
    } else {
      var ver := PanickingVersion(v, None, addressable);
      assert Stripped(v, ver, addressable).None?;
    }
  }

  /** For such values stripping for two versions in turn is stripping for the older one, always. */
  lemma TwiceIsOnce(v: Value, a: Version, b: Version, addressable: bool)
    requires Typed(v) && Open(v, None, addressable)
    ensures Stripped(v, Min(a, b), addressable).Some?
    ensures Then(Stripped(v, a, addressable), b, addressable) == Stripped(v, Min(a, b), addressable)
  {
    NeverPanics(v, addressable);
    StripTwice(v, a, b, addressable);
  }

  // ---------------------------------------------------------------- field by field

  function Children(v: Value): nat {
    match v
    case Scalar(_) => 0
    case Nil => 0
    case Pointer(_) => 1
    case Interface(_) => 1
    case Struct(fields) => |fields|
    case Slice(items) => |items|
    case Map(entries) => |entries|
  }

  function Child(v: Value, i: nat): (c: Value)
    requires i < Children(v)
    ensures c < v
  {
    match v
    case Pointer(target) => target
    case Interface(content) => content
    case Struct(fields) => fields[i].value
    case Slice(items) => items[i]
    case Map(entries) => entries[i].1
  }

  predicate SameButValue(f: Field, g: Field) {
    g.(value := f.value) == f
  }

  /** What can be said of a value without looking at its children. */
  predicate SameHead(v: Value, w: Value) {
    && Children(v) == Children(w)
    && (v.Scalar? ==> v == w) && (v.Nil? ==> w.Nil?) && (v.Pointer? ==> w.Pointer?) && (v.Interface? ==> w.Interface?)
    && (v.Slice? ==> w.Slice?)
    && (v.Map? ==> w.Map? && forall i :: 0 <= i < |v.entries| ==> v.entries[i].0 == w.entries[i].0)
    && (v.Struct? ==> w.Struct?)
    && (v.Struct? ==> forall i :: 0 <= i < |v.fields| ==> SameButValue(v.fields[i], w.fields[i]))
  }

  /** Step i into v enters a field that is to be zeroed. */
  predicate EntersNewer(v: Value, i: nat, ver: Version)
    requires i < Children(v)
  {
    v.Struct? && Newer(v.fields[i], ver)
  }

  /** The path leads somewhere, and enters no newer field on the way. */
  predicate Visible(v: Value, path: seq<nat>, ver: Version)
    decreases |path|
  {
    path != [] ==>
      path[0] < Children(v) && !EntersNewer(v, path[0], ver) && Visible(Child(v, path[0]), path[1..], ver)
  }

  function At(v: Value, path: seq<nat>): Option<Value>
    decreases |path|
  {
    if path == [] then Some(v)
    else if path[0] >= Children(v) then None
    else At(Child(v, path[0]), path[1..])
  }

  lemma ErasedChild(v: Value, ver: Version, i: nat)
    requires i < Children(v)
    ensures Children(Erase(v, ver)) == Children(v)
    ensures Child(Erase(v, ver), i) == if EntersNewer(v, i, ver) then v.fields[i].zero else Erase(Child(v, i), ver)
  {
  }

  /** Wherever the walk comes, it finds what is there and leaves it, but for the newer fields. */
  lemma {:induction false} RestIsKept(v: Value, ver: Version, path: seq<nat>)
    requires Visible(v, path, ver)
    ensures At(v, path).Some? && At(Erase(v, ver), path) == Some(Erase(At(v, path).value, ver))
    ensures SameHead(At(v, path).value, At(Erase(v, ver), path).value)
    decreases |path|
  {
    if path != [] {
      ErasedChild(v, ver, path[0]);
      RestIsKept(Child(v, path[0]), ver, path[1..]);
    }
  }

  /** Every newer field that the walk reaches is at its zero value afterwards. */
  lemma NewerIsRemoved(v: Value, ver: Version, path: seq<nat>, i: nat)
    requires Visible(v, path, ver) && At(v, path).Some?
    requires i < Children(At(v, path).value) && EntersNewer(At(v, path).value, i, ver)
    ensures At(Erase(v, ver), path).Some?
    ensures var w := At(Erase(v, ver), path).value;
      w.Struct? && i < |w.fields| && w.fields[i].value == At(v, path).value.fields[i].zero
  {
    RestIsKept(v, ver, path);
  }

  // ---------------------------------------------------------------- in numbers

  /** The numbers of the first version come before those of the second. */
  predicate Earlier(major: int, minor: int, major2: int, minor2: int) {
    major < major2 || (major == major2 && minor < minor2)
  }

  /** The field is tagged, and the walk looks at its tag. */
  predicate TaggedWith(f: Field, major: int, minor: int) {
    !f.embedded && f.since == Some(Version(major, minor))
  }

  /** The path leads somewhere, through no field with a tag later than the version of these numbers. */
  ghost predicate Shown(v: Value, path: seq<nat>, major: int, minor: int)
    decreases |path|
  {
    path != [] ==>
      && path[0] < Children(v)
      && (v.Struct? ==>
           forall m, n :: TaggedWith(v.fields[path[0]], m, n) ==> !Earlier(major, minor, m, n))
      && Shown(Child(v, path[0]), path[1..], major, minor)
  }

  lemma {:induction false} ShownIsVisible(v: Value, path: seq<nat>, major: int, minor: int)
    ensures Shown(v, path, major, minor) <==> Visible(v, path, Version(major, minor))
    decreases |path|
  {
    if path != [] && path[0] < Children(v) {
      ShownIsVisible(Child(v, path[0]), path[1..], major, minor);
      if v.Struct? && v.fields[path[0]].since.Some? && !v.fields[path[0]].embedded {
        var tag := v.fields[path[0]].since.value;
        assert TaggedWith(v.fields[path[0]], tag.major, tag.minor);
      }
    }
  }

  /** What is shown for one version is shown for each later one, and then with the same head. */
  lemma ShownLater(v: Value, path: seq<nat>, major: int, minor: int, later: Version)
    requires Shown(v, path, major, minor) && !Earlier(later.major, later.minor, major, minor)
    ensures Shown(v, path, later.major, later.minor)
    ensures At(v, path).Some? && At(Erase(v, later), path).Some?
    ensures SameHead(At(v, path).value, At(Erase(v, later), path).value)
  {
    StillShown(v, path, major, minor, later.major, later.minor);
    ShownIsVisible(v, path, later.major, later.minor);
    RestIsKept(v, later, path);
  }

  lemma {:induction false} StillShown(v: Value, path: seq<nat>, major: int, minor: int, major2: int, minor2: int)
    requires Shown(v, path, major, minor) && !Earlier(major2, minor2, major, minor)
    ensures Shown(v, path, major2, minor2)
    decreases |path|
  {
    if path != [] {
      StillShown(Child(v, path[0]), path[1..], major, minor, major2, minor2);
    }
  }

  /** A field of a struct that the walk reaches, with the numbers of its tag. */
  predicate TaggedAt(v: Value, path: seq<nat>, i: nat, major: int, minor: int) {
    At(v, path).Some? && At(v, path).value.Struct? && i < |At(v, path).value.fields| &&
    TaggedWith(At(v, path).value.fields[i], major, minor)
  }

  /**
   A reached field with a tag, asked for a version: zero if the version's numbers come before the tag's,
   and else the value that it has with its own newer fields removed.
   */
  lemma FieldByNumbers(v: Value, path: seq<nat>, i: nat, major: int, minor: int, ver: Version)
    requires Shown(v, path, ver.major, ver.minor) && TaggedAt(v, path, i, major, minor)
    ensures
      var f := At(v, path).value.fields[i];
      var after := At(Erase(v, ver), path);
      && after.Some? && after.value.Struct? && i < |after.value.fields|
      && after.value.fields[i].value ==
           (if Earlier(ver.major, ver.minor, major, minor) then f.zero else Erase(f.value, ver))
  {
    ShownIsVisible(v, path, ver.major, ver.minor);
    RestIsKept(v, ver, path);
  }

  /** A struct with one tagged field. */
  function Single(major: int, minor: int, value: Value): Value {
    Struct([Field(false, Some(Version(major, minor)), Nil, value)])
  }

  /**
   A field since (M, m) is removed for the version right before and for any of an earlier major number,
   and kept for its own version, the next one, and any of a later major number.
   */
  lemma OldVersionsLackNewFields(major: int, minor: int, n: int, id: int)
    ensures var v, gone := Single(major, minor, Scalar(id)), Single(major, minor, Nil);
      && Stripped(v, Version(major, minor - 1), true) == Some(gone)
      && Stripped(v, Version(major - 1, n), true) == Some(gone)
      && Stripped(v, Version(major, minor), true) == Some(v)
      && Stripped(v, Version(major, minor + 1), true) == Some(v)
      && Stripped(v, Version(major + 1, n), true) == Some(v)
  {
    var v, gone := Single(major, minor, Scalar(id)), Single(major, minor, Nil);
    SingleStripped(major, minor, id, Version(major, minor - 1));
    SingleStripped(major, minor, id, Version(major - 1, n));
    SingleStripped(major, minor, id, Version(major, minor));
    SingleStripped(major, minor, id, Version(major, minor + 1));
    SingleStripped(major, minor, id, Version(major + 1, n));
  }

  lemma SingleStripped(major: int, minor: int, id: int, ver: Version)
    ensures Stripped(Single(major, minor, Scalar(id)), ver, true) ==
            Some(Single(major, minor, if Earlier(ver.major, ver.minor, major, minor) then Nil else Scalar(id)))
  {
    var v := Single(major, minor, Scalar(id));
    FieldsSettable(v, ver, true);
    assert Erase(v, ver).fields ==
      Single(major, minor, if Earlier(ver.major, ver.minor, major, minor) then Nil else Scalar(id)).fields;
  }

  /** Fields are as settable as their struct; what a pointer or a slice holds always is. */
  predicate ChildAddressable(v: Value, addressable: bool) {
    if v.Struct? then addressable else v.Pointer? || v.Slice?
  }

  /** Whether what the path leads to can be set. */
  predicate AddressableAt(v: Value, path: seq<nat>, addressable: bool)
    requires At(v, path).Some?
    decreases |path|
  {
    if path == [] then addressable
    else
      AddressableAt(Child(v, path[0]), path[1..], ChildAddressable(v, addressable))
  }

  /** A newer field, reached, in a struct that cannot be set. */
  predicate Blocks(v: Value, ver: Version, addressable: bool, path: seq<nat>, i: nat) {
    && Visible(v, path, ver) && At(v, path).Some? && i < Children(At(v, path).value)
    && EntersNewer(At(v, path).value, i, ver) && !AddressableAt(v, path, addressable)
  }

  lemma SettableByChild(v: Value, ver: Version, addressable: bool)
    ensures Settable(v, ver, addressable) <==>
            forall i :: 0 <= i < Children(v) ==>
              if EntersNewer(v, i, ver) then addressable
              else Settable(Child(v, i), ver, ChildAddressable(v, addressable))
  {
    match v {
      case Pointer(_) => assert Child(v, 0) == v.target;
      case Interface(_) => assert Child(v, 0) == v.content;
      case Struct(fields) => assert forall i :: 0 <= i < |fields| ==> Child(v, i) == fields[i].value;
      case Slice(items) => assert forall i :: 0 <= i < |items| ==> Child(v, i) == items[i];
      case Map(entries) => assert forall i :: 0 <= i < |entries| ==> Child(v, i) == entries[i].1;
      case _ =>
    }
  }

  /** The walk panics only where some newer field cannot be set. */
  lemma {:induction false} PanicHasCause(v: Value, ver: Version, addressable: bool) returns (path: seq<nat>, i: nat)
    requires Stripped(v, ver, addressable).None?
    ensures Blocks(v, ver, addressable, path, i)
    decreases v
  {
    SettableByChild(v, ver, addressable);
    i :| 0 <= i < Children(v) && !(if EntersNewer(v, i, ver) then addressable
                                   else Settable(Child(v, i), ver, ChildAddressable(v, addressable)));
    path := [];
    if !EntersNewer(v, i, ver) {
      var k := i;
      path, i := PanicHasCause(Child(v, k), ver, ChildAddressable(v, addressable));
      assert ([k] + path)[1..] == path;
      path := [k] + path;
    }
  }

  /** And where some newer field cannot be set it does. */
  lemma {:induction false} CausePanics(v: Value, ver: Version, addressable: bool, path: seq<nat>, i: nat)
    requires Blocks(v, ver, addressable, path, i)
    ensures Stripped(v, ver, addressable).None?
    decreases |path|
  {
    SettableByChild(v, ver, addressable);
    if path != [] {
      CausePanics(Child(v, path[0]), ver, ChildAddressable(v, addressable), path[1..], i);
    }
  }
}
