/** The exact-field-name check of a decoded JSON value against its destination type. */
module Shapes {
  import opened StrictJson

  /** A destination type, as far as the check looks: `Raw` and `Leaf` accept any value. */
  datatype Shape =
    | Raw
    | Leaf
    | Pointer(element: Shape)
    | Struct(fields: map<string, Shape>)
    | List(element: Shape)
    | MapOf(element: Shape)

  /** Struct positions name known fields only; a value of another kind is left to the decoder. */
  predicate ShapeOk(j: Json, s: Shape)
    decreases j, s
  {
    match s
    case Pointer(element) => ShapeOk(j, element)
    case Struct(fields) =>
      j.Object? ==> forall k :: 0 <= k < |j.members| ==>
        j.members[k].key in fields && ShapeOk(j.members[k].value, fields[j.members[k].key])
    case List(element) => j.Array? ==> forall k :: 0 <= k < |j.items| ==> ShapeOk(j.items[k], element)
    case MapOf(element) => j.Object? ==> forall k :: 0 <= k < |j.members| ==> ShapeOk(j.members[k].value, element)
    case _ => true
  }

  /** Following child positions leads through matching kinds to a member the struct there does not know. */
  predicate UnknownAt(j: Json, s: Shape, path: seq<nat>)
    decreases |path|, s
  {
    match s
    case Pointer(element) => UnknownAt(j, element, path)
    case Struct(fields) =>
      && j.Object? && path != [] && path[0] < |j.members|
      && var m := j.members[path[0]];
         if m.key in fields then UnknownAt(m.value, fields[m.key], path[1..]) else |path| == 1
    case List(element) =>
      j.Array? && path != [] && path[0] < |j.items| && UnknownAt(j.items[path[0]], element, path[1..])
    case MapOf(element) =>
      j.Object? && path != [] && path[0] < |j.members| && UnknownAt(j.members[path[0]].value, element, path[1..])
    case _ => false
  }

  /** The path leads to an unknown member. */
  predicate LeadsToUnknown(j: Json, s: Shape, path: seq<nat>) {
    UnknownAt(j, s, path)
  }

  lemma {:induction false} UnknownRefused(j: Json, s: Shape, path: seq<nat>)
    requires UnknownAt(j, s, path)
    ensures !ShapeOk(j, s)
    decreases |path|, s
  {
    match s
    case Pointer(element) => UnknownRefused(j, element, path);
    case Struct(fields) =>
      var m := j.members[path[0]];
      if m.key in fields {
        UnknownRefused(m.value, fields[m.key], path[1..]);
      }
    case List(element) => UnknownRefused(j.items[path[0]], element, path[1..]);
    case MapOf(element) => UnknownRefused(j.members[path[0]].value, element, path[1..]);
  }

  lemma {:induction false} RefusedHasUnknown(j: Json, s: Shape) returns (path: seq<nat>)
    requires !ShapeOk(j, s)
    ensures UnknownAt(j, s, path)
    decreases j, s
  {
    match s
    case Pointer(element) => path := RefusedHasUnknown(j, element);
    case Struct(fields) =>
      var k: nat :| k < |j.members|
        && !(j.members[k].key in fields && ShapeOk(j.members[k].value, fields[j.members[k].key]));
      if j.members[k].key in fields {
        var tail := RefusedHasUnknown(j.members[k].value, fields[j.members[k].key]);
        path := [k] + tail;
        assert path[1..] == tail;
      } else {
        path := [k];
      }
    case List(element) =>
      var k: nat :| k < |j.items| && !ShapeOk(j.items[k], element);
      var tail := RefusedHasUnknown(j.items[k], element);
      path := [k] + tail;
      assert path[1..] == tail;
    case MapOf(element) =>
      var k: nat :| k < |j.members| && !ShapeOk(j.members[k].value, element);
      var tail := RefusedHasUnknown(j.members[k].value, element);
      path := [k] + tail;
      assert path[1..] == tail;
  }

  /** The check refuses exactly the values with an unknown member at some struct position, however deep. */
  lemma ShapeExact(j: Json, s: Shape)
    ensures ShapeOk(j, s) <==> !exists path: seq<nat> :: LeadsToUnknown(j, s, path)
  {
    if !ShapeOk(j, s) {
      var path := RefusedHasUnknown(j, s);
      assert LeadsToUnknown(j, s, path);
    }
    forall path: seq<nat> | LeadsToUnknown(j, s, path) ensures !ShapeOk(j, s) {
      UnknownRefused(j, s, path);
    }
  }
}
