/** `Cocoon.clone(obj, copy)`: the values of the enumerable properties of `obj`,
    in `for..in` order, each taken from `copy` instead when `copy` has that
    property as its own. A first argument that is not an object comes back as it is. */
module Clone {
  import opened Js

  /** The first argument: null, a primitive or a function (`Plain`), or an object. */
  datatype Subject = Plain(value: Value) | Object(obj: JsObject<Value>)

  /** What `clone` returns: its first argument unchanged, or a new array. */
  datatype Cloned = Same(value: Value) | Array(items: seq<Value>)

  /** The value `clone` puts at the position of property `key`: `copy`'s own value wins. */
  function Pick(obj: JsObject<Value>, copy: JsObject<Value>, key: string): (v: Value)
    requires key in obj.props
  {
    if key in copy.own then copy.props[key] else obj.props[key]
  }

  /** `copy` is `None` for null or undefined, whose `hasOwnProperty` read throws. */
  method Clone(subject: Subject, copy: Option<JsObject<Value>>) returns (r: Result<Cloned>)
    ensures subject.Plain? ==> r == Ok(Same(subject.value))
    ensures subject.Object? && copy.None? ==>
      r == if subject.obj.keys == [] then Ok(Array([])) else Err(TypeError)
    ensures subject.Object? && copy.Some? ==>
      && r.Ok? && r.value.Array?
      && |r.value.items| == |subject.obj.keys|
      && forall i :: 0 <= i < |subject.obj.keys| ==>
           r.value.items[i] == Pick(subject.obj, copy.value, subject.obj.keys[i])
  {
    match subject
    case Plain(v) =>
      return Ok(Same(v));
    case Object(obj) =>
      var arr: seq<Value> := [];
      var i := 0;
      while i < |obj.keys|
        invariant 0 <= i <= |obj.keys| && |arr| == i
        invariant copy.None? ==> i == 0
        invariant copy.Some? ==> forall k :: 0 <= k < i ==> arr[k] == Pick(obj, copy.value, obj.keys[k])
      {
        var attr := obj.keys[i];
        match copy
        case None =>
          return Err(TypeError);
        case Some(c) =>
          if attr in c.own {
            arr := arr + [c.props[attr]];
          } else {
            arr := arr + [obj.props[attr]];
          }
        i := i + 1;
      }
      r := Ok(Array(arr));
  }
}
