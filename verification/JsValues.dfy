/** JavaScript values as the public pages meet them: plain data without getters, proxies or prototype chains. */
module JsValues {
  import opened CodeUnits

  datatype Value = Undefined | Null | Scalar | Str(text: Text) | Obj(props: map<Text, Value>) | Arr(elems: seq<Value>)

  /** `typeof v === 'object'` and not null. */
  predicate IsObject(v: Value) {
    v.Obj? || v.Arr?
  }

  function Prop(v: Value, name: Text): Value {
    if v.Obj? && name in v.props then v.props[name] else Undefined
  }

  function Elems(v: Value): seq<Value> {
    if v.Arr? then v.elems else []
  }
}
