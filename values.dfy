/** The JavaScript values a task field can hold once a document has been
    parsed. `null` and `undefined` never appear here: the code replaces them
    with defaults (`??`), so the model writes them as an absent `Option`. */
module Values {

  datatype Option<T> = None | Some(value: T)
  {
    /** `v ?? d`: the value when there is one, `d` otherwise. */
    function OrElse(d: T): (r: T)
      ensures Some? ==> r == value
      ensures None? ==> r == d
    {
      match this
      case Some(v) => v
      case None => d
    }
  }

  /** A non-null value. Numbers, strings and booleans compare by value under
      `===`; an object or array compares by reference, so it is represented
      by an identity of its own. */
  datatype Value =
    | Number(n: real)
    | Str(s: string)
    | Boolean(b: bool)
    | Composite(identity: nat)

  /** JavaScript's `!!v` for a non-null value parsed from a document (such a
      number is never NaN): zero and the empty string are falsy, objects and
      arrays are truthy. */
  predicate Truthy(v: Value) {
    match v
    case Number(n) => n != 0.0
    case Str(s) => s != ""
    case Boolean(b) => b
    case Composite(_) => true
  }

  /** The falsy values among them are exactly `0`, `""` and `false`; every
      other number, string, boolean, object and array is truthy. */
  lemma FalsyValues(v: Value)
    ensures !Truthy(v) <==> v == Number(0.0) || v == Str("") || v == Boolean(false)
  {
  }
}
