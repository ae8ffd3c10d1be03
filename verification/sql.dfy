/** What the SQLite driver does with a JavaScript value handed to a
    statement as a parameter. */
module Sql {
  import opened Js

  /** The driver binds numbers, strings, null and undefined (as NULL); a
      boolean or an object makes the statement throw. The driver spreads an
      array argument into positional parameters; this model treats every
      array as unbindable. */
  predicate Bindable(v: Value) {
    v.Undefined? || v.Null? || v.Num? || v.Str?
  }

  /** Values a column can hold once written. */
  predicate Storable(v: Value) {
    v.Null? || v.Num? || v.Str?
  }

  /** The value a bound parameter leaves in its column. */
  function Stored(v: Value): (r: Value)
    requires Bindable(v)
    ensures Storable(r)
    ensures v != Undefined ==> r == v
  {
    if v.Undefined? then Null else v
  }

  /** The text a key column is assumed to hold for a bound value; `None` for
      NULL. An integer key is assumed to be kept as its decimal text; the
      column's declared type, which decides this, is not part of the model. */
  function KeyText(v: Value): Option<string> {
    match v
    case Str(s) => Some(s)
    case Num(n) => Some(IntText(n))
    case _ => None
  }
}
