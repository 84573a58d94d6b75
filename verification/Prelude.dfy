/** Shared vocabulary: optional values, and maxima of finite sets of numbers. */
module Prelude {

  datatype Option<+T> = None | Some(value: T) {
    function GetOr(default: T): T {
      match this
      case Some(v) => v
      case None => default
    }
  }

  function Abs(x: real): real {
    if x < 0.0 then -x else x
  }

  /** The largest element of a nonempty set. */
  ghost function MaxOf(ids: set<nat>): (m: nat)
    requires ids != {}
    ensures m in ids && forall i :: i in ids ==> i <= m
  {
    var x :| x in ids;
    if ids == {x} then x
    else
      var m := MaxOf(ids - {x});
      assert forall i :: i in ids ==> i == x || i in ids - {x};
      if m < x then x else m
  }
}
