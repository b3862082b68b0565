/** The codec's id vector: a set of positive ids with a cached maximum. */
module Vector {

  predicate IsMax(ids: set<nat>, m: nat) {
    m in ids && forall x :: x in ids ==> x <= m
  }

  lemma MaxWith(rest: set<nat>, y: nat, m: nat)
    requires IsMax(rest, m)
    ensures IsMax(rest + {y}, if m < y then y else m)
  {
  }

  lemma {:induction false} MaxExists(ids: set<nat>)
    requires ids != {}
    ensures exists m :: m in ids && IsMax(ids, m)
  {
    var y :| y in ids;
    var rest := ids - {y};
    assert rest + {y} == ids;
    if rest == {} {
      assert IsMax({y}, y);
    } else {
      hide IsMax;
      MaxExists(rest);
      var m :| m in rest && IsMax(rest, m);
      MaxWith(rest, y, m);
    }
  }

  /** The largest id, or 0 when there is none. */
  function MaxId(ids: set<nat>): (m: nat)
    ensures ids == {} ==> m == 0
    ensures ids != {} ==> m in ids
    ensures forall x :: x in ids ==> x <= m
  {
    if ids == {} then 0 else
      MaxExists(ids);
      var m :| m in ids && IsMax(ids, m);
      assert forall n :: n in ids && IsMax(ids, n) ==> n == m;
      m
  }

  class Vector {
    var ids: set<nat>
    var maxId: nat
    var bitLength: nat

    ghost predicate Valid()
      reads this
    {
      0 !in ids && maxId == MaxId(ids)
    }

    constructor ()
      ensures Valid() && ids == {} && maxId == 0 && bitLength == 0
    {
      ids, maxId, bitLength := {}, 0, 0;
    }

    /** `set(id)`; anything but a positive number throws and changes nothing. */
    method Set(id: int) returns (ok: bool)
      requires Valid()
      modifies this
      ensures Valid()
      ensures ok <==> id > 0
      ensures ok ==> ids == old(ids) + {id} && bitLength == 0
      ensures !ok ==> ids == old(ids) && bitLength == old(bitLength)
    {
      if id <= 0 {
        return false;
      }
      ids := ids + {id};
      maxId := if maxId < id then id else maxId;
      bitLength := 0;
      return true;
    }

    /** `unset(id)`; the maximum is recomputed only when it is the id that goes. */
    method Unset(id: nat)
      requires Valid()
      modifies this
      ensures Valid()
      ensures ids == old(ids) - {id} && bitLength == 0
    {
      ids := ids - {id};
      bitLength := 0;
      if id == maxId {
        maxId := 0;
        var todo := ids;
        while todo != {}
          invariant todo <= ids == old(ids) - {id}
          invariant maxId == MaxId(ids - todo)
          invariant bitLength == 0
          decreases |todo|
        {
          var t :| t in todo;
          assert ids - (todo - {t}) == ids - todo + {t};
          maxId := if maxId < t then t else maxId;
          todo := todo - {t};
        }
        assert ids - todo == ids;
      } else if maxId in ids {
        assert forall x :: x in ids ==> x <= maxId;
      } else {
        assert old(ids) == {} && ids == {};
      }
    }

    /** `empty()`, which leaves the recorded bit length alone. */
    method Empty()
      requires Valid()
      modifies this
      ensures Valid() && ids == {} && bitLength == old(bitLength)
    {
      ids, maxId := {}, 0;
    }
  }
}
