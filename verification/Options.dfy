/** The stock option type, and the positions a set lets through first. */
module Options {
  datatype Option<+T> = None | Some(value: T) {
    function GetOr(default: T): T {
      match this
      case None => default
      case Some(v) => v
    }
  }

  /** The positions of the values that occur first there and are not in `seen`, in order:
      what remains after inserting the values into a set one by one. */
  function Firsts<T(==)>(values: seq<Option<T>>, seen: set<T>): (picks: seq<nat>)
    ensures forall i :: 0 <= i < |picks| ==> picks[i] < |values|
    ensures forall i, j :: 0 <= i < j < |picks| ==> picks[i] < picks[j]
  {
    if values == [] then []
    else
      var front, last := values[..|values| - 1], values[|values| - 1];
      var before := Firsts(front, seen);
      if last.Some? && last.value !in seen && last !in front then before + [|front|] else before
  }

  predicate IsFirst<T(==)>(values: seq<Option<T>>, seen: set<T>, p: int)
    requires 0 <= p < |values|
  {
    values[p].Some? && values[p].value !in seen && values[p] !in values[..p]
  }

  lemma {:induction false} FirstsAre<T>(values: seq<Option<T>>, seen: set<T>)
    ensures forall p :: p in Firsts(values, seen) <==> 0 <= p < |values| && IsFirst(values, seen, p)
  {
    hide IsFirst;
    if values != [] {
      var front, last := values[..|values| - 1], values[|values| - 1];
      FirstsAre(front, seen);
      var before := Firsts(front, seen);
      assert values == front + [last];
      FirstSnoc(front, last, seen);
      assert Firsts(values, seen) == if IsFirst(values, seen, |front|) then before + [|front|] else before;
    }
  }

  lemma FirstSnoc<T>(front: seq<Option<T>>, last: Option<T>, seen: set<T>)
    ensures forall p :: 0 <= p < |front| ==> (IsFirst(front + [last], seen, p) <==> IsFirst(front, seen, p))
    ensures IsFirst(front + [last], seen, |front|) <==> last.Some? && last.value !in seen && last !in front
  {
    var values := front + [last];
    forall p | 0 <= p <= |front| ensures values[..p] == front[..p] {
    }
    assert front[..|front|] == front;
  }

  /** Every new value is picked once, where it is first. */
  lemma {:induction false} FirstIsPicked<T>(values: seq<Option<T>>, seen: set<T>, i: nat)
    requires i < |values| && values[i].Some? && values[i].value !in seen
    ensures exists p :: p in Firsts(values, seen) && p <= i && values[p] == values[i]
    decreases i
  {
    FirstsAre(values, seen);
    if values[i] in values[..i] {
      var j :| 0 <= j < i && values[j] == values[i];
      FirstIsPicked(values, seen, j);
    } else {
      assert i in Firsts(values, seen);
    }
  }

  /** The distinct values, in the order they first occur. */
  ghost predicate AreFirsts<T>(values: seq<Option<T>>, out: seq<T>) {
    var picks := Firsts(values, {});
    |out| == |picks| && forall k :: 0 <= k < |picks| ==> values[picks[k]] == Some(out[k])
  }

  lemma FirstsAreDistinct<T>(values: seq<Option<T>>, out: seq<T>)
    requires AreFirsts(values, out)
    ensures forall v :: v in out <==> Some(v) in values
    ensures forall i, j :: 0 <= i < j < |out| ==> out[i] != out[j]
  {
    hide Firsts;
    var picks := Firsts(values, {});
    FirstsAre(values, {});
    forall v | Some(v) in values ensures v in out {
      var i :| 0 <= i < |values| && values[i] == Some(v);
      FirstIsPicked(values, {}, i);
      var p :| p in picks && values[p] == Some(v);
      var k :| 0 <= k < |picks| && picks[k] == p;
      assert out[k] == v;
    }
    forall i, j | 0 <= i < j < |out| ensures out[i] != out[j] {
      var p, q := picks[i], picks[j];
      assert q in picks && values[p] == values[..q][p];
    }
  }

  /** Appending a value that is not there yet, as a set insertion would let through. */
  lemma FirstsSnoc<T>(values: seq<Option<T>>, last: Option<T>, out: seq<T>)
    requires AreFirsts(values, out)
    ensures AreFirsts(values + [last], if last.Some? && last.value !in out then out + [last.value] else out)
  {
    FirstsAreDistinct(values, out);
    assert (values + [last])[..|values|] == values;
  }

  lemma NoFirsts<T>()
    ensures AreFirsts<T>([], [])
  {
  }
}

/** Unsigned subtraction that stops at zero. */
module Numbers {
  function SaturatingSub(a: nat, b: nat): nat {
    if b <= a then a - b else 0
  }
}

/** The stock result type; errors carry their message. */
module Results {
  datatype Result<+T> = Ok(value: T) | Err(error: string)
}
