/** Types shared by every module: identifiers, optional values, and the outcome of a service call. */
module Prelude {

  type Id = nat

  /** Milliseconds since the epoch. */
  type Time = int

  datatype Option<+T> = None | Some(value: T)

  /** The HTTP exceptions the services throw, without their message texts. */
  datatype Error = BadRequest | Conflict | Forbidden | NotFound | Unauthorized

  datatype Result<+T> = Ok(value: T) | Err(error: Error) {
    predicate IsFailure() {
      Err?
    }

    function PropagateFailure<U>(): Result<U>
      requires Err?
    {
      Err(error)
    }

    function Extract(): T
      requires Ok?
    {
      value
    }
  }

  /** The authenticated caller: `sub` is the user id, `orgId` the organisation of the token. */
  datatype Actor = Actor(sub: Option<Id>, orgId: Option<Id>)

  /** `Array.from(new Set(xs))`: the first occurrence of every element, in order. */
  function FirstOccurrences<T(==,!new)>(xs: seq<T>): (r: seq<T>)
    ensures forall x :: x in r <==> x in xs
    ensures NoDuplicates(r)
  {
    if |xs| == 0 then []
    else
      var r := FirstOccurrences(xs[..|xs| - 1]);
      var x := xs[|xs| - 1];
      assert xs == xs[..|xs| - 1] + [x];
      if x in r then r else r + [x]
  }

  /** The elements appear in the order of their first occurrences: what a longer list has more comes at the end. */
  lemma {:induction false} FirstOccurrencesGrow<T(!new)>(xs: seq<T>, n: nat)
    requires n <= |xs|
    ensures FirstOccurrences(xs[..n]) <= FirstOccurrences(xs)
  {
    if n < |xs| {
      FirstOccurrencesGrow(xs[..|xs| - 1], n);
      assert xs[..|xs| - 1][..n] == xs[..n];
    } else {
      assert xs[..n] == xs;
    }
  }

  ghost predicate NoDuplicates<T>(xs: seq<T>) {
    forall i, j :: 0 <= i < j < |xs| ==> xs[i] != xs[j]
  }

  ghost function Elements<T>(xs: seq<T>): set<T> {
    set x | x in xs
  }

  /** Pigeonhole: a sequence has as many elements as positions exactly when nothing repeats. */
  lemma {:induction false} ElementsSize<T>(xs: seq<T>)
    ensures |Elements(xs)| <= |xs|
    ensures |Elements(xs)| == |xs| <==> NoDuplicates(xs)
  {
    if |xs| > 0 {
      var init, x := xs[..|xs| - 1], xs[|xs| - 1];
      assert xs == init + [x];
      ElementsSize(init);
      assert Elements(xs) == Elements(init) + {x};
      if x in init {
        var i :| 0 <= i < |init| && init[i] == x;
        assert xs[i] == xs[|xs| - 1];
        assert Elements(xs) == Elements(init);
      } else {
        assert NoDuplicates(init) ==> NoDuplicates(xs);
        assert NoDuplicates(xs) ==> NoDuplicates(init) by {
          assert forall i :: 0 <= i < |init| ==> init[i] == xs[i];
        }
      }
    }
  }

  lemma {:induction false} SubsetSize<T>(a: set<T>, b: set<T>)
    requires a <= b
    ensures |a| <= |b|
    ensures |a| == |b| ==> a == b
  {
    assert b == a + (b - a);
    assert |b| == |a| + |b - a|;
  }
}
