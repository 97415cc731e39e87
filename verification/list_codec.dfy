/** Lists of items written one after the other, for any item codec. */
module ListCodec {
  import opened Wrappers
  import opened Bytes

  /** All items, each written by `put`. */
  function Join<T>(put: T -> seq<byte>, items: seq<T>): seq<byte> {
    if items == [] then [] else Join(put, items[..|items| - 1]) + put(items[|items| - 1])
  }

  /** `count` items, each read by `get`; nothing may follow them. */
  function Split<T>(get: seq<byte> -> Option<(T, seq<byte>)>, input: seq<byte>, count: nat): Option<seq<T>>
    decreases count
  {
    if count == 0 then (if input == [] then Some([]) else None)
    else
      match get(input)
      case None => None
      case Some((item, rest)) => Prepend([item], Split(get, rest, count - 1))
  }

  function Prepend<T>(front: seq<T>, rest: Option<seq<T>>): Option<seq<T>> {
    if rest == None then None else Some(front + rest.value)
  }

  /** `get` reads exactly what `put` writes for acceptable items. */
  ghost predicate Inverse<T(!new)>(put: T -> seq<byte>, get: seq<byte> -> Option<(T, seq<byte>)>, accepts: T -> bool) {
    && (forall item, rest :: accepts(item) ==> get(put(item) + rest) == Some((item, rest)))
    && (forall input :: get(input).Some? ==>
          accepts(get(input).value.0) && input == put(get(input).value.0) + get(input).value.1)
  }

  ghost predicate AllAccepted<T>(accepts: T -> bool, items: seq<T>) {
    forall i | 0 <= i < |items| :: accepts(items[i])
  }

  lemma {:induction false} JoinFromFront<T>(put: T -> seq<byte>, items: seq<T>)
    requires items != []
    ensures Join(put, items) == put(items[0]) + Join(put, items[1..])
    decreases |items|
  {
    var front, last := items[..|items| - 1], items[|items| - 1];
    if front == [] {
      assert items[1..] == [];
    } else {
      JoinFromFront(put, front);
      assert front[1..] == items[1..][..|items| - 2];
      assert items[1..][|items| - 2] == last;
    }
  }

  lemma {:induction false} SplitOfJoin<T(!new)>(put: T -> seq<byte>, get: seq<byte> -> Option<(T, seq<byte>)>,
                                                accepts: T -> bool, items: seq<T>)
    requires Inverse(put, get, accepts) && AllAccepted(accepts, items)
    ensures Split(get, Join(put, items), |items|) == Some(items)
    decreases |items|
  {
    if items != [] {
      JoinFromFront(put, items);
      SplitOfJoin(put, get, accepts, items[1..]);
      assert accepts(items[0]);
      assert items == [items[0]] + items[1..];
    }
  }

  lemma {:induction false} JoinOfSplit<T(!new)>(put: T -> seq<byte>, get: seq<byte> -> Option<(T, seq<byte>)>,
                                                accepts: T -> bool, input: seq<byte>, count: nat)
    requires Inverse(put, get, accepts) && Split(get, input, count).Some?
    ensures var items := Split(get, input, count).value;
            |items| == count && AllAccepted(accepts, items) && Join(put, items) == input
    decreases count
  {
    if count > 0 {
      var (item, rest) := get(input).value;
      JoinOfSplit(put, get, accepts, rest, count - 1);
      var items := Split(get, input, count).value;
      assert items[1..] == Split(get, rest, count - 1).value;
      JoinFromFront(put, items);
    }
  }

  lemma PrependNothing<T>(rest: Option<seq<T>>)
    ensures Prepend([], rest) == rest
  {
    if rest.Some? {
      assert [] + rest.value == rest.value;
    }
  }

  lemma PrependTwice<T>(front: seq<T>, item: T, rest: Option<seq<T>>)
    ensures Prepend(front + [item], rest) == Prepend(front, Prepend([item], rest))
  {
    if rest.Some? {
      assert front + [item] + rest.value == front + ([item] + rest.value);
    }
  }

  // ------------------------------------------------------------------
  // Reading a stream item by item
  // ------------------------------------------------------------------

  /** `count` items, each read by `get`, and what follows them, or the first error. */
  function Repeat<T, E>(get: seq<byte> -> Result<(T, seq<byte>), E>, input: seq<byte>, count: nat): Result<(seq<T>, seq<byte>), E>
    decreases count
  {
    if count == 0 then Success(([], input))
    else
      match get(input)
      case Failure(e) => Failure(e)
      case Success((item, rest)) => Ahead([item], Repeat(get, rest, count - 1))
  }

  function Ahead<T, E>(front: seq<T>, r: Result<(seq<T>, seq<byte>), E>): Result<(seq<T>, seq<byte>), E> {
    match r
    case Success((items, rest)) => Success((front + items, rest))
    case Failure(_) => r
  }

  lemma NothingAhead<T, E>(r: Result<(seq<T>, seq<byte>), E>)
    ensures Ahead([], r) == r
  {
    if r.Success? {
      assert [] + r.value.0 == r.value.0;
    }
  }

  lemma AheadTwice<T, E>(front: seq<T>, item: T, r: Result<(seq<T>, seq<byte>), E>)
    ensures Ahead(front + [item], r) == Ahead(front, Ahead([item], r))
  {
    if r.Success? {
      assert front + [item] + r.value.0 == front + ([item] + r.value.0);
    }
  }

  lemma RepeatOnce<T, E>(get: seq<byte> -> Result<(T, seq<byte>), E>, input: seq<byte>, item: T, rest: seq<byte>,
                         items: seq<T>, end: seq<byte>)
    requires get(input) == Success((item, rest)) && Repeat(get, rest, |items|) == Success((items, end))
    ensures Repeat(get, input, |items| + 1) == Success(([item] + items, end))
  {
  }

  lemma {:induction false} RepeatReadsGoodItems<T, E>(get: seq<byte> -> Result<(T, seq<byte>), E>, good: T -> bool,
                                                      input: seq<byte>, count: nat)
    requires forall s :: get(s).Success? ==> good(get(s).value.0)
    requires Repeat(get, input, count).Success?
    ensures |Repeat(get, input, count).value.0| == count
    ensures forall item | item in Repeat(get, input, count).value.0 :: good(item)
    decreases count
  {
    if count > 0 {
      var (item, rest) := get(input).value;
      RepeatReadsGoodItems(get, good, rest, count - 1);
    }
  }
}
