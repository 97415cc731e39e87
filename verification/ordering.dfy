/** The order of identifiers: `str::cmp`, octet by octet. */
module Ordering {
  import opened Bytes
  import opened Keys

  predicate Before(a: seq<byte>, b: seq<byte>) {
    if b == [] then false
    else if a == [] then true
    else if a[0] != b[0] then a[0] < b[0]
    else Before(a[1..], b[1..])
  }

  lemma {:induction false} BeforeIsTotal(a: seq<byte>, b: seq<byte>)
    ensures a == b || Before(a, b) || Before(b, a)
    ensures !(Before(a, b) && Before(b, a)) && !Before(a, a)
    decreases |a|
  {
    if a != [] {
      BeforeIsTotal(a[1..], a[1..]);
      if b != [] {
        BeforeIsTotal(a[1..], b[1..]);
        assert a == [a[0]] + a[1..] && b == [b[0]] + b[1..];
      }
    }
  }

  /** The order of the octets at the first place where the two differ decides,
      and a proper prefix comes first. */
  lemma {:induction false} BeforeIsLexicographic(a: seq<byte>, b: seq<byte>)
    ensures Before(a, b) <==>
            a < b || exists i :: 0 <= i < |a| && i < |b| && a[..i] == b[..i] && a[i] < b[i]
    decreases |a|
  {
    if a != [] && b != [] {
      BeforeIsLexicographic(a[1..], b[1..]);
      forall i | 0 < i < |a| && i < |b| && a[..i] == b[..i] ensures a[0] == b[0] {
        assert a[..i][0] == b[..i][0];
      }
      if a[0] == b[0] {
        SameFirstOctet(a[0], a[1..], b[1..]);
        assert a == [a[0]] + a[1..] && b == [b[0]] + b[1..];
      } else if a[0] < b[0] {
        assert a[..0] == b[..0];
      }
    }
  }

  lemma SameFirstOctet(first: byte, x: seq<byte>, y: seq<byte>)
    ensures [first] + x < [first] + y <==> x < y
    ensures (exists i :: 0 <= i < |x| && i < |y| && x[..i] == y[..i] && x[i] < y[i])
            <==> var a, b := [first] + x, [first] + y;
                 exists i :: 0 <= i < |a| && i < |b| && a[..i] == b[..i] && a[i] < b[i]
  {
    var a, b := [first] + x, [first] + y;
    assert a[1..] == x && b[1..] == y;
    if i :| 0 <= i < |x| && i < |y| && x[..i] == y[..i] && x[i] < y[i] {
      assert a[..i + 1] == [first] + x[..i] && b[..i + 1] == [first] + y[..i];
      assert a[i + 1] < b[i + 1];
    }
    if i :| 0 <= i < |a| && i < |b| && a[..i] == b[..i] && a[i] < b[i] {
      assert x[..i - 1] == a[..i][1..] && y[..i - 1] == b[..i][1..];
      assert x[i - 1] < y[i - 1];
    }
  }

  lemma {:induction false} BeforeIsTransitive(a: seq<byte>, b: seq<byte>, c: seq<byte>)
    requires Before(a, b) && Before(b, c)
    ensures Before(a, c)
    decreases |a|
  {
    if a != [] && a[0] == b[0] && b[0] == c[0] {
      BeforeIsTransitive(a[1..], b[1..], c[1..]);
    }
  }

  predicate AtMost(a: StoredKey, b: StoredKey) {
    a.summary.id == b.summary.id || Before(a.summary.id, b.summary.id)
  }

  predicate Sorted(keys: seq<StoredKey>) {
    forall i, j | 0 <= i < j < |keys| :: AtMost(keys[i], keys[j])
  }

  predicate StrictlySorted(keys: seq<StoredKey>) {
    forall i, j | 0 <= i < j < |keys| :: Before(keys[i].summary.id, keys[j].summary.id)
  }

  /** Places a key after every key that does not come later. */
  function Insert(key: StoredKey, sorted: seq<StoredKey>): (r: seq<StoredKey>)
    requires Sorted(sorted)
    ensures Sorted(r) && multiset(r) == multiset(sorted) + multiset{key}
    decreases |sorted|
  {
    if sorted == [] then [key]
    else
      assert sorted == [sorted[0]] + sorted[1..];
      if Before(key.summary.id, sorted[0].summary.id) then
        HeadFirst(key, sorted);
        [key] + sorted
      else
        BeforeIsTotal(key.summary.id, sorted[0].summary.id);
        var rest := Insert(key, sorted[1..]);
        HeadStays(sorted[0], sorted[1..], key, rest);
        [sorted[0]] + rest
  }

  lemma HeadFirst(key: StoredKey, sorted: seq<StoredKey>)
    requires sorted != [] && Sorted(sorted) && AtMost(key, sorted[0])
    ensures Sorted([key] + sorted)
  {
    forall j | 0 <= j < |sorted| ensures AtMost(key, sorted[j]) {
      if j > 0 && key.summary.id != sorted[0].summary.id && sorted[0].summary.id != sorted[j].summary.id {
        assert AtMost(sorted[0], sorted[j]);
        BeforeIsTransitive(key.summary.id, sorted[0].summary.id, sorted[j].summary.id);
      }
    }
  }

  lemma HeadStays(head: StoredKey, tail: seq<StoredKey>, key: StoredKey, rest: seq<StoredKey>)
    requires Sorted([head] + tail) && AtMost(head, key) && Sorted(rest)
    requires multiset(rest) == multiset(tail) + multiset{key}
    ensures Sorted([head] + rest)
  {
    forall j | 0 <= j < |rest| ensures AtMost(head, rest[j]) {
      assert rest[j] in multiset(rest);
      if rest[j] != key {
        assert rest[j] in multiset(tail);
        var i :| 0 <= i < |tail| && tail[i] == rest[j];
        assert AtMost(([head] + tail)[0], ([head] + tail)[i + 1]);
      }
    }
  }

  /** The stable sort by identifier. */
  function SortById(keys: seq<StoredKey>): (r: seq<StoredKey>)
    ensures Sorted(r) && multiset(r) == multiset(keys)
    decreases |keys|
  {
    if keys == [] then []
    else
      assert keys == keys[..|keys| - 1] + [keys[|keys| - 1]];
      Insert(keys[|keys| - 1], SortById(keys[..|keys| - 1]))
  }

  /** The keys with this identifier, in the order of the list. */
  function WithId(keys: seq<StoredKey>, id: seq<byte>): seq<StoredKey> {
    if keys == [] then []
    else (if keys[0].summary.id == id then [keys[0]] else []) + WithId(keys[1..], id)
  }

  lemma {:induction false} WithIdOfConcat(a: seq<StoredKey>, b: seq<StoredKey>, id: seq<byte>)
    ensures WithId(a + b, id) == WithId(a, id) + WithId(b, id)
  {
    if a == [] {
      assert a + b == b;
    } else {
      assert (a + b)[1..] == a[1..] + b;
      WithIdOfConcat(a[1..], b, id);
    }
  }

  lemma {:induction false} NoneWithId(keys: seq<StoredKey>, id: seq<byte>)
    requires forall i | 0 <= i < |keys| :: keys[i].summary.id != id
    ensures WithId(keys, id) == []
  {
    if keys != [] {
      NoneWithId(keys[1..], id);
    }
  }

  lemma AllLater(key: StoredKey, sorted: seq<StoredKey>)
    requires sorted != [] && Sorted(sorted) && Before(key.summary.id, sorted[0].summary.id)
    ensures forall i | 0 <= i < |sorted| :: sorted[i].summary.id != key.summary.id
  {
    BeforeIsTotal(key.summary.id, sorted[0].summary.id);
    forall i | 0 <= i < |sorted| ensures sorted[i].summary.id != key.summary.id {
      assert i == 0 || AtMost(sorted[0], sorted[i]);
    }
  }

  lemma OneIsEmpty(a: seq<StoredKey>, b: seq<StoredKey>)
    requires a == [] || b == []
    ensures a + b == b + a
  {
  }

  lemma InsertFirst(key: StoredKey, sorted: seq<StoredKey>, id: seq<byte>)
    requires sorted != [] && Sorted(sorted) && Before(key.summary.id, sorted[0].summary.id)
    ensures WithId([key] + sorted, id) == WithId(sorted, id) + WithId([key], id)
  {
    var single := [key];
    WithIdOfConcat(single, sorted, id);
    if id == key.summary.id {
      AllLater(key, sorted);
      NoneWithId(sorted, id);
    } else {
      NoneWithId(single, id);
    }
    OneIsEmpty(WithId(single, id), WithId(sorted, id));
  }

  lemma {:induction false} InsertComesLast(key: StoredKey, sorted: seq<StoredKey>, id: seq<byte>)
    requires Sorted(sorted)
    ensures WithId(Insert(key, sorted), id) == WithId(sorted, id) + WithId([key], id)
    decreases |sorted|
  {
    if sorted == [] {
    } else if Before(key.summary.id, sorted[0].summary.id) {
      InsertFirst(key, sorted, id);
    } else {
      var head, tail := [sorted[0]], sorted[1..];
      InsertComesLast(key, tail, id);
      WithIdOfConcat(head, Insert(key, tail), id);
      WithIdOfConcat(head, tail, id);
      assert sorted == head + tail;
    }
  }

  /** Keys with equal identifiers keep their order. */
  lemma {:induction false} SortIsStable(keys: seq<StoredKey>, id: seq<byte>)
    ensures WithId(SortById(keys), id) == WithId(keys, id)
    decreases |keys|
  {
    if keys != [] {
      var front, last := keys[..|keys| - 1], keys[|keys| - 1];
      SortIsStable(front, id);
      StableStep(front, last, SortById(front), id);
      assert keys == front + [last];
    }
  }

  lemma StableStep(front: seq<StoredKey>, last: StoredKey, sorted: seq<StoredKey>, id: seq<byte>)
    requires Sorted(sorted) && WithId(sorted, id) == WithId(front, id)
    ensures WithId(Insert(last, sorted), id) == WithId(front + [last], id)
  {
    InsertComesLast(last, sorted, id);
    WithIdOfConcat(front, [last], id);
  }

  lemma TwiceInMultiset<T>(s: seq<T>, i: nat, j: nat)
    requires i < j < |s| && s[i] == s[j]
    ensures multiset(s)[s[i]] >= 2
  {
    assert s == s[..j] + [s[j]] + s[j + 1..];
    assert s[..j][i] == s[i];
    assert s[i] in multiset(s[..j]);
  }

  /** Two strictly sorted listings with the same members are equal, so the order
      in which a directory is read cannot show. */
  lemma {:induction false} ListingIsUnique(a: seq<StoredKey>, b: seq<StoredKey>)
    requires StrictlySorted(a) && StrictlySorted(b)
    requires forall k :: k in a <==> k in b
    ensures a == b
    decreases |a|
  {
    if a == [] {
      assert forall i | 0 <= i < |b| :: b[i] in b;
    } else {
      assert a[0] in b && b != [];
      SameHead(a, b);
      assert a == [a[0]] + a[1..] && b == [b[0]] + b[1..];
      forall k ensures k in a[1..] <==> k in b[1..] {
        TailMember(a, k);
        TailMember(b, k);
      }
      ListingIsUnique(a[1..], b[1..]);
    }
  }

  lemma TailMember(a: seq<StoredKey>, k: StoredKey)
    requires a != [] && StrictlySorted(a)
    ensures k in a[1..] <==> k in a && k != a[0]
  {
    if a[0] in a[1..] {
      var i :| 0 <= i < |a[1..]| && a[1..][i] == a[0];
      assert Before(a[0].summary.id, a[i + 1].summary.id);
      BeforeIsTotal(a[0].summary.id, a[0].summary.id);
      assert false;
    }
    assert a == [a[0]] + a[1..];
  }

  lemma SameHead(a: seq<StoredKey>, b: seq<StoredKey>)
    requires a != [] && b != [] && StrictlySorted(a) && StrictlySorted(b)
    requires forall k :: k in a <==> k in b
    ensures a[0] == b[0]
  {
    assert a[0] in b && b[0] in a;
    var i :| 0 <= i < |b| && b[i] == a[0];
    var j :| 0 <= j < |a| && a[j] == b[0];
    if i > 0 && j > 0 {
      BeforeIsTotal(a[0].summary.id, b[0].summary.id);
    }
  }
}
