/** List shapes several extractors share: collecting the results of a partial
 *  map, counting, concatenating per-element lists, and filling a map where a
 *  later entry overwrites an earlier one. Every function is built from the back,
 *  the way a Go loop appends. */
module Seqs {
  import opened Wrappers

  // ---------------------------------------------------------------------------
  // Collect: the defined results of `f`, in order.

  function Collect<T, U>(xs: seq<T>, f: T -> Option<U>): seq<U>
  {
    if xs == [] then []
    else Collect(xs[..|xs| - 1], f) + (if f(xs[|xs| - 1]).Some? then [f(xs[|xs| - 1]).value] else [])
  }

  lemma {:induction false} CollectLength<T, U>(xs: seq<T>, f: T -> Option<U>)
    ensures |Collect(xs, f)| <= |xs|
  {
    if xs != [] {
      CollectLength(xs[..|xs| - 1], f);
    }
  }

  /** An element is collected exactly when some input maps to it. */
  lemma {:induction false} CollectMembers<T, U>(xs: seq<T>, f: T -> Option<U>, u: U)
    ensures u in Collect(xs, f) <==> exists k :: 0 <= k < |xs| && f(xs[k]) == Some(u)
  {
    if xs != [] {
      var init := xs[..|xs| - 1];
      CollectMembers(init, f, u);
      assert forall k :: 0 <= k < |init| ==> init[k] == xs[k];
    }
  }

  /** One more element of a prefix adds its result, if any, at the end. */
  lemma CollectSnoc<T, U>(xs: seq<T>, i: int, f: T -> Option<U>)
    requires 0 <= i < |xs|
    ensures Collect(xs[..i + 1], f) == Collect(xs[..i], f) + (if f(xs[i]).Some? then [f(xs[i]).value] else [])
  {
    assert xs[..i + 1][..i] == xs[..i];
  }

  lemma {:induction false} CollectAppend<T, U>(a: seq<T>, b: seq<T>, f: T -> Option<U>)
    ensures Collect(a + b, f) == Collect(a, f) + Collect(b, f)
    decreases |b|
  {
    if b == [] {
      assert a + b == a;
    } else {
      assert (a + b)[..|a + b| - 1] == a + b[..|b| - 1];
      CollectAppend(a, b[..|b| - 1], f);
    }
  }

  /** Nothing is collected from a list where `f` is undefined everywhere. */
  lemma {:induction false} CollectNone<T, U>(xs: seq<T>, f: T -> Option<U>)
    requires forall k :: 0 <= k < |xs| ==> f(xs[k]).None?
    ensures Collect(xs, f) == []
  {
    if xs != [] {
      var init := xs[..|xs| - 1];
      assert forall k :: 0 <= k < |init| ==> init[k] == xs[k];
      CollectNone(init, f);
    }
  }

  // ---------------------------------------------------------------------------
  // CountIf: how many elements satisfy `p`.

  function CountIf<T>(xs: seq<T>, p: T -> bool): nat
  {
    if xs == [] then 0 else CountIf(xs[..|xs| - 1], p) + (if p(xs[|xs| - 1]) then 1 else 0)
  }

  lemma {:induction false} CountIfAppend<T>(a: seq<T>, b: seq<T>, p: T -> bool)
    ensures CountIf(a + b, p) == CountIf(a, p) + CountIf(b, p)
    decreases |b|
  {
    if b == [] {
      assert a + b == a;
    } else {
      assert (a + b)[..|a + b| - 1] == a + b[..|b| - 1];
      CountIfAppend(a, b[..|b| - 1], p);
    }
  }

  /** A count of zero means no element satisfies `p`. */
  lemma {:induction false} CountIfZero<T>(xs: seq<T>, p: T -> bool)
    ensures CountIf(xs, p) == 0 <==> forall k :: 0 <= k < |xs| ==> !p(xs[k])
  {
    if xs != [] {
      var init := xs[..|xs| - 1];
      CountIfZero(init, p);
      assert forall k :: 0 <= k < |init| ==> init[k] == xs[k];
    }
  }

  /** When every element satisfies `p`, every element is counted. */
  lemma {:induction false} CountIfAll<T>(xs: seq<T>, p: T -> bool)
    requires forall k :: 0 <= k < |xs| ==> p(xs[k])
    ensures CountIf(xs, p) == |xs|
  {
    if xs != [] {
      var init := xs[..|xs| - 1];
      assert forall k :: 0 <= k < |init| ==> init[k] == xs[k];
      CountIfAll(init, p);
    }
  }

  /** One result is collected for each element where `f` is defined. */
  lemma {:induction false} CollectCount<T, U>(xs: seq<T>, f: T -> Option<U>, p: T -> bool)
    requires forall x :: p(x) == f(x).Some?
    ensures |Collect(xs, f)| == CountIf(xs, p)
  {
    if xs != [] {
      CollectCount(xs[..|xs| - 1], f, p);
    }
  }

  // ---------------------------------------------------------------------------
  // Flatten: the per-element lists, one after the other.

  function Flatten<T, U>(xs: seq<T>, f: T -> seq<U>): seq<U>
  {
    if xs == [] then [] else Flatten(xs[..|xs| - 1], f) + f(xs[|xs| - 1])
  }

  function TotalLength<T, U>(xs: seq<T>, f: T -> seq<U>): nat
  {
    if xs == [] then 0 else TotalLength(xs[..|xs| - 1], f) + |f(xs[|xs| - 1])|
  }

  lemma {:induction false} FlattenLength<T, U>(xs: seq<T>, f: T -> seq<U>)
    ensures |Flatten(xs, f)| == TotalLength(xs, f)
  {
    if xs != [] {
      FlattenLength(xs[..|xs| - 1], f);
    }
  }

  lemma {:induction false} FlattenAppend<T, U>(a: seq<T>, b: seq<T>, f: T -> seq<U>)
    ensures Flatten(a + b, f) == Flatten(a, f) + Flatten(b, f)
    decreases |b|
  {
    if b == [] {
      assert a + b == a;
    } else {
      assert (a + b)[..|a + b| - 1] == a + b[..|b| - 1];
      FlattenAppend(a, b[..|b| - 1], f);
    }
  }

  /** One more element of a prefix adds its list at the end. */
  lemma FlattenSnoc<T, U>(xs: seq<T>, i: int, f: T -> seq<U>)
    requires 0 <= i < |xs|
    ensures Flatten(xs[..i + 1], f) == Flatten(xs[..i], f) + f(xs[i])
  {
    assert xs[..i + 1][..i] == xs[..i];
  }

  /** Every element of the result comes from the list of some input element. */
  lemma {:induction false} FlattenMembers<T, U>(xs: seq<T>, f: T -> seq<U>, u: U)
    ensures u in Flatten(xs, f) <==> exists k :: 0 <= k < |xs| && u in f(xs[k])
  {
    if xs != [] {
      var init := xs[..|xs| - 1];
      FlattenMembers(init, f, u);
      assert forall k :: 0 <= k < |init| ==> init[k] == xs[k];
    }
  }

  // ---------------------------------------------------------------------------
  // Assign: a map filled in order, where a later entry for a key overwrites.

  function Assign<T, K, V>(xs: seq<T>, entry: T -> Option<(K, V)>): map<K, V>
  {
    if xs == [] then map[]
    else
      var m := Assign(xs[..|xs| - 1], entry);
      var e := entry(xs[|xs| - 1]);
      if e.Some? then m[e.value.0 := e.value.1] else m
  }

  /** A key is present exactly when some element produces an entry for it. */
  lemma {:induction false} AssignKeys<T, K, V>(xs: seq<T>, entry: T -> Option<(K, V)>, key: K)
    ensures key in Assign(xs, entry) <==>
      exists j :: 0 <= j < |xs| && entry(xs[j]).Some? && entry(xs[j]).value.0 == key
  {
    if xs != [] {
      var init := xs[..|xs| - 1];
      AssignKeys(init, entry, key);
      assert forall j :: 0 <= j < |init| ==> init[j] == xs[j];
    }
  }

  /** `xs[j]` produces an entry for `key`, and no later element does. */
  ghost predicate LastEntryAt<T, K, V>(xs: seq<T>, entry: T -> Option<(K, V)>, j: int, key: K)
  {
    0 <= j < |xs| && entry(xs[j]).Some? && entry(xs[j]).value.0 == key
    && forall j' :: j < j' < |xs| && entry(xs[j']).Some? ==> entry(xs[j']).value.0 != key
  }

  /** The value stored for a key is that of the last element producing it. */
  lemma {:induction false} AssignLastWins<T, K, V>(xs: seq<T>, entry: T -> Option<(K, V)>, key: K)
    requires key in Assign(xs, entry)
    ensures exists j :: LastEntryAt(xs, entry, j, key) && Assign(xs, entry)[key] == entry(xs[j]).value.1
  {
    var init := xs[..|xs| - 1];
    var e := entry(xs[|xs| - 1]);
    if e.Some? && e.value.0 == key {
      assert LastEntryAt(xs, entry, |xs| - 1, key);
    } else {
      AssignLastWins(init, entry, key);
      var j :| LastEntryAt(init, entry, j, key) && Assign(init, entry)[key] == entry(init[j]).value.1;
      assert xs[j] == init[j];
      assert forall j' :: j < j' < |init| ==> xs[j'] == init[j'];
      assert LastEntryAt(xs, entry, j, key);
    }
  }

  // ---------------------------------------------------------------------------
  // Filter: the elements satisfying `p`, in order.

  function Filter<T>(xs: seq<T>, p: T -> bool): seq<T>
  {
    if xs == [] then [] else Filter(xs[..|xs| - 1], p) + (if p(xs[|xs| - 1]) then [xs[|xs| - 1]] else [])
  }

  /** An element is kept exactly when it is in the input and satisfies `p`, and
   *  no more are kept than the input holds. */
  lemma {:induction false} FilterMembers<T>(xs: seq<T>, p: T -> bool, x: T)
    ensures x in Filter(xs, p) <==> x in xs && p(x)
    ensures |Filter(xs, p)| <= |xs|
  {
    if xs != [] {
      var init := xs[..|xs| - 1];
      FilterMembers(init, p, x);
      assert xs == init + [xs[|xs| - 1]];
    }
  }

  lemma {:induction false} FilterAll<T>(xs: seq<T>, p: T -> bool)
    requires forall k :: 0 <= k < |xs| ==> p(xs[k])
    ensures Filter(xs, p) == xs
  {
    if xs != [] {
      var init := xs[..|xs| - 1];
      assert forall k :: 0 <= k < |init| ==> init[k] == xs[k];
      FilterAll(init, p);
    }
  }

  lemma {:induction false} FilterAppend<T>(a: seq<T>, b: seq<T>, p: T -> bool)
    ensures Filter(a + b, p) == Filter(a, p) + Filter(b, p)
    decreases |b|
  {
    if b == [] {
      assert a + b == a;
    } else {
      assert (a + b)[..|a + b| - 1] == a + b[..|b| - 1];
      FilterAppend(a, b[..|b| - 1], p);
    }
  }

  /** Filtering twice with the same test keeps what filtering once kept. */
  lemma FilterIdempotent<T>(xs: seq<T>, p: T -> bool)
    ensures Filter(Filter(xs, p), p) == Filter(xs, p)
  {
    forall k | 0 <= k < |Filter(xs, p)|
      ensures p(Filter(xs, p)[k])
    {
      FilterMembers(xs, p, Filter(xs, p)[k]);
    }
    FilterAll(Filter(xs, p), p);
  }
  // ---------------------------------------------------------------------------
  // AssignAll: Assign where each element's value may fail, stopping at the first
  // failure.

  function AssignAll<T, K, V>(xs: seq<T>, value: T -> Result<V>, key: T -> K): Result<map<K, V>>
  {
    if xs == [] then Success(map[])
    else
      match AssignAll(xs[..|xs| - 1], value, key)
      case Failure(e) => Failure(e)
      case Success(m) =>
        var x := xs[|xs| - 1];
        match value(x)
        case Failure(e) => Failure(e)
        case Success(v) => Success(m[key(x) := v])
  }

  /** The entry of an element whose value is available. */
  function EntryOf<T, K, V>(value: T -> Result<V>, key: T -> K): T -> Option<(K, V)>
  {
    (x: T) => if value(x).Success? then Some((key(x), value(x).value)) else None
  }

  /** Once a prefix fails, the whole list fails with the same error. */
  /** One more element of a prefix whose fold succeeded. */
  lemma AssignAllSnoc<T, K, V>(xs: seq<T>, i: int, value: T -> Result<V>, key: T -> K, m: map<K, V>)
    requires 0 <= i < |xs| && AssignAll(xs[..i], value, key) == Success(m)
    ensures AssignAll(xs[..i + 1], value, key)
         == if value(xs[i]).Failure? then Failure(value(xs[i]).error) else Success(m[key(xs[i]) := value(xs[i]).value])
  {
    assert xs[..i + 1][..i] == xs[..i];
  }

  lemma {:induction false} AssignAllFailed<T, K, V>(xs: seq<T>, value: T -> Result<V>, key: T -> K, i: nat)
    requires i <= |xs| && AssignAll(xs[..i], value, key).Failure?
    ensures AssignAll(xs, value, key) == AssignAll(xs[..i], value, key)
    decreases |xs| - i
  {
    if i < |xs| {
      var p := xs[..i + 1];
      assert p[..|p| - 1] == xs[..i];
      AssignAllFailed(xs, value, key, i + 1);
    } else {
      assert xs[..i] == xs;
    }
  }

  /** The map comes back exactly when every value is available. */
  lemma {:induction false} AssignAllSucceeds<T, K, V>(xs: seq<T>, value: T -> Result<V>, key: T -> K)
    ensures AssignAll(xs, value, key).Success? <==> forall k :: 0 <= k < |xs| ==> value(xs[k]).Success?
  {
    if xs != [] {
      var init := xs[..|xs| - 1];
      AssignAllSucceeds(init, value, key);
      assert forall k :: 0 <= k < |init| ==> init[k] == xs[k];
    }
  }

  /** On success the map is that of `Assign`: a later element wins a shared key. */
  lemma {:induction false} AssignAllContents<T, K, V>(xs: seq<T>, value: T -> Result<V>, key: T -> K)
    requires AssignAll(xs, value, key).Success?
    ensures AssignAll(xs, value, key).value == Assign(xs, EntryOf(value, key))
  {
    if xs != [] {
      AssignAllContents(xs[..|xs| - 1], value, key);
    }
  }

  /** A failure is the error of the first element whose value fails. */
  lemma {:induction false} AssignAllFirstFailure<T, K, V>(xs: seq<T>, value: T -> Result<V>, key: T -> K)
    requires AssignAll(xs, value, key).Failure?
    ensures exists k :: 0 <= k < |xs| && value(xs[k]) == Failure(AssignAll(xs, value, key).error)
                        && forall j :: 0 <= j < k ==> value(xs[j]).Success?
  {
    var init := xs[..|xs| - 1];
    if AssignAll(init, value, key).Failure? {
      AssignAllFirstFailure(init, value, key);
      var k :| 0 <= k < |init| && value(init[k]) == Failure(AssignAll(init, value, key).error)
        && forall j :: 0 <= j < k ==> value(init[j]).Success?;
      assert xs[k] == init[k];
      assert forall j :: 0 <= j < k ==> xs[j] == init[j];
    } else {
      AssignAllSucceeds(init, value, key);
      assert forall j :: 0 <= j < |init| ==> xs[j] == init[j];
      assert value(xs[|init|]) == Failure(AssignAll(xs, value, key).error);
    }
  }
  // ---------------------------------------------------------------------------
  // FirstByKey: the elements whose key no earlier element has, in order.

  function KeySet<T(==), K(==)>(xs: seq<T>, key: T -> K): set<K>
  {
    set x | x in xs :: key(x)
  }

  function FirstByKey<T(==), K(==)>(xs: seq<T>, key: T -> K): seq<T>
  {
    if xs == [] then []
    else
      var init := xs[..|xs| - 1];
      var x := xs[|xs| - 1];
      FirstByKey(init, key) + (if key(x) in KeySet(init, key) then [] else [x])
  }

  /** Appending one element keeps it exactly when its key is new. */
  lemma FirstByKeySnoc<T, K>(xs: seq<T>, x: T, key: T -> K)
    ensures FirstByKey(xs + [x], key) == FirstByKey(xs, key) + (if key(x) in KeySet(xs, key) then [] else [x])
  {
    assert (xs + [x])[..|xs|] == xs;
  }

  lemma KeySetSnoc<T, K>(xs: seq<T>, x: T, key: T -> K)
    ensures KeySet(xs + [x], key) == KeySet(xs, key) + {key(x)}
  {
    assert forall y :: y in xs + [x] <==> y in xs || y == x;
  }

  /** Deduplication keeps every key, each exactly once, and only elements of
   *  the input. */
  lemma {:induction false} FirstByKeyFacts<T, K>(xs: seq<T>, key: T -> K)
    ensures KeySet(FirstByKey(xs, key), key) == KeySet(xs, key)
    ensures forall i, j :: 0 <= i < j < |FirstByKey(xs, key)| ==> key(FirstByKey(xs, key)[i]) != key(FirstByKey(xs, key)[j])
    ensures forall y :: y in FirstByKey(xs, key) ==> y in xs
  {
    if xs != [] {
      var init := xs[..|xs| - 1];
      var x := xs[|xs| - 1];
      FirstByKeyFacts(init, key);
      assert xs == init + [x];
      KeySetSnoc(init, x, key);
      if key(x) !in KeySet(init, key) {
        KeySetSnoc(FirstByKey(init, key), x, key);
        var r := FirstByKey(xs, key);
        forall i | 0 <= i < |r| - 1
          ensures key(r[i]) != key(x)
        {
          assert r[i] in FirstByKey(init, key);
        }
      }
    }
  }

  /** The element kept for a key is its first occurrence: no earlier element
   *  has the same key. */
  lemma {:induction false} FirstByKeyIsFirst<T, K>(xs: seq<T>, key: T -> K, y: T)
    requires y in FirstByKey(xs, key)
    ensures exists k :: 0 <= k < |xs| && xs[k] == y && forall k' :: 0 <= k' < k ==> key(xs[k']) != key(y)
  {
    var init := xs[..|xs| - 1];
    var x := xs[|xs| - 1];
    var tail := if key(x) in KeySet(init, key) then [] else [x];
    assert FirstByKey(xs, key) == FirstByKey(init, key) + tail;
    if y in FirstByKey(init, key) {
      FirstByKeyIsFirst(init, key, y);
      var k :| 0 <= k < |init| && init[k] == y && forall k' :: 0 <= k' < k ==> key(init[k']) != key(y);
      assert forall k' :: 0 <= k' < k ==> xs[k'] == init[k'];
      assert xs[k] == y;
    } else {
      assert y in tail;
      assert y == x && key(x) !in KeySet(init, key);
      forall k' | 0 <= k' < |xs| - 1
        ensures key(xs[k']) != key(y)
      {
        assert xs[k'] == init[k'] && init[k'] in init;
      }
      assert xs[|xs| - 1] == y;
    }
  }

  /** Deduplication keeps the order of first occurrences: the key of an
   *  earlier kept element occurs in the input before any element with the key
   *  of a later one. */
  lemma {:induction false} FirstByKeyOrder<T, K>(xs: seq<T>, key: T -> K, i: int, j: int)
    requires 0 <= i < j < |FirstByKey(xs, key)|
    ensures exists k :: (0 <= k < |xs| && key(xs[k]) == key(FirstByKey(xs, key)[i])
      && forall k' :: 0 <= k' <= k ==> key(xs[k']) != key(FirstByKey(xs, key)[j]))
  {
    var init := xs[..|xs| - 1];
    var x := xs[|xs| - 1];
    var r := FirstByKey(xs, key);
    var r0 := FirstByKey(init, key);
    assert r == r0 + (if key(x) in KeySet(init, key) then [] else [x]);
    assert r[i] == r0[i];
    if j < |r0| {
      FirstByKeyOrder(init, key, i, j);
      var k :| 0 <= k < |init| && key(init[k]) == key(r0[i])
        && forall k' :: 0 <= k' <= k ==> key(init[k']) != key(r0[j]);
      assert r[j] == r0[j];
      assert forall k' :: 0 <= k' <= k ==> xs[k'] == init[k'];
      assert key(xs[k]) == key(r[i]);
    } else {
      assert r[j] == x && key(x) !in KeySet(init, key);
      FirstByKeyFacts(init, key);
      assert r0[i] in r0;
      var k :| 0 <= k < |init| && init[k] == r0[i];
      forall k' | 0 <= k' <= k
        ensures key(xs[k']) != key(r[j])
      {
        assert xs[k'] == init[k'] && init[k'] in init;
      }
      assert key(xs[k]) == key(r[i]);
    }
  }

  // ---------------------------------------------------------------------------
  // Emit: the per-element lists of a loop that stops at the first failure,
  // with the error that stopped it.

  function Emit<T, U>(xs: seq<T>, f: T -> Result<seq<U>>): (seq<U>, Option<string>)
  {
    if xs == [] then ([], None)
    else
      var prev := Emit(xs[..|xs| - 1], f);
      if prev.1.Some? then prev
      else
        match f(xs[|xs| - 1])
        case Failure(e) => (prev.0, Some(e))
        case Success(us) => (prev.0 + us, None)
  }

  /** The concatenated lists, or the first error. */
  function ConcatAll<T, U>(xs: seq<T>, f: T -> Result<seq<U>>): Result<seq<U>>
  {
    var out := Emit(xs, f);
    if out.1.Some? then Failure(out.1.value) else Success(out.0)
  }

  /** The list of an element whose result is available, and none otherwise. */
  function ValueOr<T, U>(f: T -> Result<seq<U>>): T -> seq<U>
  {
    (x: T) => if f(x).Success? then f(x).value else []
  }

  /** Once a prefix fails, nothing after it is emitted and its error stays. */
  lemma {:induction false} EmitFailed<T, U>(xs: seq<T>, f: T -> Result<seq<U>>, i: nat)
    requires i <= |xs| && Emit(xs[..i], f).1.Some?
    ensures Emit(xs, f) == Emit(xs[..i], f)
    decreases |xs| - i
  {
    if i < |xs| {
      var p := xs[..i + 1];
      assert p[..|p| - 1] == xs[..i];
      EmitFailed(xs, f, i + 1);
    } else {
      assert xs[..i] == xs;
    }
  }

  /** Without a failure, every element's list is emitted, in order. */
  lemma {:induction false} EmitSucceeds<T, U>(xs: seq<T>, f: T -> Result<seq<U>>)
    ensures Emit(xs, f).1.None? <==> forall k :: 0 <= k < |xs| ==> f(xs[k]).Success?
    ensures Emit(xs, f).1.None? ==> Emit(xs, f).0 == Flatten(xs, ValueOr(f))
  {
    if xs != [] {
      var init := xs[..|xs| - 1];
      EmitSucceeds(init, f);
      assert forall k :: 0 <= k < |init| ==> init[k] == xs[k];
    }
  }

  /** A failure is the error of the first failing element, and what was
   *  emitted is the lists of the elements before it. */
  lemma {:induction false} EmitFirstFailure<T, U>(xs: seq<T>, f: T -> Result<seq<U>>)
    requires Emit(xs, f).1.Some?
    ensures exists k :: 0 <= k < |xs| && f(xs[k]) == Failure(Emit(xs, f).1.value)
                        && (forall j :: 0 <= j < k ==> f(xs[j]).Success?)
                        && Emit(xs, f).0 == Flatten(xs[..k], ValueOr(f))
  {
    var init := xs[..|xs| - 1];
    if Emit(init, f).1.Some? {
      EmitFirstFailure(init, f);
      var k :| 0 <= k < |init| && f(init[k]) == Failure(Emit(init, f).1.value)
        && (forall j :: 0 <= j < k ==> f(init[j]).Success?)
        && Emit(init, f).0 == Flatten(init[..k], ValueOr(f));
      assert xs[k] == init[k] && xs[..k] == init[..k];
      assert forall j :: 0 <= j < k ==> xs[j] == init[j];
    } else {
      EmitSucceeds(init, f);
      assert forall j :: 0 <= j < |init| ==> xs[j] == init[j];
      assert xs[..|init|] == init;
      assert f(xs[|init|]) == Failure(Emit(xs, f).1.value);
    }
  }
}
