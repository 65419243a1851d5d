/**
 * PHP arrays with string keys: ordered maps. Only what the client does with them is modelled:
 * reading an entry, `array_merge`, `array_slice($a, 0, n)` and the entries `http_build_query`
 * keeps.
 */
module PhpArrays {
  import opened Wrappers
  import opened Php

  type Entry = (string, Value)

  /** No key occurs twice, as in every PHP array. */
  predicate UniqueKeys(t: seq<Entry>) {
    forall i, j :: 0 <= i < j < |t| ==> t[i].0 != t[j].0
  }

  type PhpArray = t: seq<Entry> | UniqueKeys(t) witness []

  /** An argument that may or may not be an array (`is_array`). */
  datatype Arg = Scalar(v: Value) | Array(entries: PhpArray)

  function Keys(t: seq<Entry>): (ks: seq<string>)
    ensures |ks| == |t|
    ensures forall i :: 0 <= i < |t| ==> ks[i] == t[i].0
  {
    if t == [] then [] else [t[0].0] + Keys(t[1..])
  }

  /** `$a[$k]`: the value stored under `k`, or null when there is none. */
  function Get(t: seq<Entry>, k: string): Value {
    if t == [] then Null
    else if t[0].0 == k then t[0].1
    else Get(t[1..], k)
  }

  /** The entries of `base`, in order, each taking the value `over` has for its key, if any. */
  function Overlay(base: seq<Entry>, over: seq<Entry>): (r: seq<Entry>)
    ensures Keys(r) == Keys(base)
  {
    if base == [] then []
    else
      var k := base[0].0;
      [(k, if k in Keys(over) then Get(over, k) else base[0].1)] + Overlay(base[1..], over)
  }

  /** The entries of `over`, in order, whose keys `base` lacks. */
  function Additions(over: seq<Entry>, base: seq<Entry>): (r: seq<Entry>)
    ensures forall k :: k in Keys(r) <==> k in Keys(over) && k !in Keys(base)
  {
    if over == [] then []
    else if over[0].0 in Keys(base) then Additions(over[1..], base)
    else [over[0]] + Additions(over[1..], base)
  }

  /** `array_merge($base, $over)` for string keys. */
  function Merge(base: PhpArray, over: PhpArray): PhpArray {
    MergeHasUniqueKeys(base, over);
    Overlay(base, over) + Additions(over, base)
  }

  /** `array_slice($t, 0, n)`. */
  function Slice(t: PhpArray, n: nat): PhpArray {
    t[..if n < |t| then n else |t|]
  }

  /** The entries `http_build_query` encodes: it skips those whose value is null. */
  function QueryEntries(t: seq<Entry>): seq<Entry> {
    if t == [] then []
    else if t[0].1 == Null then QueryEntries(t[1..])
    else [t[0]] + QueryEntries(t[1..])
  }

  /** `http_build_query` keeps exactly the entries whose value is not null. */
  lemma {:induction false} QueryEntriesMembers(t: seq<Entry>)
    ensures forall e :: e in QueryEntries(t) <==> e in t && e.1 != Null
  {
    if t != [] {
      QueryEntriesMembers(t[1..]);
      assert t == [t[0]] + t[1..];
    }
  }

  lemma {:induction false} UniqueAppend(a: seq<Entry>, b: seq<Entry>)
    requires UniqueKeys(a) && UniqueKeys(b)
    requires forall k :: k in Keys(a) ==> k !in Keys(b)
    ensures UniqueKeys(a + b)
  {
    var u := a + b;
    forall i, j | 0 <= i < j < |u| ensures u[i].0 != u[j].0 {
      if j < |a| {
        assert u[i] == a[i] && u[j] == a[j];
      } else if i >= |a| {
        assert u[i] == b[i - |a|] && u[j] == b[j - |a|];
      } else {
        assert u[i] == a[i] && u[j] == b[j - |a|];
        assert Keys(a)[i] == u[i].0;
        assert u[i].0 in Keys(a);
        assert Keys(b)[j - |a|] == u[j].0;
        assert u[j].0 in Keys(b);
      }
    }
  }

  lemma {:induction false} OverlayUnique(base: seq<Entry>, over: seq<Entry>)
    requires UniqueKeys(base)
    ensures UniqueKeys(Overlay(base, over))
  {
    var r := Overlay(base, over);
    forall i, j | 0 <= i < j < |r| ensures r[i].0 != r[j].0 {
      assert Keys(r)[i] == Keys(base)[i] && Keys(r)[j] == Keys(base)[j];
    }
  }

  lemma {:induction false} AdditionsUnique(over: seq<Entry>, base: seq<Entry>)
    requires UniqueKeys(over)
    ensures UniqueKeys(Additions(over, base))
    decreases |over|
  {
    if over != [] {
      var tail := over[1..];
      assert UniqueKeys(tail) by {
        forall i, j | 0 <= i < j < |tail| ensures tail[i].0 != tail[j].0 {
          assert tail[i] == over[i + 1] && tail[j] == over[j + 1];
        }
      }
      AdditionsUnique(tail, base);
      if over[0].0 !in Keys(base) {
        assert over[0].0 !in Keys(tail) by {
          forall i | 0 <= i < |tail| ensures Keys(tail)[i] != over[0].0 {
            assert tail[i] == over[i + 1];
          }
        }
        UniqueAppend([over[0]], Additions(tail, base));
      }
    }
  }

  lemma MergeHasUniqueKeys(base: PhpArray, over: PhpArray)
    ensures UniqueKeys(Overlay(base, over) + Additions(over, base))
  {
    OverlayUnique(base, over);
    AdditionsUnique(over, base);
    UniqueAppend(Overlay(base, over), Additions(over, base));
  }

  lemma {:induction false} GetAppend(a: seq<Entry>, b: seq<Entry>, k: string)
    ensures Get(a + b, k) == if k in Keys(a) then Get(a, k) else Get(b, k)
  {
    if a != [] {
      assert (a + b)[0] == a[0];
      assert (a + b)[1..] == a[1..] + b;
      assert Keys(a) == [a[0].0] + Keys(a[1..]);
      GetAppend(a[1..], b, k);
    } else {
      assert a + b == b;
    }
  }

  /** A key that a table lacks reads as null. */
  lemma {:induction false} GetMissing(t: seq<Entry>, k: string)
    requires k !in Keys(t)
    ensures Get(t, k) == Null
  {
    if t != [] {
      assert Keys(t) == [t[0].0] + Keys(t[1..]);
      GetMissing(t[1..], k);
    }
  }

  lemma {:induction false} OverlayGet(base: seq<Entry>, over: seq<Entry>, k: string)
    requires k in Keys(base)
    ensures Get(Overlay(base, over), k) == if k in Keys(over) then Get(over, k) else Get(base, k)
  {
    if base[0].0 != k {
      assert Keys(base) == [base[0].0] + Keys(base[1..]);
      OverlayGet(base[1..], over, k);
    }
  }

  lemma {:induction false} AdditionsGet(over: seq<Entry>, base: seq<Entry>, k: string)
    requires k !in Keys(base)
    ensures Get(Additions(over, base), k) == Get(over, k)
  {
    if over != [] {
      AdditionsGet(over[1..], base, k);
    }
  }

  lemma MergeGetOne(base: PhpArray, over: PhpArray, k: string)
    ensures Get(Merge(base, over), k) == if k in Keys(over) then Get(over, k) else Get(base, k)
  {
    GetAppend(Overlay(base, over), Additions(over, base), k);
    if k in Keys(base) {
      OverlayGet(base, over, k);
    } else {
      AdditionsGet(over, base, k);
      if k !in Keys(over) {
        GetMissing(over, k);
        GetMissing(base, k);
      }
    }
  }

  /**
   * After `array_merge($base, $over)` every key reads as `over`'s value when `over` has the key
   * and as `base`'s value otherwise.
   */
  lemma MergeGet(base: PhpArray, over: PhpArray)
    ensures forall k :: Get(Merge(base, over), k) == if k in Keys(over) then Get(over, k) else Get(base, k)
  {
    forall k ensures Get(Merge(base, over), k) == if k in Keys(over) then Get(over, k) else Get(base, k) {
      MergeGetOne(base, over, k);
    }
  }

  /** In a PHP array, reading the key of the i-th entry gives that entry's value. */
  lemma {:induction false} GetAt(t: PhpArray, i: nat)
    requires i < |t|
    ensures Get(t, t[i].0) == t[i].1
  {
    if i > 0 {
      assert t[0].0 != t[i].0;
      var tail: PhpArray := t[1..];
      assert tail[i - 1] == t[i];
      GetAt(tail, i - 1);
    }
  }

  lemma KeysAppend(a: seq<Entry>, b: seq<Entry>)
    ensures Keys(a + b) == Keys(a) + Keys(b)
  {
    assert |Keys(a + b)| == |Keys(a) + Keys(b)|;
    forall i | 0 <= i < |a + b| ensures Keys(a + b)[i] == (Keys(a) + Keys(b))[i] {
      if i < |a| {
        assert (a + b)[i] == a[i];
      } else {
        assert (a + b)[i] == b[i - |a|];
      }
    }
  }

  /**
   * `array_merge` keeps the keys of its first argument first and in their order; the new keys of
   * the second follow, so a merge never loses a key.
   */
  lemma MergeKeepsKeyOrder(base: PhpArray, over: PhpArray)
    ensures |Merge(base, over)| >= |base|
    ensures Keys(Merge(base, over))[..|base|] == Keys(base)
    ensures forall k :: k in Keys(Merge(base, over)) <==> k in Keys(base) || k in Keys(over)
  {
    var a := Additions(over, base);
    KeysAppend(Overlay(base, over), a);
    assert Keys(Merge(base, over)) == Keys(base) + Keys(a);
  }
}
