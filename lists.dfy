/** Sequence helpers shared by the stores: the projection behind
    `array.map(item => item.key)`, a reference definition of "remove the first
    element with a given key", and key uniqueness. */
module Lists {
  import opened Js

  /** `s.map(key)`. */
  function Map<T, K>(s: seq<T>, key: T -> K): (r: seq<K>)
    ensures |r| == |s|
    ensures forall i :: 0 <= i < |s| ==> r[i] == key(s[i])
  {
    seq(|s|, i requires 0 <= i < |s| => key(s[i]))
  }

  /** Reference definition: `s` without its first element whose key is `x`
      (`s` itself when there is none). */
  function RemoveFirst<T, K(==)>(s: seq<T>, key: T -> K, x: K): seq<T>
  {
    if s == [] then []
    else if key(s[0]) == x then s[1..]
    else [s[0]] + RemoveFirst(s[1..], key, x)
  }

  /** No two elements share a key. */
  ghost predicate UniqueKeys<T, K>(s: seq<T>, key: T -> K)
  {
    forall i, j :: 0 <= i < j < |s| ==> key(s[i]) != key(s[j])
  }

  /** Removing the first element keyed `x` cuts the sequence at the first
      index of `x` among the keys, and removes nothing when `x` is absent. */
  lemma {:induction false} RemoveFirstAt<T, K>(s: seq<T>, key: T -> K, x: K)
    ensures RemoveFirst(s, key, x) == Cut(s, IndexOf(Map(s, key), x))
  {
    if s != [] {
      if key(s[0]) == x {
        RemoveFirstAtHead(s, key, x);
      } else {
        RemoveFirstAt(s[1..], key, x);
        RemoveFirstAtStep(s, key, x);
      }
    }
  }

  /** `s` without its element at `k`, or `s` itself for -1. */
  function Cut<T>(s: seq<T>, k: int): (r: seq<T>)
    requires -1 <= k < |s|
    ensures k == -1 ==> r == s
    ensures 0 <= k ==> r == s[..k] + s[k + 1..]
  {
    if k == -1 then s else s[..k] + s[k + 1..]
  }

  lemma RemoveFirstAtHead<T, K>(s: seq<T>, key: T -> K, x: K)
    requires s != [] && key(s[0]) == x
    ensures RemoveFirst(s, key, x) == Cut(s, IndexOf(Map(s, key), x))
  {
    assert Map(s, key)[0] == x;
    assert s[..0] + s[1..] == s[1..];
  }

  lemma RemoveFirstAtStep<T, K>(s: seq<T>, key: T -> K, x: K)
    requires s != [] && key(s[0]) != x
    requires RemoveFirst(s[1..], key, x) == Cut(s[1..], IndexOf(Map(s[1..], key), x))
    ensures RemoveFirst(s, key, x) == Cut(s, IndexOf(Map(s, key), x))
  {
    MapCons(s, key);
    IndexOfCons(key(s[0]), Map(s[1..], key), x);
    RemoveFirstCons(s, key, x);
    var k' := IndexOf(Map(s[1..], key), x);
    if k' == -1 {
      StepMissing(s, key, x);
    } else {
      StepFound(s, key, x, k');
    }
  }

  lemma StepMissing<T, K>(s: seq<T>, key: T -> K, x: K)
    requires s != [] && IndexOf(Map(s, key), x) == -1
    requires RemoveFirst(s, key, x) == [s[0]] + s[1..]
    ensures RemoveFirst(s, key, x) == Cut(s, IndexOf(Map(s, key), x))
  {
    assert [s[0]] + s[1..] == s;
  }

  lemma StepFound<T, K>(s: seq<T>, key: T -> K, x: K, k': nat)
    requires k' + 1 < |s| && IndexOf(Map(s, key), x) == k' + 1
    requires RemoveFirst(s, key, x) == [s[0]] + Cut(s[1..], k')
    ensures RemoveFirst(s, key, x) == Cut(s, IndexOf(Map(s, key), x))
  {
    ConsSlices(s, k');
  }

  lemma MapCons<T, K>(s: seq<T>, key: T -> K)
    requires s != []
    ensures Map(s, key) == [key(s[0])] + Map(s[1..], key)
  {
  }

  lemma RemoveFirstCons<T, K>(s: seq<T>, key: T -> K, x: K)
    requires s != [] && key(s[0]) != x
    ensures RemoveFirst(s, key, x) == [s[0]] + RemoveFirst(s[1..], key, x)
  {
  }

  lemma ConsSlices<T>(s: seq<T>, k: nat)
    requires k + 1 < |s|
    ensures s[..k + 1] + s[k + 2..] == [s[0]] + (s[1..][..k] + s[1..][k + 1..])
  {
    assert s[..k + 1] == [s[0]] + s[1..][..k];
    assert s[k + 2..] == s[1..][k + 1..];
  }

  /** `splice(indexOf(x), 1)` on the keys' positions is the reference removal. */
  lemma SpliceIndexOfIsRemoveFirst<T, K>(s: seq<T>, key: T -> K, x: K)
    requires x in Map(s, key)
    ensures Splice1(s, IndexOf(Map(s, key), x)) == RemoveFirst(s, key, x)
  {
    RemoveFirstAt(s, key, x);
  }

  /** Dropping one element keeps keys unique. */
  lemma CutKeepsUnique<T, K>(s: seq<T>, key: T -> K, k: nat)
    requires k < |s|
    requires UniqueKeys(s, key)
    ensures UniqueKeys(s[..k] + s[k + 1..], key)
  {
    var r := s[..k] + s[k + 1..];
    forall i, j | 0 <= i < j < |r| ensures key(r[i]) != key(r[j]) {
      var i' := if i < k then i else i + 1;
      var j' := if j < k then j else j + 1;
      assert r[i] == s[i'] && r[j] == s[j'];
    }
  }

  /** A removal keeps keys unique and leaves no element keyed `x` behind. */
  lemma RemoveFirstUnique<T, K>(s: seq<T>, key: T -> K, x: K)
    requires UniqueKeys(s, key)
    ensures UniqueKeys(RemoveFirst(s, key, x), key)
    ensures x !in Map(RemoveFirst(s, key, x), key)
  {
    RemoveFirstAt(s, key, x);
    var k := IndexOf(Map(s, key), x);
    if k != -1 {
      CutKeepsUnique(s, key, k);
      CutDropsKey(s, key, k);
    }
  }

  /** With keys unique, the key of a dropped element appears nowhere else. */
  lemma CutDropsKey<T, K>(s: seq<T>, key: T -> K, k: nat)
    requires k < |s|
    requires UniqueKeys(s, key)
    ensures key(s[k]) !in Map(s[..k] + s[k + 1..], key)
  {
    var r := s[..k] + s[k + 1..];
    var ks := Map(r, key);
    forall i | 0 <= i < |r| ensures ks[i] != key(s[k]) {
      assert r[i] == s[if i < k then i else i + 1];
    }
  }

  /** Prepending an element whose key is new keeps keys unique. */
  lemma PrependKeepsUnique<T, K>(y: T, s: seq<T>, key: T -> K)
    requires UniqueKeys(s, key)
    requires key(y) !in Map(s, key)
    ensures UniqueKeys([y] + s, key)
  {
    var r := [y] + s;
    forall i, j | 0 <= i < j < |r| ensures key(r[i]) != key(r[j]) {
      if i == 0 {
        assert r[j] == s[j - 1] && Map(s, key)[j - 1] == key(s[j - 1]);
      } else {
        assert r[i] == s[i - 1] && r[j] == s[j - 1];
      }
    }
  }

  /** Appending an element whose key is new keeps keys unique. */
  lemma AppendKeepsUnique<T, K>(s: seq<T>, y: T, key: T -> K)
    requires UniqueKeys(s, key)
    requires key(y) !in Map(s, key)
    ensures UniqueKeys(s + [y], key)
  {
    var r := s + [y];
    forall i, j | 0 <= i < j < |r| ensures key(r[i]) != key(r[j]) {
      if j == |s| {
        assert r[i] == s[i] && Map(s, key)[i] == key(s[i]);
      } else {
        assert r[i] == s[i] && r[j] == s[j];
      }
    }
  }

  /** Replacing one element by one with the same key keeps keys unique. */
  lemma ReplaceKeepsUnique<T, K>(s: seq<T>, k: nat, y: T, key: T -> K)
    requires k < |s|
    requires UniqueKeys(s, key)
    requires key(y) == key(s[k])
    ensures UniqueKeys(s[k := y], key)
  {
    var r := s[k := y];
    forall i, j | 0 <= i < j < |r| ensures key(r[i]) != key(r[j]) {
      assert key(r[i]) == key(s[i]) && key(r[j]) == key(s[j]);
    }
  }
}
