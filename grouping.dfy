/**
 * Grouping records by a string key into a dictionary of lists, the way the public
 * page groups skills by category: walk the input once, create the list for a key the
 * first time the key is seen, and append.
 */
module Grouping {
  import Seqs

  /** The items whose key is `k`, in input order. */
  function Group<T>(items: seq<T>, key: T -> string, k: string): seq<T> {
    Seqs.Filter(items, (x: T) => key(x) == k)
  }

  /** The keys that occur in the input. */
  function Keys<T>(items: seq<T>, key: T -> string): set<string> {
    set i | 0 <= i < |items| :: key(items[i])
  }

  /**
   * The keys in the order a dictionary built by this walk lists them: first-appearance
   * order, each key once.
   */
  function KeyOrder<T>(items: seq<T>, key: T -> string): seq<string>
    decreases |items|
  {
    if items == [] then []
    else
      var before := KeyOrder(items[..|items| - 1], key);
      var k := key(items[|items| - 1]);
      if k in before then before else before + [k]
  }

  predicate Distinct(ks: seq<string>) {
    forall p, q :: 0 <= p < q < |ks| ==> ks[p] != ks[q]
  }

  /** A key listed earlier in `ks` occurs in the input before any item of a key listed later. */
  predicate FirstAppearanceOrder<T>(items: seq<T>, key: T -> string, ks: seq<string>) {
    forall p, q :: 0 <= p < q < |ks| ==> AppearsBefore(items, key, ks[p], ks[q])
  }

  /** Key `a` occurs in the input before any occurrence of key `b`. */
  predicate AppearsBefore<T>(items: seq<T>, key: T -> string, a: string, b: string) {
    exists i :: 0 <= i < |items| && key(items[i]) == a && NotUpTo(items, key, b, i)
  }

  /** No item at index `i` or before has key `b`. */
  predicate NotUpTo<T>(items: seq<T>, key: T -> string, b: string, i: int) {
    forall j :: 0 <= j <= i && j < |items| ==> key(items[j]) != b
  }

  /**
   * The walk over the input: the dictionary of groups, and its keys in insertion order
   * (the order in which iterating over the dictionary lists them).
   */
  method GroupBy<T>(items: seq<T>, key: T -> string) returns (groups: map<string, seq<T>>, order: seq<string>)
    ensures groups.Keys == Keys(items, key)
    ensures forall k :: k in groups ==> groups[k] == Group(items, key, k)
    ensures order == KeyOrder(items, key)
  {
    groups := map[];
    order := [];
    for n := 0 to |items|
      invariant groups.Keys == Keys(items[..n], key)
      invariant forall k :: k in groups ==> groups[k] == Group(items[..n], key, k)
      invariant order == KeyOrder(items[..n], key)
    {
      var x := items[n];
      var k := key(x);
      ghost var before := groups;
      KeyOrderStep(items, key, n);
      GroupsStep(items, key, n, groups);
      if k !in groups {
        groups := groups[k := []];
        order := order + [k];
      }
      groups := groups[k := groups[k] + [x]];
      assert groups == Added(before, k, x);
    }
    assert items[..|items|] == items;
  }

  /** `groups` with `x` appended to the list of `k`, a new list if there is none. */
  function Added<T>(groups: map<string, seq<T>>, k: string, x: T): map<string, seq<T>> {
    groups[k := (if k in groups then groups[k] else []) + [x]]
  }

  /** Adding item `n` to the groups of the items before it gives the groups of the items up to it. */
  lemma GroupsStep<T>(items: seq<T>, key: T -> string, n: nat, groups: map<string, seq<T>>)
    requires n < |items|
    requires groups.Keys == Keys(items[..n], key)
    requires forall k :: k in groups ==> groups[k] == Group(items[..n], key, k)
    ensures Added(groups, key(items[n]), items[n]).Keys == Keys(items[..n + 1], key)
    ensures forall j :: j in Added(groups, key(items[n]), items[n]) ==>
      Added(groups, key(items[n]), items[n])[j] == Group(items[..n + 1], key, j)
  {
    var k := key(items[n]);
    var after := Added(groups, k, items[n]);
    if k !in groups {
      GroupKeyOccurs(items[..n], key, k);
    }
    forall j | j in after ensures after[j] == Group(items[..n + 1], key, j) {
      GroupStep(items, key, n, j);
    }
    PrefixKeys(items[..n + 1], key);
    assert items[..n + 1][..n] == items[..n];
  }

  /** One step of the walk: item `n` joins the group of its own key and no other. */
  lemma GroupStep<T>(items: seq<T>, key: T -> string, n: nat, j: string)
    requires n < |items|
    ensures Group(items[..n + 1], key, j) ==
      Group(items[..n], key, j) + (if key(items[n]) == j then [items[n]] else [])
  {
    assert items[..n + 1] == items[..n] + [items[n]];
    Seqs.FilterAppend(items[..n], [items[n]], (y: T) => key(y) == j);
  }

  /** One step of the walk: the key of item `n` is appended unless an earlier item had it. */
  lemma KeyOrderStep<T>(items: seq<T>, key: T -> string, n: nat)
    requires n < |items|
    ensures KeyOrder(items[..n + 1], key) ==
      if key(items[n]) in Keys(items[..n], key) then KeyOrder(items[..n], key)
      else KeyOrder(items[..n], key) + [key(items[n])]
  {
    assert items[..n + 1][..n] == items[..n];
    KeyOrderKeys(items[..n], key);
  }

  /** The ordered keys are exactly the keys present. */
  lemma {:induction false} KeyOrderKeys<T>(items: seq<T>, key: T -> string)
    ensures forall k :: k in KeyOrder(items, key) <==> k in Keys(items, key)
    decreases |items|
  {
    if items != [] {
      var pre := items[..|items| - 1];
      KeyOrderKeys(pre, key);
      PrefixKeys(items, key);
    }
  }

  /** The keys of the input are those of all but its last item, plus the last item's. */
  lemma PrefixKeys<T>(items: seq<T>, key: T -> string)
    requires items != []
    ensures Keys(items, key) == Keys(items[..|items| - 1], key) + {key(items[|items| - 1])}
  {
    var pre := items[..|items| - 1];
    forall k | k in Keys(items, key) ensures k in Keys(pre, key) + {key(items[|items| - 1])} {
      var i :| 0 <= i < |items| && key(items[i]) == k;
      if i < |items| - 1 {
        assert key(pre[i]) == k;
      }
    }
    forall k | k in Keys(pre, key) ensures k in Keys(items, key) {
      var i :| 0 <= i < |pre| && key(pre[i]) == k;
      assert key(items[i]) == k;
    }
  }

  /** Each key is listed once. */
  lemma {:induction false} KeyOrderDistinct<T>(items: seq<T>, key: T -> string)
    ensures Distinct(KeyOrder(items, key))
    decreases |items|
  {
    if items != [] {
      var pre := items[..|items| - 1];
      var before := KeyOrder(pre, key);
      var k := key(items[|items| - 1]);
      KeyOrderDistinct(pre, key);
      if k !in before {
        var ks := before + [k];
        assert KeyOrder(items, key) == ks;
        forall p, q | 0 <= p < q < |ks| ensures ks[p] != ks[q] {
          if q == |before| {
            assert ks[p] == before[p] && ks[q] == k;
          } else {
            assert ks[p] == before[p] && ks[q] == before[q];
          }
        }
      }
    }
  }

  /** A key listed earlier first occurs in the input before any item of a key listed later. */
  lemma {:induction false} KeyOrderFirstAppearance<T>(items: seq<T>, key: T -> string)
    ensures FirstAppearanceOrder(items, key, KeyOrder(items, key))
    decreases |items|
  {
    if items != [] {
      var pre := items[..|items| - 1];
      var before := KeyOrder(pre, key);
      var k := key(items[|items| - 1]);
      var ks := KeyOrder(items, key);
      assert ks == if k in before then before else before + [k];
      KeyOrderFirstAppearance(pre, key);
      KeyOrderKeys(pre, key);
      forall p, q | 0 <= p < q < |ks| ensures AppearsBefore(items, key, ks[p], ks[q]) {
        if q < |before| {
          assert ks[p] == before[p] && ks[q] == before[q];
          assert AppearsBefore(pre, key, before[p], before[q]);
          var i :| 0 <= i < |pre| && key(pre[i]) == before[p] && NotUpTo(pre, key, before[q], i);
          assert key(items[i]) == ks[p];
          assert NotUpTo(items, key, ks[q], i) by {
            forall j | 0 <= j <= i && j < |items| ensures key(items[j]) != ks[q] {
              assert items[j] == pre[j];
            }
          }
        } else {
          assert ks == before + [k] && ks[q] == k && k !in Keys(pre, key);
          assert before[p] in Keys(pre, key);
          var i :| 0 <= i < |pre| && key(pre[i]) == before[p];
          assert key(items[i]) == ks[p];
          assert NotUpTo(items, key, ks[q], i) by {
            forall j | 0 <= j <= i && j < |items| ensures key(items[j]) != ks[q] {
              assert items[j] == pre[j];
            }
          }
        }
      }
    }
  }

  /** A key with a non-empty group occurs in the input. */
  lemma GroupKeyOccurs<T>(items: seq<T>, key: T -> string, k: string)
    ensures Group(items, key, k) != [] ==> k in Keys(items, key)
  {
    var g := Group(items, key, k);
    if g != [] {
      assert key(g[0]) == k && g[0] in items;
    }
  }

  /** Every item lands in the group of its own key. */
  lemma ItemInOwnGroup<T>(items: seq<T>, key: T -> string, i: nat)
    requires i < |items|
    ensures items[i] in Group(items, key, key(items[i]))
  {
  }

  /** Sum of the group sizes over a set of keys. */
  ghost function SizeSum<T>(items: seq<T>, key: T -> string, ks: set<string>): nat
    decreases ks
  {
    if ks == {} then 0
    else
      var k :| k in ks;
      |Group(items, key, k)| + SizeSum(items, key, ks - {k})
  }

  lemma {:induction false} SizeSumCons<T>(x: T, rest: seq<T>, key: T -> string, ks: set<string>)
    ensures SizeSum([x] + rest, key, ks) == SizeSum(rest, key, ks) + (if key(x) in ks then 1 else 0)
    decreases ks
  {
    if ks != {} {
      var k :| k in ks;
      SizeSumChoice([x] + rest, key, ks, k);
      SizeSumChoice(rest, key, ks, k);
      SizeSumCons(x, rest, key, ks - {k});
      assert ([x] + rest)[1..] == rest;
    }
  }

  /** SizeSum does not depend on which key is taken out first. */
  lemma {:induction false} SizeSumChoice<T>(items: seq<T>, key: T -> string, ks: set<string>, k: string)
    requires k in ks
    ensures SizeSum(items, key, ks) == |Group(items, key, k)| + SizeSum(items, key, ks - {k})
    decreases ks
  {
    var k' :| k' in ks && SizeSum(items, key, ks) == |Group(items, key, k')| + SizeSum(items, key, ks - {k'});
    if k' != k {
      SizeSumChoice(items, key, ks - {k'}, k);
      SizeSumChoice(items, key, ks - {k}, k');
      assert ks - {k'} - {k} == ks - {k} - {k'};
    }
  }

  /** The groups partition the input: over every set of keys that covers the keys present, sizes add up to the input length. */
  lemma {:induction false} GroupSizesSum<T>(items: seq<T>, key: T -> string, ks: set<string>)
    requires Keys(items, key) <= ks
    ensures SizeSum(items, key, ks) == |items|
  {
    if items == [] {
      SizeSumEmpty(key, ks);
    } else {
      var rest := items[1..];
      assert items == [items[0]] + rest;
      assert Keys(rest, key) <= Keys(items, key) by {
        forall k | k in Keys(rest, key) ensures k in Keys(items, key) {
          var i :| 0 <= i < |rest| && key(rest[i]) == k;
          assert key(items[i + 1]) == k;
        }
      }
      assert key(items[0]) in Keys(items, key);
      GroupSizesSum(rest, key, ks);
      SizeSumCons(items[0], rest, key, ks);
    }
  }

  lemma {:induction false} SizeSumEmpty<T>(key: T -> string, ks: set<string>)
    ensures SizeSum([], key, ks) == 0
    decreases ks
  {
    if ks != {} {
      var k :| k in ks;
      SizeSumChoice([], key, ks, k);
      SizeSumEmpty(key, ks - {k});
    }
  }

  predicate SortedBy<T>(items: seq<T>, rank: T -> int) {
    forall i, j :: 0 <= i < j < |items| ==> rank(items[i]) <= rank(items[j])
  }

  /** Grouping keeps the input order, so an input sorted by some rank gives groups sorted by it. */
  lemma {:induction false} GroupKeepsSorted<T>(items: seq<T>, key: T -> string, k: string, rank: T -> int)
    requires SortedBy(items, rank)
    ensures SortedBy(Group(items, key, k), rank)
  {
    if items != [] {
      GroupKeepsSorted(items[1..], key, k, rank);
      var g := Group(items[1..], key, k);
      forall j | 0 <= j < |g| ensures rank(items[0]) <= rank(g[j]) {
        assert g[j] in items[1..];
      }
    }
  }
}
