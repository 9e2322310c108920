/**
 * The order pandas' `groupby` sorts its keys in: integers numerically and strings as
 * Python compares them, lexicographically by code point with a proper prefix first.
 */
module Order {

  /** Python's `a < b` on `str`. */
  predicate StrLess(a: string, b: string)
    decreases |a|
  {
    |b| > 0 && (|a| == 0 || a[0] < b[0] || (a[0] == b[0] && StrLess(a[1..], b[1..])))
  }

  lemma {:induction false} StrLessIrreflexive(a: string)
    ensures !StrLess(a, a)
    decreases |a|
  {
    if |a| > 0 {
      StrLessIrreflexive(a[1..]);
    }
  }

  lemma {:induction false} StrLessTransitive(a: string, b: string, c: string)
    requires StrLess(a, b) && StrLess(b, c)
    ensures StrLess(a, c)
    decreases |a|
  {
    if |a| > 0 && a[0] == b[0] && b[0] == c[0] {
      StrLessTransitive(a[1..], b[1..], c[1..]);
    }
  }

  lemma {:induction false} StrLessTotal(a: string, b: string)
    requires a != b
    ensures StrLess(a, b) || StrLess(b, a)
    decreases |a|
  {
    if |a| > 0 && |b| > 0 && a[0] == b[0] {
      assert a == [a[0]] + a[1..] && b == [b[0]] + b[1..];
      StrLessTotal(a[1..], b[1..]);
    }
  }

  /** A value of the column the page aggregates by. */
  datatype GroupKey = YearKey(year: int) | TextKey(text: string)

  /** Sort order of group keys. Within one column all keys have the same kind; years are put
      before texts only to make the order total. */
  predicate KeyLess(a: GroupKey, b: GroupKey) {
    match (a, b)
    case (YearKey(x), YearKey(y)) => x < y
    case (TextKey(x), TextKey(y)) => StrLess(x, y)
    case (YearKey(_), TextKey(_)) => true
    case (TextKey(_), YearKey(_)) => false
  }

  lemma KeyLessIrreflexive(a: GroupKey)
    ensures !KeyLess(a, a)
  {
    if a.TextKey? {
      StrLessIrreflexive(a.text);
    }
  }

  lemma KeyLessTransitive(a: GroupKey, b: GroupKey, c: GroupKey)
    requires KeyLess(a, b) && KeyLess(b, c)
    ensures KeyLess(a, c)
  {
    if a.TextKey? && b.TextKey? && c.TextKey? {
      StrLessTransitive(a.text, b.text, c.text);
    }
  }

  lemma KeyLessTotal(a: GroupKey, b: GroupKey)
    requires a != b
    ensures KeyLess(a, b) || KeyLess(b, a)
  {
    if a.TextKey? && b.TextKey? {
      StrLessTotal(a.text, b.text);
    }
  }

  /** Keys in strictly ascending order, hence without repetition. */
  predicate StrictlyAscending(ks: seq<GroupKey>) {
    forall i, j :: 0 <= i < j < |ks| ==> KeyLess(ks[i], ks[j])
  }

  predicate Distinct(ks: seq<GroupKey>) {
    forall i, j :: 0 <= i < j < |ks| ==> ks[i] != ks[j]
  }

  lemma AscendingIsDistinct(ks: seq<GroupKey>)
    requires StrictlyAscending(ks)
    ensures Distinct(ks)
  {
    forall i, j | 0 <= i < j < |ks| ensures ks[i] != ks[j] {
      KeyLessIrreflexive(ks[i]);
    }
  }

  /** Insert `k` into an ascending sequence of keys, unless it is already there. */
  function InsertKey(ks: seq<GroupKey>, k: GroupKey): (r: seq<GroupKey>)
    requires StrictlyAscending(ks)
    ensures StrictlyAscending(r)
    ensures forall x :: x in r <==> x in ks || x == k
    decreases |ks|
  {
    if |ks| == 0 then [k]
    else if k == ks[0] then ks
    else if KeyLess(k, ks[0]) then
      BelowAll(k, ks);
      [k] + ks
    else
      KeyLessTotal(k, ks[0]);
      var rest := InsertKey(ks[1..], k);
      assert forall x :: x in rest ==> KeyLess(ks[0], x);
      [ks[0]] + rest
  }

  /** A key below the first of an ascending sequence is below all of them. */
  lemma BelowAll(k: GroupKey, ks: seq<GroupKey>)
    requires StrictlyAscending(ks) && |ks| > 0 && KeyLess(k, ks[0])
    ensures forall j :: 0 <= j < |ks| ==> KeyLess(k, ks[j])
  {
    forall j | 0 < j < |ks| ensures KeyLess(k, ks[j]) {
      KeyLessTransitive(k, ks[0], ks[j]);
    }
  }

  /** The distinct values of `keys` in ascending order (`sorted(set(keys))`). */
  function SortedDistinct(keys: seq<GroupKey>): (ks: seq<GroupKey>)
    ensures StrictlyAscending(ks)
    ensures forall x :: x in ks <==> x in keys
    decreases |keys|
  {
    if |keys| == 0 then []
    else
      var ks := InsertKey(SortedDistinct(keys[1..]), keys[0]);
      assert forall x :: x in keys <==> x == keys[0] || x in keys[1..];
      ks
  }
}
