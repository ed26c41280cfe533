/** Group keys of the numeric groupbys: the tuple of key-column values, ordered
    lexicographically as pandas orders multi-column group keys. */
module Keys {

  /** `[pick]`, `[pick, yearsAfterDraft]` or `[yearsAfterDraft, round]`. */
  type Key = seq<int>

  /** Lexicographic strict order; a proper prefix comes first. */
  predicate Less(a: Key, b: Key)
    decreases |a|
  {
    |b| > 0 && (|a| == 0 || a[0] < b[0] || (a[0] == b[0] && Less(a[1..], b[1..])))
  }

  lemma {:induction false} LessIrreflexive(a: Key)
    ensures !Less(a, a)
    decreases |a|
  {
    if |a| > 0 {
      LessIrreflexive(a[1..]);
    }
  }

  lemma {:induction false} LessTransitive(a: Key, b: Key, c: Key)
    requires Less(a, b) && Less(b, c)
    ensures Less(a, c)
    decreases |a|
  {
    if |a| > 0 && a[0] == b[0] && b[0] == c[0] {
      LessTransitive(a[1..], b[1..], c[1..]);
    }
  }

  lemma {:induction false} LessConnected(a: Key, b: Key)
    requires a != b
    ensures Less(a, b) || Less(b, a)
    decreases |a|
  {
    if |a| > 0 && |b| > 0 && a[0] == b[0] {
      assert a == [a[0]] + a[1..] && b == [b[0]] + b[1..];
      LessConnected(a[1..], b[1..]);
    }
  }

  /** Keys in strictly ascending order, hence pairwise distinct. */
  predicate Ascending(ks: seq<Key>)
  {
    forall i, j :: 0 <= i < j < |ks| ==> Less(ks[i], ks[j])
  }

  /** Adds `k` to an ascending key list unless it is already there. */
  function Insert(ks: seq<Key>, k: Key): (r: seq<Key>)
    requires Ascending(ks)
    ensures Ascending(r)
    ensures forall x :: x in r <==> x in ks || x == k
  {
    if |ks| == 0 then [k]
    else if k == ks[0] then ks
    else if Less(k, ks[0]) then
      assert forall j :: 0 < j < |ks| ==> Less(k, ks[j]) by {
        forall j | 0 < j < |ks| {
          LessTransitive(k, ks[0], ks[j]);
        }
      }
      [k] + ks
    else
      LessConnected(k, ks[0]);
      var rest := Insert(ks[1..], k);
      assert forall x :: x in rest ==> Less(ks[0], x);
      [ks[0]] + rest
  }

  lemma AscendingDistinct(ks: seq<Key>, i: int, j: int)
    requires Ascending(ks)
    requires 0 <= i < j < |ks|
    ensures ks[i] != ks[j]
  {
    LessIrreflexive(ks[i]);
  }
}
