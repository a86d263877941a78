/** Filtering a vector by flags, and doing so in place one element at a time. */
module Vectors {

  /** The items whose flag is set, in order. */
  function Select<T>(items: seq<T>, keep: seq<bool>): seq<T>
    requires |items| == |keep|
  {
    if items == [] then []
    else
      var n := |items| - 1;
      Select(items[..n], keep[..n]) + if keep[n] then [items[n]] else []
  }

  lemma SelectSnoc<T>(items: seq<T>, keep: seq<bool>, k: nat)
    requires |items| == |keep| && k < |items|
    ensures Select(items[..k + 1], keep[..k + 1]) ==
              Select(items[..k], keep[..k]) + if keep[k] then [items[k]] else []
  {
    assert items[..k + 1][..k] == items[..k] && keep[..k + 1][..k] == keep[..k];
  }

  lemma {:induction false} SelectAgrees<T>(a: seq<T>, b: seq<T>, keep: seq<bool>)
    requires |a| == |b| == |keep|
    requires forall k | 0 <= k < |a| && keep[k] :: a[k] == b[k]
    ensures Select(a, keep) == Select(b, keep)
  {
    if a != [] {
      var n := |a| - 1;
      SelectAgrees(a[..n], b[..n], keep[..n]);
    }
  }

  lemma {:induction false} SelectMembers<T>(items: seq<T>, keep: seq<bool>)
    requires |items| == |keep|
    ensures forall x | x in Select(items, keep) :: exists k :: 0 <= k < |items| && keep[k] && items[k] == x
  {
    if items != [] {
      var n := |items| - 1;
      SelectMembers(items[..n], keep[..n]);
      forall x | x in Select(items, keep) ensures exists k :: 0 <= k < |items| && keep[k] && items[k] == x {
        if x in Select(items[..n], keep[..n]) {
          var k :| 0 <= k < n && keep[..n][k] && items[..n][k] == x;
          assert items[k] == x;
        }
      }
    }
  }

  lemma {:induction false} SelectWithin<T>(items: seq<T>, keep: seq<bool>)
    requires |items| == |keep|
    ensures forall i | 0 <= i < |Select(items, keep)| :: Select(items, keep)[i] in items
  {
    if items != [] {
      var n := |items| - 1;
      SelectWithin(items[..n], keep[..n]);
      assert items == items[..n] + [items[n]];
    }
  }

  lemma {:induction false} SelectConcat<T>(a: seq<T>, b: seq<T>, keepA: seq<bool>, keepB: seq<bool>)
    requires |a| == |keepA| && |b| == |keepB|
    ensures Select(a + b, keepA + keepB) == Select(a, keepA) + Select(b, keepB)
    decreases |b|
  {
    if b == [] {
      assert a + b == a && keepA + keepB == keepA;
    } else {
      var n := |b| - 1;
      SelectConcat(a, b[..n], keepA, keepB[..n]);
      assert (a + b)[..|a| + n] == a + b[..n] && (keepA + keepB)[..|a| + n] == keepA + keepB[..n];
    }
  }

  lemma {:induction false} SelectAll<T>(items: seq<T>, keep: seq<bool>)
    requires |items| == |keep| && forall k | 0 <= k < |keep| :: keep[k]
    ensures Select(items, keep) == items
  {
    if items != [] {
      var n := |items| - 1;
      SelectAll(items[..n], keep[..n]);
      assert items == items[..n] + [items[n]];
    }
  }

  /** The listeners' entries are never erased. */
  lemma {:induction false} SelectBehind<T>(items: seq<T>, flags: seq<bool>, n: nat)
    requires n <= |items| == |flags| && forall k | 0 <= k < n :: flags[k]
    ensures Select(items, flags) == items[..n] + Select(items[n..], flags[n..])
  {
    hide Select;
    SelectConcat(items[..n], items[n..], flags[..n], flags[n..]);
    SelectAll(items[..n], flags[..n]);
    assert items == items[..n] + items[n..] && flags == flags[..n] + flags[n..];
  }

  function Erase<T>(s: seq<T>, i: nat): seq<T>
    requires i < |s|
  {
    s[..i] + s[i + 1..]
  }

  /** A vector in the middle of compaction: the first `k` items are filtered already. */
  ghost predicate Filtered<T>(now: seq<T>, items: seq<T>, keep: seq<bool>, k: nat, idx: nat)
    requires |items| == |keep| && k <= |items|
  {
    now == Select(items[..k], keep[..k]) + items[k..] && idx == |Select(items[..k], keep[..k])|
  }

  lemma FilterStep<T>(now: seq<T>, items: seq<T>, keep: seq<bool>, k: nat, idx: nat)
    requires |items| == |keep| && k < |items| && Filtered(now, items, keep, k, idx)
    ensures idx < |now| && now[idx] == items[k]
    ensures if keep[k] then Filtered(now, items, keep, k + 1, idx + 1)
            else Filtered(Erase(now, idx), items, keep, k + 1, idx)
  {
    SelectSnoc(items, keep, k);
    var kept := Select(items[..k], keep[..k]);
    assert items[k..] == [items[k]] + items[k + 1..];
    if keep[k] {
      assert now == (kept + [items[k]]) + items[k + 1..];
    } else {
      assert Erase(now, idx) == kept + items[k + 1..];
    }
  }

  function Kept(off: nat): (r: seq<bool>) { seq(off, _ => true) }

  /** Two vectors under compaction: `a` has `off` entries in front that always stay, and `b` is in step
      with the rest. `k` entries of `a` have been looked at and `idx` of them kept. */
  ghost predicate InStepFiltered<S, T>(a: seq<S>, b: seq<T>, was: seq<S>, bWas: seq<T>, keep: seq<bool>,
                                       off: nat, k: nat, idx: nat)
    requires |was| == off + |bWas| && |keep| == |bWas| && k <= |was|
  {
    var m := if k <= off then 0 else k - off;
    && k - m <= idx
    && Filtered(a, was, Kept(off) + keep, k, idx)
    && Filtered(b, bWas, keep, m, idx - (k - m))
  }

  lemma InStepStart<S, T>(was: seq<S>, bWas: seq<T>, keep: seq<bool>, off: nat)
    requires |was| == off + |bWas| && |keep| == |bWas|
    ensures InStepFiltered(was, bWas, was, bWas, keep, off, 0, 0)
  {
  }

  lemma InStepStep<S, T>(a: seq<S>, b: seq<T>, was: seq<S>, bWas: seq<T>, keep: seq<bool>,
                         off: nat, k: nat, idx: nat)
    requires |was| == off + |bWas| && |keep| == |bWas| && k < |was|
    requires InStepFiltered(a, b, was, bWas, keep, off, k, idx)
    ensures idx < |a| && a[idx] == was[k]
    ensures if k < off || keep[k - off] then InStepFiltered(a, b, was, bWas, keep, off, k + 1, idx + 1)
            else idx >= off && idx - off < |b|
                 && InStepFiltered(Erase(a, idx), Erase(b, idx - off), was, bWas, keep, off, k + 1, idx)
  {
    var m := if k <= off then 0 else k - off;
    FilterStep(a, was, Kept(off) + keep, k, idx);
    if k >= off { FilterStep(b, bWas, keep, m, idx - (k - m)); }
  }

  lemma InStepCounts<S, T>(a: seq<S>, b: seq<T>, was: seq<S>, bWas: seq<T>, keep: seq<bool>,
                           off: nat, k: nat, idx: nat)
    requires |was| == off + |bWas| && |keep| == |bWas| && k <= |was|
    requires InStepFiltered(a, b, was, bWas, keep, off, k, idx)
    ensures |a| == idx + (|was| - k) && (if k <= off then k else off) <= idx
  {
  }

  lemma {:induction false} InStepEnd<S, T>(a: seq<S>, b: seq<T>, was: seq<S>, bWas: seq<T>, keep: seq<bool>,
                                            off: nat, idx: nat)
    requires |was| == off + |bWas| && |keep| == |bWas|
    requires InStepFiltered(a, b, was, bWas, keep, off, |was|, idx)
    ensures a == was[..off] + Select(was[off..], keep) && b == Select(bWas, keep)
  {
    var flags := Kept(off) + keep;
    assert was[..|was|] == was && flags[..|was|] == flags && bWas[..|bWas|] == bWas && keep[..|keep|] == keep;
    SelectBehind(was, flags, off);
    assert flags[off..] == keep;
  }
}
