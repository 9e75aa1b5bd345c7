/** Small shared datatypes. */
module Common {
  datatype Option<+T> = None | Some(value: T)

  datatype Result<+T, +E> = Ok(value: T) | Err(error: E)

  ghost predicate Distinct<T(!new)>(s: seq<T>) {
    forall i, j :: 0 <= i < j < |s| ==> s[i] != s[j]
  }

  lemma Associative<T>(a: seq<T>, b: seq<T>, c: seq<T>)
    ensures (a + b) + c == a + (b + c)
  {
  }

  lemma TakeOneMore<T>(s: seq<T>, n: nat)
    requires n < |s|
    ensures s[..n + 1] == s[..n] + [s[n]]
  {
  }

  lemma TakeAll<T>(s: seq<T>)
    ensures s[..|s|] == s
  {
  }

  lemma StrictlyFewer<T>(a: set<T>, b: set<T>)
    requires a < b
    ensures |a| < |b|
  {
    assert |b - a| > 0;
    assert b == a + (b - a);
  }

  /** The first `n` parts, one after another. */
  ghost function Flatten<T>(parts: seq<seq<T>>, n: nat): seq<T>
    requires n <= |parts|
  {
    if n == 0 then [] else Flatten(parts, n - 1) + parts[n - 1]
  }

  lemma {:induction false} FlattenIndex<T>(parts: seq<seq<T>>, n: nat, m: nat) returns (i: nat, k: nat)
    requires n <= |parts| && m < |Flatten(parts, n)|
    ensures i < n && k < |parts[i]| && Flatten(parts, n)[m] == parts[i][k]
    decreases n
  {
    var before := |Flatten(parts, n - 1)|;
    if m < before {
      i, k := FlattenIndex(parts, n - 1, m);
    } else {
      i, k := n - 1, m - before;
    }
  }

  lemma {:induction false} FlattenHolds<T>(parts: seq<seq<T>>, n: nat, i: nat, k: nat) returns (m: nat)
    requires i < n <= |parts| && k < |parts[i]|
    ensures m < |Flatten(parts, n)| && Flatten(parts, n)[m] == parts[i][k]
    decreases n
  {
    if i == n - 1 {
      m := |Flatten(parts, n - 1)| + k;
    } else {
      m := FlattenHolds(parts, n - 1, i, k);
    }
  }

  /** What holds of every element of the flattened parts is what holds of every element of every part. */
  lemma FlattenForall<T(!new)>(parts: seq<seq<T>>, p: T -> bool)
    ensures (forall x :: x in Flatten(parts, |parts|) ==> p(x))
        <==> (forall i :: 0 <= i < |parts| ==> forall x :: x in parts[i] ==> p(x))
  {
    var all := Flatten(parts, |parts|);
    if forall i :: 0 <= i < |parts| ==> forall x :: x in parts[i] ==> p(x) {
      forall x | x in all ensures p(x) {
        var m :| 0 <= m < |all| && all[m] == x;
        var i, k := FlattenIndex(parts, |parts|, m);
        assert parts[i][k] in parts[i];
      }
    }
    if forall x :: x in all ==> p(x) {
      forall i, x | 0 <= i < |parts| && x in parts[i] ensures p(x) {
        var k :| 0 <= k < |parts[i]| && parts[i][k] == x;
        var m := FlattenHolds(parts, |parts|, i, k);
        assert all[m] in all;
      }
    }
  }
}
