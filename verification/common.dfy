/** Values shared by every layer: Kotlin's nullable types, its 32-bit `Int`,
    and the ascending-key order in which SQLite scans a rowid table. */
module Common {

  /** A Kotlin `T?`: `None` is `null`. */
  datatype Option<+T> = None | Some(value: T)

  const Int32Min: int := -0x8000_0000
  const Int32Max: int := 0x7fff_ffff
  const Int32Span: int := 0x1_0000_0000

  /** Kotlin's `Int`. */
  newtype int32 = x: int | -0x8000_0000 <= x < 0x8000_0000

  /** `x + 1` on a Kotlin `Int`: wraps from the largest value to the smallest. */
  function Succ(x: int32): (r: int32)
    ensures (r as int - x as int - 1) % Int32Span == 0
    ensures x as int < Int32Max ==> r as int == x as int + 1
  {
    if x as int == Int32Max then Int32Min as int32 else x + 1
  }

  /** `x - 1` on a Kotlin `Int`: wraps from the smallest value to the largest. */
  function Pred(x: int32): (r: int32)
    ensures (x as int - r as int - 1) % Int32Span == 0
    ensures Int32Min < x as int ==> r as int == x as int - 1
  {
    if x as int == Int32Min then Int32Max as int32 else x - 1
  }

  /** Adding one and taking one away undo each other, wrap-around included. */
  lemma PredSuccInverse(x: int32)
    ensures Pred(Succ(x)) == x
    ensures Succ(Pred(x)) == x
  {
  }

  /** No two positions of `s` hold the same key, and keys grow left to right. */
  predicate StrictlyIncreasing(s: seq<int>) {
    forall i, j :: 0 <= i < j < |s| ==> s[i] < s[j]
  }

  lemma {:induction false} MinimumExists(s: set<int>)
    requires s != {}
    ensures exists m :: m in s && forall x :: x in s ==> m <= x
  {
    if !(exists z :: z in s) {
      assert false;
    }
    var y :| y in s;
    var rest := s - {y};
    if rest == {} {
      forall x | x in s ensures y <= x {
        assert x !in rest;
      }
    } else {
      MinimumExists(rest);
      var m :| m in rest && forall x :: x in rest ==> m <= x;
      var least := if y < m then y else m;
      forall x | x in s
        ensures least <= x
      {
        if x != y {
          assert x in rest;
        }
      }
      assert least in s;
    }
  }

  /** The least key of a non-empty set. */
  function Minimum(s: set<int>): (m: int)
    requires s != {}
    ensures m in s
    ensures forall x :: x in s ==> m <= x
  {
    MinimumExists(s);
    var m :| m in s && forall x :: x in s ==> m <= x;
    m
  }

  /** The keys of a table in the order a full scan of a rowid table visits
      them: ascending, each exactly once. */
  function SortedKeys(s: set<int>): (r: seq<int>)
    ensures StrictlyIncreasing(r)
    ensures forall x :: x in r <==> x in s
    ensures |r| == |s|
    decreases |s|
  {
    if s == {} then []
    else
      var m := Minimum(s);
      var rest := SortedKeys(s - {m});
      assert forall x :: x in rest ==> m < x;
      [m] + rest
  }
}
