/** Small definitions that several modules share. */
module Common {
  function Min(a: int, b: int): int {
    if a < b then a else b
  }

  function One(b: bool): nat {
    if b then 1 else 0
  }

  ghost predicate Distinct<T>(s: seq<T>) {
    forall i, j :: 0 <= i < j < |s| ==> s[i] != s[j]
  }

  /** s without position i. */
  function Drop<T>(s: seq<T>, i: nat): (rest: seq<T>)
    requires i < |s|
    ensures |rest| == |s| - 1 && forall x :: x in rest ==> x in s
  {
    s[..i] + s[i + 1..]
  }
}
