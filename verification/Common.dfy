/** Notions that several components share. */
module Common {

  /** One snippet, and its directory in the store. */
  datatype Key = Key(namespace: string, name: string)

  /** No element is listed twice. */
  ghost predicate Distinct<T>(q: seq<T>) {
    forall i, j :: 0 <= i < j < |q| ==> q[i] != q[j]
  }

  function Pow(b: nat, e: nat): (r: nat)
    ensures b > 0 ==> r > 0
  {
    if e == 0 then 1 else b * Pow(b, e - 1)
  }

  lemma {:induction false} PowGrows(b: nat, e: nat, f: nat)
    requires b > 0 && e <= f
    ensures Pow(b, e) <= Pow(b, f)
  {
    if e == f {
    } else {
      PowGrows(b, e, f - 1);
      assert b * Pow(b, f - 1) >= Pow(b, f - 1);
    }
  }
}
