/** Datatypes shared by all modules. */
module Common {

  datatype Option<+T> = None | Some(value: T)

  /** Go's map lookup: a missing key reads as the zero value "". */
  function Lookup(m: map<string, string>, key: string): string {
    if key in m then m[key] else ""
  }

  function Min(a: int, b: int): int {
    if a <= b then a else b
  }

  lemma SubsetSize<T>(a: set<T>, b: set<T>)
    requires a <= b
    ensures |a| <= |b|
  {
    assert b == a + (b - a);
  }
}
