/** What several of the modules share. */
module Common {

  datatype Option<+T> = None | Some(value: T)

  /** snprintf of a string into a buffer of `size` bytes. */
  function Clip(s: string, size: nat): (r: string)
    requires size > 0
    ensures |r| < size && (|s| < size ==> r == s)
  {
    if |s| < size then s else s[..size - 1]
  }

  /** The first `n` indices. */
  function Indices(n: nat): (r: set<int>)
    ensures |r| == n
    ensures forall i :: i in r <==> 0 <= i < n
  {
    if n == 0 then {} else Indices(n - 1) + {n - 1}
  }

  lemma {:induction false} SubsetSize<T>(a: set<T>, b: set<T>)
    requires a <= b
    ensures |a| <= |b|
  {
    if a != {} {
      var x :| x in a;
      SubsetSize(a - {x}, b - {x});
    }
  }
}
