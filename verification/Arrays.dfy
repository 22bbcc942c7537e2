/**
 * Arrays built from sequences: the vectors that the network code fills element by element and then
 * works on in place.
 */
module Arrays {

  method ArrayOf<T>(s: seq<T>) returns (a: array<T>)
    ensures fresh(a) && a[..] == s
  {
    a := new T[|s|](i requires 0 <= i < |s| => s[i]);
  }
}
