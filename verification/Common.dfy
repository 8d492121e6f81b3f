/** Shared by all modules. */
module Common {
  const PAGE_SIZE := 4096

  datatype Option<+T> = None | Some(value: T)

  /** Where an element stands. */
  function IndexOf(a: seq<nat>, x: nat): (i: nat)
    requires x in a
    ensures i < |a| && a[i] == x
  {
    if a[0] == x then 0 else 1 + IndexOf(a[1..], x)
  }
}
