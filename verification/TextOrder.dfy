/** The order of Rust strings and of the keys of the key-value store. */
module TextOrder {

  predicate TextLeq(a: string, b: string) {
    a == "" || (b != "" && (a[0] < b[0] || (a[0] == b[0] && TextLeq(a[1..], b[1..]))))
  }

  lemma {:induction false} TextIsTotal(a: string, b: string, c: string)
    ensures TextLeq(a, b) || TextLeq(b, a)
    ensures TextLeq(a, b) && TextLeq(b, c) ==> TextLeq(a, c)
    ensures TextLeq(a, b) && TextLeq(b, a) ==> a == b
    decreases |a| + |b| + |c|
  {
    if a == "" || b == "" {
    } else {
      if c != "" {
        TextIsTotal(a[1..], b[1..], c[1..]);
      } else {
        TextIsTotal(a[1..], b[1..], c);
      }
      assert a == [a[0]] + a[1..] && b == [b[0]] + b[1..];
    }
  }
}
