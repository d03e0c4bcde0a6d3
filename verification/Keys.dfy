/**
 Index keys: strings as sequences of code units under JavaScript's `<`.
 */
module Keys {

  type Key = seq<int>

  /** Lexicographic order, a proper prefix first. */
  predicate Lt(a: Key, b: Key) {
    b != [] && (a == [] || a[0] < b[0] || (a[0] == b[0] && Lt(a[1..], b[1..])))
  }

  predicate AtMost(a: Key, b: Key) { !Lt(b, a) }

  lemma {:induction false} LtTransitive(a: Key, b: Key, c: Key)
    requires Lt(a, b) && Lt(b, c)
    ensures Lt(a, c)
  {
    if a != [] && a[0] == b[0] == c[0] {
      LtTransitive(a[1..], b[1..], c[1..]);
    }
  }

  lemma {:induction false} LtIrreflexive(a: Key)
    ensures !Lt(a, a)
  {
    if a != [] {
      LtIrreflexive(a[1..]);
    }
  }

  lemma {:induction false} LtTotal(a: Key, b: Key)
    ensures Lt(a, b) || a == b || Lt(b, a)
  {
    if a != [] && b != [] && a[0] == b[0] {
      LtTotal(a[1..], b[1..]);
      assert a == [a[0]] + a[1..] && b == [b[0]] + b[1..];
    }
  }

  lemma LtAsymmetric(a: Key, b: Key)
    ensures !(Lt(a, b) && Lt(b, a))
  {
    if Lt(a, b) && Lt(b, a) {
      LtTransitive(a, b, a);
      LtIrreflexive(a);
    }
  }

  /** All order facts at once, for proofs about sorted sequences. */
  lemma TotalOrder()
    ensures forall a: Key {:trigger Lt(a, a)} :: !Lt(a, a)
    ensures forall a: Key, b: Key {:trigger Lt(a, b)} :: Lt(a, b) ==> !Lt(b, a)
    ensures forall a: Key, b: Key {:trigger Lt(a, b), Lt(b, a)} :: Lt(a, b) || a == b || Lt(b, a)
    ensures forall a: Key, b: Key, c: Key {:trigger Lt(a, b), Lt(b, c)} :: Lt(a, b) && Lt(b, c) ==> Lt(a, c)
  {
    forall a: Key ensures !Lt(a, a) { LtIrreflexive(a); }
    forall a: Key, b: Key ensures Lt(a, b) ==> !Lt(b, a) { LtAsymmetric(a, b); }
    forall a: Key, b: Key ensures Lt(a, b) || a == b || Lt(b, a) { LtTotal(a, b); }
    forall a: Key, b: Key, c: Key | Lt(a, b) && Lt(b, c) ensures Lt(a, c) { LtTransitive(a, b, c); }
  }
}
