// What every component shares: optional values, results with an error, the bytes of
// the wire, and facts about sequences and division.
module Common {

  datatype Option<+T> = None | Some(value: T)

  datatype Result<+T, +E> = Ok(value: T) | Err(error: E) {
    predicate IsFailure() {
      Err?
    }

    function PropagateFailure<U>(): Result<U, E>
      requires Err?
    {
      Err(error)
    }

    function Extract(): T
      requires Ok?
    {
      value
    }
  }

  newtype byte = x: int | 0 <= x < 256

  type Bytes = seq<byte>

  function Min(a: int, b: int): int {
    if a < b then a else b
  }

  lemma Assoc<T>(a: seq<T>, b: seq<T>, c: seq<T>)
    ensures (a + b) + c == a + (b + c)
  {
  }

  lemma CutFront<T>(a: seq<T>, b: seq<T>, n: nat)
    requires n <= |a|
    ensures (a + b)[..n] == a[..n] && (a + b)[n..] == a[n..] + b
  {
  }

  lemma CutBack<T>(a: seq<T>, b: seq<T>, n: nat)
    requires n <= |b|
    ensures (a + b)[..|a| + n] == a + b[..n] && (a + b)[|a| + n..] == b[n..]
  {
  }

  lemma EmptyLeft<T>(a: seq<T>)
    ensures [] + a == a
  {
  }

  lemma SplitAt<T>(a: seq<T>, n: nat)
    requires n <= |a|
    ensures a[..n] + a[n..] == a
  {
  }

  /** A sequence whose rest is split is split. */
  lemma Refront<T>(s: seq<T>, n: nat, u: seq<T>, x: seq<T>)
    requires n <= |s| && s[n..] == u + x
    ensures s == (s[..n] + u) + x && (s[..n] + u)[n..] == u
    ensures forall i :: 0 <= i < n ==> (s[..n] + u)[i] == s[i]
  {
    SplitAt(s, n);
    Assoc(s[..n], u, x);
  }

  lemma MultipleIsFar(e: int, d: int)
    requires d > 0 && e != 0
    ensures e * d >= d || e * d <= -d
  {
  }

  lemma DivIs(x: int, d: int, q: int, r: int)
    requires x == q * d + r && 0 <= r < d
    ensures x / d == q && x % d == r
  {
    var e := x / d - q;
    assert e * d == r - x % d;
    if e != 0 {
      MultipleIsFar(e, d);
      assert false;
    }
  }
}
